/** A signed token survives the URL and decodes to what was signed. */
module TokenLaws {
  import opened Octets
  import opened Claims
  import opened Algorithms
  import Base64
  import Base64Laws
  import opened Tokens
  import UrlDecoding

  lemma FindDot(x: bytes, y: bytes, from: nat)
    requires from <= |x| && '.' !in x[from..]
    ensures Find(x + DOT + y, DOT, from) == Some(|x|)
  {
    var s := x + DOT + y;
    forall p | from <= p < |x|
      ensures !OccursAt(s, DOT, p)
    {
      assert s[p] == x[from..][p - from] && s[p..p + 1] == [s[p]];
    }
    assert s[|x|..|x| + 1] == DOT;
    FindIs(s, DOT, from, |x|);
  }

  /** Splitting finds the parts again: neither header nor payload holds a dot. */
  lemma SplitJoined(x: bytes, y: bytes, z: bytes)
    requires '.' !in x && '.' !in y
    ensures Split(x + DOT + y + DOT + z) == Some((x, y, z))
  {
    var s, xy := x + DOT + y + DOT + z, x + DOT + y;
    assert s == x + DOT + (y + DOT + z);
    FindDot(x, y + DOT + z, 0);
    assert xy[|x| + 1..] == y;
    FindDot(xy, z, |x| + 1);
    assert s[|x| + 1..|xy|] == y && s[|xy| + 1..] == z && s[..|x|] == x;
  }

  lemma UrlTextIsPlain(b: bytes)
    ensures '.' !in Base64Laws.UrlText(b) && '%' !in Base64Laws.UrlText(b) && '+' !in Base64Laws.UrlText(b)
    ensures Base64Laws.UrlBytes(Base64Laws.UrlText(b)) == Ok(b) && Base64.Over(Base64Laws.UrlText(b), Base64.URL_SAFE)
  {
    hide Base64Laws.UrlText, Base64Laws.UrlBytes, Base64.URL_SAFE;
    Base64Laws.UrlRoundTrip(b);
    Base64Laws.OutsideTables('.');
    Base64Laws.OutsideTables('%');
  }

  /** The algorithm has a signature for the text of the claims; only a failing library has none. */
  predicate CanSign(header: ClaimMap, payload: ClaimMap, alg: Algorithm, json: JsonText) {
    Sign(alg, SigningInput(FullHeader(header, alg), payload, json)).Ok?
  }

  /** The three parts of a signed token. */
  lemma SignedParts(header: ClaimMap, payload: ClaimMap, alg: Algorithm, json: JsonText)
    requires CanSign(header, payload, alg, json)
    ensures Signed(header, payload, alg, json).Ok?
    ensures var input := SigningInput(FullHeader(header, alg), payload, json);
            var x := Base64Laws.UrlText(json.serialize(Object(FullHeader(header, alg))));
            var y := Base64Laws.UrlText(json.serialize(Object(payload)));
            && Sign(alg, input).Ok? && input == x + DOT + y
            && Signed(header, payload, alg, json).value
            == x + DOT + y + DOT + Base64Laws.UrlText(Sign(alg, input).value)
  {
  }

  /** A token is made of base64url letters and exactly two dots, so `url_decode` leaves it alone. */
  lemma TokenIsUrlSafe(header: ClaimMap, payload: ClaimMap, alg: Algorithm, json: JsonText)
    requires CanSign(header, payload, alg, json)
    ensures Signed(header, payload, alg, json).Ok?
    ensures var token := Signed(header, payload, alg, json).value;
            && (forall c | c in token :: c in Base64.URL_SAFE || c == '.')
            && multiset(token)['.'] == 2
            && UrlDecoding.UrlDecoded(token) == token
  {
    hide Base64Laws.UrlText, Base64Laws.UrlBytes, Base64.URL_SAFE, UrlDecoding.UrlDecoded, SigningInput, Signed, Sign;
    SignedParts(header, payload, alg, json);
    var input := SigningInput(FullHeader(header, alg), payload, json);
    UrlTextIsPlain(json.serialize(Object(FullHeader(header, alg))));
    UrlTextIsPlain(json.serialize(Object(payload)));
    UrlTextIsPlain(Sign(alg, input).value);
    UrlDecoding.NothingToDecode(Signed(header, payload, alg, json).value);
  }

  /** The caller's header claims stay, and "alg" is added only if it is not among them. */
  lemma HeaderIsKept(header: ClaimMap, alg: Algorithm)
    ensures var full := FullHeader(header, alg);
            && full.Keys == header.Keys + {"alg"}
            && (forall name | name in header :: full[name] == header[name])
            && ("alg" !in header ==> full["alg"] == String(NameOf(alg)))
  {
  }

  /**
   * Decoding a signed token gives back the payload, the header with its algorithm filled in,
   * and the raw signature of exactly the text that `verify` will check it against.
   */
  lemma TokenRoundTrip(header: ClaimMap, payload: ClaimMap, alg: Algorithm, json: JsonText)
    requires CanSign(header, payload, alg, json)
    requires Restores(json, Object(FullHeader(header, alg))) && Restores(json, Object(payload))
    ensures Signed(header, payload, alg, json).Ok?
    ensures var d := DecodedToken(Signed(header, payload, alg, json).value, json);
            && d.Ok?
            && d.value.headerClaims == FullHeader(header, alg)
            && d.value.headerClaims.Keys == header.Keys + {"alg"}
            && (forall name | name in header :: d.value.headerClaims[name] == header[name])
            && ("alg" !in header ==> d.value.headerClaims["alg"] == String(NameOf(alg)))
            && d.value.payloadClaims == payload
            && d.value.SignedText() == SigningInput(FullHeader(header, alg), payload, json)
            && Sign(alg, d.value.SignedText()) == Ok(d.value.signature)
  {
    hide Base64Laws.UrlText, Base64Laws.UrlBytes, Split, Signed, Sign, FullHeader;
    HeaderIsKept(header, alg);
    var full := FullHeader(header, alg);
    var x, y := Base64Laws.UrlText(json.serialize(Object(full))), Base64Laws.UrlText(json.serialize(Object(payload)));
    SignedParts(header, payload, alg, json);
    var signature := Sign(alg, x + DOT + y).value;
    UrlTextIsPlain(json.serialize(Object(full)));
    UrlTextIsPlain(json.serialize(Object(payload)));
    UrlTextIsPlain(signature);
    SplitJoined(x, y, Base64Laws.UrlText(signature));
  }

  /**
   * What a decoded token holds, whoever wrote it: the token and its three parts, what each part decodes to,
   * and the claims that the first two of these are printed forms of.
   */
  lemma DecodedFields(token: bytes, json: JsonText)
    requires DecodedToken(token, json).Ok?
    ensures var d := DecodedToken(token, json).value;
            && d.token == token == d.headerBase64 + "." + d.payloadBase64 + "." + d.signatureBase64
            && '.' !in d.headerBase64 && '.' !in d.payloadBase64
            && Base64Laws.UrlBytes(d.headerBase64) == Ok(d.header)
            && Base64Laws.UrlBytes(d.payloadBase64) == Ok(d.payload)
            && Base64Laws.UrlBytes(d.signatureBase64) == Ok(d.signature)
            && json.parse(d.header) == Some(Object(d.headerClaims))
            && json.parse(d.payload) == Some(Object(d.payloadClaims))
            && d.SignedText() == d.headerBase64 + "." + d.payloadBase64
  {
    hide Base64Laws.UrlBytes, Split;
  }

  lemma PartsAreUnique(token: bytes, x: bytes, y: bytes, z: bytes)
    requires token == x + "." + y + "." + z && '.' !in x && '.' !in y
    ensures Split(token) == Some((x, y, z))
  {
    hide Split;
    SplitJoined(x, y, z);
  }

  /** A text has three parts exactly if it has two dots. */
  lemma PartsExist(token: bytes)
    ensures Split(token).None? <==> multiset(token)['.'] < 2
  {
    hide Split;
    if Split(token).Some? {
      var (x, y, z) := Split(token).value;
      assert multiset(token) == multiset(x) + multiset(DOT) + multiset(y) + multiset(DOT) + multiset(z);
    } else if multiset(token)['.'] >= 2 {
      var i := FirstDot(token, 0);
      DotsAround(token, i);
      var j := FirstDot(token, i + 1);
      Tokens.CutTwice(token, i, j);
      PartsAreUnique(token, token[..i], token[i + 1..j], token[j + 1..]);
    }
  }

  lemma DotsAround(s: bytes, i: nat)
    requires i < |s| && s[i] == '.' && '.' !in s[..i]
    ensures multiset(s)['.'] == 1 + multiset(s[i + 1..])['.']
  {
    assert s == s[..i] + [s[i]] + s[i + 1..];
  }

  lemma FirstDot(s: bytes, from: nat) returns (i: nat)
    requires from <= |s| && multiset(s[from..])['.'] > 0
    ensures from <= i < |s| && s[i] == '.' && '.' !in s[from..i] && s[i..i + 1] == DOT
    decreases |s| - from
  {
    if s[from] == '.' {
      i := from;
    } else {
      assert s[from..] == [s[from]] + s[from + 1..];
      i := FirstDot(s, from + 1);
      assert s[from..i] == [s[from]] + s[from + 1..i];
    }
  }

  /** The claims that a text is the printed form of, or why it is not. */
  function ClaimsIn(text: bytes, json: JsonText): Result<ClaimMap, Exception> {
    match json.parse(text)
    case Some(Object(fields)) => Ok(fields)
    case Some(_) => Err(BadCast)
    case None => Err(InvalidJson)
  }

  /**
   * What the constructor throws: for want of two dots; else for the first part that does not decode; else for
   * the first of two that has no claims.
   */
  lemma DecodeThrows(token: bytes, json: JsonText) returns (x: bytes, y: bytes, z: bytes)
    requires DecodedToken(token, json).Err?
    ensures var e := DecodedToken(token, json).error;
            if multiset(token)['.'] < 2 then e == InvalidToken
            else
              && token == x + "." + y + "." + z && '.' !in x && '.' !in y
              && var b, c, s := Base64Laws.UrlBytes(x), Base64Laws.UrlBytes(y), Base64Laws.UrlBytes(z);
                 if b.Err? then e == InvalidBase64(b.error)
                 else if c.Err? then e == InvalidBase64(c.error)
                 else if s.Err? then e == InvalidBase64(s.error)
                 else if ClaimsIn(b.value, json).Err? then e == ClaimsIn(b.value, json).error
                 else ClaimsIn(c.value, json).Err? && e == ClaimsIn(c.value, json).error
  {
    hide Base64Laws.UrlBytes, Split;
    PartsExist(token);
    if Split(token).Some? {
      x, y, z := Split(token).value.0, Split(token).value.1, Split(token).value.2;
    } else {
      x, y, z := [], [], [];
    }
  }

  /** A text that has two dots, three parts that decode, and claims in the first two is a token. */
  lemma Decodes(x: bytes, y: bytes, z: bytes, json: JsonText)
    requires '.' !in x && '.' !in y
    requires Base64Laws.UrlBytes(x).Ok? && Base64Laws.UrlBytes(y).Ok? && Base64Laws.UrlBytes(z).Ok?
    requires ClaimsIn(Base64Laws.UrlBytes(x).value, json).Ok? && ClaimsIn(Base64Laws.UrlBytes(y).value, json).Ok?
    ensures DecodedToken(x + "." + y + "." + z, json).Ok?
  {
    hide Base64Laws.UrlBytes, Split;
    PartsAreUnique(x + "." + y + "." + z, x, y, z);
  }
}
