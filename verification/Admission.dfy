/** The token that http_session.cpp issues, and the decision that `websocket_session::run` makes about one. */
module Admission {
  import opened Octets
  import opened Claims
  import opened Algorithms
  import Base64
  import Base64Laws
  import opened Tokens
  import TokenLaws
  import opened UrlDecoding
  import opened Verification
  import VerificationLaws

  const MARK: bytes := "?token="
  const AUTH0: bytes := "auth0"
  const AUD0: bytes := "aud0"
  const SECRET: bytes := "secret"
  const HS256: bytes := "HS256"

  const LIFETIME: int := 3600 * TICKS

  /** `system_clock::to_time_t`: whole seconds, cut towards zero. */
  function ToTimeT(t: int): int {
    if t >= 0 then t / TICKS else -(-t / TICKS)
  }

  function Hs256(hmac: Hmac): Algorithm {
    HmacSha(HS256, SECRET, hmac)
  }

  function IssuedPayload(issued: int, later: int): ClaimMap {
    map[ISS := String(AUTH0), AUD := String(AUD0),
        IAT := Integer(ToTimeT(issued)), EXP := Integer(ToTimeT(later + LIFETIME))]
  }

  function Issued(issued: int, later: int, json: JsonText, hmac: Hmac): Result<bytes, ErrorCode> {
    Signed(map[], IssuedPayload(issued, later), Hs256(hmac), json)
  }

  /** The branch of `handle_request` for "/api/ws"; it reads the clock twice. */
  method Issue(issued: int, later: int, json: JsonText, hmac: Hmac) returns (token: Result<bytes, ErrorCode>)
    ensures token == Issued(issued, later, json, hmac)
  {
    var builder := new Builder();
    builder.SetPayloadClaim(ISS, String(AUTH0));
    builder.SetPayloadClaim(AUD, String(AUD0));
    builder.SetPayloadClaim(IAT, Integer(ToTimeT(issued)));
    builder.SetPayloadClaim(EXP, Integer(ToTimeT(later + LIFETIME)));
    token := builder.SignToken(Hs256(hmac), json);
    assert builder.payloadClaims == IssuedPayload(issued, later);
  }

  /** The token a request target carries: what follows the first mark, URL-decoded; without a mark, nothing. */
  function TokenIn(target: bytes): bytes {
    var pos := Find(target, MARK, 0);
    if pos.None? then [] else UrlDecoded(target[pos.value + 7..])
  }

  function Checks(): map<bytes, Check> {
    map[EXP := ExpDefault, IAT := IatDefault, NBF := NbfDefault,
        ISS := Equals(String(AUTH0), false), AUD := IsSubset({AUD0}, false)]
  }

  ghost function Decision(target: bytes, order: seq<bytes>, now: int, json: JsonText, hmac: Hmac): Outcome
    requires VerificationLaws.Orders(order, Checks())
  {
    var d := DecodedToken(TokenIn(target), json);
    if d.Err? then Throws(d.error)
    else Verified(d.value, map[HS256 := Hs256(hmac)], Checks(), order, now, 0, json)
  }

  /** The verifier that `run` configures. */
  method Configure(verifier: Verifier, hmac: Hmac)
    requires verifier.claims == map[EXP := ExpDefault, IAT := IatDefault, NBF := NbfDefault] && verifier.algs == map[]
    modifies verifier
    ensures verifier.claims == Checks() && verifier.algs == map[HS256 := Hs256(hmac)]
    ensures verifier.defaultLeeway == old(verifier.defaultLeeway)
  {
    verifier.AllowAlgorithm(Hs256(hmac));
    verifier.WithIssuer(AUTH0);
    verifier.WithAudience(AUD0);
  }

  /** The token part of `run`: any exception, and any error code, is a refusal. */
  method Authorize(target: bytes, order: seq<bytes>, now: int, json: JsonText, hmac: Hmac) returns (o: Outcome)
    requires VerificationLaws.Orders(order, Checks())
    ensures o == Decision(target, order, now, json, hmac)
  {
    hide Run, SignatureStage, RunAll, Verified, DecodedToken, UrlDecoded, Checks;
    var token: bytes := [];
    var found := Find(target, MARK, 0);
    if found.Some? {
      token := target[found.value + 7..];
      token := UrlDecode(token);
    }
    var decoded := DecodeToken(token, json);
    if decoded.Err? { return Throws(decoded.error); }
    var verifier := new Verifier();
    Configure(verifier, hmac);
    o := verifier.Verify(decoded.value, order, now, json);
  }

  /** The audience the check accepts: the string itself, or an array of strings that holds it. */
  predicate NamesAud0(v: Json) {
    v == String("aud0") || (v.Array? && String("aud0") in v.items && forall item | item in v.items :: item.String?)
  }

  /** What a decoded token must be, apart from when it is presented. */
  predicate IsGenuine(d: DecodedJwt, hmac: Hmac) {
    && "alg" in d.headerClaims && d.headerClaims["alg"] == String("HS256")
    && hmac("secret", d.headerBase64 + "." + d.payloadBase64) == Some(d.signature)
    && "iss" in d.payloadClaims && d.payloadClaims["iss"] == String("auth0")
    && "aud" in d.payloadClaims && NamesAud0(d.payloadClaims["aud"])
  }

  /** The claims and times that the time checks accept. A date may also be a fraction, rounded to a second. */
  predicate IsTimely(p: ClaimMap, now: int) {
    && ("exp" in p ==> AsDate(p["exp"]).Ok? && now <= AsDate(p["exp"]).value * TICKS)
    && ("iat" in p ==> AsDate(p["iat"]).Ok? && AsDate(p["iat"]).value * TICKS <= now)
    && ("nbf" in p ==> AsDate(p["nbf"]).Ok? && AsDate(p["nbf"]).value * TICKS <= now)
  }

  lemma ChecksAre()
    ensures VerificationLaws.ChecksDates(Checks()) && Checks().Keys == {EXP, IAT, NBF, ISS, AUD}
    ensures Checks()[ISS] == Equals(String(AUTH0), false) && Checks()[AUD] == IsSubset({AUD0}, false)
    ensures Checks()[EXP] == ExpDefault && Checks()[IAT] == IatDefault && Checks()[NBF] == NbfDefault
  {
  }

  lemma PartiesMean(d: DecodedJwt, now: int, json: JsonText)
    ensures ISS in Checks() && AUD in Checks()
    ensures var ctx, p := Context(now, d, 0, [], json), d.payloadClaims;
            && (CheckOf(Checks(), ISS, ctx) == Pass <==> ISS in p && p[ISS] == String(AUTH0))
            && (CheckOf(Checks(), AUD, ctx) == Pass <==> AUD in p && NamesAud0(p[AUD]))
  {
    hide Checks;
    ChecksAre();
    var p := d.payloadClaims;
    if AUD in p { SetMembers(p[AUD]); }
    if AUD in p && p[AUD].String? && {AUD0} == {p[AUD].text} { assert AUD0 in {p[AUD].text}; }
  }

  lemma DatesMean(d: DecodedJwt, now: int, json: JsonText)
    ensures EXP in Checks() && IAT in Checks() && NBF in Checks()
    ensures var ctx := Context(now, d, 0, [], json);
            CheckOf(Checks(), EXP, ctx) == CheckOf(Checks(), IAT, ctx) == CheckOf(Checks(), NBF, ctx) == Pass
            <==> IsTimely(d.payloadClaims, now)
  {
    hide Checks, CheckOf;
    ChecksAre();
    var ctx := Context(now, d, 0, [], json);
    VerificationLaws.EndCheck(Checks(), ctx);
    VerificationLaws.StartCheck(Checks(), ctx, IAT);
    VerificationLaws.StartCheck(Checks(), ctx, NBF);
  }

  lemma ChecksMean(d: DecodedJwt, now: int, json: JsonText)
    ensures VerificationLaws.AllPass(Checks(), Context(now, d, 0, [], json))
       <==> && IsTimely(d.payloadClaims, now)
            && ISS in d.payloadClaims && d.payloadClaims[ISS] == String(AUTH0)
            && AUD in d.payloadClaims && NamesAud0(d.payloadClaims[AUD])
  {
    hide Checks, CheckOf, IsTimely, NamesAud0;
    ChecksAre();
    PartiesMean(d, now, json);
    DatesMean(d, now, json);
    assert forall k | k in Checks() :: k in {EXP, IAT, NBF, ISS, AUD};
  }

  /** With one algorithm allowed, the token must name it. */
  lemma StageIsHs256(d: DecodedJwt, hmac: Hmac)
    ensures SignatureStage(d, map[HS256 := Hs256(hmac)]) == Pass
       <==> ALG in d.headerClaims && d.headerClaims[ALG] == String(HS256)
            && hmac(SECRET, d.SignedText()) == Some(d.signature)
  {
    hide SignatureStage;
    var algs := map[HS256 := Hs256(hmac)];
    if SignatureStage(d, algs) == Pass { VerificationLaws.StageNamesAlgorithm(d, algs); }
    if ALG in d.headerClaims && d.headerClaims[ALG] == String(HS256) {
      VerificationLaws.HmacStage(d, algs, HS256, SECRET, hmac);
    }
  }

  /** `run` accepts a target exactly when its token decodes, is genuine and is presented in time. */
  lemma AcceptedExactly(target: bytes, order: seq<bytes>, now: int, json: JsonText, hmac: Hmac)
    requires VerificationLaws.Orders(order, Checks())
    ensures var d := DecodedToken(TokenIn(target), json);
            && (Decision(target, order, now, json, hmac) == Pass
                <==> d.Ok? && IsGenuine(d.value, hmac) && IsTimely(d.value.payloadClaims, now))
            && (d.Err? ==> Decision(target, order, now, json, hmac) == Throws(d.error))
  {
    hide DecodedToken, TokenIn, SignatureStage, RunAll, VerificationLaws.AllPass, IsTimely, NamesAud0, Checks;
    var d := DecodedToken(TokenIn(target), json);
    if d.Ok? {
      VerificationLaws.OrderIndependence(d.value, map[HS256 := Hs256(hmac)], Checks(), order, now, 0, json);
      StageIsHs256(d.value, hmac);
      ChecksMean(d.value, now, json);
    }
  }

  /** The mark that follows the prefix of a target is its first. */
  predicate NoEarlierMark(prefix: bytes) {
    forall p | 0 <= p < |prefix| :: !OccursAt(prefix + "?token=", "?token=", p)
  }

  /** A target that carries a token, however the client percent-encoded it. */
  lemma TokenInTarget(prefix: bytes, ps: seq<Piece>)
    requires NoEarlierMark(prefix) && AllWellFormed(ps)
    ensures TokenIn(prefix + "?token=" + Written(ps)) == Meant(ps)
  {
    hide UrlDecoded, Written, Meant;
    var target := prefix + MARK + Written(ps);
    assert target[|prefix|..|prefix| + 7] == MARK && target[|prefix| + 7..] == Written(ps);
    forall p | 0 <= p < |prefix|
      ensures !OccursAt(target, MARK, p)
    {
      assert !OccursAt(prefix + MARK, MARK, p);
      assert target[p..p + 7] == (prefix + MARK)[p..p + 7];
    }
    FindIs(target, MARK, 0, |prefix|);
    DecodeUndoesEncoding(ps);
  }

  /** A target without a mark is refused, at any time. */
  lemma NoMarkIsRefused(target: bytes, order: seq<bytes>, now: int, json: JsonText, hmac: Hmac)
    requires VerificationLaws.Orders(order, Checks())
    requires forall p: nat :: !OccursAt(target, "?token=", p)
    ensures Decision(target, order, now, json, hmac) == Throws(InvalidToken)
  {
    hide Verified, Checks;
    assert Find(target, MARK, 0).None?;
    assert Find([], DOT, 0).None?;
  }

  // What else may follow the token.

  lemma StrayTokenIsRefused(token: bytes, c: octet, json: JsonText)
    requires c in token && c !in Base64.URL_SAFE && c !in Base64.URL_FILL && c !in DOT
    ensures DecodedToken(token, json).Err?
  {
    hide Base64Laws.UrlBytes, Base64.URL_SAFE;
    var parts := Split(token);
    if parts.Some? {
      if c in parts.value.0 { Base64Laws.UrlStrayFails(parts.value.0, c); }
      if c in parts.value.1 { Base64Laws.UrlStrayFails(parts.value.1, c); }
      if c in parts.value.2 { Base64Laws.UrlStrayFails(parts.value.2, c); }
    }
  }

  lemma AmpersandIsNoLetter()
    ensures '&' !in Base64.URL_SAFE && '&' !in Base64.URL_FILL && !IsHexDigit('&')
  {
    hide Base64.URL_SAFE;
    Base64Laws.TableEntry(0);
    forall i | 0 <= i < 64
      ensures Base64.URL_SAFE[i] != '&'
    {
      Base64Laws.TableEntry(i);
      assert Code(Base64Laws.LetterCode(i, '-', '_')) != Code('&');
    }
  }

  /**
   * `run` takes everything up to the end of the target, so a token that is followed by another parameter
   * is refused, however good the token is.
   */
  lemma FurtherParameterIsRefused(prefix: bytes, x: bytes, y: bytes, order: seq<bytes>, now: int,
                                  json: JsonText, hmac: Hmac)
    requires VerificationLaws.Orders(order, Checks())
    ensures Decision(prefix + "?token=" + x + "&" + y, order, now, json, hmac).Throws?
  {
    hide DecodedToken, UrlDecoded, Verified, Checks, Base64.URL_SAFE, IsHexDigit;
    var target := prefix + MARK + x + "&" + y;
    AmpersandIsNoLetter();
    assert target[|prefix|..|prefix| + 7] == MARK;
    assert OccursAt(target, MARK, |prefix|);
    var pos := Find(target, MARK, 0).value;
    var before := target[pos + 7..|prefix| + 7 + |x|];
    assert target[pos + 7..] == before + ['&'] + y;
    DecodesAround(before, '&', y);
    StrayTokenIsRefused(TokenIn(target), '&', json);
  }

  lemma IssuedIsTimely(issued: int, later: int, now: int)
    ensures IsTimely(IssuedPayload(issued, later), now)
       <==> ToTimeT(issued) * TICKS <= now <= ToTimeT(later + LIFETIME) * TICKS
  {
    hide ToTimeT;
  }

  /** An issued token survives the URL, and decodes to the claims it was issued with and a genuine signature. */
  lemma IssuedIsGenuine(issued: int, later: int, json: JsonText, hmac: Hmac)
    requires TokenLaws.CanSign(map[], IssuedPayload(issued, later), Hs256(hmac), json)
    requires Restores(json, Object(FullHeader(map[], Hs256(hmac))))
    requires Restores(json, Object(IssuedPayload(issued, later)))
    ensures Issued(issued, later, json, hmac).Ok?
    ensures var token := Issued(issued, later, json, hmac).value;
            var d := DecodedToken(token, json);
            && UrlDecoded(token) == token
            && d.Ok? && d.value.payloadClaims == IssuedPayload(issued, later) && IsGenuine(d.value, hmac)
  {
    hide DecodedToken, ToTimeT, Signed, SigningInput, TokenLaws.CanSign, Restores, UrlDecoded;
    var payload := IssuedPayload(issued, later);
    TokenLaws.TokenIsUrlSafe(map[], payload, Hs256(hmac), json);
    TokenLaws.TokenRoundTrip(map[], payload, Hs256(hmac), json);
  }

  /**
   * From issue to acceptance: an issued token, presented after the first mark of a target in any
   * percent-encoding, is accepted exactly from the second it was issued in to the second its hour ends in.
   */
  lemma EndToEnd(prefix: bytes, ps: seq<Piece>, issued: int, later: int, order: seq<bytes>, now: int,
                 json: JsonText, hmac: Hmac)
    requires NoEarlierMark(prefix) && AllWellFormed(ps) && Issued(issued, later, json, hmac) == Ok(Meant(ps))
    requires Restores(json, Object(FullHeader(map[], Hs256(hmac))))
    requires Restores(json, Object(IssuedPayload(issued, later)))
    requires VerificationLaws.Orders(order, Checks())
    ensures Decision(prefix + "?token=" + Written(ps), order, now, json, hmac) == Pass
       <==> ToTimeT(issued) * TICKS <= now <= ToTimeT(later + LIFETIME) * TICKS
  {
    hide DecodedToken, TokenIn, ToTimeT, Issued, Decision, Checks, IsGenuine, IsTimely, IssuedPayload, Written, Meant;
    hide TokenLaws.CanSign;
    IssuedMeansSigned(issued, later, json, hmac);
    IssuedIsGenuine(issued, later, json, hmac);
    TokenInTarget(prefix, ps);
    AcceptedExactly(prefix + MARK + Written(ps), order, now, json, hmac);
    IssuedIsTimely(issued, later, now);
  }

  lemma IssuedMeansSigned(issued: int, later: int, json: JsonText, hmac: Hmac)
    ensures Issued(issued, later, json, hmac).Ok?
       <==> TokenLaws.CanSign(map[], IssuedPayload(issued, later), Hs256(hmac), json)
  {
    hide SigningInput, Sign, Base64Laws.UrlText;
  }

  /** The token as it was issued is one of its encodings. */
  lemma TokenNeedsNoEscapes(issued: int, later: int, json: JsonText, hmac: Hmac)
    requires Issued(issued, later, json, hmac).Ok?
    ensures var token := Issued(issued, later, json, hmac).value;
            AllWellFormed(Unescaped(token)) && Written(Unescaped(token)) == token && Meant(Unescaped(token)) == token
  {
    hide Issued, TokenLaws.CanSign, IssuedPayload, Written, Meant, Base64.URL_SAFE, UrlDecoded, Signed;
    var token := Issued(issued, later, json, hmac).value;
    IssuedMeansSigned(issued, later, json, hmac);
    IssuedIsSigned(issued, later, json, hmac);
    TokenLaws.TokenIsUrlSafe(map[], IssuedPayload(issued, later), Hs256(hmac), json);
    Base64Laws.OutsideTables('%');
    StandsForItself(token);
  }

  lemma IssuedIsSigned(issued: int, later: int, json: JsonText, hmac: Hmac)
    ensures Issued(issued, later, json, hmac) == Signed(map[], IssuedPayload(issued, later), Hs256(hmac), json)
  {
    hide Signed, IssuedPayload;
  }

  /** `to_time_t` drops the fraction of a second, before and after 1970. */
  lemma ToTimeTTruncates(t: int)
    ensures t >= 0 ==> 0 <= t - ToTimeT(t) * TICKS < TICKS && ToTimeT(t) >= 0
    ensures t < 0 ==> -TICKS < t - ToTimeT(t) * TICKS <= 0 && ToTimeT(t) <= 0
  {
  }

  lemma WindowBounds(t: int)
    requires 0 <= t
    ensures ToTimeT(t) == t / TICKS && ToTimeT(t + LIFETIME) == t / TICKS + 3600
    ensures t / TICKS * TICKS <= t < (t / TICKS + 1) * TICKS
  {
    assert t == t / TICKS * TICKS + t % TICKS;
  }

  /**
   * Issued at one non-negative instant, a token is accepted over exactly one hour counted from the whole
   * second of its issue, so at every moment up to 3599 seconds after it.
   */
  lemma HourOfValidity(prefix: bytes, ps: seq<Piece>, t: int, order: seq<bytes>, now: int, json: JsonText, hmac: Hmac)
    requires 0 <= t && NoEarlierMark(prefix) && AllWellFormed(ps) && Issued(t, t, json, hmac) == Ok(Meant(ps))
    requires Restores(json, Object(FullHeader(map[], Hs256(hmac)))) && Restores(json, Object(IssuedPayload(t, t)))
    requires VerificationLaws.Orders(order, Checks())
    ensures var o := Decision(prefix + "?token=" + Written(ps), order, now, json, hmac);
            && (o == Pass <==> t / TICKS * TICKS <= now <= (t / TICKS + 3600) * TICKS)
            && (t <= now <= t + 3599 * TICKS ==> o == Pass)
  {
    hide Issued, Decision, ToTimeT, Checks, NoEarlierMark, Written, Meant;
    EndToEnd(prefix, ps, t, t, order, now, json, hmac);
    WindowBounds(t);
  }
}
