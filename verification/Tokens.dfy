/** Building, signing and decoding a compact token: RFC 7515, section 3.1, over the claims of RFC 7519. */
module Tokens {
  import opened Octets
  import opened Claims
  import opened Algorithms
  import Base64
  import Base64Laws

  const ALG: bytes := "alg"
  const DOT: bytes := "."

  /** The encoder that `sign` is given: base64url without its fill. */
  method EncodeUrl(data: bytes) returns (r: bytes)
    ensures r == Base64Laws.UrlText(data)
  {
    Base64Laws.TableEntry(0);
    var encoded := Base64.Encode(data, Base64.URL_SAFE, Base64.URL_FILL);
    r := Base64.Trimmed(encoded, Base64.URL_FILL);
  }

  /** The decoder that `decoded_jwt` is given: fill restored, then base64url. */
  method DecodeUrl(text: bytes) returns (r: Result<bytes, Base64.Error>)
    ensures r == Base64Laws.UrlBytes(text)
  {
    Base64Laws.TableEntry(0);
    var padded := Base64.Pad(text, Base64.URL_FILL);
    r := Base64.Decode(padded, Base64.URL_SAFE, [Base64.URL_FILL]);
  }

  /** The header that is signed: the algorithm's name is filled in unless the caller set one. */
  function FullHeader(header: ClaimMap, alg: Algorithm): ClaimMap {
    if ALG in header then header else header[ALG := String(NameOf(alg))]
  }

  function SigningInput(header: ClaimMap, payload: ClaimMap, json: JsonText): bytes {
    Base64Laws.UrlText(json.serialize(Object(header))) + DOT + Base64Laws.UrlText(json.serialize(Object(payload)))
  }

  function Signed(header: ClaimMap, payload: ClaimMap, alg: Algorithm, json: JsonText): Result<bytes, ErrorCode> {
    var token := SigningInput(FullHeader(header, alg), payload, json);
    var signature := Sign(alg, token);
    if signature.Err? then Err(signature.error) else Ok(token + DOT + Base64Laws.UrlText(signature.value))
  }

  /** `jwt::builder`. */
  class Builder {
    var headerClaims: ClaimMap
    var payloadClaims: ClaimMap

    constructor ()
      ensures headerClaims == map[] && payloadClaims == map[]
    {
      headerClaims, payloadClaims := map[], map[];
    }

    method SetHeaderClaim(id: bytes, c: Json)
      modifies this`headerClaims
      ensures headerClaims == old(headerClaims)[id := c]
    {
      headerClaims := headerClaims[id := c];
    }

    method SetPayloadClaim(id: bytes, c: Json)
      modifies this`payloadClaims
      ensures payloadClaims == old(payloadClaims)[id := c]
    {
      payloadClaims := payloadClaims[id := c];
    }

    /** `sign`: the builder keeps its own maps, so it can be used again. */
    method SignToken(alg: Algorithm, json: JsonText) returns (r: Result<bytes, ErrorCode>)
      ensures r == Signed(headerClaims, payloadClaims, alg, json)
    {
      var objHeader := headerClaims;
      if ALG !in headerClaims { objHeader := objHeader[ALG := String(NameOf(alg))]; }
      var header := EncodeUrl(json.serialize(Object(objHeader)));
      var payload := EncodeUrl(json.serialize(Object(payloadClaims)));
      var token := header + DOT + payload;
      var signature := Sign(alg, token);
      if signature.Err? { return Err(signature.error); }
      var tail := EncodeUrl(signature.value);
      return Ok(token + DOT + tail);
    }
  }

  /** `jwt::decoded_jwt`. */
  datatype DecodedJwt = DecodedJwt(
    token: bytes,
    header: bytes, headerBase64: bytes,
    payload: bytes, payloadBase64: bytes,
    signature: bytes, signatureBase64: bytes,
    headerClaims: ClaimMap, payloadClaims: ClaimMap)
  {
    /** What the signature is checked against. */
    function SignedText(): bytes {
      headerBase64 + DOT + payloadBase64
    }
  }

  /** The three parts of a token: cut at its first two dots. */
  function Split(token: bytes): (parts: Option<(bytes, bytes, bytes)>)
    ensures parts.Some? ==> token == parts.value.0 + DOT + parts.value.1 + DOT + parts.value.2
    ensures parts.Some? ==> '.' !in parts.value.0 && '.' !in parts.value.1
  {
    var headerEnd := Find(token, DOT, 0);
    if headerEnd.None? then None
    else
      var payloadEnd := Find(token, DOT, headerEnd.value + 1);
      if payloadEnd.None? then None
      else
        NoDotBefore(token, 0, headerEnd.value);
        NoDotBefore(token, headerEnd.value + 1, payloadEnd.value);
        CutTwice(token, headerEnd.value, payloadEnd.value);
        Some((token[..headerEnd.value], token[headerEnd.value + 1..payloadEnd.value], token[payloadEnd.value + 1..]))
  }

  lemma CutTwice(s: bytes, i: nat, j: nat)
    requires i < j < |s| && s[i..i + 1] == s[j..j + 1] == DOT
    ensures s == s[..i] + DOT + s[i + 1..j] + DOT + s[j + 1..]
  {
    assert s == s[..i] + s[i..i + 1] + s[i + 1..j] + s[j..j + 1] + s[j + 1..];
  }

  lemma NoDotBefore(token: bytes, from: nat, end: nat)
    requires Find(token, DOT, from) == Some(end)
    ensures '.' !in token[from..end] && token[end..end + 1] == DOT
  {
    forall p | from <= p < end
      ensures token[p] != '.'
    {
      assert !OccursAt(token, DOT, p);
      assert token[p..p + 1] == [token[p]];
    }
  }

  ghost function DecodedToken(token: bytes, json: JsonText): Result<DecodedJwt, Exception> {
    var parts := Split(token);
    if parts.None? then Err(InvalidToken)
    else
      var (headerBase64, payloadBase64, signatureBase64) := parts.value;
      var header, payload := Base64Laws.UrlBytes(headerBase64), Base64Laws.UrlBytes(payloadBase64);
      var signature := Base64Laws.UrlBytes(signatureBase64);
      if header.Err? then Err(InvalidBase64(header.error))
      else if payload.Err? then Err(InvalidBase64(payload.error))
      else if signature.Err? then Err(InvalidBase64(signature.error))
      else
        var headerClaims, payloadClaims := ParseClaims(json, header.value), ParseClaims(json, payload.value);
        if headerClaims.Err? then Err(headerClaims.error)
        else if payloadClaims.Err? then Err(payloadClaims.error)
        else Ok(DecodedJwt(token, header.value, headerBase64, payload.value, payloadBase64,
                           signature.value, signatureBase64, headerClaims.value, payloadClaims.value))
  }

  /** The constructor of `decoded_jwt`; an `Err` is an exception. */
  method DecodeToken(token: bytes, json: JsonText) returns (r: Result<DecodedJwt, Exception>)
    ensures r == DecodedToken(token, json)
  {
    var headerEnd := Find(token, DOT, 0);
    if headerEnd.None? { return Err(InvalidToken); }
    var payloadEnd := Find(token, DOT, headerEnd.value + 1);
    if payloadEnd.None? { return Err(InvalidToken); }
    var headerBase64 := token[..headerEnd.value];
    var payloadBase64 := token[headerEnd.value + 1..payloadEnd.value];
    var signatureBase64 := token[payloadEnd.value + 1..];
    var header := DecodeUrl(headerBase64);
    if header.Err? { return Err(InvalidBase64(header.error)); }
    var payload := DecodeUrl(payloadBase64);
    if payload.Err? { return Err(InvalidBase64(payload.error)); }
    var signature := DecodeUrl(signatureBase64);
    if signature.Err? { return Err(InvalidBase64(signature.error)); }
    var headerClaims := ParseClaims(json, header.value);
    if headerClaims.Err? { return Err(headerClaims.error); }
    var payloadClaims := ParseClaims(json, payload.value);
    if payloadClaims.Err? { return Err(payloadClaims.error); }
    return Ok(DecodedJwt(token, header.value, headerBase64, payload.value, payloadBase64,
                         signature.value, signatureBase64, headerClaims.value, payloadClaims.value));
  }
}
