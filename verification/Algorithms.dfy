/** The signature algorithms of jwt.h. The primitives of OpenSSL are function values. */
module Algorithms {
  import opened Octets

  datatype ErrorCode =
    | HmacFailed | SignatureFailed | InvalidSignature
    | WrongAlgorithm | MissingClaim | ClaimTypeMismatch | ClaimValueMismatch | TokenExpired | AudienceMismatch

  /** HMAC under a key; `None` is a failure of the library. */
  type Hmac = (bytes, bytes) -> Option<bytes>

  datatype Algorithm =
    | Unsecured
    | HmacSha(name: bytes, secret: bytes, hmac: Hmac)
    | PublicKey(name: bytes, sign: bytes -> Option<bytes>, check: (bytes, bytes) -> Option<ErrorCode>)

  function NameOf(alg: Algorithm): bytes {
    if alg.Unsecured? then "none" else alg.name
  }

  function Sign(alg: Algorithm, data: bytes): Result<bytes, ErrorCode> {
    match alg
    case Unsecured => Ok([])
    case HmacSha(_, secret, hmac) =>
      var mac := hmac(secret, data);
      if mac.None? then Err(HmacFailed) else Ok(mac.value)
    case PublicKey(_, sign, _) =>
      var sig := sign(data);
      if sig.None? then Err(SignatureFailed) else Ok(sig.value)
  }

  /** What is wrong with a signature, if anything: for HMAC, any difference at all from the code of the data. */
  function SignatureError(alg: Algorithm, data: bytes, signature: bytes): Option<ErrorCode> {
    match alg
    case Unsecured => if signature == [] then None else Some(InvalidSignature)
    case HmacSha(_, _, _) =>
      var mac := Sign(alg, data);
      if mac.Err? then Some(mac.error) else if mac.value == signature then None else Some(InvalidSignature)
    case PublicKey(_, _, check) => check(data, signature)
  }

  /** The comparison of `hmacsha::verify`, which never stops early. */
  method Matches(res: bytes, signature: bytes) returns (matched: bool)
    ensures matched <==> res == signature
  {
    matched := true;
    var shorter := if |res| < |signature| then |res| else |signature|;
    for i := 0 to shorter
      invariant matched <==> res[..i] == signature[..i]
    {
      assert res[..i + 1] == res[..i] + [res[i]] && signature[..i + 1] == signature[..i] + [signature[i]];
      if res[i] != signature[i] { matched := false; }
    }
    assert res[..|res|] == res && signature[..|signature|] == signature;
    if |res| != |signature| { matched := false; }
  }

  /** `verify` of an algorithm. */
  method VerifySignature(alg: Algorithm, data: bytes, signature: bytes) returns (ec: Option<ErrorCode>)
    ensures ec == SignatureError(alg, data, signature)
  {
    match alg
    case Unsecured =>
      ec := None;
      if signature != [] { ec := Some(InvalidSignature); }
    case HmacSha(_, _, _) =>
      var res := Sign(alg, data);
      if res.Err? { return Some(res.error); }
      var matched := Matches(res.value, signature);
      ec := None;
      if !matched { ec := Some(InvalidSignature); }
    case PublicKey(_, _, check) =>
      ec := check(data, signature);
  }
}
