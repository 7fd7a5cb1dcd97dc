/** `jwt::verifier` and the checks of `jwt::verify_ops`. */
module Verification {
  import opened Octets
  import opened Claims
  import opened Algorithms
  import opened Tokens

  /** Clock ticks in a second: `system_clock` counts nanoseconds. */
  const TICKS: int := 1_000_000_000

  const EXP: bytes := "exp"
  const IAT: bytes := "iat"
  const NBF: bytes := "nbf"
  const ISS: bytes := "iss"
  const AUD: bytes := "aud"

  /** How a check or the whole verification ends: with no error, an error code, or an exception. */
  datatype Outcome = Pass | Fails(code: ErrorCode) | Throws(exception: Exception)

  /** `verify_context`. */
  datatype Context = Context(now: int, jwt: DecodedJwt, leeway: nat, key: bytes, json: JsonText)

  /** The checks a verifier can hold: its three default ones, the function objects of `verify_ops`, or any other. */
  datatype Check =
    | ExpDefault | IatDefault | NbfDefault
    | DateBefore(leeway: nat, inHeader: bool)
    | DateAfter(leeway: nat, inHeader: bool)
    | Equals(expected: Json, inHeader: bool)
    | IsSubset(members: set<bytes>, inHeader: bool)
    | Custom(run: Context -> Outcome)

  /** `get_claim(in_header, ec)`. */
  function GetClaim(ctx: Context, inHeader: bool): Result<Json, Outcome> {
    var claims := if inHeader then ctx.jwt.headerClaims else ctx.jwt.payloadClaims;
    if ctx.key in claims then Ok(claims[ctx.key]) else Err(Fails(MissingClaim))
  }

  /** `get_claim(in_header, t, ec)`. */
  function GetClaimOfKind(ctx: Context, inHeader: bool, kind: Kind): Result<Json, Outcome> {
    var claim := GetClaim(ctx, inHeader);
    if claim.Err? then claim
    else
      var found := KindOf(claim.value);
      if found.Err? then Err(Throws(found.error))
      else if found.value != kind then Err(Fails(ClaimTypeMismatch))
      else claim
  }

  function NotAfter(now: int, date: int, leeway: int): Outcome {
    if now > (date + leeway) * TICKS then Fails(TokenExpired) else Pass
  }

  function NotBefore(now: int, date: int, leeway: int): Outcome {
    if now < (date - leeway) * TICKS then Fails(TokenExpired) else Pass
  }

  /** The default checks look at their own claim, and only if the token has it. */
  function DefaultDate(ctx: Context, name: bytes): Result<int, Outcome> {
    if name !in ctx.jwt.payloadClaims then Err(Pass)
    else
      var date := AsDate(ctx.jwt.payloadClaims[name]);
      if date.Err? then Err(Throws(date.error)) else Ok(date.value)
  }

  function SameValue(expected: Json, found: Json, json: JsonText): bool {
    if expected.Array? || expected.Object? then json.serialize(expected) == json.serialize(found)
    else expected == found
  }

  /** `is_subset_claim`: a string is compared with the one expected member, an array is searched for all of them. */
  function SubsetOutcome(ctx: Context, members: set<bytes>, inHeader: bool): Outcome {
    var claim := GetClaim(ctx, inHeader);
    if claim.Err? then claim.error
    else
      match claim.value
      case Null => Throws(InvalidType)
      case String(s) => if members == {s} then Pass else Fails(AudienceMismatch)
      case Array(_) =>
        var found := SetOf(claim.value);
        if found.Err? then Throws(found.error)
        else if members <= found.value then Pass else Fails(AudienceMismatch)
      case _ => Fails(ClaimTypeMismatch)
  }

  /** What a check says of a token. */
  function Run(check: Check, ctx: Context): Outcome {
    match check
    case ExpDefault =>
      var date := DefaultDate(ctx, EXP);
      if date.Err? then date.error else NotAfter(ctx.now, date.value, ctx.leeway)
    case IatDefault =>
      var date := DefaultDate(ctx, IAT);
      if date.Err? then date.error else NotBefore(ctx.now, date.value, ctx.leeway)
    case NbfDefault =>
      var date := DefaultDate(ctx, NBF);
      if date.Err? then date.error else NotBefore(ctx.now, date.value, ctx.leeway)
    case DateBefore(leeway, inHeader) =>
      var claim := GetClaimOfKind(ctx, inHeader, IntegerKind);
      if claim.Err? then claim.error else NotAfter(ctx.now, claim.value.whole, leeway)
    case DateAfter(leeway, inHeader) =>
      var claim := GetClaimOfKind(ctx, inHeader, IntegerKind);
      if claim.Err? then claim.error else NotBefore(ctx.now, claim.value.whole, leeway)
    case Equals(expected, inHeader) =>
      var kind := KindOf(expected);
      if kind.Err? then Throws(kind.error)
      else
        var claim := GetClaimOfKind(ctx, inHeader, kind.value);
        if claim.Err? then claim.error
        else if SameValue(expected, claim.value, ctx.json) then Pass
        else Fails(ClaimValueMismatch)
    case IsSubset(members, inHeader) => SubsetOutcome(ctx, members, inHeader)
    case Custom(run) => run(ctx)
  }

  lemma OneMember(members: set<bytes>, s: bytes)
    requires s in members
    ensures |members| == 1 <==> members == {s}
  {
    if |members| == 1 {
      assert |members - {s}| == 0;
      assert members == {s} + (members - {s});
    }
  }

  /** `is_subset_claim`, whose loop visits the expected members in no particular order. */
  method RunIsSubset(ctx: Context, expected: set<bytes>, inHeader: bool) returns (o: Outcome)
    ensures o == SubsetOutcome(ctx, expected, inHeader)
  {
    var c := GetClaim(ctx, inHeader);
    if c.Err? { return c.error; }
    var kind := KindOf(c.value);
    if kind.Err? { return Throws(kind.error); }
    if kind.value == StringKind {
      if |expected| != 1 {
        if c.value.text in expected { OneMember(expected, c.value.text); }
        return Fails(AudienceMismatch);
      }
      var first :| first in expected;
      OneMember(expected, first);
      if first != c.value.text { return Fails(AudienceMismatch); }
    } else if kind.value == ArrayKind {
      var jc := AsSet(c.value);
      if jc.Err? { return Throws(jc.error); }
      var todo := expected;
      while todo != {}
        invariant todo <= expected && expected - todo <= jc.value
        decreases |todo|
      {
        var e :| e in todo;
        if e !in jc.value { return Fails(AudienceMismatch); }
        todo := todo - {e};
      }
    } else {
      return Fails(ClaimTypeMismatch);
    }
    return Pass;
  }

  /** The call of one function object. */
  method RunCheck(check: Check, ctx: Context) returns (o: Outcome)
    ensures o == Run(check, ctx)
  {
    if check.IsSubset? {
      o := RunIsSubset(ctx, check.members, check.inHeader);
    } else {
      o := Run(check, ctx);
    }
  }

  // A whole verification.

  /** What happens before the claims are looked at: the algorithm, then the signature. */
  function SignatureStage(jwt: DecodedJwt, algs: map<bytes, Algorithm>): Outcome {
    if ALG !in jwt.headerClaims then Throws(ClaimNotPresent)
    else if !jwt.headerClaims[ALG].String? then Throws(BadCast)
    else
      var name := jwt.headerClaims[ALG].text;
      if name !in algs then Fails(WrongAlgorithm)
      else
        var ec := SignatureError(algs[name], jwt.SignedText(), jwt.signature);
        if ec.Some? then Fails(ec.value) else Pass
  }

  function CheckOf(claims: map<bytes, Check>, key: bytes, ctx: Context): Outcome
    requires key in claims
  {
    Run(claims[key], ctx.(key := key))
  }

  /** The checks in a given order, up to the first that does not pass. */
  function RunAll(order: seq<bytes>, claims: map<bytes, Check>, ctx: Context): Outcome
    requires forall k | k in order :: k in claims
  {
    if order == [] then Pass
    else
      var o := CheckOf(claims, order[0], ctx);
      if o == Pass then RunAll(order[1..], claims, ctx) else o
  }

  function Verified(jwt: DecodedJwt, algs: map<bytes, Algorithm>, claims: map<bytes, Check>, order: seq<bytes>,
                    now: int, leeway: nat, json: JsonText): Outcome
    requires forall k | k in order :: k in claims
  {
    var stage := SignatureStage(jwt, algs);
    if stage != Pass then stage else RunAll(order, claims, Context(now, jwt, leeway, [], json))
  }

  /** `jwt::verifier`. */
  class Verifier {
    var claims: map<bytes, Check>
    var defaultLeeway: nat
    var algs: map<bytes, Algorithm>

    constructor ()
      ensures claims == map[EXP := ExpDefault, IAT := IatDefault, NBF := NbfDefault]
      ensures defaultLeeway == 0 && algs == map[]
    {
      claims := map[];
      defaultLeeway := 0;
      algs := map[];
      new;
      claims := claims[EXP := ExpDefault];
      claims := claims[IAT := IatDefault];
      claims := claims[NBF := NbfDefault];
    }

    method Leeway(leeway: nat)
      modifies this`defaultLeeway
      ensures defaultLeeway == leeway
    {
      defaultLeeway := leeway;
    }

    method ExpiresAtLeeway(leeway: nat)
      modifies this`claims
      ensures claims == old(claims)[EXP := DateBefore(leeway, false)]
    {
      claims := claims[EXP := DateBefore(leeway, false)];
    }

    method NotBeforeLeeway(leeway: nat)
      modifies this`claims
      ensures claims == old(claims)[NBF := DateAfter(leeway, false)]
    {
      claims := claims[NBF := DateAfter(leeway, false)];
    }

    method IssuedAtLeeway(leeway: nat)
      modifies this`claims
      ensures claims == old(claims)[IAT := DateAfter(leeway, false)]
    {
      claims := claims[IAT := DateAfter(leeway, false)];
    }

    method WithClaim(name: bytes, check: Check)
      modifies this`claims
      ensures claims == old(claims)[name := check]
    {
      claims := claims[name := check];
    }

    method WithIssuer(iss: bytes)
      modifies this`claims
      ensures claims == old(claims)[ISS := Equals(String(iss), false)]
    {
      WithClaim(ISS, Equals(String(iss), false));
    }

    method WithAudience(aud: bytes)
      modifies this`claims
      ensures claims == old(claims)[AUD := IsSubset({aud}, false)]
    {
      claims := claims[AUD := IsSubset({aud}, false)];
    }

    method AllowAlgorithm(alg: Algorithm)
      modifies this`algs
      ensures algs == old(algs)[NameOf(alg) := alg]
    {
      algs := algs[NameOf(alg) := alg];
    }

    /** `verify`, with the map of checks iterated in the given order. */
    method Verify(jwt: DecodedJwt, order: seq<bytes>, now: int, json: JsonText) returns (o: Outcome)
      requires forall k :: k in order <==> k in claims
      ensures o == Verified(jwt, algs, claims, order, now, defaultLeeway, json)
    {
      var data := jwt.headerBase64 + DOT + jwt.payloadBase64;
      if ALG !in jwt.headerClaims { return Throws(ClaimNotPresent); }
      var algo := AsString(jwt.headerClaims[ALG]);
      if algo.Err? { return Throws(algo.error); }
      if algo.value !in algs { return Fails(WrongAlgorithm); }
      var ec := VerifySignature(algs[algo.value], data, jwt.signature);
      if ec.Some? { return Fails(ec.value); }
      var ctx := Context(now, jwt, defaultLeeway, [], json);
      ghost var start := ctx;
      for i := 0 to |order|
        invariant ctx == start.(key := ctx.key)
        invariant RunAll(order, claims, start) == RunAll(order[i..], claims, start)
      {
        ctx := ctx.(key := order[i]);
        o := RunCheck(claims[order[i]], ctx);
        assert order[i..][1..] == order[i + 1..];
        if o != Pass { return o; }
      }
      return Pass;
    }
  }
}
