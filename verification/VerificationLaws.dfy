/** What a verification promises: RFC 7519, sections 4.1.3 to 4.1.6. */
module VerificationLaws {
  import opened Octets
  import opened Claims
  import opened Algorithms
  import opened Tokens
  import TokenLaws
  import opened Verification

  /** An iteration order of the map of checks: every key, once. */
  ghost predicate Orders(order: seq<bytes>, claims: map<bytes, Check>) {
    && (forall k :: k in order <==> k in claims)
    && forall i, j | 0 <= i < j < |order| :: order[i] != order[j]
  }

  ghost predicate AllPass(claims: map<bytes, Check>, ctx: Context) {
    forall k | k in claims :: CheckOf(claims, k, ctx) == Pass
  }

  lemma {:induction false} RunAllDecides(order: seq<bytes>, claims: map<bytes, Check>, ctx: Context)
    requires forall k | k in order :: k in claims
    ensures RunAll(order, claims, ctx) == Pass <==> forall k | k in order :: CheckOf(claims, k, ctx) == Pass
    ensures var o := RunAll(order, claims, ctx);
            o != Pass ==> exists k :: k in order && CheckOf(claims, k, ctx) == o
  {
    if order != [] {
      assert order == [order[0]] + order[1..];
      RunAllDecides(order[1..], claims, ctx);
    }
  }

  /**
   * Whatever order the checks are iterated in, a token is accepted exactly when its algorithm is
   * allowed, its signature is right and every check passes; and a rejection is what one of the
   * failing stages or checks said.
   */
  lemma OrderIndependence(jwt: DecodedJwt, algs: map<bytes, Algorithm>, claims: map<bytes, Check>, order: seq<bytes>,
                          now: int, leeway: nat, json: JsonText)
    requires Orders(order, claims)
    ensures var o := Verified(jwt, algs, claims, order, now, leeway, json);
            var ctx := Context(now, jwt, leeway, [], json);
            && (o == Pass <==> SignatureStage(jwt, algs) == Pass && AllPass(claims, ctx))
            && (o != Pass ==> || o == SignatureStage(jwt, algs)
                              || (SignatureStage(jwt, algs) == Pass
                                  && exists k :: k in claims && CheckOf(claims, k, ctx) == o))
  {
    RunAllDecides(order, claims, Context(now, jwt, leeway, [], json));
  }

  /** Every failing check is the answer in some order: any that tries it first. */
  lemma AnyFailureCanBeReported(order: seq<bytes>, claims: map<bytes, Check>, ctx: Context, key: bytes)
    returns (first: seq<bytes>)
    requires Orders(order, claims) && key in claims && CheckOf(claims, key, ctx) != Pass
    ensures Orders(first, claims) && RunAll(first, claims, ctx) == CheckOf(claims, key, ctx)
  {
    hide Run;
    first := MovedToFront(order, key);
    assert RunAll(first, claims, ctx) == CheckOf(claims, first[0], ctx);
  }

  /** The same keys, still each once, with one of them first. */
  lemma MovedToFront(order: seq<bytes>, key: bytes) returns (first: seq<bytes>)
    requires key in order && forall i, j | 0 <= i < j < |order| :: order[i] != order[j]
    ensures |first| == |order| && first[0] == key && forall k :: k in first <==> k in order
    ensures forall i, j | 0 <= i < j < |first| :: first[i] != first[j]
  {
    var i :| 0 <= i < |order| && order[i] == key;
    first := [key] + order[..i] + order[i + 1..];
    assert order == order[..i] + [key] + order[i + 1..];
  }

  /** A token that passes the signature stage names an algorithm that is allowed. */
  lemma StageNamesAlgorithm(jwt: DecodedJwt, algs: map<bytes, Algorithm>)
    requires SignatureStage(jwt, algs) == Pass
    ensures ALG in jwt.headerClaims && jwt.headerClaims[ALG].String? && jwt.headerClaims[ALG].text in algs
  {
  }

  /** A token that names an allowed HMAC passes exactly if its signature is the code of the signed text. */
  lemma HmacStage(jwt: DecodedJwt, algs: map<bytes, Algorithm>, name: bytes, secret: bytes, hmac: Hmac)
    requires name in algs && algs[name] == HmacSha(name, secret, hmac)
    requires ALG in jwt.headerClaims && jwt.headerClaims[ALG] == String(name)
    ensures SignatureStage(jwt, algs) == Pass <==> hmac(secret, jwt.SignedText()) == Some(jwt.signature)
  {
  }

  /**
   * A token signed with an algorithm passes a verifier that allows that one, exactly if the builder's
   * header did not already name another.
   */
  lemma OwnTokenPasses(header: ClaimMap, payload: ClaimMap, alg: Algorithm, json: JsonText)
    requires TokenLaws.CanSign(header, payload, alg, json)
    requires Restores(json, Object(FullHeader(header, alg))) && Restores(json, Object(payload))
    requires var text := SigningInput(FullHeader(header, alg), payload, json);
             SignatureError(alg, text, Sign(alg, text).value).None?
    ensures Signed(header, payload, alg, json).Ok?
    ensures var d := DecodedToken(Signed(header, payload, alg, json).value, json);
            d.Ok? && (SignatureStage(d.value, map[NameOf(alg) := alg]) == Pass
                      <==> ALG !in header || header[ALG] == String(NameOf(alg)))
  {
    hide DecodedToken, Signed, SigningInput, Sign, SignatureError, DecodedJwt.SignedText;
    TokenLaws.TokenRoundTrip(header, payload, alg, json);
  }

  /** What the law above asks of an algorithm holds of "none" and of every HMAC. */
  lemma AcceptsOwnSignature(alg: Algorithm, text: bytes)
    requires !alg.PublicKey? && Sign(alg, text).Ok?
    ensures SignatureError(alg, text, Sign(alg, text).value).None?
  {
  }

  // The window of accepted times.

  /** The three dates are checked as the verifier itself checks them: by default, or with a leeway of their own. */
  predicate ChecksDates(claims: map<bytes, Check>) {
    && EXP in claims && (claims[EXP] == ExpDefault || (claims[EXP].DateBefore? && !claims[EXP].inHeader))
    && IAT in claims && (claims[IAT] == IatDefault || (claims[IAT].DateAfter? && !claims[IAT].inHeader))
    && NBF in claims && (claims[NBF] == NbfDefault || (claims[NBF].DateAfter? && !claims[NBF].inHeader))
  }

  predicate HasOwnLeeway(check: Check) {
    check.DateBefore? || check.DateAfter?
  }

  /** A default check can read any date, or none; one with its own leeway requires the claim, as an integer. */
  predicate Readable(check: Check, p: ClaimMap, name: bytes) {
    if HasOwnLeeway(check) then name in p && p[name].Integer? else name in p ==> AsDate(p[name]).Ok?
  }

  predicate DatesReadable(claims: map<bytes, Check>, p: ClaimMap)
    requires ChecksDates(claims)
  {
    Readable(claims[EXP], p, EXP) && Readable(claims[IAT], p, IAT) && Readable(claims[NBF], p, NBF)
  }

  function LeewayOf(check: Check, leeway: nat): int {
    if HasOwnLeeway(check) then check.leeway else leeway
  }

  /** A stretch of time; an absent end is open. */
  datatype Window = Window(start: Option<int>, end: Option<int>)

  predicate Within(now: int, w: Window) {
    (w.start.Some? ==> w.start.value <= now) && (w.end.Some? ==> now <= w.end.value)
  }

  function Later(x: Option<int>, y: Option<int>): Option<int> {
    if x.None? then y else if y.None? then x else if x.value < y.value then y else x
  }

  /** The end of the window that a date sets, some seconds away from it. */
  function End(p: ClaimMap, name: bytes, seconds: int): Option<int>
    requires name in p ==> AsDate(p[name]).Ok?
  {
    if name in p then Some((AsDate(p[name]).value + seconds) * TICKS) else None
  }

  function WindowOf(claims: map<bytes, Check>, p: ClaimMap, leeway: nat): Window
    requires ChecksDates(claims) && DatesReadable(claims, p)
  {
    Window(Later(End(p, IAT, -LeewayOf(claims[IAT], leeway)), End(p, NBF, -LeewayOf(claims[NBF], leeway))),
           End(p, EXP, LeewayOf(claims[EXP], leeway)))
  }

  ghost predicate OthersPass(claims: map<bytes, Check>, ctx: Context) {
    forall k | k in claims && k !in {EXP, IAT, NBF} :: CheckOf(claims, k, ctx) == Pass
  }

  lemma EndCheck(claims: map<bytes, Check>, ctx: Context)
    requires ChecksDates(claims)
    ensures var p := ctx.jwt.payloadClaims;
            CheckOf(claims, EXP, ctx) == Pass <==>
            Readable(claims[EXP], p, EXP)
            && Within(ctx.now, Window(None, End(p, EXP, LeewayOf(claims[EXP], ctx.leeway))))
  {
  }

  lemma StartCheck(claims: map<bytes, Check>, ctx: Context, name: bytes)
    requires ChecksDates(claims) && name in {IAT, NBF}
    ensures var p := ctx.jwt.payloadClaims;
            CheckOf(claims, name, ctx) == Pass <==>
            Readable(claims[name], p, name)
            && Within(ctx.now, Window(End(p, name, -LeewayOf(claims[name], ctx.leeway)), None))
  {
    DatesDiffer();
  }

  lemma DatesDiffer()
    ensures EXP != IAT && EXP != NBF && IAT != NBF
  {
  }

  lemma DateChecks(claims: map<bytes, Check>, ctx: Context)
    requires ChecksDates(claims)
    ensures var p := ctx.jwt.payloadClaims;
            CheckOf(claims, EXP, ctx) == CheckOf(claims, IAT, ctx) == CheckOf(claims, NBF, ctx) == Pass
            <==> DatesReadable(claims, p) && Within(ctx.now, WindowOf(claims, p, ctx.leeway))
  {
    hide CheckOf, End, LeewayOf, Readable;
    EndCheck(claims, ctx);
    StartCheck(claims, ctx, IAT);
    StartCheck(claims, ctx, NBF);
  }

  /**
   * In whatever order the checks are iterated, a token that is otherwise good is accepted exactly if its
   * dates can be read and the time is between the later of "iat" and "nbf", less the leeway, and "exp" plus
   * the leeway, both ends included. A date that is absent leaves its side open; a fraction counts as its
   * nearest second.
   */
  lemma AcceptanceWindow(jwt: DecodedJwt, algs: map<bytes, Algorithm>, claims: map<bytes, Check>,
                         order: seq<bytes>, now: int, leeway: nat, json: JsonText)
    requires Orders(order, claims) && ChecksDates(claims)
    ensures var p := jwt.payloadClaims;
            Verified(jwt, algs, claims, order, now, leeway, json) == Pass
            <==> && SignatureStage(jwt, algs) == Pass && OthersPass(claims, Context(now, jwt, leeway, [], json))
                 && DatesReadable(claims, p) && Within(now, WindowOf(claims, p, leeway))
  {
    hide Run, SignatureStage, RunAll, DatesReadable, WindowOf, Within, ChecksDates;
    var ctx := Context(now, jwt, leeway, [], json);
    OrderIndependence(jwt, algs, claims, order, now, leeway, json);
    DateChecks(claims, ctx);
    HasDates(claims);
  }

  lemma HasDates(claims: map<bytes, Check>)
    requires ChecksDates(claims)
    ensures EXP in claims && IAT in claims && NBF in claims
  {
  }

  /** A new verifier checks the dates so, and still does after any leeway is set or any other check is added. */
  lemma ConfiguringKeepsDates(claims: map<bytes, Check>, own: nat, name: bytes, check: Check)
    requires ChecksDates(claims)
    ensures ChecksDates(map[EXP := ExpDefault, IAT := IatDefault, NBF := NbfDefault])
    ensures ChecksDates(claims[EXP := DateBefore(own, false)]) && ChecksDates(claims[IAT := DateAfter(own, false)])
    ensures ChecksDates(claims[NBF := DateAfter(own, false)])
    ensures name !in {EXP, IAT, NBF} ==> ChecksDates(claims[name := check])
  {
    DatesDiffer();
  }

  // Checks of the caller's own can do anything with the time and the leeway; these are the ones that behave.

  /** A pass at two times is a pass at every time between them. */
  ghost predicate Convex(run: Context -> Outcome) {
    forall x, t, y, jwt, leeway, key, json | x <= t <= y ::
      run(Context(x, jwt, leeway, key, json)) == run(Context(y, jwt, leeway, key, json)) == Pass
      ==> run(Context(t, jwt, leeway, key, json)) == Pass
  }

  /** A pass with one leeway is a pass with every larger one. */
  ghost predicate Lenient(run: Context -> Outcome) {
    forall now, jwt, leeway: nat, more: nat, key, json | leeway <= more ::
      run(Context(now, jwt, leeway, key, json)) == Pass ==> run(Context(now, jwt, more, key, json)) == Pass
  }

  lemma CheckBetween(check: Check, ctx: Context, x: int, y: int)
    requires (check.Custom? ==> Convex(check.run)) && x <= ctx.now <= y
    requires Run(check, ctx.(now := x)) == Run(check, ctx.(now := y)) == Pass
    ensures Run(check, ctx) == Pass
  {
    if check.Custom? {
      assert check.run(Context(x, ctx.jwt, ctx.leeway, ctx.key, ctx.json)) == Pass;
      assert check.run(Context(y, ctx.jwt, ctx.leeway, ctx.key, ctx.json)) == Pass;
    }
  }

  /**
   * The times at which a token is accepted have no gap, whatever checks the verifier holds, on whatever
   * claims, and in whatever order each verification iterates them.
   */
  lemma WindowIsAnInterval(jwt: DecodedJwt, algs: map<bytes, Algorithm>, claims: map<bytes, Check>,
                           orderX: seq<bytes>, x: int, order: seq<bytes>, now: int, orderY: seq<bytes>, y: int,
                           leeway: nat, json: JsonText)
    requires Orders(orderX, claims) && Orders(order, claims) && Orders(orderY, claims) && x <= now <= y
    requires forall k | k in claims && claims[k].Custom? :: Convex(claims[k].run)
    requires Verified(jwt, algs, claims, orderX, x, leeway, json) == Pass
    requires Verified(jwt, algs, claims, orderY, y, leeway, json) == Pass
    ensures Verified(jwt, algs, claims, order, now, leeway, json) == Pass
  {
    hide Run, SignatureStage, RunAll, Convex, Verified, Orders;
    var ctx := Context(now, jwt, leeway, [], json);
    OrderIndependence(jwt, algs, claims, orderX, x, leeway, json);
    OrderIndependence(jwt, algs, claims, orderY, y, leeway, json);
    OrderIndependence(jwt, algs, claims, order, now, leeway, json);
    forall k | k in claims
      ensures CheckOf(claims, k, ctx) == Pass
    {
      assert CheckOf(claims, k, ctx.(now := x)) == CheckOf(claims, k, ctx.(now := y)) == Pass;
      CheckBetween(claims[k], ctx.(key := k), x, y);
    }
  }

  lemma CheckWidens(check: Check, ctx: Context, more: nat)
    requires (check.Custom? ==> Lenient(check.run)) && ctx.leeway <= more && Run(check, ctx) == Pass
    ensures Run(check, ctx.(leeway := more)) == Pass
  {
    if check.Custom? {
      assert check.run(Context(ctx.now, ctx.jwt, ctx.leeway, ctx.key, ctx.json)) == Pass;
    }
  }

  /** A larger default leeway never rejects a token that a smaller one accepts, whatever its claims are. */
  lemma LeewayOnlyWidens(jwt: DecodedJwt, algs: map<bytes, Algorithm>, claims: map<bytes, Check>,
                         order: seq<bytes>, now: int, leeway: nat, more: nat, json: JsonText)
    requires Orders(order, claims) && leeway <= more
    requires forall k | k in claims && claims[k].Custom? :: Lenient(claims[k].run)
    requires Verified(jwt, algs, claims, order, now, leeway, json) == Pass
    ensures Verified(jwt, algs, claims, order, now, more, json) == Pass
  {
    hide Run, SignatureStage, RunAll, Lenient;
    var ctx, wider := Context(now, jwt, leeway, [], json), Context(now, jwt, more, [], json);
    OrderIndependence(jwt, algs, claims, order, now, leeway, json);
    OrderIndependence(jwt, algs, claims, order, now, more, json);
    forall k | k in claims
      ensures CheckOf(claims, k, wider) == Pass
    {
      assert CheckOf(claims, k, ctx) == Pass;
      CheckWidens(claims[k], ctx.(key := k), more);
    }
  }

  // The audience.

  predicate IsAudience(v: Json) {
    v.String? || (v.Array? && AllStrings(v.items))
  }

  /**
   * The audience check means "every expected member is in the token's audience", except that an
   * empty expectation is refused by a token whose audience is a single string: those are the only
   * inputs on which the check and its meaning differ.
   */
  lemma AudienceCheck(ctx: Context, members: set<bytes>)
    requires ctx.key == AUD && AUD in ctx.jwt.payloadClaims && IsAudience(ctx.jwt.payloadClaims[AUD])
    ensures Audience(ctx.jwt.payloadClaims).Ok?
    ensures (SubsetOutcome(ctx, members, false) == Pass <==> members <= Audience(ctx.jwt.payloadClaims).value)
       <==> members != {} || ctx.jwt.payloadClaims[AUD].Array?
    ensures members <= Audience(ctx.jwt.payloadClaims).value
       <==> forall s | s in members :: Names(ctx.jwt.payloadClaims["aud"], s)
  {
    AudienceNames(ctx.jwt.payloadClaims);
    var aud := ctx.jwt.payloadClaims[AUD];
    if aud.String? {
      assert members <= {aud.text} <==> members == {} || members == {aud.text} by {
        if members <= {aud.text} && members != {} {
          var m :| m in members;
          assert m == aud.text;
        }
      }
    }
  }

  /** An input on which they differ: nothing is expected, so every set has it, and the token is refused all the same. */
  lemma EmptyExpectationIsRefused(aud: bytes, json: JsonText) returns (ctx: Context)
    ensures ctx.key == AUD && ctx.jwt.payloadClaims == map[AUD := String(aud)]
    ensures {} <= {aud} && Audience(ctx.jwt.payloadClaims) == Ok({aud})
    ensures SubsetOutcome(ctx, {}, false) == Fails(AudienceMismatch)
  {
    ctx := Context(0, DecodedJwt([], [], [], [], [], [], [], map[], map[AUD := String(aud)]), 0, AUD, json);
    assert aud in {aud};
  }

  /** In which way the audience check fails, on any claim, header or payload, that it is pointed at. */
  lemma SubsetErrors(ctx: Context, members: set<bytes>, inHeader: bool)
    ensures var o, claims := SubsetOutcome(ctx, members, inHeader), ClaimsFor(ctx, inHeader);
            if ctx.key !in claims then o == Fails(MissingClaim)
            else
              var v := claims[ctx.key];
              if v == Null then o == Throws(InvalidType)
              else if v.Array? && exists item | item in v.items :: !item.String? then o == Throws(BadCast)
              else if !v.String? && !v.Array? then o == Fails(ClaimTypeMismatch)
              else o == Pass || o == Fails(AudienceMismatch)
  {
    var claims := ClaimsFor(ctx, inHeader);
    if ctx.key in claims { SetMembers(claims[ctx.key]); }
  }

  // What the other checks answer.

  /** The claims that a check is pointed at. */
  function ClaimsFor(ctx: Context, inHeader: bool): ClaimMap {
    if inHeader then ctx.jwt.headerClaims else ctx.jwt.payloadClaims
  }

  /** Values of one of the six kinds a claim can have. */
  predicate SameKind(x: Json, y: Json) {
    || (x.Boolean? && y.Boolean?) || (x.Integer? && y.Integer?) || (x.Number? && y.Number?)
    || (x.String? && y.String?) || (x.Array? && y.Array?) || (x.Object? && y.Object?)
  }

  /**
   * `equals_claim` passes exactly on the expected value, also for arrays and objects, which it compares in
   * print, if the printed forms of the two values parse back; and each way of failing has its own answer.
   */
  lemma EqualsCheck(ctx: Context, expected: Json, inHeader: bool)
    requires expected != Null && Restores(ctx.json, expected)
    requires ctx.key in ClaimsFor(ctx, inHeader) ==> Restores(ctx.json, ClaimsFor(ctx, inHeader)[ctx.key])
    ensures var o, claims := Run(Equals(expected, inHeader), ctx), ClaimsFor(ctx, inHeader);
            && (o == Pass <==> ctx.key in claims && claims[ctx.key] == expected)
            && (o == Fails(MissingClaim) <==> ctx.key !in claims)
            && (o == Throws(InvalidType) <==> ctx.key in claims && claims[ctx.key] == Null)
            && (o == Fails(ClaimTypeMismatch)
                <==> ctx.key in claims && claims[ctx.key] != Null && !SameKind(expected, claims[ctx.key]))
            && (o == Fails(ClaimValueMismatch)
                <==> ctx.key in claims && SameKind(expected, claims[ctx.key]) && claims[ctx.key] != expected)
  {
    var claims := ClaimsFor(ctx, inHeader);
    if ctx.key in claims && claims[ctx.key] != Null { KindsMatch(expected, claims[ctx.key]); }
  }

  lemma KindsMatch(x: Json, y: Json)
    requires x != Null && y != Null
    ensures KindOf(x).Ok? && KindOf(y).Ok? && (KindOf(x) == KindOf(y) <==> SameKind(x, y))
  {
  }

  /** An expected null is a mistake of the caller's, and throws. */
  lemma EqualsNull(ctx: Context, inHeader: bool)
    ensures Run(Equals(Null, inHeader), ctx) == Throws(InvalidType)
  {
  }

  /** The answers of a date check: expired exactly outside the end that its date sets. */
  ghost predicate DateOutcome(o: Outcome, check: Check, p: ClaimMap, name: bytes, now: int, seconds: int, upper: bool) {
    if !Readable(check, p, name) then
      if HasOwnLeeway(check) then
        o == if name !in p then Fails(MissingClaim)
             else if p[name] == Null then Throws(InvalidType)
             else Fails(ClaimTypeMismatch)
      else
        o == Throws(if p[name] == Null then InvalidType else BadCast)
    else
      var w := if upper then Window(None, End(p, name, seconds)) else Window(End(p, name, seconds), None);
      o == if Within(now, w) then Pass else Fails(TokenExpired)
  }

  lemma EndOutcome(claims: map<bytes, Check>, ctx: Context)
    requires ChecksDates(claims)
    ensures DateOutcome(CheckOf(claims, EXP, ctx), claims[EXP], ctx.jwt.payloadClaims, EXP, ctx.now,
                        LeewayOf(claims[EXP], ctx.leeway), true)
  {
  }

  lemma StartOutcome(claims: map<bytes, Check>, ctx: Context, name: bytes)
    requires ChecksDates(claims) && name in {IAT, NBF}
    ensures DateOutcome(CheckOf(claims, name, ctx), claims[name], ctx.jwt.payloadClaims, name, ctx.now,
                        -LeewayOf(claims[name], ctx.leeway), false)
  {
    DatesDiffer();
  }

  /** The answers of the first stage: of the header, of the choice of algorithm, and of the signature. */
  lemma StageErrors(jwt: DecodedJwt, algs: map<bytes, Algorithm>)
    ensures var o, h := SignatureStage(jwt, algs), jwt.headerClaims;
            && (o == Throws(ClaimNotPresent) <==> "alg" !in h)
            && (o == Throws(BadCast) <==> "alg" in h && !h["alg"].String?)
            && (o.Throws? ==> o.exception in {ClaimNotPresent, BadCast})
            && ("alg" in h && h["alg"].String? && h["alg"].text !in algs ==> o == Fails(WrongAlgorithm))
            && ("alg" in h && h["alg"].String? && h["alg"].text in algs ==>
                  var text := jwt.headerBase64 + "." + jwt.payloadBase64;
                  var ec := SignatureError(algs[h["alg"].text], text, jwt.signature);
                  o == if ec.Some? then Fails(ec.value) else Pass)
  {
  }

  /** What each algorithm signs with, and the error it gives if that fails. */
  lemma SignsWith(name: bytes, secret: bytes, hmac: Hmac, sign: bytes -> Option<bytes>,
                  check: (bytes, bytes) -> Option<ErrorCode>, data: bytes)
    ensures Sign(Unsecured, data) == Ok("")
    ensures Sign(HmacSha(name, secret, hmac), data)
         == match hmac(secret, data) case Some(mac) => Ok(mac) case None => Err(HmacFailed)
    ensures Sign(PublicKey(name, sign, check), data)
         == match sign(data) case Some(signature) => Ok(signature) case None => Err(SignatureFailed)
    ensures forall signature :: SignatureError(PublicKey(name, sign, check), data, signature) == check(data, signature)
    ensures NameOf(HmacSha(name, secret, hmac)) == NameOf(PublicKey(name, sign, check)) == name
  {
  }

  /** The answers of HMAC and of "none" about a signature. */
  lemma SignatureErrors(name: bytes, secret: bytes, hmac: Hmac, data: bytes, signature: bytes)
    ensures var ec := SignatureError(HmacSha(name, secret, hmac), data, signature);
            && (ec.None? <==> hmac(secret, data) == Some(signature))
            && (ec == Some(HmacFailed) <==> hmac(secret, data).None?)
            && (ec == Some(InvalidSignature) <==> hmac(secret, data).Some? && hmac(secret, data) != Some(signature))
    ensures SignatureError(Unsecured, data, signature) == if signature == "" then None else Some(InvalidSignature)
    ensures NameOf(Unsecured) == "none"
  {
  }
}
