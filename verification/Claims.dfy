/** JSON values, claims and maps of claims, as jwt.h sees them through the Boost.JSON traits. */
module Claims {
  import opened Octets
  import Base64

  /** A JSON value; Boost's two integer kinds are one here, as the traits make them. */
  datatype Json =
    | Null
    | Boolean(flag: bool)
    | Integer(whole: int)
    | Number(fraction: real)
    | String(text: bytes)
    | Array(items: seq<Json>)
    | Object(fields: map<bytes, Json>)

  type ClaimMap = map<bytes, Json>

  /** `json_traits::serialize` and `json_traits::parse`, the library's printer and parser; `None` is a parse error. */
  datatype JsonText = JsonText(serialize: Json -> bytes, parse: bytes -> Option<Json>)

  /** The printed form of a value parses back to it. */
  predicate Restores(json: JsonText, v: Json) {
    json.parse(json.serialize(v)) == Some(v)
  }

  /** `std::exception`s that the token code lets through. */
  datatype Exception =
    | InvalidToken | InvalidBase64(why: Base64.Error) | InvalidJson | BadCast | InvalidType | ClaimNotPresent

  /** `json::type`. */
  datatype Kind = BooleanKind | IntegerKind | NumberKind | StringKind | ArrayKind | ObjectKind

  /** `get_type`, which throws on null. */
  function KindOf(v: Json): Result<Kind, Exception> {
    match v
    case Null => Err(InvalidType)
    case Boolean(_) => Ok(BooleanKind)
    case Integer(_) => Ok(IntegerKind)
    case Number(_) => Ok(NumberKind)
    case String(_) => Ok(StringKind)
    case Array(_) => Ok(ArrayKind)
    case Object(_) => Ok(ObjectKind)
  }

  function AsString(v: Json): Result<bytes, Exception> {
    if v.String? then Ok(v.text) else Err(BadCast)
  }

  /** `std::round`: halves away from zero. */
  function Round(x: real): int {
    if x >= 0.0 then (x + 0.5).Floor else -(-x + 0.5).Floor
  }

  /** `basic_claim::as_date`, in seconds. */
  function AsDate(v: Json): Result<int, Exception> {
    match v
    case Null => Err(InvalidType)
    case Integer(n) => Ok(n)
    case Number(x) => Ok(Round(x))
    case _ => Err(BadCast)
  }

  predicate AllStrings(items: seq<Json>) {
    forall i | 0 <= i < |items| :: items[i].String?
  }

  function StringsIn(items: seq<Json>): set<bytes> {
    set i | 0 <= i < |items| && items[i].String? :: items[i].text
  }

  function SetOf(v: Json): Result<set<bytes>, Exception> {
    if v.Array? && AllStrings(v.items) then Ok(StringsIn(v.items)) else Err(BadCast)
  }

  /** `basic_claim::as_set`. */
  method AsSet(v: Json) returns (r: Result<set<bytes>, Exception>)
    ensures r == SetOf(v)
  {
    if !v.Array? { return Err(BadCast); }
    var res: set<bytes> := {};
    for i := 0 to |v.items|
      invariant AllStrings(v.items[..i]) && res == StringsIn(v.items[..i])
    {
      var e := AsString(v.items[i]);
      if e.Err? { return Err(BadCast); }
      assert v.items[..i + 1] == v.items[..i] + [v.items[i]];
      assert StringsIn(v.items[..i + 1]) == StringsIn(v.items[..i]) + {e.value} by {
        assert v.items[..i + 1][i].text == e.value;
        forall s | s in StringsIn(v.items[..i]) ensures s in StringsIn(v.items[..i + 1]) {
          var k :| 0 <= k < i && v.items[..i][k].String? && v.items[..i][k].text == s;
          assert v.items[..i + 1][k].text == s;
        }
      }
      res := res + {e.value};
    }
    assert v.items[..|v.items|] == v.items;
    return Ok(res);
  }

  /** `payload::get_audience`: a single string is a set of one. */
  function Audience(payload: ClaimMap): Result<set<bytes>, Exception> {
    if "aud" !in payload then Err(ClaimNotPresent)
    else if payload["aud"].String? then Ok({payload["aud"].text})
    else if payload["aud"].Null? then Err(InvalidType)
    else SetOf(payload["aud"])
  }

  /** `map_of_claims::parse_claims`. */
  function ParseClaims(json: JsonText, text: bytes): Result<ClaimMap, Exception> {
    var v := json.parse(text);
    if v.None? then Err(InvalidJson)
    else if v.value.Object? then Ok(v.value.fields)
    else Err(BadCast)
  }

  /** A string is in the set of an array of strings exactly if the array holds it; nothing else has a set. */
  lemma SetMembers(v: Json)
    ensures SetOf(v).Ok? <==> v.Array? && forall item | item in v.items :: item.String?
    ensures SetOf(v).Ok? ==> forall s :: s in SetOf(v).value <==> String(s) in v.items
    ensures SetOf(v).Err? ==> SetOf(v).error == BadCast
  {
    if v.Array? {
      assert forall i | 0 <= i < |v.items| :: v.items[i] in v.items;
      forall s: bytes | String(s) in v.items
        ensures s in StringsIn(v.items)
      {
        var i :| 0 <= i < |v.items| && v.items[i] == String(s);
        assert v.items[i].text == s;
      }
    }
  }

  /** Who a payload names as its audience: one string, or the strings of an array of strings. */
  predicate Names(aud: Json, s: bytes) {
    aud == String(s) || (aud.Array? && String(s) in aud.items)
  }

  lemma AudienceNames(payload: ClaimMap)
    ensures Audience(payload).Ok? ==>
      "aud" in payload && forall s :: s in Audience(payload).value <==> Names(payload["aud"], s)
    ensures Audience(payload) == Err(ClaimNotPresent) <==> "aud" !in payload
    ensures Audience(payload) == Err(InvalidType) <==> "aud" in payload && payload["aud"] == Null
    ensures Audience(payload) == Err(BadCast)
       <==> "aud" in payload && var v := payload["aud"];
            v != Null && !v.String? && (v.Array? ==> exists item | item in v.items :: !item.String?)
  {
    if "aud" in payload { SetMembers(payload["aud"]); }
  }

  /** A fraction is rounded to a nearest whole number; of two that are as near, to the one farther from zero. */
  lemma RoundsToNearest(x: real)
    ensures x - 0.5 <= Round(x) as real <= x + 0.5
    ensures Round(x) as real == x - 0.5 ==> x < 0.0
    ensures Round(x) as real == x + 0.5 ==> x > 0.0
  {
  }

  /** Dates are whole numbers or fractions. */
  lemma DatesAre(v: Json)
    ensures AsDate(v).Ok? <==> v.Integer? || v.Number?
    ensures v.Integer? ==> AsDate(v).value == v.whole
    ensures v.Number? ==> v.fraction - 0.5 <= AsDate(v).value as real <= v.fraction + 0.5
    ensures AsDate(v).Err? ==> AsDate(v).error == if v == Null then InvalidType else BadCast
  {
    if v.Number? { RoundsToNearest(v.fraction); }
  }
}
