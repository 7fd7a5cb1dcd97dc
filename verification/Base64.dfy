/** The codec of include/jwt-cpp/base.h. */
module Base64 {
  import opened Octets

  type sextet = n: nat | n < 64

  datatype Error = TooMuchFill | IncorrectTotalSize | NotWithinAlphabet

  /** `details::padding`: how many fills end a string, and how many characters they take. */
  datatype Padding = Padding(count: nat, length: nat)

  // The alphabets and their fills.

  const STANDARD: bytes := UPPER + LOWER + DIGITS + "+/"
  const URL_SAFE: bytes := UPPER + LOWER + DIGITS + "-_"
  const STANDARD_FILL: bytes := "="
  const URL_FILL: bytes := "%3d"
  const PERCENT_FILLS: seq<bytes> := ["%3D", "%3d"]

  /** A table of 64 distinct characters. */
  ghost predicate IsAlphabet(a: bytes) {
    |a| == 64 && forall i, j | 0 <= i < j < 64 :: a[i] != a[j]
  }

  /** What the tables have in common: fills of one length, each starting outside the alphabet. */
  ghost predicate IsScheme(a: bytes, fills: seq<bytes>)
    ensures IsScheme(a, fills) ==> |a| == 64 && forall f | f in fills :: f != []
  {
    && IsAlphabet(a)
    && (forall f, g | f in fills && g in fills :: |f| == |g|)
    && (forall f | f in fills :: f != [] && f[0] !in a)
  }

  ghost predicate Over(s: bytes, a: bytes) {
    forall c | c in s :: c in a
  }

  /** `alphabet::index`: the first position of a symbol; `None` where the source throws. */
  function IndexFrom(a: bytes, symbol: octet, from: nat): (r: Option<nat>)
    requires from <= |a|
    ensures r.Some? ==> from <= r.value < |a| && a[r.value] == symbol && symbol !in a[from..r.value]
    ensures r.None? ==> symbol !in a[from..]
    decreases |a| - from
  {
    if from == |a| then None
    else if a[from] == symbol then Some(from)
    else IndexFrom(a, symbol, from + 1)
  }

  function Index(a: bytes, symbol: octet): (r: Option<nat>)
    ensures r.Some? <==> symbol in a
    ensures r.Some? ==> r.value < |a| && a[r.value] == symbol && symbol !in a[..r.value]
  {
    IndexFrom(a, symbol, 0)
  }

  /** The position of the first fill in the list that ends the string. */
  function MatchingFill(base: bytes, fills: seq<bytes>): (k: Option<bytes>)
    ensures k.Some? ==> k.value in fills && EndsWith(base, k.value)
    ensures k.None? ==> forall f | f in fills :: !EndsWith(base, f)
  {
    if fills == [] then None
    else if EndsWith(base, fills[0]) then Some(fills[0])
    else MatchingFill(base, fills[1..])
  }

  /** `count_padding`. An empty fill would make it recurse for ever; no table has one. */
  function CountPadding(base: bytes, fills: seq<bytes>): (p: Padding)
    requires forall f | f in fills :: f != []
    ensures p.count <= p.length <= |base|
    ensures p.count == 0 <==> forall f | f in fills :: !EndsWith(base, f)
    decreases |base|
  {
    var fill := MatchingFill(base, fills);
    if fill.None? then Padding(0, 0)
    else
      var rest := CountPadding(base[..|base| - |fill.value|], fills);
      Padding(1 + rest.count, |fill.value| + rest.length)
  }

  // Arithmetic on 24-bit groups. The source shifts and masks a uint32_t; no value
  // reaches 2^24, so a left shift is a product and a shift and mask is a division
  // and a remainder. The one bitwise OR joins operands that share no bit: a sum.

  function Triple(a: nat, b: nat, c: nat): nat {
    a * 0x10000 + b * 0x100 + c
  }

  function Quad(a: nat, b: nat, c: nat, d: nat): nat {
    a * 0x40000 + b * 0x1000 + c * 0x40 + d
  }

  function Sextet(triple: nat, k: nat): sextet
    requires k < 4
  {
    if k == 3 then triple / 0x40000 % 64
    else if k == 2 then triple / 0x1000 % 64
    else if k == 1 then triple / 0x40 % 64
    else triple % 64
  }

  function Byte(triple: nat, k: nat): (n: nat)
    requires k < 3
    ensures n < 256
  {
    if k == 2 then triple / 0x10000 % 256
    else if k == 1 then triple / 0x100 % 256
    else triple % 256
  }

  lemma QuadJoin(a: nat, b: nat, c: nat)
    ensures Quad(a, b, 0, 0) + c * 0x40 == Quad(a, b, c, 0)
  {
  }

  // Encoding.

  function Digits(bin: bytes, n: nat): (sextets: seq<sextet>)
    requires 1 <= |bin| && 1 <= n <= 4
    ensures |sextets| == n
  {
    var t := Triple(Code(bin[0]), if |bin| > 1 then Code(bin[1]) else 0, if |bin| > 2 then Code(bin[2]) else 0);
    seq(n, k requires 0 <= k < n => Sextet(t, 3 - k))
  }

  /** The 6-bit groups that stand for a byte string, fill excluded. */
  function Sextets(bin: bytes): (sextets: seq<sextet>)
    decreases |bin|
  {
    if |bin| == 0 then []
    else if |bin| < 3 then Digits(bin, |bin| + 1)
    else Digits(bin, 4) + Sextets(bin[3..])
  }

  function Letters(sextets: seq<sextet>, a: bytes): (s: bytes)
    requires |a| == 64
    ensures |s| == |sextets|
    ensures forall i | 0 <= i < |s| :: s[i] == a[sextets[i]]
  {
    seq(|sextets|, i requires 0 <= i < |sextets| => a[sextets[i]])
  }

  function Fills(fill: bytes, n: nat): bytes {
    if n == 0 then [] else fill + Fills(fill, n - 1)
  }

  /** How many fills an encoding of this many bytes ends with. */
  function FillCount(size: nat): (n: nat)
    ensures n <= 2
  {
    if size % 3 == 0 then 0 else 3 - size % 3
  }

  function Encoded(bin: bytes, a: bytes, fill: bytes): bytes
    requires |a| == 64
  {
    Letters(Sextets(bin), a) + Fills(fill, FillCount(|bin|))
  }

  lemma SextetsSplit(bin: bytes, i: nat)
    requires i + 3 <= |bin|
    ensures Sextets(bin[i..]) == Digits(bin[i..i + 3], 4) + Sextets(bin[i + 3..])
  {
    assert bin[i..][3..] == bin[i + 3..];
  }

  /** One step of the encoding loop. */
  lemma TripleStep(bin: bytes, i: nat, a: bytes, t: nat)
    requires |a| == 64 && i + 3 <= |bin|
    requires t == Triple(Code(bin[i]), Code(bin[i + 1]), Code(bin[i + 2]))
    ensures Letters(Sextets(bin[i..]), a)
         == [a[Sextet(t, 3)], a[Sextet(t, 2)], a[Sextet(t, 1)], a[Sextet(t, 0)]] + Letters(Sextets(bin[i + 3..]), a)
  {
    SextetsSplit(bin, i);
    assert Digits(bin[i..i + 3], 4) == [Sextet(t, 3), Sextet(t, 2), Sextet(t, 1), Sextet(t, 0)];
  }

  /** What is left after the loop: two letters for one byte, three for two. */
  lemma EncodeTail(bin: bytes, i: nat, a: bytes, t: nat)
    requires |a| == 64 && i < |bin| < i + 3
    requires t == Triple(Code(bin[i]), if i + 1 < |bin| then Code(bin[i + 1]) else 0, 0)
    ensures Letters(Sextets(bin[i..]), a)
         == [a[Sextet(t, 3)], a[Sextet(t, 2)]] + if i + 1 < |bin| then [a[Sextet(t, 1)]] else []
  {
    var rest := bin[i..];
    assert Sextets(rest) == Digits(rest, |rest| + 1);
  }

  lemma FillsUnfold(fill: bytes)
    ensures Fills(fill, 0) == [] && Fills(fill, 1) == fill && Fills(fill, 2) == fill + fill
    ensures Fills(fill, 3) == fill + fill + fill
  {
    assert Fills(fill, 1) == fill + Fills(fill, 0) && Fills(fill, 2) == fill + Fills(fill, 1);
  }

  /** The loop of `details::encode`: whole groups of three. */
  method EncodeGroups(bin: bytes, groups: nat, a: bytes) returns (res: bytes)
    requires |a| == 64 && 3 * groups <= |bin|
    ensures res + Letters(Sextets(bin[3 * groups..]), a) == Letters(Sextets(bin), a)
  {
    hide Sextet, Triple, Letters, Sextets;
    res := [];
    var i := 0;
    ghost var done, all := 0, Letters(Sextets(bin), a);
    while i < 3 * groups
      invariant i == 3 * done <= 3 * groups
      invariant res + Letters(Sextets(bin[i..]), a) == all
    {
      assert done < groups;
      var octetA, octetB, octetC := Code(bin[i]), Code(bin[i + 1]), Code(bin[i + 2]);
      var triple := Triple(octetA, octetB, octetC);
      ghost var before, after := res, Letters(Sextets(bin[i + 3..]), a);
      TripleStep(bin, i, a, triple);
      res := res + [a[Sextet(triple, 3)]];
      res := res + [a[Sextet(triple, 2)]];
      res := res + [a[Sextet(triple, 1)]];
      res := res + [a[Sextet(triple, 0)]];
      Regroup4(before, a[Sextet(triple, 3)], a[Sextet(triple, 2)], a[Sextet(triple, 1)], a[Sextet(triple, 0)], after);
      i, done := i + 3, done + 1;
    }
  }

  lemma Regroup4(x: bytes, a: octet, b: octet, c: octet, d: octet, y: bytes)
    ensures x + [a] + [b] + [c] + [d] + y == x + ([a, b, c, d] + y)
  {
  }

  lemma Regroup3(x: bytes, a: octet, b: octet, c: octet, y: bytes)
    ensures x + [a] + [b] + [c] + y == x + ([a, b, c] + y)
  {
  }

  /** `details::encode`. */
  method Encode(bin: bytes, a: bytes, fill: bytes) returns (res: bytes)
    requires |a| == 64
    ensures res == Encoded(bin, a, fill)
  {
    hide Sextet, Triple, Letters, Sextets;
    var size := |bin|;
    var fastSize := size - size % 3;
    res := EncodeGroups(bin, size / 3, a);
    FillsUnfold(fill);
    ghost var letters := Letters(Sextets(bin), a);
    if fastSize == size {
      assert bin[fastSize..] == [];
      NoLetters(a);
      assert res == letters == letters + [];
      return;
    }
    var mod := size % 3;
    var octetA := Code(bin[fastSize]);
    var octetB := if fastSize + 1 < size then Code(bin[fastSize + 1]) else 0;
    var triple := Triple(octetA, octetB, 0); // the third octet is always missing here
    EncodeTail(bin, fastSize, a, triple);
    res := res + [a[Sextet(triple, 3)]];
    res := res + [a[Sextet(triple, 2)]];
    if mod == 1 {
      assert res == letters;
      res := res + fill;
      res := res + fill;
      assert res == letters + (fill + fill);
    } else {
      res := res + [a[Sextet(triple, 1)]];
      assert res == letters;
      res := res + fill;
    }
  }

  lemma NoLetters(a: bytes)
    requires |a| == 64
    ensures Letters(Sextets([]), a) == []
  {
  }

  // Decoding.

  function Values(body: bytes, a: bytes): (sextets: seq<sextet>)
    requires Over(body, a) && |a| == 64
    ensures |sextets| == |body|
    ensures forall i | 0 <= i < |body| :: sextets[i] == Index(a, body[i]).value && a[sextets[i]] == body[i]
  {
    seq(|body|, i requires 0 <= i < |body| => Index(a, body[i]).value)
  }

  /** The bytes of one group of two, three or four sextets. */
  function GroupBytes(sextets: seq<sextet>): (bin: bytes)
    requires 2 <= |sextets| <= 4
    ensures |bin| == |sextets| - 1
  {
    var t := Quad(sextets[0], sextets[1],
                  if |sextets| > 2 then sextets[2] else 0, if |sextets| > 3 then sextets[3] else 0);
    seq(|sextets| - 1, k requires 0 <= k < |sextets| - 1 => Octet(Byte(t, 2 - k)))
  }

  /** The bytes of a run of sextets, four to a group; one left over carries no byte. */
  function BytesOf(sextets: seq<sextet>): (bin: bytes)
    decreases |sextets|
  {
    if |sextets| < 2 then []
    else if |sextets| < 4 then GroupBytes(sextets)
    else GroupBytes(sextets[..4]) + BytesOf(sextets[4..])
  }

  ghost function Decoded(base: bytes, a: bytes, fills: seq<bytes>): Result<bytes, Error>
    requires |a| == 64 && forall f | f in fills :: f != []
  {
    var pad := CountPadding(base, fills);
    var body := base[..|base| - pad.length];
    if pad.count > 2 then Err(TooMuchFill)
    else if (|body| + pad.count) % 4 != 0 then Err(IncorrectTotalSize)
    else if Over(body, a) then Ok(BytesOf(Values(body, a)))
    else Err(NotWithinAlphabet)
  }

  lemma GroupOfFour(v: seq<sextet>, t: nat)
    requires |v| == 4 && t == Quad(v[0], v[1], v[2], v[3])
    ensures GroupBytes(v) == [Octet(Byte(t, 2)), Octet(Byte(t, 1)), Octet(Byte(t, 0))]
  {
    hide Byte, Quad;
  }

  /** One step of the decoding loop. */
  lemma GroupStep(body: bytes, a: bytes, i: nat, t: nat)
    requires |a| == 64 && Over(body, a) && i + 4 <= |body|
    requires body[i] in a && body[i + 1] in a && body[i + 2] in a && body[i + 3] in a
    requires t == Quad(Index(a, body[i]).value, Index(a, body[i + 1]).value,
                       Index(a, body[i + 2]).value, Index(a, body[i + 3]).value)
    ensures BytesOf(Values(body, a)[i..])
         == [Octet(Byte(t, 2)), Octet(Byte(t, 1)), Octet(Byte(t, 0))] + BytesOf(Values(body, a)[i + 4..])
  {
    hide Byte, Quad, Over, GroupBytes;
    var v := Values(body, a);
    assert v[i..][..4] == v[i..i + 4] && v[i..][4..] == v[i + 4..];
    GroupOfFour(v[i..i + 4], t);
  }

  /** What is left after the loop: one byte for two sextets, two for three. */
  lemma DecodeTail(v: seq<sextet>, t: nat)
    requires 2 <= |v| <= 3 && t == Quad(v[0], v[1], if |v| > 2 then v[2] else 0, 0)
    ensures BytesOf(v) == [Octet(Byte(t, 2))] + if |v| > 2 then [Octet(Byte(t, 1))] else []
  {
  }

  lemma ValueAt(body: bytes, a: bytes, i: nat)
    requires Over(body, a) && |a| == 64 && i < |body|
    ensures Values(body, a)[i] == Index(a, body[i]).value
  {
  }

  lemma Stray(body: bytes, a: bytes, i: nat)
    requires i < |body| && body[i] !in a
    ensures !Over(body, a)
  {
    assert body[i] in body;
  }

  lemma AllInAlphabet(body: bytes, a: bytes)
    requires forall k | 0 <= k < |body| :: body[k] in a
    ensures Over(body, a)
  {
  }

  lemma OverSplit(body: bytes, k: nat, a: bytes)
    requires k <= |body| && |a| == 64
    ensures Over(body, a) <==> Over(body[..k], a) && Over(body[k..], a)
    ensures Over(body, a) ==> Values(body, a)[..k] == Values(body[..k], a)
                              && Values(body, a)[k..] == Values(body[k..], a)
  {
    assert body == body[..k] + body[k..];
  }

  lemma BytesOfGroup(v: seq<sextet>)
    requires |v| >= 4
    ensures BytesOf(v) == GroupBytes(v[..4]) + BytesOf(v[4..])
  {
    hide GroupBytes;
  }

  lemma {:induction false} BytesOfSplit(v: seq<sextet>, groups: nat)
    requires 4 * groups <= |v|
    ensures BytesOf(v) == BytesOf(v[..4 * groups]) + BytesOf(v[4 * groups..])
    decreases groups
  {
    hide GroupBytes, BytesOf;
    var whole, rest := v[..4 * groups], v[4 * groups..];
    if groups == 0 {
      NoBytes();
      assert whole == [] && rest == v;
    } else {
      BytesOfSplit(v[4..], groups - 1);
      BytesOfGroup(v);
      BytesOfGroup(whole);
      assert whole[..4] == v[..4] && whole[4..] == v[4..][..4 * (groups - 1)] && rest == v[4..][4 * (groups - 1)..];
    }
  }

  lemma NoBytes()
    ensures BytesOf([]) == []
  {
  }

  /** How the characters left after the last whole group go with the number of fills. */
  lemma LeftOver(size: nat, count: nat)
    requires count <= 2 && (size + count) % 4 == 0
    ensures size == 4 * (size / 4) + (if count == 0 then 0 else 4 - count)
    ensures size - size % 4 == 4 * (size / 4)
  {
  }

  /** One turn of the decoding loop, on what is decoded so far. */
  lemma DecodeTurn(res: bytes, body: bytes, a: bytes, i: nat, t: nat)
    requires |a| == 64 && Over(body, a) && i + 4 <= |body|
    requires body[i] in a && body[i + 1] in a && body[i + 2] in a && body[i + 3] in a
    requires t == Quad(Index(a, body[i]).value, Index(a, body[i + 1]).value,
                       Index(a, body[i + 2]).value, Index(a, body[i + 3]).value)
    requires res + BytesOf(Values(body, a)[i..]) == BytesOf(Values(body, a))
    ensures res + [Octet(Byte(t, 2))] + [Octet(Byte(t, 1))] + [Octet(Byte(t, 0))] + BytesOf(Values(body, a)[i + 4..])
         == BytesOf(Values(body, a))
  {
    hide Byte, Quad, Over, Values, BytesOf;
    GroupStep(body, a, i, t);
    Regroup3(res, Octet(Byte(t, 2)), Octet(Byte(t, 1)), Octet(Byte(t, 0)), BytesOf(Values(body, a)[i + 4..]));
  }

  /** The loop of `details::decode`: whole groups of four. */
  method DecodeGroups(base: bytes, groups: nat, a: bytes) returns (r: Option<bytes>)
    requires |a| == 64 && 4 * groups <= |base|
    ensures r == if Over(base[..4 * groups], a) then Some(BytesOf(Values(base[..4 * groups], a))) else None
  {
    hide Byte, Quad, Over, Values, BytesOf;
    ghost var body := base[..4 * groups];
    var res: bytes := [];
    var i := 0;
    ghost var done := 0;
    while i < 4 * groups
      invariant i == 4 * done <= 4 * groups
      invariant forall k | 0 <= k < i :: body[k] in a
      invariant Over(body, a) ==> res + BytesOf(Values(body, a)[i..]) == BytesOf(Values(body, a))
    {
      assert done < groups;
      var sextetA, sextetB := Index(a, base[i]), Index(a, base[i + 1]);
      var sextetC, sextetD := Index(a, base[i + 2]), Index(a, base[i + 3]);
      if sextetA.None? || sextetB.None? || sextetC.None? || sextetD.None? {
        Stray(body, a, i + if sextetA.None? then 0 else if sextetB.None? then 1 else if sextetC.None? then 2 else 3);
        return None;
      }
      var triple := Quad(sextetA.value, sextetB.value, sextetC.value, sextetD.value);
      if Over(body, a) { DecodeTurn(res, body, a, i, triple); }
      res := res + [Octet(Byte(triple, 2))];
      res := res + [Octet(Byte(triple, 1))];
      res := res + [Octet(Byte(triple, 0))];
      i, done := i + 4, done + 1;
    }
    AllInAlphabet(body, a);
    NoBytes();
    assert Values(body, a)[i..] == [] && res + [] == res;
    return Some(res);
  }

  /** The end of `details::decode`: the two or three characters before the fill. */
  method DecodeRest(base: bytes, from: nat, count: nat, a: bytes) returns (r: Option<bytes>)
    requires |a| == 64 && 1 <= count <= 2 && from + (4 - count) <= |base|
    ensures var rest := base[from..from + (4 - count)];
            r == if Over(rest, a) then Some(BytesOf(Values(rest, a))) else None
  {
    hide Byte, Quad, Over, Values;
    ghost var rest := base[from..from + (4 - count)];
    var sextetA, sextetB := Index(a, base[from]), Index(a, base[from + 1]);
    if sextetA.None? { Stray(rest, a, 0); return None; }
    if sextetB.None? { Stray(rest, a, 1); return None; }
    var triple := Quad(sextetA.value, sextetB.value, 0, 0);
    if count == 1 {
      var sextetC := Index(a, base[from + 2]);
      if sextetC.None? { Stray(rest, a, 2); return None; }
      QuadJoin(sextetA.value, sextetB.value, sextetC.value);
      triple := triple + sextetC.value * 0x40;
      AllInAlphabet(rest, a);
      ValueAt(rest, a, 0);
      ValueAt(rest, a, 1);
      ValueAt(rest, a, 2);
      DecodeTail(Values(rest, a), triple);
      r := Some([Octet(Byte(triple, 2))] + [Octet(Byte(triple, 1))]);
    } else {
      AllInAlphabet(rest, a);
      ValueAt(rest, a, 0);
      ValueAt(rest, a, 1);
      DecodeTail(Values(rest, a), triple);
      r := Some([Octet(Byte(triple, 2))]);
      assert [Octet(Byte(triple, 2))] + [] == [Octet(Byte(triple, 2))];
    }
  }

  /** `details::decode`. Every read of the input is in bounds. */
  method Decode(base: bytes, a: bytes, fills: seq<bytes>) returns (r: Result<bytes, Error>)
    requires |a| == 64 && forall f | f in fills :: f != []
    ensures r == Decoded(base, a, fills)
  {
    hide BytesOf, Over, Values, CountPadding, MatchingFill;
    var pad := CountPadding(base, fills);
    if pad.count > 2 { return Err(TooMuchFill); }
    var size := |base| - pad.length;
    if (size + pad.count) % 4 != 0 { return Err(IncorrectTotalSize); }
    LeftOver(size, pad.count);
    ghost var body := base[..size];
    var groups := size / 4;
    var whole := DecodeGroups(base, groups, a);
    OverSplit(body, 4 * groups, a);
    assert base[..4 * groups] == body[..4 * groups];
    if whole.None? { return Err(NotWithinAlphabet); }
    if pad.count == 0 {
      assert body[..4 * groups] == body;
      return Ok(whole.value);
    }
    var rest := DecodeRest(base, 4 * groups, pad.count, a);
    assert base[4 * groups..size] == body[4 * groups..];
    if rest.None? { return Err(NotWithinAlphabet); }
    BytesOfSplit(Values(body, a), groups);
    return Ok(whole.value + rest.value);
  }

  /** `details::pad`: the switch falls through, one more fill for each step. */
  method Pad(base: bytes, fill: bytes) returns (r: bytes)
    ensures r == Padded(base, fill)
  {
    var padding: bytes := [];
    var rest := |base| % 4;
    if rest == 1 { padding := padding + fill; }
    if rest == 1 || rest == 2 { padding := padding + fill; }
    if rest == 1 || rest == 2 || rest == 3 { padding := padding + fill; }
    FillsUnfold(fill);
    r := base + padding;
  }

  function Padded(base: bytes, fill: bytes): bytes {
    base + Fills(fill, (4 - |base| % 4) % 4)
  }

  /** `details::trim`: everything before the first fill. */
  function Trimmed(base: bytes, fill: bytes): bytes {
    var pos := Find(base, fill, 0);
    if pos.Some? then base[..pos.value] else base
  }
}
