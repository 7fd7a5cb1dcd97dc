/** `websocket_session::url_decode`, and what it undoes: RFC 3986, section 2.1, with '+' for a space. */
module UrlDecoding {
  import opened Octets

  /** `std::isxdigit`. */
  predicate IsHexDigit(c: octet) {
    '0' <= c <= '9' || 'a' <= c <= 'f' || 'A' <= c <= 'F'
  }

  /** The digit value that `std::stoi` with base 16 gives a character. */
  function HexValue(c: octet): (n: nat)
    requires IsHexDigit(c)
    ensures n < 16
  {
    if c <= '9' then Code(c) - 48
    else if c <= 'F' then Code(c) - 55
    else Code(c) - 87
  }

  /** A percent sign that two hexadecimal digits follow. */
  predicate IsEscape(s: bytes, i: nat) {
    i + 2 < |s| && s[i] == '%' && IsHexDigit(s[i + 1]) && IsHexDigit(s[i + 2])
  }

  function Escaped(hi: octet, lo: octet): octet
    requires IsHexDigit(hi) && IsHexDigit(lo)
  {
    Octet(HexValue(hi) * 16 + HexValue(lo))
  }

  function UrlDecoded(input: bytes): bytes
    decreases |input|
  {
    if input == [] then []
    else if IsEscape(input, 0) then [Escaped(input[1], input[2])] + UrlDecoded(input[3..])
    else [if input[0] == '+' then ' ' else input[0]] + UrlDecoded(input[1..])
  }

  /** One step of the loop. */
  lemma UrlStep(s: bytes, i: nat)
    requires i < |s|
    ensures UrlDecoded(s[i..])
         == if IsEscape(s, i) then [Octet(HexValue(s[i + 1]) * 16 + HexValue(s[i + 2]))] + UrlDecoded(s[i + 3..])
            else [if s[i] == '+' then ' ' else s[i]] + UrlDecoded(s[i + 1..])
  {
    hide HexValue, IsHexDigit;
    var rest := s[i..];
    assert rest[1..] == s[i + 1..];
    if IsEscape(s, i) { assert rest[3..] == s[i + 3..]; }
  }

  lemma Regroup(x: bytes, c: octet, y: bytes)
    ensures x + [c] + y == x + ([c] + y)
  {
  }

  lemma NothingLeft(s: bytes)
    ensures UrlDecoded(s[|s|..]) == []
  {
  }

  /** `url_decode`. */
  method UrlDecode(input: bytes) returns (result: bytes)
    ensures result == UrlDecoded(input)
  {
    hide UrlDecoded, HexValue, IsHexDigit;
    result := [];
    var i := 0;
    while i < |input|
      invariant 0 <= i <= |input|
      invariant result + UrlDecoded(input[i..]) == UrlDecoded(input)
    {
      ghost var before := result;
      UrlStep(input, i);
      if input[i] == '%' && i + 2 < |input| && IsHexDigit(input[i + 1]) && IsHexDigit(input[i + 2]) {
        result := result + [Octet(HexValue(input[i + 1]) * 16 + HexValue(input[i + 2]))];
        i := i + 2;
      } else if input[i] == '+' {
        result := result + [' '];
      } else {
        result := result + [input[i]];
      }
      i := i + 1;
      Regroup(before, result[|before|], UrlDecoded(input[i..]));
    }
    NothingLeft(input);
  }

  // Encodings of a string, piece by piece.

  datatype Piece = Plain(c: octet) | Plus | Percent(hi: octet, lo: octet)

  /** A piece of a well-formed encoding: '%' and '+' never stand for themselves. */
  predicate WellFormed(p: Piece) {
    match p
    case Plain(c) => c != '%' && c != '+'
    case Plus => true
    case Percent(hi, lo) => IsHexDigit(hi) && IsHexDigit(lo)
  }

  predicate AllWellFormed(ps: seq<Piece>) {
    forall i | 0 <= i < |ps| :: WellFormed(ps[i])
  }

  function Written(ps: seq<Piece>): bytes {
    if ps == [] then []
    else (match ps[0]
          case Plain(c) => [c]
          case Plus => ['+']
          case Percent(hi, lo) => ['%', hi, lo]) + Written(ps[1..])
  }

  function Meant(ps: seq<Piece>): bytes
    requires AllWellFormed(ps)
  {
    if ps == [] then []
    else [match ps[0]
          case Plain(c) => c
          case Plus => ' '
          case Percent(hi, lo) => Escaped(hi, lo)] + Meant(ps[1..])
  }

  /** `url_decode` left-inverts percent-encoding, whichever characters were escaped and in whichever case. */
  lemma {:induction false} DecodeUndoesEncoding(ps: seq<Piece>)
    requires AllWellFormed(ps)
    ensures UrlDecoded(Written(ps)) == Meant(ps)
  {
    if ps != [] {
      var s, rest := Written(ps), Written(ps[1..]);
      DecodeUndoesEncoding(ps[1..]);
      if ps[0].Percent? {
        assert s == ['%', ps[0].hi, ps[0].lo] + rest && s[3..] == rest;
      } else {
        assert s[1..] == rest;
      }
    }
  }

  const HEX_UPPER: bytes := "0123456789ABCDEF"
  const HEX_LOWER: bytes := "0123456789abcdef"

  /** The digits and what they are worth: sixteen values, in either case. */
  lemma HexDigits(n: nat)
    requires n < 16
    ensures IsHexDigit(HEX_UPPER[n]) && HexValue(HEX_UPPER[n]) == n
    ensures IsHexDigit(HEX_LOWER[n]) && HexValue(HEX_LOWER[n]) == n
  {
    assert Code(HEX_UPPER[n]) == if n < 10 then 48 + n else 55 + n;
    assert Code(HEX_LOWER[n]) == if n < 10 then 48 + n else 87 + n;
  }

  /** There are no other digits. */
  lemma NoOtherDigits(c: octet)
    requires IsHexDigit(c)
    ensures c == HEX_UPPER[HexValue(c)] || c == HEX_LOWER[HexValue(c)]
  {
    var n := HexValue(c);
    assert Code(HEX_UPPER[n]) == if n < 10 then 48 + n else 55 + n;
    assert Code(HEX_LOWER[n]) == if n < 10 then 48 + n else 87 + n;
    if Code(c) == Code(HEX_UPPER[n]) { CodeInjective(c, HEX_UPPER[n]); } else { CodeInjective(c, HEX_LOWER[n]); }
  }

  function HexDigit(n: nat, upper: bool): octet
    requires n < 16
  {
    if upper then HEX_UPPER[n] else HEX_LOWER[n]
  }

  /** An octet escaped, each digit in the case asked for. */
  function Escape(c: octet, case0: bool, case1: bool): Piece {
    Percent(HexDigit(Code(c) / 16, case0), HexDigit(Code(c) % 16, case1))
  }

  /** One encoding of any string: every octet escaped, with a choice of case for each digit. */
  function EscapeAll(s: bytes, cases: seq<(bool, bool)>): (ps: seq<Piece>)
    requires |cases| == |s|
    ensures |ps| == |s| && forall i | 0 <= i < |s| :: ps[i] == Escape(s[i], cases[i].0, cases[i].1)
  {
    seq(|s|, i requires 0 <= i < |s| => Escape(s[i], cases[i].0, cases[i].1))
  }

  lemma EscapeIsWellFormed(c: octet, case0: bool, case1: bool)
    ensures var p := Escape(c, case0, case1); WellFormed(p) && Escaped(p.hi, p.lo) == c
  {
    hide IsHexDigit, HexValue;
    HexDigits(Code(c) / 16);
    HexDigits(Code(c) % 16);
    var p := Escape(c, case0, case1);
    CodeInjective(Escaped(p.hi, p.lo), c);
  }

  /** Every string is the decoding of its encodings in upper, lower and mixed case. */
  lemma EveryStringHasAnEncoding(s: bytes, cases: seq<(bool, bool)>)
    requires |cases| == |s|
    ensures AllWellFormed(EscapeAll(s, cases)) && UrlDecoded(Written(EscapeAll(s, cases))) == s
  {
    hide UrlDecoded, Written, Meant;
    MeantByEscapeAll(s, cases);
    DecodeUndoesEncoding(EscapeAll(s, cases));
  }

  lemma {:induction false} MeantByEscapeAll(s: bytes, cases: seq<(bool, bool)>)
    requires |cases| == |s|
    ensures AllWellFormed(EscapeAll(s, cases)) && Meant(EscapeAll(s, cases)) == s
  {
    hide Escape, WellFormed, Escaped;
    forall i | 0 <= i < |s|
      ensures WellFormed(EscapeAll(s, cases)[i])
    {
      EscapeIsWellFormed(s[i], cases[i].0, cases[i].1);
    }
    if s != [] {
      MeantByEscapeAll(s[1..], cases[1..]);
      assert EscapeAll(s, cases)[1..] == EscapeAll(s[1..], cases[1..]);
      EscapeIsWellFormed(s[0], cases[0].0, cases[0].1);
      EscapeIsPercent(s[0], cases[0].0, cases[0].1);
    }
  }

  lemma EscapeIsPercent(c: octet, case0: bool, case1: bool)
    ensures Escape(c, case0, case1).Percent?
  {
  }

  /** A percent sign that two digits do not follow, at the end of the string too, stands for itself. */
  lemma BrokenEscapeStands(s: bytes)
    requires |s| >= 3 ==> !(s[1] in HEX_UPPER + HEX_LOWER && s[2] in HEX_UPPER + HEX_LOWER)
    requires s != [] && s[0] == '%'
    ensures UrlDecoded(s) == ['%'] + UrlDecoded(s[1..])
  {
    hide HEX_UPPER, HEX_LOWER, HexValue, IsHexDigit;
    if IsEscape(s, 0) {
      HexConstants();
      NoOtherDigits(s[1]);
      NoOtherDigits(s[2]);
    }
  }

  lemma HexConstants()
    ensures |HEX_UPPER| == |HEX_LOWER| == 16
  {
  }

  /** A string with neither '%' nor '+' is its own decoding. */
  lemma {:induction false} NothingToDecode(s: bytes)
    requires '%' !in s && '+' !in s
    ensures UrlDecoded(s) == s
  {
    if s != [] { NothingToDecode(s[1..]); }
  }

  /** The encoding that escapes nothing. */
  function Unescaped(s: bytes): (ps: seq<Piece>)
    ensures |ps| == |s| && forall i | 0 <= i < |s| :: ps[i] == Plain(s[i])
  {
    seq(|s|, i requires 0 <= i < |s| => Plain(s[i]))
  }

  /** A string with neither '%' nor '+' is one of its own encodings. */
  lemma {:induction false} StandsForItself(s: bytes)
    requires '%' !in s && '+' !in s
    ensures AllWellFormed(Unescaped(s)) && Written(Unescaped(s)) == s && Meant(Unescaped(s)) == s
  {
    if s != [] {
      StandsForItself(s[1..]);
      assert Unescaped(s)[1..] == Unescaped(s[1..]);
      assert s[0] in s && [s[0]] + s[1..] == s;
    }
  }

  /** No escape reaches over a character that is neither '%' nor a digit; it stands for itself, or '+' for a space. */
  lemma {:induction false} DecodesAround(x: bytes, c: octet, y: bytes)
    requires c != '%' && !IsHexDigit(c)
    ensures UrlDecoded(x + [c] + y) == UrlDecoded(x) + [if c == '+' then ' ' else c] + UrlDecoded(y)
    decreases |x|
  {
    hide IsHexDigit, Escaped;
    var s := x + [c] + y;
    if x == [] {
      assert s[1..] == y;
    } else if IsEscape(s, 0) {
      assert s[3..] == x[3..] + [c] + y;
      DecodesAround(x[3..], c, y);
    } else {
      assert s[1..] == x[1..] + [c] + y;
      DecodesAround(x[1..], c, y);
    }
  }
}
