/** The C++ character type and the result types shared by every other module. */
module Octets {

  /** A C++ `char`, read as an unsigned octet, so that string literals stay usable. */
  type octet = c: char | c as int < 256 witness 'A'

  /** A `std::string`. */
  type bytes = seq<octet>

  const UPPER: bytes := "ABCDEFGHIJKLMNOPQRSTUVWXYZ"
  const LOWER: bytes := "abcdefghijklmnopqrstuvwxyz"
  const DIGITS: bytes := "0123456789"

  datatype Option<+T> = None | Some(value: T)

  datatype Result<+T, +E> = Ok(value: T) | Err(error: E)

  /** `static_cast<unsigned char>(c)`. */
  function Code(c: octet): (n: nat)
    ensures n < 256
  {
    c as int
  }

  /** `static_cast<char>(n)` for a value that already fits in eight bits. */
  function Octet(n: nat): (c: octet)
    requires n < 256
    ensures Code(c) == n
  {
    n as char
  }

  /** A character code determines the character. */
  lemma CodeInjective(c: octet, d: octet)
    requires Code(c) == Code(d)
    ensures c == d
  {
    assert c == c as int as char;
    assert d == d as int as char;
  }

  /** `s.substr(s.size() - t.size()) == t`, for a `t` no longer than `s`. */
  predicate EndsWith(s: bytes, t: bytes) {
    |t| <= |s| && s[|s| - |t|..] == t
  }

  predicate OccursAt(s: bytes, t: bytes, p: nat) {
    p + |t| <= |s| && s[p..p + |t|] == t
  }

  /** `std::string::find`: the first position at or after `from` where `t` occurs. */
  function Find(s: bytes, t: bytes, from: nat): (pos: Option<nat>)
    ensures pos.Some? ==> from <= pos.value && OccursAt(s, t, pos.value)
                          && forall p | from <= p < pos.value :: !OccursAt(s, t, p)
    ensures pos.None? ==> forall p | from <= p :: !OccursAt(s, t, p)
    decreases |s| - from
  {
    if from + |t| > |s| then None
    else if OccursAt(s, t, from) then Some(from)
    else Find(s, t, from + 1)
  }

  /** Where a given first occurrence is, `Find` returns it. */
  lemma FindIs(s: bytes, t: bytes, from: nat, p: nat)
    requires from <= p && OccursAt(s, t, p) && forall q | from <= q < p :: !OccursAt(s, t, q)
    ensures Find(s, t, from) == Some(p)
  {
  }
}
