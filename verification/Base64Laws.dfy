/** What the codec of base.h promises: RFC 4648, sections 3.5, 4 and 5. */
module Base64Laws {
  import opened Octets
  import opened Base64

  // The three tables of the header.

  function LetterCode(i: nat, c62: octet, c63: octet): octet
    requires i < 64
  {
    if i < 26 then Octet(65 + i) else if i < 52 then Octet(71 + i) else if i < 62 then Octet(i - 4)
    else if i == 62 then c62 else c63
  }

  lemma Ranges(i: nat)
    requires i < 26
    ensures UPPER[i] == Octet(65 + i) && LOWER[i] == Octet(97 + i) && (i < 10 ==> DIGITS[i] == Octet(48 + i))
  {
  }

  lemma TableEntry(i: nat)
    requires i < 64
    ensures |STANDARD| == |URL_SAFE| == 64
    ensures STANDARD[i] == LetterCode(i, '+', '/') && URL_SAFE[i] == LetterCode(i, '-', '_')
  {
    if i < 62 { Ranges(if i < 26 then i else if i < 52 then i - 26 else i - 52); }
  }

  lemma LetterCodesDiffer(i: nat, j: nat, c62: octet, c63: octet)
    requires i < j < 64 && c62 != c63 && Code(c62) < 48 && (Code(c63) < 48 || c63 == '_')
    ensures LetterCode(i, c62, c63) != LetterCode(j, c62, c63)
  {
    assert Code(LetterCode(i, c62, c63)) != Code(LetterCode(j, c62, c63));
  }

  /** The characters that mark fills, dots and spaces are in neither table. */
  lemma NotALetter(i: nat, c: octet)
    requires i < 64 && c in ['=', '%', '.']
    ensures LetterCode(i, '+', '/') != c && LetterCode(i, '-', '_') != c && LetterCode(i, '-', '_') != '+'
  {
    assert Code(LetterCode(i, '+', '/')) != Code(c) && Code(LetterCode(i, '-', '_')) != Code(c);
    assert Code(LetterCode(i, '-', '_')) != Code('+');
  }

  lemma TablesAreAlphabets()
    ensures IsAlphabet(STANDARD) && IsAlphabet(URL_SAFE)
  {
    hide STANDARD, URL_SAFE, LetterCode;
    TableEntry(0);
    forall i, j | 0 <= i < j < 64
      ensures STANDARD[i] != STANDARD[j] && URL_SAFE[i] != URL_SAFE[j]
    {
      TableEntry(i);
      TableEntry(j);
      LetterCodesDiffer(i, j, '+', '/');
      LetterCodesDiffer(i, j, '-', '_');
    }
  }

  lemma OutsideTables(c: octet)
    requires c in ['=', '%', '.']
    ensures c !in STANDARD && c !in URL_SAFE && '+' !in URL_SAFE
  {
    TableEntry(0);
    forall i | 0 <= i < 64
      ensures STANDARD[i] != c && URL_SAFE[i] != c && URL_SAFE[i] != '+'
    {
      TableEntry(i);
      NotALetter(i, c);
    }
  }

  /** Both tables list 64 distinct characters, and no fill could be mistaken for encoded text. */
  lemma Tables()
    ensures IsScheme(STANDARD, [STANDARD_FILL])
    ensures IsScheme(URL_SAFE, [URL_FILL])
    ensures IsScheme(URL_SAFE, PERCENT_FILLS)
  {
    hide STANDARD, URL_SAFE;
    TablesAreAlphabets();
    OutsideTables('=');
    OutsideTables('%');
    assert STANDARD_FILL[0] == '=' && URL_FILL[0] == PERCENT_FILLS[0][0] == PERCENT_FILLS[1][0] == '%';
  }

  // 24-bit groups.

  lemma MultipleBound(k: int, d: nat)
    ensures k >= 1 ==> k * d >= d
    ensures k <= -1 ==> k * d + d <= 0
  {
  }

  lemma Division(q: nat, r: nat, d: nat, x: nat)
    requires r < d && x == q * d + r
    ensures x / d == q && x % d == r
  {
    MultipleBound(x / d - q, d);
    assert (x / d - q) * d == r - x % d;
  }

  /** A group read as four digits in base 64. */
  lemma SextetsOfQuad(a: nat, b: nat, c: nat, d: nat, t: nat)
    requires a < 64 && b < 64 && c < 64 && d < 64 && t == Quad(a, b, c, d)
    ensures Sextet(t, 3) == a && Sextet(t, 2) == b && Sextet(t, 1) == c && Sextet(t, 0) == d
  {
    Division(a, b * 0x1000 + c * 0x40 + d, 0x40000, t);
    Division(a * 64 + b, c * 0x40 + d, 0x1000, t);
    Division((a * 64 + b) * 64 + c, d, 0x40, t);
    Division(a, b, 64, a * 64 + b);
    Division(a * 64 + b, c, 64, (a * 64 + b) * 64 + c);
  }

  /** A group read as three digits in base 256. */
  lemma BytesOfTriple(a: nat, b: nat, c: nat, t: nat)
    requires a < 256 && b < 256 && c < 256 && t == Triple(a, b, c)
    ensures Byte(t, 2) == a && Byte(t, 1) == b && Byte(t, 0) == c
  {
    Division(a, b * 0x100 + c, 0x10000, t);
    Division(a * 256 + b, c, 0x100, t);
    Division(a, b, 256, a * 256 + b);
  }

  /** Three octets regrouped as four sextets. */
  lemma Regrouped(a: nat, b: nat, c: nat, t: nat)
    requires a < 256 && b < 256 && c < 256 && t == Triple(a, b, c)
    ensures t == Quad(Sextet(t, 3), Sextet(t, 2), Sextet(t, 1), Sextet(t, 0))
    ensures Sextet(t, 3) == a / 4 && Sextet(t, 2) == a % 4 * 16 + b / 16
    ensures Sextet(t, 1) == b % 16 * 4 + c / 64 && Sextet(t, 0) == c % 64
  {
    SextetsOfQuad(a / 4, a % 4 * 16 + b / 16, b % 16 * 4 + c / 64, c % 64, t);
  }

  /** Four sextets regrouped as three octets. */
  lemma Ungrouped(a: nat, b: nat, c: nat, d: nat, t: nat)
    requires a < 64 && b < 64 && c < 64 && d < 64 && t == Quad(a, b, c, d)
    ensures t == Triple(Byte(t, 2), Byte(t, 1), Byte(t, 0))
    ensures Byte(t, 2) == a * 4 + b / 16 && Byte(t, 1) == b % 16 * 16 + c / 4 && Byte(t, 0) == c % 4 * 64 + d
  {
    BytesOfTriple(a * 4 + b / 16, b % 16 * 16 + c / 4, c % 4 * 64 + d, t);
  }

  /** The sextets of a group, one by one. */
  lemma DigitsAre(bin: bytes, n: nat, t: nat)
    requires 1 <= |bin| && 2 <= n <= 4
    requires t == Triple(Code(bin[0]), if |bin| > 1 then Code(bin[1]) else 0, if |bin| > 2 then Code(bin[2]) else 0)
    ensures Digits(bin, n)[0] == Sextet(t, 3) && Digits(bin, n)[1] == Sextet(t, 2)
    ensures n > 2 ==> Digits(bin, n)[2] == Sextet(t, 1)
    ensures n > 3 ==> Digits(bin, n)[3] == Sextet(t, 0)
  {
    hide Sextet, Triple;
  }

  /** The bytes of a group, one by one. */
  lemma GroupBytesAre(v: seq<sextet>, t: nat)
    requires 2 <= |v| <= 4 && t == Quad(v[0], v[1], if |v| > 2 then v[2] else 0, if |v| > 3 then v[3] else 0)
    ensures Code(GroupBytes(v)[0]) == Byte(t, 2)
    ensures |v| > 2 ==> Code(GroupBytes(v)[1]) == Byte(t, 1)
    ensures |v| > 3 ==> Code(GroupBytes(v)[2]) == Byte(t, 0)
  {
    hide Byte, Quad;
  }

  lemma GroupRoundTrip(bin: bytes)
    requires 1 <= |bin| <= 3
    ensures GroupBytes(Digits(bin, |bin| + 1)) == bin
  {
    hide Byte, Quad, Sextet, Triple, Digits, GroupBytes;
    var a, b, c := Code(bin[0]), if |bin| > 1 then Code(bin[1]) else 0, if |bin| > 2 then Code(bin[2]) else 0;
    var t, v := Triple(a, b, c), Digits(bin, |bin| + 1);
    DigitsAre(bin, |bin| + 1, t);
    Regrouped(a, b, c, t);
    BytesOfTriple(a, b, c, t);
    GroupBytesAre(v, t);
    forall i | 0 <= i < |bin|
      ensures GroupBytes(v)[i] == bin[i]
    {
      CodeInjective(GroupBytes(v)[i], bin[i]);
    }
  }

  lemma {:induction false} BytesOfSextets(bin: bytes)
    ensures BytesOf(Sextets(bin)) == bin
    decreases |bin|
  {
    hide Digits, GroupBytes;
    if 1 <= |bin| < 3 {
      GroupRoundTrip(bin);
    } else if bin != [] {
      GroupRoundTrip(bin[..3]);
      BytesOfSextets(bin[3..]);
      DigitsOfPrefix(bin);
      assert Sextets(bin)[..4] == Digits(bin, 4) && Sextets(bin)[4..] == Sextets(bin[3..]);
    }
  }

  lemma DigitsOfPrefix(bin: bytes)
    requires |bin| >= 3
    ensures Digits(bin, 4) == Digits(bin[..3], 4)
  {
  }

  // RFC 4648, section 4, independently of the code: the letters are the base-64 digits
  // of the number whose base-256 digits are the octets, followed by the zero bits that
  // complete the last digit.

  function Numeral256(high: nat, bin: bytes): nat
    decreases |bin|
  {
    if bin == [] then high else Numeral256(high * 256 + Code(bin[0]), bin[1..])
  }

  function Numeral64(high: nat, sextets: seq<sextet>): nat
    decreases |sextets|
  {
    if sextets == [] then high else Numeral64(high * 64 + sextets[0], sextets[1..])
  }

  lemma NextByte(high: nat, bin: bytes, i: nat)
    requires i < |bin|
    ensures Numeral256(high, bin[i..]) == Numeral256(high * 256 + Code(bin[i]), bin[i + 1..])
  {
    assert bin[i..][1..] == bin[i + 1..];
  }

  lemma NextSextet(high: nat, v: seq<sextet>, i: nat)
    requires i < |v|
    ensures Numeral64(high, v[i..]) == Numeral64(high * 64 + v[i], v[i + 1..])
  {
    assert v[i..][1..] == v[i + 1..];
  }

  lemma FirstBytes(high: nat, bin: bytes)
    ensures |bin| >= 1 ==> Numeral256(high, bin) == Numeral256(high * 256 + Code(bin[0]), bin[1..])
    ensures |bin| >= 2 ==>
      Numeral256(high, bin) == Numeral256(high * 0x10000 + Code(bin[0]) * 256 + Code(bin[1]), bin[2..])
    ensures |bin| >= 3 ==>
      Numeral256(high, bin) == Numeral256(high * 0x1000000 + Triple(Code(bin[0]), Code(bin[1]), Code(bin[2])), bin[3..])
  {
    hide Numeral256;
    assert bin[0..] == bin;
    if |bin| >= 1 { NextByte(high, bin, 0); }
    if |bin| >= 2 { NextByte(high * 256 + Code(bin[0]), bin, 1); }
    if |bin| >= 3 { NextByte(high * 0x10000 + Code(bin[0]) * 256 + Code(bin[1]), bin, 2); }
  }

  lemma FirstSextets(high: nat, v: seq<sextet>)
    ensures |v| >= 2 ==> Numeral64(high, v) == Numeral64(high * 0x1000 + Quad(0, 0, v[0], v[1]), v[2..])
    ensures |v| >= 3 ==> Numeral64(high, v) == Numeral64(high * 0x40000 + Quad(0, v[0], v[1], v[2]), v[3..])
    ensures |v| >= 4 ==> Numeral64(high, v) == Numeral64(high * 0x1000000 + Quad(v[0], v[1], v[2], v[3]), v[4..])
  {
    hide Numeral64;
    assert v[0..] == v;
    if |v| >= 1 { NextSextet(high, v, 0); }
    if |v| >= 2 { NextSextet(high * 64 + v[0], v, 1); }
    if |v| >= 3 { NextSextet(high * 0x1000 + Quad(0, 0, v[0], v[1]), v, 2); }
    if |v| >= 4 { NextSextet(high * 0x40000 + Quad(0, v[0], v[1], v[2]), v, 3); }
  }

  /** The zero bits that complete the last sextet, as a factor. */
  function Shift(size: nat): nat {
    if size % 3 == 0 then 1 else if size % 3 == 1 then 16 else 4
  }

  lemma ShiftRepeats(size: nat)
    ensures size >= 3 ==> Shift(size) == Shift(size - 3)
    ensures Shift(0) == 1 && Shift(1) == 16 && Shift(2) == 4
  {
  }

  lemma TailIsTheNumber(high: nat, bin: bytes)
    requires 1 <= |bin| <= 2
    ensures Numeral64(high, Sextets(bin)) == Numeral256(high, bin) * if |bin| == 1 then 16 else 4
  {
    hide Sextet, Digits, Triple;
    var v, a, b := Sextets(bin), Code(bin[0]), if |bin| > 1 then Code(bin[1]) else 0;
    FirstBytes(high, bin);
    FirstSextets(high, v);
    DigitsAre(bin, |bin| + 1, Triple(a, b, 0));
    Regrouped(a, b, 0, Triple(a, b, 0));
    assert v[|v|..] == [] && bin[|bin|..] == [];
  }

  /** The sextets of a string, as a number, are its octets, as a number, shifted by the zero bits added. */
  lemma {:induction false} SextetsAreTheNumber(high: nat, bin: bytes)
    ensures |Sextets(bin)| == (|bin| * 4 + 2) / 3
    ensures Numeral64(high, Sextets(bin))
         == Numeral256(high, bin) * Shift(|bin|)
    decreases |bin|
  {
    hide Byte, Quad, Sextet, Triple, Digits, Shift;
    ShiftRepeats(|bin|);
    FirstBytes(high, bin);
    FirstSextets(high, Sextets(bin));
    SextetCount(bin);
    if 1 <= |bin| < 3 {
      TailIsTheNumber(high, bin);
    } else if bin != [] {
      var t := Triple(Code(bin[0]), Code(bin[1]), Code(bin[2]));
      Regrouped(Code(bin[0]), Code(bin[1]), Code(bin[2]), t);
      DigitsAre(bin, 4, t);
      SextetsAreTheNumber(high * 0x1000000 + t, bin[3..]);
      assert Sextets(bin)[4..] == Sextets(bin[3..]);
    }
  }

  lemma {:induction false} SextetCount(bin: bytes)
    ensures |Sextets(bin)| == (|bin| * 4 + 2) / 3
    decreases |bin|
  {
    hide Digits;
    if |bin| >= 3 { SextetCount(bin[3..]); }
  }

  // What `decode` accepts.

  function Join(fs: seq<bytes>): bytes {
    if fs == [] then [] else Join(fs[..|fs| - 1]) + fs[|fs| - 1]
  }

  /** A string cut into a body and the fills that end it. */
  ghost predicate Cut(s: bytes, body: bytes, fs: seq<bytes>, fills: seq<bytes>) {
    s == body + Join(fs) && forall f | f in fs :: f in fills
  }

  predicate WholeGroups(letters: nat, fillCount: nat) {
    (letters + fillCount) % 4 == 0
  }

  /** The grammar: letters, then at most two fills, in groups of four. */
  ghost predicate Grammatical(s: bytes, body: bytes, fs: seq<bytes>, a: bytes, fills: seq<bytes>) {
    Cut(s, body, fs, fills) && Over(body, a) && |fs| <= 2 && WholeGroups(|body|, |fs|)
  }

  lemma LettersEndInNoFill(body: bytes, a: bytes, fills: seq<bytes>, f: bytes)
    requires IsScheme(a, fills) && Over(body, a) && f in fills
    ensures !EndsWith(body, f)
  {
    hide IsAlphabet;
    assert |f| <= |body| ==> body[|body| - |f|..][0] == body[|body| - |f|];
  }

  lemma CountPaddingLast(base: bytes, last: bytes, a: bytes, fills: seq<bytes>)
    requires IsScheme(a, fills) && last in fills
    ensures var p := CountPadding(base, fills);
            CountPadding(base + last, fills) == Padding(1 + p.count, |last| + p.length)
  {
    hide IsAlphabet, MatchingFill, EndsWith;
    var s := base + last;
    FillAtEnd(base, last);
    var found := MatchingFill(s, fills);
    if found.Some? { SameEnd(s, found.value, last); }
  }

  lemma FillAtEnd(base: bytes, last: bytes)
    ensures EndsWith(base + last, last) && (base + last)[..|base + last| - |last|] == base
  {
  }

  lemma SameEnd(s: bytes, f: bytes, g: bytes)
    requires EndsWith(s, f) && EndsWith(s, g) && |f| == |g|
    ensures f == g
  {
  }

  lemma {:induction false} CountPaddingCounts(body: bytes, fs: seq<bytes>, a: bytes, fills: seq<bytes>)
    requires IsScheme(a, fills) && Over(body, a) && forall f | f in fs :: f in fills
    ensures CountPadding(body + Join(fs), fills) == Padding(|fs|, |Join(fs)|)
    decreases |fs|
  {
    hide IsAlphabet, IsScheme;
    if fs == [] {
      var found := MatchingFill(body, fills);
      if found.Some? { LettersEndInNoFill(body, a, fills, found.value); }
      assert body + Join(fs) == body;
    } else {
      var last, init := fs[|fs| - 1], fs[..|fs| - 1];
      assert body + Join(fs) == (body + Join(init)) + last;
      CountPaddingCounts(body, init, a, fills);
      CountPaddingLast(body + Join(init), last, a, fills);
    }
  }

  lemma OneMore(base: bytes, last: bytes, fs: seq<bytes>)
    requires EndsWith(base, last)
    ensures Join(fs + [last]) == Join(fs) + last && base == base[..|base| - |last|] + last
    ensures var init := base[..|base| - |last|];
            |Join(fs)| <= |init| && init == init[..|init| - |Join(fs)|] + Join(fs)
            ==> |Join(fs + [last])| <= |base| && base == base[..|base| - |Join(fs + [last])|] + Join(fs + [last])
  {
    JoinMore(fs, last);
    hide Join;
    var init := base[..|base| - |last|];
    if |Join(fs)| <= |init| { Suffixes(base, init, Join(fs), last); }
  }

  lemma JoinMore(fs: seq<bytes>, last: bytes)
    ensures Join(fs + [last]) == Join(fs) + last
  {
    assert (fs + [last])[..|fs|] == fs;
  }

  lemma Suffixes(base: bytes, init: bytes, x: bytes, y: bytes)
    requires |x| <= |init| && base == init + y
    ensures init == init[..|init| - |x|] + x ==> base == base[..|base| - |x + y|] + (x + y)
  {
    assert base[..|init| - |x|] == init[..|init| - |x|];
  }

  /** The fills that `count_padding` strips, first to last. */
  function StrippedFills(base: bytes, fills: seq<bytes>): (fs: seq<bytes>)
    requires forall f | f in fills :: f != []
    ensures |fs| == CountPadding(base, fills).count && |Join(fs)| == CountPadding(base, fills).length
    ensures base == base[..|base| - |Join(fs)|] + Join(fs) && forall f | f in fs :: f in fills
    decreases |base|
  {
    var found := MatchingFill(base, fills);
    if found.None? then []
    else
      var init := base[..|base| - |found.value|];
      var fs := StrippedFills(init, fills);
      OneMore(base, found.value, fs);
      fs + [found.value]
  }

  lemma WholeGroupsMeans(letters: nat, fillCount: nat)
    ensures WholeGroups(letters, fillCount) <==> (letters + fillCount) % 4 == 0
  {
  }

  /** The value of a grammatical string. */
  lemma DecodedValue(s: bytes, body: bytes, fs: seq<bytes>, a: bytes, fills: seq<bytes>)
    requires IsScheme(a, fills) && Grammatical(s, body, fs, a, fills)
    ensures Decoded(s, a, fills) == Ok(BytesOf(Values(body, a)))
  {
    hide IsAlphabet, IsScheme, BytesOf, Values, Over, Join, CountPadding, WholeGroups;
    CountPaddingCounts(body, fs, a, fills);
    WholeGroupsMeans(|body|, |fs|);
    assert s[..|s| - |Join(fs)|] == body;
  }

  /** `decode` succeeds on the strings of the grammar and on no others. */
  lemma DecodeDomain(s: bytes, a: bytes, fills: seq<bytes>)
    requires IsScheme(a, fills)
    ensures Decoded(s, a, fills).Ok? <==> exists body, fs :: Grammatical(s, body, fs, a, fills)
  {
    hide IsAlphabet, IsScheme;
    if Decoded(s, a, fills).Ok? {
      var fs := StrippedFills(s, fills);
      assert Grammatical(s, s[..|s| - |Join(fs)|], fs, a, fills);
    }
    if body, fs :| Grammatical(s, body, fs, a, fills) {
      DecodedValue(s, body, fs, a, fills);
    }
  }

  // Round trips.

  function Repeat(f: bytes, n: nat): (fs: seq<bytes>)
    ensures |fs| == n && forall g | g in fs :: g == f
  {
    seq(n, i => f)
  }

  lemma JoinRepeat(f: bytes, n: nat)
    requires n <= 2
    ensures Join(Repeat(f, n)) == Fills(f, n)
  {
    FillsUnfold(f);
    if n == 1 { assert Repeat(f, 1)[..0] == []; }
    if n == 2 { assert Repeat(f, 2)[..1] == Repeat(f, 1); assert Repeat(f, 1)[..0] == []; }
  }

  lemma LettersOver(v: seq<sextet>, a: bytes)
    requires IsAlphabet(a)
    ensures Over(Letters(v, a), a) && Values(Letters(v, a), a) == v
  {
    forall i | 0 <= i < |v|
      ensures Index(a, a[v[i]]) == Some(v[i])
    {
    }
  }

  lemma ValuesLetters(body: bytes, a: bytes)
    requires |a| == 64 && Over(body, a)
    ensures Letters(Values(body, a), a) == body
  {
  }

  lemma ThirdsAndQuarters(n: nat, letters: nat)
    requires letters == (n * 4 + 2) / 3
    ensures WholeGroups(letters, FillCount(n))
    ensures (4 - letters % 4) % 4 == FillCount(n)
  {
    var q, r := n / 3, n % 3;
    var last := if r == 0 then 0 else r + 1;
    Division(4 * q + last, if r == 0 then 2 else r - 1, 3, n * 4 + 2);
    Division(q, last, 4, letters);
  }

  /** Fills complete the last group of letters. */
  lemma FillCompletes(b: bytes)
    ensures WholeGroups(|Sextets(b)|, FillCount(|b|)) && (4 - |Sextets(b)| % 4) % 4 == FillCount(|b|)
  {
    hide FillCount, Sextets;
    SextetsAreTheNumber(0, b);
    ThirdsAndQuarters(|b|, |Sextets(b)|);
  }

  /** An encoding is a grammatical string. */
  lemma EncodedShape(b: bytes, a: bytes, fill: bytes)
    requires IsScheme(a, [fill])
    ensures Grammatical(Encoded(b, a, fill), Letters(Sextets(b), a), Repeat(fill, FillCount(|b|)), a, [fill])
  {
    hide IsAlphabet, Sextets, FillCount, Letters, Values, Repeat, Fills, Join, WholeGroups;
    FillCompletes(b);
    LettersOver(Sextets(b), a);
    JoinRepeat(fill, FillCount(|b|));
  }

  /** `decode(encode(b)) == b`. */
  lemma DecodeEncode(b: bytes, a: bytes, fill: bytes)
    requires IsScheme(a, [fill])
    ensures Decoded(Encoded(b, a, fill), a, [fill]) == Ok(b)
  {
    hide Decoded, Grammatical;
    EncodedShape(b, a, fill);
    DecodedValue(Encoded(b, a, fill), Letters(Sextets(b), a), Repeat(fill, FillCount(|b|)), a, [fill]);
    LettersOver(Sextets(b), a);
    BytesOfSextets(b);
  }

  // `pad` and `trim`.

  /** `trim` keeps exactly the letters, whatever the fill. */
  lemma TrimEncoded(b: bytes, a: bytes, fill: bytes)
    requires IsScheme(a, [fill])
    ensures Trimmed(Encoded(b, a, fill), fill) == Letters(Sextets(b), a)
  {
    hide IsAlphabet, Sextets;
    var s, letters := Encoded(b, a, fill), Letters(Sextets(b), a);
    FillsUnfold(fill);
    forall p | 0 <= p < |letters|
      ensures !OccursAt(s, fill, p)
    {
      assert p + |fill| <= |s| ==> s[p..p + |fill|][0] == letters[p];
    }
    if FillCount(|b|) == 0 {
      assert s == letters;
    } else {
      assert s[|letters|..|letters| + |fill|] == fill;
      FindIs(s, fill, 0, |letters|);
    }
  }

  /** `pad` undoes `trim` on an encoding. */
  lemma PadTrim(b: bytes, a: bytes, fill: bytes)
    requires IsScheme(a, [fill])
    ensures Padded(Trimmed(Encoded(b, a, fill), fill), fill) == Encoded(b, a, fill)
  {
    hide IsScheme, Sextets, FillCount, Trimmed, Letters, Fills;
    TrimEncoded(b, a, fill);
    FillCompletes(b);
  }

  /** base64url as JWT uses it, with no fill: `trim(encode(b))` and `decode(pad(s))`. */
  function UrlText(b: bytes): bytes {
    TableEntry(0);
    Trimmed(Encoded(b, URL_SAFE, URL_FILL), URL_FILL)
  }

  ghost function UrlBytes(s: bytes): Result<bytes, Error> {
    TableEntry(0);
    Decoded(Padded(s, URL_FILL), URL_SAFE, [URL_FILL])
  }

  lemma UrlRoundTrip(b: bytes)
    ensures UrlBytes(UrlText(b)) == Ok(b) && Over(UrlText(b), URL_SAFE)
  {
    hide Encoded, Decoded, Padded, Trimmed;
    Tables();
    PadTrim(b, URL_SAFE, URL_FILL);
    TrimEncoded(b, URL_SAFE, URL_FILL);
    LettersOver(Sextets(b), URL_SAFE);
    DecodeEncode(b, URL_SAFE, URL_FILL);
  }

  /** A string one longer than a multiple of four is padded with three fills, which `decode` refuses. */
  lemma PadOneOver(s: bytes, a: bytes, fill: bytes)
    requires IsScheme(a, [fill]) && |s| % 4 == 1
    ensures Decoded(Padded(s, fill), a, [fill]) == Err(TooMuchFill)
  {
    hide IsScheme;
    FillsUnfold(fill);
    assert Padded(s, fill) == s + fill + fill + fill;
    CountPaddingLast(s, fill, a, [fill]);
    CountPaddingLast(s + fill, fill, a, [fill]);
    CountPaddingLast(s + fill + fill, fill, a, [fill]);
  }

  /** A character that neither the alphabet nor the fill has. */
  lemma StrayFails(s: bytes, c: octet, a: bytes, fill: bytes)
    requires IsScheme(a, [fill]) && c in s && c !in a && c !in fill
    ensures Decoded(s, a, [fill]).Err?
  {
    hide IsScheme, Decoded, Grammatical;
    DecodeDomain(s, a, [fill]);
    if body, fs :| Grammatical(s, body, fs, a, [fill]) { GrammaticalCharacter(s, body, fs, c, a, fill); }
  }

  lemma GrammaticalCharacter(s: bytes, body: bytes, fs: seq<bytes>, c: octet, a: bytes, fill: bytes)
    requires Grammatical(s, body, fs, a, [fill]) && c in s
    ensures c in a || c in fill
  {
    hide Fills, Join;
    FillsUnfold(fill);
    JoinSame(fs, fill);
    assert c in body || c in Fills(fill, |fs|);
  }

  lemma UrlStrayFails(s: bytes, c: octet)
    requires c in s && c !in URL_SAFE && c !in URL_FILL
    ensures UrlBytes(s).Err?
  {
    hide URL_SAFE, Decoded, Fills;
    Tables();
    StrayFails(Padded(s, URL_FILL), c, URL_SAFE, URL_FILL);
  }

  // Canonical forms, RFC 4648, section 3.5.

  /** The bits of the last sextet that no octet uses. */
  function UnusedBits(v: seq<sextet>, fillCount: nat): nat {
    if v == [] || fillCount == 0 then 0
    else v[|v| - 1] % if fillCount == 1 then 4 else 16
  }

  function Cleared(v: seq<sextet>): (w: seq<sextet>)
    ensures |w| == |v|
  {
    var k := if |v| % 4 == 2 then 2 else if |v| % 4 == 3 then 1 else 0;
    if v == [] || k == 0 then v
    else
      var last := v[|v| - 1];
      v[..|v| - 1] + [last - UnusedBits(v, k)]
  }

  lemma BytePieces(a: nat, b: nat, c: nat)
    requires a < 64 && b < 64 && c < 64
    ensures (a * 4 + b / 16) / 4 == a && (a * 4 + b / 16) % 4 == b / 16
    ensures (b % 16 * 16 + c / 4) / 16 == b % 16 && (b % 16 * 16 + c / 4) % 16 == c / 4
    ensures b / 16 * 16 == b - b % 16 && c / 4 * 4 == c - c % 4
  {
    Division(a, b / 16, 4, a * 4 + b / 16);
    Division(b % 16, c / 4, 16, b % 16 * 16 + c / 4);
  }

  lemma GroupSplits(v: seq<sextet>)
    requires 2 <= |v| <= 4
    ensures Digits(GroupBytes(v), |v|) == Cleared(v)
  {
    hide Byte, Quad, Sextet, Triple, Digits, GroupBytes;
    var c, d := if |v| > 2 then v[2] else 0, if |v| > 3 then v[3] else 0;
    var t := Quad(v[0], v[1], c, d);
    Ungrouped(v[0], v[1], c, d, t);
    SextetsOfQuad(v[0], v[1], c, d, t);
    BytePieces(v[0], v[1], c);
    var b0, b1, b2 := Byte(t, 2), if |v| > 2 then Byte(t, 1) else 0, if |v| > 3 then Byte(t, 0) else 0;
    Regrouped(b0, b1, b2, Triple(b0, b1, b2));
    GroupBytesAre(v, t);
    DigitsAre(GroupBytes(v), |v|, Triple(b0, b1, b2));
    assert |v| == 2 ==> v[1] / 16 * 16 == v[1] - UnusedBits(v, 2);
  }

  lemma {:induction false} SextetsOfBytes(v: seq<sextet>)
    requires |v| % 4 != 1
    ensures Sextets(BytesOf(v)) == Cleared(v) && |BytesOf(v)| == |v| * 3 / 4
    decreases |v|
  {
    hide Digits, GroupBytes, UnusedBits;
    if 2 <= |v| < 4 {
      GroupSplits(v);
    } else if v != [] {
      GroupSplits(v[..4]);
      SextetsOfBytes(v[4..]);
      var b := BytesOf(v);
      assert b[3..] == BytesOf(v[4..]) && b[..3] == GroupBytes(v[..4]);
      DigitsOfPrefix(b);
      ClearedTail(v);
    }
  }

  lemma ClearedTail(v: seq<sextet>)
    requires |v| >= 4 && |v| % 4 != 1
    ensures Cleared(v) == v[..4] + Cleared(v[4..])
  {
    assert |v[4..]| % 4 == |v| % 4;
    if |v| > 4 { assert v[..|v| - 1] == v[..4] + v[4..][..|v| - 5]; }
  }

  lemma SameLetters(v: seq<sextet>, w: seq<sextet>, a: bytes)
    requires IsAlphabet(a) && |v| == |w|
    ensures Letters(v, a) == Letters(w, a) <==> v == w
  {
    LettersOver(v, a);
    LettersOver(w, a);
  }

  lemma JoinSame(fs: seq<bytes>, fill: bytes)
    requires |fs| <= 2 && forall f | f in fs :: f == fill
    ensures Join(fs) == Fills(fill, |fs|)
  {
    forall i | 0 <= i < |fs|
      ensures fs[i] == fill
    {
      assert fs[i] in fs;
    }
    assert fs == Repeat(fill, |fs|);
    JoinRepeat(fill, |fs|);
  }

  /** Whole groups of letters and fills, in quarters and in thirds. */
  lemma GroupSizes(letters: nat, k: nat)
    requires k <= 2 && WholeGroups(letters, k)
    ensures letters % 4 == if k == 0 then 0 else 4 - k
    ensures FillCount(letters * 3 / 4) == k
  {
    var q := (letters + k) / 4;
    assert letters == 4 * q - k;
    if k == 0 {
      Division(q, 0, 4, letters);
      Division(3 * q, 0, 4, letters * 3);
      Division(q, 0, 3, 3 * q);
    } else {
      Division(q - 1, 4 - k, 4, letters);
      Division(3 * q - k, k, 4, letters * 3);
      Division(q - 1, 3 - k, 3, 3 * q - k);
    }
  }

  lemma ClearedUnchanged(v: seq<sextet>, k: nat)
    requires k <= 2 && |v| % 4 == if k == 0 then 0 else 4 - k
    ensures Cleared(v) == v <==> UnusedBits(v, k) == 0
  {
    if v != [] && k > 0 {
      var w := Cleared(v);
      assert w[|v| - 1] == v[|v| - 1] - UnusedBits(v, k);
      assert v == v[..|v| - 1] + [v[|v| - 1]];
    }
  }

  lemma GrammarSizes(v: seq<sextet>, k: nat)
    requires k <= 2 && WholeGroups(|v|, k)
    ensures |v| % 4 != 1 && FillCount(|v| * 3 / 4) == k
    ensures Cleared(v) == v <==> UnusedBits(v, k) == 0
  {
    hide Cleared, UnusedBits, FillCount, WholeGroups;
    GroupSizes(|v|, k);
    ClearedUnchanged(v, k);
  }

  lemma SameSuffix(x: bytes, y: bytes, z: bytes)
    ensures x + z == y + z <==> x == y
  {
    assert (x + z)[..|x + z| - |z|] == x && (y + z)[..|y + z| - |z|] == y;
  }

  /** A grammatical string is the encoding of its value exactly when the unused bits of its last letter are zero. */
  lemma Canonical(s: bytes, body: bytes, fs: seq<bytes>, a: bytes, fill: bytes)
    requires IsScheme(a, [fill]) && Grammatical(s, body, fs, a, [fill])
    ensures Decoded(s, a, [fill]).Ok?
    ensures Encoded(Decoded(s, a, [fill]).value, a, fill) == s <==> UnusedBits(Values(body, a), |fs|) == 0
  {
    hide Decoded, Values, Letters, Sextets, BytesOf, FillCount, UnusedBits, Fills, Join;
    hide IsAlphabet, Cleared, WholeGroups;
    var v := Values(body, a);
    DecodedValue(s, body, fs, a, [fill]);
    GrammarSizes(v, |fs|);
    SextetsOfBytes(v);
    JoinSame(fs, fill);
    ValuesLetters(body, a);
    SameLetters(Cleared(v), v, a);
    SameSuffix(Letters(Cleared(v), a), body, Fills(fill, |fs|));
  }

  /** In every scheme two neighbouring letters before two fills decode, but are not what their value encodes to. */
  lemma NotCanonical(a: bytes, fill: bytes) returns (s: bytes)
    requires IsScheme(a, [fill])
    ensures s == [a[16], a[17]] + fill + fill
    ensures Decoded(s, a, [fill]).Ok? && Encoded(Decoded(s, a, [fill]).value, a, fill) != s
  {
    hide Decoded, Encoded, IsAlphabet, Values, Join, Fills;
    var v: seq<sextet> := [16, 17];
    var body, fs := Letters(v, a), [fill, fill];
    LettersOver(v, a);
    assert body == [a[16], a[17]];
    s := body + fill + fill;
    JoinSame(fs, fill);
    FillsUnfold(fill);
    assert s == body + (fill + fill);
    Canonical(s, body, fs, a, fill);
  }

  lemma QAndR()
    ensures |STANDARD| == 64 && [STANDARD[16], STANDARD[17]] + STANDARD_FILL + STANDARD_FILL == "QR=="
  {
    hide STANDARD;
    TableEntry(16);
    TableEntry(17);
  }

  /** So with the standard alphabet "QR==", which stands for the one octet that "QQ==" encodes. */
  lemma NotCanonicalExample()
    ensures |STANDARD| == 64 && Decoded("QR==", STANDARD, [STANDARD_FILL]).Ok?
    ensures Encoded(Decoded("QR==", STANDARD, [STANDARD_FILL]).value, STANDARD, STANDARD_FILL) != "QR=="
  {
    hide Decoded, Encoded, STANDARD, IsScheme;
    Tables();
    QAndR();
    var s := NotCanonical(STANDARD, STANDARD_FILL);
  }

  /** `count_padding` on any string: what is left when its last fills are gone may be anything that ends in none. */
  lemma {:induction false} FillsAreCounted(body: bytes, fs: seq<bytes>, fills: seq<bytes>)
    requires forall f | f in fills :: f != [] && !EndsWith(body, f)
    requires forall f, g | f in fills && g in fills :: |f| == |g|
    requires forall f | f in fs :: f in fills
    ensures CountPadding(body + Join(fs), fills) == Padding(|fs|, |Join(fs)|)
    decreases |fs|
  {
    hide EndsWith, MatchingFill;
    if fs == [] {
      var found := MatchingFill(body, fills);
      assert body + Join(fs) == body;
    } else {
      var last, init := fs[|fs| - 1], fs[..|fs| - 1];
      assert body + Join(fs) == (body + Join(init)) + last;
      FillsAreCounted(body, init, fills);
      FillAtEnd(body + Join(init), last);
      var found := MatchingFill((body + Join(init)) + last, fills);
      if found.Some? { SameEnd((body + Join(init)) + last, found.value, last); }
    }
  }

  /** Which of the three errors a string gives, and when it gives none: fills first, then size, then letters. */
  lemma DecodeErrors(s: bytes, body: bytes, fs: seq<bytes>, a: bytes, fills: seq<bytes>)
    requires IsScheme(a, fills) && Cut(s, body, fs, fills) && forall f | f in fills :: !EndsWith(body, f)
    ensures Decoded(s, a, fills) == Err(TooMuchFill) <==> |fs| > 2
    ensures Decoded(s, a, fills) == Err(IncorrectTotalSize) <==> |fs| <= 2 && !WholeGroups(|body|, |fs|)
    ensures Decoded(s, a, fills) == Err(NotWithinAlphabet) <==> |fs| <= 2 && WholeGroups(|body|, |fs|) && !Over(body, a)
  {
    hide IsAlphabet, BytesOf, Values, Over, Join, CountPadding, WholeGroups, EndsWith;
    FillsAreCounted(body, fs, fills);
    WholeGroupsMeans(|body|, |fs|);
    assert s[..|s| - |Join(fs)|] == body;
  }

  /** Every string is cut so in one way at least. */
  lemma EveryStringIsCut(s: bytes, fills: seq<bytes>) returns (body: bytes, fs: seq<bytes>)
    requires forall f | f in fills :: f != []
    ensures Cut(s, body, fs, fills) && forall f | f in fills :: !EndsWith(body, f)
    decreases |s|
  {
    hide EndsWith;
    var found := MatchingFill(s, fills);
    if found.None? {
      body, fs := s, [];
      assert s == s + Join([]);
    } else {
      CutEnd(s, found.value);
      body, fs := EveryStringIsCut(s[..|s| - |found.value|], fills);
      JoinMore(fs, found.value);
      fs := fs + [found.value];
    }
  }

  lemma CutEnd(s: bytes, f: bytes)
    requires EndsWith(s, f)
    ensures |f| <= |s| && s == s[..|s| - |f|] + f
  {
  }

  lemma AAndQ(a: bytes)
    requires a == STANDARD || a == URL_SAFE
    ensures |a| == 64 && a[0] == 'A' && a[16] == 'Q' && a[17] == 'R'
  {
    hide STANDARD, URL_SAFE;
    TableEntry(0);
    TableEntry(16);
    TableEntry(17);
  }

  /** Letters and fills in whole groups decode to the bytes of the letters. */
  lemma LettersDecode(v: seq<sextet>, fs: seq<bytes>, a: bytes, fills: seq<bytes>)
    requires IsScheme(a, fills) && |fs| <= 2 && WholeGroups(|v|, |fs|) && forall f | f in fs :: f in fills
    ensures Decoded(Letters(v, a) + Join(fs), a, fills) == Ok(BytesOf(v))
  {
    hide Decoded, IsScheme, Values, BytesOf, Letters, Join, WholeGroups;
    SchemeIsAlphabet(a, fills);
    LettersOver(v, a);
    DecodedValue(Letters(v, a) + Join(fs), Letters(v, a), fs, a, fills);
  }

  lemma QQ(a: bytes, fill0: bytes, fill1: bytes, fills: seq<bytes>)
    requires |a| == 64 && a[16] == 'Q' && IsScheme(a, fills) && fill0 in fills && fill1 in fills
    ensures Decoded("QQ" + fill0 + fill1, a, fills) == Ok(BytesOf([16, 16]))
  {
    hide Decoded, IsScheme, BytesOf, Join;
    var v: seq<sextet>, body: bytes := [16, 16], "QQ";
    assert Letters(v, a) == body;
    JoinTwo(fill0, fill1);
    assert body + fill0 + fill1 == body + (fill0 + fill1);
    LettersDecode(v, [fill0, fill1], a, fills);
  }

  lemma SchemeIsAlphabet(a: bytes, fills: seq<bytes>)
    requires IsScheme(a, fills)
    ensures IsAlphabet(a)
  {
  }

  lemma JoinTwo(x: bytes, y: bytes)
    ensures Join([x, y]) == x + y
  {
    JoinMore([x], y);
    JoinMore([], x);
    assert [] + [x] == [x] && [x] + [y] == [x, y] && Join([]) + x == x;
  }

  lemma OneByte()
    ensures BytesOf([16, 16]) == "A"
  {
    CodeInjective(BytesOf([16, 16])[0], 'A');
  }

  // The fills as they are written.

  /** The fill of the standard table. */
  lemma StandardFill()
    ensures |STANDARD| == 64 && Decoded("QQ==", STANDARD, [STANDARD_FILL]) == Ok("A")
  {
    hide Decoded, IsScheme, STANDARD;
    Tables();
    OneByte();
    AAndQ(STANDARD);
    QQ(STANDARD, "=", "=", [STANDARD_FILL]);
    assert "QQ" + "=" + "=" == "QQ==";
  }

  /** That of base64url. */
  lemma UrlFill()
    ensures |URL_SAFE| == 64 && Decoded("QQ%3d%3d", URL_SAFE, [URL_FILL]) == Ok("A")
  {
    hide Decoded, IsScheme, URL_SAFE;
    Tables();
    OneByte();
    AAndQ(URL_SAFE);
    QQ(URL_SAFE, "%3d", "%3d", [URL_FILL]);
    assert "QQ" + "%3d" + "%3d" == "QQ%3d%3d";
  }

  /** The two of its helper, in any mixture. */
  lemma PercentFills(fill0: bytes, fill1: bytes)
    requires fill0 in ["%3D", "%3d"] && fill1 in ["%3D", "%3d"]
    ensures |URL_SAFE| == 64 && Decoded("QQ" + fill0 + fill1, URL_SAFE, PERCENT_FILLS) == Ok("A")
  {
    hide Decoded, IsScheme, URL_SAFE;
    Tables();
    OneByte();
    AAndQ(URL_SAFE);
    QQ(URL_SAFE, fill0, fill1, PERCENT_FILLS);
  }
}
