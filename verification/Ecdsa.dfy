/** The two forms of an ECDSA signature in jwt.h: a pair of numbers, and RFC 7518, section 3.4. */
module Ecdsa {
  import opened Octets

  /** What `d2i_ECDSA_SIG` reads and `i2d_ECDSA_SIG` writes. */
  datatype Pair = Pair(r: nat, s: nat)

  datatype Failure = DecodingFailed | LengthExceeded

  /** `bn2raw`: the shortest big-endian bytes of a number; none for zero. */
  function ToBytes(n: nat): bytes {
    if n == 0 then [] else ToBytes(n / 256) + [Octet(n % 256)]
  }

  /** `raw2bn`: the number that big-endian bytes write. */
  function FromBytes(raw: bytes): nat {
    if raw == [] then 0 else FromBytes(raw[..|raw| - 1]) * 256 + Code(raw[|raw| - 1])
  }

  function Zeros(n: nat): (z: bytes)
    ensures |z| == n
  {
    seq(n, i => Octet(0))
  }

  function Power256(k: nat): nat {
    if k == 0 then 1 else Power256(k - 1) * 256
  }

  /** A number left-padded with zero bytes to a length. */
  function Padded(n: nat, length: nat): bytes
    requires |ToBytes(n)| <= length
  {
    Zeros(length - |ToBytes(n)|) + ToBytes(n)
  }

  /** `der_to_p1363_signature`; the second failure is thrown. */
  method DerToP1363(sig: Option<Pair>, signatureLength: nat) returns (res: Result<bytes, Failure>)
    ensures res == FixedWidth(sig, signatureLength)
  {
    if sig.None? { return Err(DecodingFailed); }
    var rr, rs := ToBytes(sig.value.r), ToBytes(sig.value.s);
    if |rr| > signatureLength / 2 || |rs| > signatureLength / 2 { return Err(LengthExceeded); }
    rr := Zeros(signatureLength / 2 - |rr|) + rr;
    rs := Zeros(signatureLength / 2 - |rs|) + rs;
    return Ok(rr + rs);
  }

  function FixedWidth(sig: Option<Pair>, signatureLength: nat): Result<bytes, Failure> {
    var half := signatureLength / 2;
    if sig.None? then Err(DecodingFailed)
    else if |ToBytes(sig.value.r)| > half || |ToBytes(sig.value.s)| > half then Err(LengthExceeded)
    else Ok(Padded(sig.value.r, half) + Padded(sig.value.s, half))
  }

  /** `p1363_to_der_signature`: whatever its length, the signature is cut in the middle. */
  function Halves(signature: bytes): Pair {
    Pair(FromBytes(signature[..|signature| / 2]), FromBytes(signature[|signature| / 2..]))
  }

  lemma {:induction false} FromToBytes(n: nat)
    ensures FromBytes(ToBytes(n)) == n
  {
    if n != 0 {
      FromToBytes(n / 256);
      assert ToBytes(n)[..|ToBytes(n)| - 1] == ToBytes(n / 256);
    }
  }

  lemma {:induction false} LeadingZeros(k: nat, raw: bytes)
    ensures FromBytes(Zeros(k) + raw) == FromBytes(raw)
    decreases k + |raw|
  {
    var s := Zeros(k) + raw;
    if raw != [] {
      assert s[..|s| - 1] == Zeros(k) + raw[..|raw| - 1];
      LeadingZeros(k, raw[..|raw| - 1]);
    } else if k > 0 {
      assert s[..|s| - 1] == Zeros(k - 1) + [];
      LeadingZeros(k - 1, []);
    } else {
      assert s == raw;
    }
  }

  /** How many bytes a number takes. */
  lemma {:induction false} SizeBound(n: nat, k: nat)
    ensures |ToBytes(n)| <= k <==> n < Power256(k)
    ensures Power256(k) >= 1
    decreases k
  {
    if k > 0 { SizeBound(n / 256, k - 1); }
  }

  /**
   * The fixed-width form exists exactly when both numbers are below 256 to half the length, the guard
   * throwing otherwise; it then has the full length, and its halves, read back, are the two numbers.
   */
  lemma FixedWidthRoundTrip(sig: Pair, signatureLength: nat)
    ensures var half, res := signatureLength / 2, FixedWidth(Some(sig), signatureLength);
            && (res.Ok? <==> sig.r < Power256(half) && sig.s < Power256(half))
            && (res.Err? ==> res.error == LengthExceeded)
            && FixedWidth(None, signatureLength) == Err(DecodingFailed)
            && (res.Ok? ==> |res.value| == 2 * half && Halves(res.value) == sig)
  {
    hide ToBytes, FromBytes, Power256, Zeros;
    var half, res := signatureLength / 2, FixedWidth(Some(sig), signatureLength);
    SizeBound(sig.r, half);
    SizeBound(sig.s, half);
    if res.Ok? {
      assert res.value[..half] == Padded(sig.r, half) && res.value[half..] == Padded(sig.s, half);
      LeadingZeros(half - |ToBytes(sig.r)|, ToBytes(sig.r));
      LeadingZeros(half - |ToBytes(sig.s)|, ToBytes(sig.s));
      FromToBytes(sig.r);
      FromToBytes(sig.s);
    }
  }

  lemma {:induction false} PaddedFromBytes(raw: bytes)
    ensures |ToBytes(FromBytes(raw))| <= |raw| && Padded(FromBytes(raw), |raw|) == raw
  {
    if raw != [] {
      var init, last, n := raw[..|raw| - 1], raw[|raw| - 1], FromBytes(raw);
      PaddedFromBytes(init);
      assert n / 256 == FromBytes(init) && n % 256 == Code(last);
      CodeInjective(Octet(n % 256), last);
      if n == 0 {
        assert FromBytes(init) == 0 && Padded(0, |raw| - 1) == init;
        assert Zeros(|raw|) == Zeros(|raw| - 1) + [last];
      } else {
        assert Padded(n, |raw|) == Padded(n / 256, |raw| - 1) + [last];
      }
      assert raw == init + [last];
    }
  }

  /**
   * The other way round: a signature of any length is split, but splitting it and joining it again for a
   * given length restores it exactly if it had that length, an odd one never being restored.
   */
  lemma HalvesRoundTrip(signature: bytes, signatureLength: nat)
    ensures FixedWidth(Some(Halves(signature)), signatureLength) == Ok(signature)
       <==> |signature| == 2 * (signatureLength / 2)
  {
    hide ToBytes, FromBytes;
    var half := signatureLength / 2;
    if |signature| == 2 * half {
      PaddedFromBytes(signature[..half]);
      PaddedFromBytes(signature[half..]);
      assert signature[..half] + signature[half..] == signature;
    }
  }

  /** A signature that is two bytes too long, and is read as the same pair all the same. */
  lemma LengthIsNotChecked(signature: bytes) returns (longer: bytes)
    requires |signature| % 2 == 0
    ensures |longer| == |signature| + 2 && Halves(longer) == Halves(signature)
  {
    hide FromBytes, Zeros;
    var half := |signature| / 2;
    longer := Zeros(1) + signature[..half] + (Zeros(1) + signature[half..]);
    assert longer[..half + 1] == Zeros(1) + signature[..half];
    assert longer[half + 1..] == Zeros(1) + signature[half..];
    LeadingZeros(1, signature[..half]);
    LeadingZeros(1, signature[half..]);
  }

  lemma {:induction false} PowerAppend(j: nat, k: nat)
    ensures Power256(j + k) == Power256(j) * Power256(k)
    decreases k
  {
    if k > 0 { PowerAppend(j, k - 1); }
  }

  lemma {:induction false} FromBytesAppend(x: bytes, y: bytes)
    ensures FromBytes(x + y) == FromBytes(x) * Power256(|y|) + FromBytes(y)
    ensures FromBytes(y) < Power256(|y|)
    decreases |y|
  {
    if y == [] {
      assert x + y == x;
    } else {
      var init := y[..|y| - 1];
      assert (x + y)[..|x + y| - 1] == x + init;
      FromBytesAppend(x, init);
      Distribute(FromBytes(x), Power256(|init|), FromBytes(init));
    }
  }

  lemma Distribute(a: nat, b: nat, c: nat)
    ensures (a * b + c) * 256 == a * (b * 256) + c * 256
  {
  }

  lemma Rejoined(s: bytes, n: nat)
    requires n <= |s|
    ensures s == s[..n] + s[n..]
  {
  }

  /** The pair that a signature of any length is read as: its digits in base 256, the shorter half first. */
  lemma HalvesAreTheNumber(signature: bytes)
    ensures var size, pair := |signature| - |signature| / 2, Halves(signature);
            FromBytes(signature) == pair.r * Power256(size) + pair.s && pair.s < Power256(size)
  {
    hide FromBytes, Power256;
    var x, y := signature[..|signature| / 2], signature[|signature| / 2..];
    Rejoined(signature, |signature| / 2);
    FromBytesAppend(x, y);
  }
}
