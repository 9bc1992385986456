/** The G.711 octets themselves, read bit by bit: which octet every sample gets and which sample every
    octet stands for, apart from how the conversions compute them. */
module G711Octets {
  import opened Common
  import opened G711

  // ---------- Bits ----------

  /** Bit k of a number, counted from the lowest. */
  function Bit(n: nat, k: nat): nat {
    if k == 0 then n % 2 else Bit(n / 2, k - 1)
  }

  /** The same by division: n / 2^k % 2. */
  lemma {:induction false} BitByDivision(n: nat, k: nat)
    ensures Pow2(k) > 0 && Bit(n, k) == n / Pow2(k) % 2
  {
    if k > 0 {
      BitByDivision(n / 2, k - 1);
      HalfThenDivide(n, Pow2(k - 1));
    }
  }

  lemma HalfThenDivide(n: nat, p: nat)
    requires p > 0
    ensures n / 2 / p == n / (2 * p)
  {
    var q := n / 2 / p;
    assert q * p <= n / 2 < q * p + p;
    assert q * (2 * p) == 2 * (q * p) <= n < 2 * (q * p) + 2 * p;
    QuotientIs(n, 2 * p, q);
  }

  lemma QuotientIs(n: nat, d: nat, q: nat)
    requires d > 0 && q * d <= n < q * d + d
    ensures n / d == q
  {
    var q' := n / d;
    DivBounds(n, d);
    if q' > q {
      MulMono(q + 1, q', d);
    } else if q > q' {
      MulMono(q' + 1, q, d);
    }
  }

  lemma DivBounds(n: nat, d: nat)
    requires d > 0
    ensures n / d * d <= n < (n / d + 1) * d
  {
  }

  /** Below bit w nothing above it is seen. */
  lemma {:induction false} LowBit(a: nat, r: nat, w: nat, k: nat)
    requires k < w
    ensures Bit(a * Pow2(w) + r, k) == Bit(r, k)
  {
    assert a * Pow2(w) == 2 * (a * Pow2(w - 1));
    if k > 0 {
      assert (a * Pow2(w) + r) / 2 == a * Pow2(w - 1) + r / 2;
      LowBit(a, r / 2, w - 1, k - 1);
    }
  }

  lemma {:induction false} TopBitIs(a: nat, r: nat, w: nat)
    requires r < Pow2(w)
    ensures Bit(a * Pow2(w) + r, w) == a % 2
  {
    if w > 0 {
      assert a * Pow2(w) == 2 * (a * Pow2(w - 1));
      assert (a * Pow2(w) + r) / 2 == a * Pow2(w - 1) + r / 2;
      TopBitIs(a, r / 2, w - 1);
    }
  }

  /** The two lowest bits of a number, and the rest. */
  lemma LowPair(n: nat)
    ensures Bit(n, 0) == n % 4 % 2 && Bit(n, 1) == n % 4 / 2
    ensures forall k: nat :: k >= 2 ==> Bit(n, k) == Bit(n / 4, k - 2)
  {
    assert n / 2 / 2 == n / 4 && n / 2 % 2 == n % 4 / 2 && n % 2 == n % 4 % 2;
    assert Bit(n, 1) == Bit(n / 2, 0);
    forall k: nat | k >= 2 ensures Bit(n, k) == Bit(n / 4, k - 2) {
      assert Bit(n, k) == Bit(n / 2, k - 1) == Bit(n / 2 / 2, k - 2);
    }
  }

  lemma Joined(low: nat, high: nat)
    requires low < 4
    ensures (low + 4 * high) % 4 == low && (low + 4 * high) / 4 == high
  {
  }

  function Flipped(bit: nat, k: nat): int {
    if k % 2 == 0 then 1 - bit else bit
  }

  lemma FlipLowestPair(n: nat, pairs: nat)
    requires pairs > 1 && n < Bound(pairs)
    ensures FlipPairs(n, pairs) / 4 == FlipPairs(n / 4, pairs - 1)
    ensures Bit(FlipPairs(n, pairs), 0) == 1 - Bit(n, 0) && Bit(FlipPairs(n, pairs), 1) == Bit(n, 1)
  {
    var low, high := FlipLow(n % 4), FlipPairs(n / 4, pairs - 1);
    Joined(low, high);
    LowPair(n);
    LowPair(low + 4 * high);
  }

  lemma PairsAbove(n: nat, r: nat, k: nat)
    requires k >= 2 && Bit(r / 4, k - 2) == Flipped(Bit(n / 4, k - 2), k - 2)
    ensures Bit(r, k) == Flipped(Bit(n, k), k)
  {
    LowPair(n);
    LowPair(r);
  }

  lemma {:induction false} FlipPairsBits(n: nat, pairs: nat, k: nat)
    requires pairs >= 1 && n < Bound(pairs) && k < 2 * pairs - 1
    ensures Bit(FlipPairs(n, pairs), k) == Flipped(Bit(n, k), k)
    decreases pairs
  {
    if pairs > 1 {
      FlipLowestPair(n, pairs);
      if k >= 2 {
        FlipPairsBits(n / 4, pairs - 1, k - 2);
        PairsAbove(n, FlipPairs(n, pairs), k);
      }
    }
  }

  /** The octet as its top bit and the seven bits below, before and after flipping. */
  lemma Split(n: Code)
    ensures n % 0x80 < Pow2(7) && n == n / 0x80 * Pow2(7) + n % 0x80
    ensures FlipSeven(n % 0x80) < Pow2(7) && FlipEvenBits(n) == n / 0x80 * Pow2(7) + FlipSeven(n % 0x80)
  {
    assert Pow2(7) == 0x80;
  }

  lemma FlipSevenBits(r: nat, k: nat)
    requires r < 0x80 && k < 7
    ensures Bit(FlipSeven(r), k) == Flipped(Bit(r, k), k)
  {
    assert Bound(4) == 0x80;
    FlipPairsBits(r, 4, k);
  }

  /** The mask is 0x55: of every octet exactly the even-numbered bits are flipped. */
  lemma FlipEvenBitsExact(n: Code, k: nat)
    requires k < 8
    ensures Bit(FlipEvenBits(n), k) == Flipped(Bit(n, k), k)
  {
    var a, r := n / 0x80, n % 0x80;
    Split(n);
    if k == 7 {
      TopBitIs(a, r, 7);
      TopBitIs(a, FlipSeven(r), 7);
    } else {
      LowBit(a, r, 7, k);
      LowBit(a, FlipSeven(r), 7, k);
      FlipSevenBits(r, k);
    }
  }

  /** `a` is `b` with exactly the even-numbered bits flipped. */
  ghost predicate EvenBitsFlipped(a: Code, b: Code) {
    forall k: nat :: k < 8 ==> Bit(a, k) == Flipped(Bit(b, k), k)
  }

  lemma MaskFlips(n: Code)
    ensures EvenBitsFlipped(FlipEvenBits(n), n)
  {
    forall k: nat | k < 8 ensures Bit(FlipEvenBits(n), k) == Flipped(Bit(n, k), k) {
      FlipEvenBitsExact(n, k);
    }
  }

  // ---------- Octets and samples ----------

  lemma ShiftIsPower(x: int, k: nat)
    requires k <= 7
    ensures Shl(x, k) == x * Pow2(k)
  {
    assert Pow2(0) == 1 && Pow2(1) == 2 && Pow2(2) == 4 && Pow2(3) == 8;
    assert Pow2(4) == 16 && Pow2(5) == 32 && Pow2(6) == 64 && Pow2(7) == 128;
  }

  /** An octet's fields before it is masked: the sign in bit 7, the segment in bits 6 to 4, the rest below. */
  function Unmasked(sign: bool, segment: nat, quantum: nat): Code
    requires segment < 8 && quantum < 16
  {
    (if sign then 0x80 else 0) + 16 * segment + quantum
  }

  /** The interval of a quantum in a segment that starts at 128 * 2^segment. */
  ghost predicate InInterval(s: int, segment: nat, quantum: nat) {
    (128 + 8 * quantum) * Pow2(segment) <= s < (136 + 8 * quantum) * Pow2(segment)
  }

  lemma IntervalIsBucket(s: int, segment: nat, quantum: nat)
    requires segment < 8
    ensures InInterval(s, segment, quantum) <==> Low(segment, quantum) <= s < Low(segment, quantum) + Width(segment)
  {
    ShiftIsPower(128 + 8 * quantum, segment);
    ShiftIsPower(8, segment);
    assert (136 + 8 * quantum) * Pow2(segment) == (128 + 8 * quantum) * Pow2(segment) + 8 * Pow2(segment);
  }

  /** The mu-law octet of every sample: sign (set for negative samples), segment and mantissa with all bits
      inverted, where the magnitude, clipped at 32635 and raised by 132, lies in that interval. */
  lemma UlawOctet(x: Sample) returns (e: nat, m: nat)
    ensures e < 8 && m < 16 && LinearToUlaw(x) == 0xFF - Unmasked(x < 0, e, m)
    ensures InInterval((if Abs(x) < 32635 then Abs(x) else 32635) + 132, e, m)
  {
    var s := UlawBiased(x);
    e, m := UlawSegment(s), Shr(s, UlawSegment(s) + 3) % 16;
    InBucket(s);
    IntervalIsBucket(s, e, m);
  }

  lemma UlawMagnitudeIs(e: nat, m: nat)
    requires e < 8 && m < 16
    ensures UlawMagnitude(e, m) == (8 * m + 132) * Pow2(e) - 132
  {
    ShiftIsPower(8 * m + 132, e);
  }

  lemma UlawOfFields(sign: bool, e: nat, m: nat)
    requires e < 8 && m < 16
    ensures UlawToLinear(0xFF - Unmasked(sign, e, m)) as int == if sign then -UlawMagnitude(e, m) else UlawMagnitude(e, m)
  {
    var sign', e', m' := UlawFields(0xFF - Unmasked(sign, e, m));
    FieldsUnique(sign, e, m, sign', e', m');
  }

  /** The sample of every mu-law octet. */
  lemma UlawSample(sign: bool, e: nat, m: nat)
    requires e < 8 && m < 16
    ensures var magnitude := (8 * m + 132) * Pow2(e) - 132;
            UlawToLinear(0xFF - Unmasked(sign, e, m)) as int == if sign then -magnitude else magnitude
  {
    UlawOfFields(sign, e, m);
    UlawMagnitudeIs(e, m);
  }

  lemma FieldsUnique(sign: bool, e: nat, m: nat, sign': bool, e': nat, m': nat)
    requires e < 8 && m < 16 && e' < 8 && m' < 16 && Unmasked(sign, e, m) == Unmasked(sign', e', m')
    ensures sign == sign' && e == e' && m == m'
  {
  }

  lemma AlawUnmasked(positive: bool, e: nat, q: nat)
    requires e < 8 && q < 16
    ensures AlawMask(16 * e + q, positive) == FlipEvenBits(Unmasked(positive, e, q))
  {
    FlipByte(if positive then 1 else 0, 16 * e + q);
  }

  /** The A-law octet of every sample: sign (set for samples not negative), segment and quantum with the
      even-numbered bits flipped, where the magnitude, complemented for negative samples, lies in that
      interval; the first segment is sixteen intervals of 16 from zero. */
  lemma AlawOctet(x: Sample) returns (e: nat, q: nat)
    ensures e < 8 && q < 16 && EvenBitsFlipped(LinearToAlaw(x), Unmasked(x >= 0, e, q))
    ensures var s: int := if x >= 0 then x else -(x as int) - 1;
            if e == 0 then 16 * q <= s < 16 * q + 16 else InInterval(s, e, q)
  {
    e, q := UlawSegment(AlawFolded(x)), AlawQuant(AlawFolded(x));
    AlawOctetIs(x);
    MaskFlips(Unmasked(x >= 0, e, q));
    AlawInBucket(AlawFolded(x));
    IntervalIsBucket(AlawFolded(x), e, q);
  }

  lemma AlawOctetIs(x: Sample)
    ensures var s := AlawFolded(x);
            AlawQuant(s) < 16 && LinearToAlaw(x) == FlipEvenBits(Unmasked(x >= 0, UlawSegment(s), AlawQuant(s)))
  {
    AlawParts(x);
    AlawUnmasked(x >= 0, UlawSegment(AlawFolded(x)), AlawQuant(AlawFolded(x)));
  }

  lemma AlawMagnitudeIs(e: nat, q: nat)
    requires e < 8 && q < 16
    ensures AlawMagnitude(e, q) == if e == 0 then 16 * q + 8 else (8 * q + 132) * Pow2(e)
  {
    if e > 0 {
      ShiftIsPower(16 * q + 0x108, e - 1);
      assert Pow2(e) == 2 * Pow2(e - 1);
      assert (16 * q + 264) * Pow2(e - 1) == (8 * q + 132) * Pow2(e);
    }
  }

  /** The sample of every A-law octet, from the fields its flipped bits hold. */
  lemma AlawSample(alaw: Code) returns (sign: bool, e: nat, q: nat)
    ensures e < 8 && q < 16 && EvenBitsFlipped(alaw, Unmasked(sign, e, q))
    ensures var magnitude := if e == 0 then 16 * q + 8 else (8 * q + 132) * Pow2(e);
            AlawToLinear(alaw) as int == if sign then magnitude else -magnitude
  {
    e, q := AlawFields(alaw);
    sign := alaw / 128 == 1;
    AlawUnmasked(sign, e, q);
    MaskFlips(Unmasked(sign, e, q));
    AlawMagnitudeIs(e, q);
    assert AlawToLinear(alaw) as int == if sign then AlawMagnitude(e, q) else -AlawMagnitude(e, q);
  }

  lemma FlipSevenOfZero()
    ensures FlipSeven(0) == 0x55 && FlipSeven(0x55) == 0
  {
    assert FlipPairs(0, 1) == 1 && FlipPairs(0, 2) == 5 && FlipPairs(0, 3) == 21 && FlipPairs(0, 4) == 85;
    FlipSevenTwice(0);
  }

  lemma AlawSilenceDecoded()
    ensures AlawToLinear(0xD5) == 8
  {
    var sign, e, q := AlawSample(0xD5);
    assert FlipEvenBits(0xD5) == 0x80 by {
      FlipSevenOfZero();
      FlipByte(1, 0x55);
    }
  }

  lemma AlawSilenceEncoded()
    ensures LinearToAlaw(0) == 0xD5
  {
    AlawOctetIs(0);
    assert FlipEvenBits(0x80) == 0xD5 by {
      FlipSevenOfZero();
      FlipByte(1, 0);
    }
  }

  lemma UlawSilence()
    ensures LinearToUlaw(0) == 0xFF && UlawToLinear(0xFF) == 0
  {
    UlawSample(false, 0, 0);
    assert Unmasked(false, 0, 0) == 0 && Pow2(0) == 1;
    UlawCodeRoundTrip(0xFF);
  }

  /** Silence: sample 0 is octet 0xFF in mu-law and 0xD5 in A-law, which decode to 0 and 8. */
  lemma Silence()
    ensures LinearToUlaw(0) == 0xFF && UlawToLinear(0xFF) == 0
    ensures LinearToAlaw(0) == 0xD5 && AlawToLinear(0xD5) == 8
  {
    UlawSilence();
    AlawSilenceEncoded();
    AlawSilenceDecoded();
  }
}
