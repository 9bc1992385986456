/** G.711 companding: the reference mu-law and A-law conversions between 16-bit samples and octets.
    Samples and octets are numbers in range; shifts by k are multiplication and division by 2^k, and
    masks keep a remainder. */
module G711 {

  type Sample = n: int | -0x8000 <= n < 0x8000
  type Code = n: int | 0 <= n < 0x100

  const BIAS := 132
  const CLIP := 32635

  // ---------- Bits ----------

  /** x << k, for the shifts these codecs use. */
  function Shl(x: int, k: nat): int
    requires k <= 7
  {
    if k == 0 then x else if k == 1 then 2 * x else if k == 2 then 4 * x else if k == 3 then 8 * x
    else if k == 4 then 16 * x else if k == 5 then 32 * x else if k == 6 then 64 * x else 128 * x
  }

  /** x >> k, for the shifts these codecs use. */
  function Shr(x: nat, k: nat): nat
    requires 3 <= k <= 10
  {
    if k == 3 then x / 8 else if k == 4 then x / 16 else if k == 5 then x / 32 else if k == 6 then x / 64
    else if k == 7 then x / 128 else if k == 8 then x / 256 else if k == 9 then x / 512 else x / 1024
  }

  /** The index of the highest set bit; the code's 31 - leading_zeros. */
  function TopBit(x: nat): nat {
    if x < 2 then 0 else 1 + TopBit(x / 2)
  }

  /** x | 0xFF */
  function OrLowByte(x: nat): nat {
    x - x % 0x100 + 0xFF
  }

  /** n ^ 0x55: the even-numbered bits flipped. The top bit is odd-numbered and stays. */
  function FlipEvenBits(n: Code): Code {
    n / 0x80 * 0x80 + FlipSeven(n % 0x80)
  }

  function FlipSeven(n: nat): (r: nat)
    requires n < 0x80
    ensures r < 0x80
  {
    assert Bound(4) == 0x80;
    FlipPairs(n, 4)
  }

  /** Bits 0, 2, ... of the number flipped, two bits at a time; above k - 1 pairs a single bit is left. */
  function FlipPairs(n: nat, k: nat): (r: nat)
    requires k >= 1 && n < Bound(k)
    ensures r < Bound(k)
  {
    if k == 1 then 1 - n else FlipLow(n % 4) + 4 * FlipPairs(n / 4, k - 1)
  }

  function Bound(k: nat): nat
    requires k >= 1
  {
    if k == 1 then 2 else 4 * Bound(k - 1)
  }

  function FlipLow(pair: int): (r: int)
    requires 0 <= pair < 4
    ensures 0 <= r < 4
  {
    if pair % 2 == 0 then pair + 1 else pair - 1
  }

  /** The fields of an octet: sign bit, three bits, four bits. */
  lemma Fields(sign: nat, high: nat, low: nat)
    requires sign < 2 && high < 8 && low < 16
    ensures var bits := 0x80 * sign + 16 * high + low;
            bits / 128 == sign && bits / 16 % 8 == high && bits % 16 == low && bits % 0x80 == 16 * high + low
  {
  }

  // ---------- Mu-law ----------

  function UlawMagnitude(exponent: nat, mantissa: nat): int
    requires exponent < 8 && mantissa < 16
  {
    Shl(8 * mantissa + BIAS, exponent) - BIAS
  }

  function UlawToLinear(ulaw: Code): Sample {
    var bits := 0xFF - ulaw;
    var magnitude := UlawMagnitude(bits / 16 % 8, bits % 16);
    if bits / 128 == 1 then -magnitude else magnitude
  }

  /** The clipped and biased magnitude that the encoder quantizes. */
  function UlawBiased(linear: Sample): (s: nat)
    ensures BIAS <= s < 0x8000
  {
    var magnitude: int := if linear < 0 then -(linear as int) else linear;
    (if magnitude > CLIP then CLIP else magnitude) + BIAS
  }

  /** Segment of a biased magnitude: the highest set bit among bits 7 to 14, counted from 7. */
  function UlawSegment(s: nat): (e: nat)
    ensures e < 8
  {
    if s >= 0x4000 then 7 else if s >= 0x2000 then 6 else if s >= 0x1000 then 5 else if s >= 0x800 then 4
    else if s >= 0x400 then 3 else if s >= 0x200 then 2 else if s >= 0x100 then 1 else 0
  }

  function LinearToUlaw(linear: Sample): Code {
    var s := UlawBiased(linear);
    var e := UlawSegment(s);
    0xFF - ((if linear < 0 then 0x80 else 0) + 16 * e + Shr(s, e + 3) % 16)
  }

  // ---------- A-law ----------

  function AlawMagnitude(segment: nat, quant: nat): int
    requires segment < 8 && quant < 16
  {
    if segment == 0 then 16 * quant + 8
    else if segment == 1 then 16 * quant + 0x108
    else Shl(16 * quant + 0x108, segment - 1)
  }

  function AlawToLinear(alaw: Code): Sample {
    var bits := FlipEvenBits(alaw);
    var magnitude := AlawMagnitude(bits / 16 % 8, bits % 16);
    if bits / 128 == 1 then magnitude else -magnitude
  }

  /** The non-negative number the encoder quantizes; negative samples are complemented. */
  function AlawFolded(linear: Sample): (s: nat)
    ensures s < 0x8000
  {
    if linear >= 0 then linear else -(linear as int) - 1
  }

  /** value ^ 0xD5 for samples that are not negative, value ^ 0x55 for the others. */
  function AlawMask(value: Code, positive: bool): Code
    requires value < 0x80
  {
    FlipSeven(value) + if positive then 0x80 else 0
  }

  function LinearToAlaw(linear: Sample): Code {
    var s := AlawFolded(linear);
    var segment := TopBit(OrLowByte(s)) - 7;
    if segment >= 8 then AlawMask(0x7F, linear >= 0)
    else
      SegmentByBounds(s);
      var shift := if segment != 0 then segment + 3 else 4;
      AlawMask(16 * segment + Shr(s, shift) % 16, linear >= 0)
  }

  /** The same thresholds as for mu-law; the out-of-range segment of the code cannot occur. */
  lemma SegmentByBounds(s: nat)
    requires s < 0x8000
    ensures TopBit(OrLowByte(s)) - 7 == UlawSegment(s)
  {
    assert Pow2(7) == 0x80 && Pow2(8) == 0x100 && Pow2(9) == 0x200 && Pow2(10) == 0x400;
    assert Pow2(11) == 0x800 && Pow2(12) == 0x1000 && Pow2(13) == 0x2000 && Pow2(14) == 0x4000;
    TopBitBetween(OrLowByte(s), UlawSegment(s) + 7);
  }

  function Pow2(k: nat): nat {
    if k == 0 then 1 else 2 * Pow2(k - 1)
  }

  lemma {:induction false} TopBitBetween(x: nat, k: nat)
    requires Pow2(k) <= x < 2 * Pow2(k)
    ensures TopBit(x) == k
  {
    if k > 0 {
      TopBitBetween(x / 2, k - 1);
    }
  }

  // ---------- Quantization buckets ----------

  /** Every number of segment e with mantissa m lies in [Low, Low + Width), and both decoders return the
      middle of that bucket (mu-law after removing the bias). */
  function Low(e: nat, m: nat): int
    requires e < 8
  {
    Shl(128 + 8 * m, e)
  }

  function Width(e: nat): int
    requires e < 8
  {
    Shl(8, e)
  }

  lemma InSegment(s: nat)
    requires 0x80 <= s < 0x8000
    ensures Shl(128, UlawSegment(s)) <= s < Shl(256, UlawSegment(s)) && Width(UlawSegment(s)) <= s / 16
  {
  }

  lemma InSegmentBucket(s: nat, e: nat)
    requires e < 8 && Shl(128, e) <= s < Shl(256, e)
    ensures var m := Shr(s, e + 3) % 16;
            Low(e, m) <= s < Low(e, m) + Width(e)
  {
    assert Shr(s, e + 3) / 16 == 1;
  }

  lemma InBucket(s: nat)
    requires 0x80 <= s < 0x8000
    ensures var e := UlawSegment(s);
            var m := Shr(s, e + 3) % 16;
            Low(e, m) <= s < Low(e, m) + Width(e) && Low(e, 0) == Shl(128, e) && Width(e) <= s / 16
  {
    InSegment(s);
    InSegmentBucket(s, UlawSegment(s));
  }

  lemma BucketsPartition(e: nat, m: nat, s: nat)
    requires e < 8 && m < 16 && Low(e, m) <= s < Low(e, m) + Width(e)
    ensures 0x80 <= s < 0x8000 && UlawSegment(s) == e && Shr(s, e + 3) % 16 == m
  {
  }

  /** Buckets are in the order of the numbers in them. */
  lemma BucketsOrdered(s: nat, t: nat)
    requires 0x80 <= s <= t < 0x8000
    ensures var e, f := UlawSegment(s), UlawSegment(t);
            var m, n := Shr(s, e + 3) % 16, Shr(t, f + 3) % 16;
            (e == f && m == n) || Low(e, m) + Width(e) <= Low(f, n)
  {
    var e, f := UlawSegment(s), UlawSegment(t);
    var m, n := Shr(s, e + 3) % 16, Shr(t, f + 3) % 16;
    InBucket(s);
    InBucket(t);
    if e == f {
      NextInSegment(e, m, n);
    } else {
      NextSegment(e, m, f, n);
    }
  }

  lemma NextInSegment(e: nat, m: nat, n: nat)
    requires e < 8 && m < 16 && n < 16
    ensures m < n ==> Low(e, m) + Width(e) <= Low(e, n)
    ensures n < m ==> Low(e, n) + Width(e) <= Low(e, m)
  {
  }

  lemma NextSegment(e: nat, m: nat, f: nat, n: nat)
    requires e < f < 8 && m < 16 && n < 16
    ensures Low(e, m) + Width(e) <= Low(f, n)
  {
  }

  // ---------- Mu-law ----------

  /** Encoding and then decoding. */
  function UlawQuantized(x: Sample): Sample {
    UlawToLinear(LinearToUlaw(x))
  }

  function Abs(x: int): nat {
    if x < 0 then -x else x
  }

  lemma UlawParts(x: Sample)
    ensures var s := UlawBiased(x);
            var e := UlawSegment(s);
            UlawQuantized(x) == (if x < 0 then -1 else 1) * UlawMagnitude(e, Shr(s, e + 3) % 16)
  {
    var e := UlawSegment(UlawBiased(x));
    var m := Shr(UlawBiased(x), e + 3) % 16;
    Fields(if x < 0 then 1 else 0, e, m);
    assert 0xFF - LinearToUlaw(x) == (if x < 0 then 0x80 else 0) + 16 * e + m;
  }

  lemma UlawMiddle(e: nat, m: nat)
    requires e < 8 && m < 16
    ensures UlawMagnitude(e, m) + BIAS == Low(e, m) + Width(e) / 2
    ensures 0 <= UlawMagnitude(e, m) <= 32124 && Width(e) % 8 == 0 && Width(e) >= 8
  {
  }

  /** The error bound holds for every sample, clipped ones included. */
  lemma UlawError(x: Sample)
    ensures 32 * Abs(x as int - UlawQuantized(x)) <= Abs(x) + 132
  {
    var s := UlawBiased(x);
    var e := UlawSegment(s);
    var m := Shr(s, e + 3) % 16;
    InBucket(s);
    UlawMiddle(e, m);
    UlawParts(x);
  }

  lemma UlawMagnitudesOrdered(s: nat, t: nat)
    requires 0x80 <= s <= t < 0x8000
    ensures var e, f := UlawSegment(s), UlawSegment(t);
            UlawMagnitude(e, Shr(s, e + 3) % 16) <= UlawMagnitude(f, Shr(t, f + 3) % 16)
  {
    var e, f := UlawSegment(s), UlawSegment(t);
    BucketsOrdered(s, t);
    UlawMiddle(e, Shr(s, e + 3) % 16);
    UlawMiddle(f, Shr(t, f + 3) % 16);
  }

  lemma UlawMonotone(x: Sample, y: Sample)
    requires x <= y
    ensures UlawQuantized(x) <= UlawQuantized(y)
  {
    var s, t := UlawBiased(x), UlawBiased(y);
    UlawParts(x);
    UlawParts(y);
    UlawMiddle(UlawSegment(s), Shr(s, UlawSegment(s) + 3) % 16);
    UlawMiddle(UlawSegment(t), Shr(t, UlawSegment(t) + 3) % 16);
    if x >= 0 {
      UlawMagnitudesOrdered(s, t);
    } else if y < 0 {
      UlawMagnitudesOrdered(t, s);
    }
  }

  /** The middle of a bucket encodes to that bucket. */
  lemma UlawEncodesMiddle(e: nat, m: nat, negative: bool)
    requires e < 8 && m < 16 && (negative ==> UlawMagnitude(e, m) > 0)
    ensures var x: Sample := if negative then -UlawMagnitude(e, m) else UlawMagnitude(e, m);
            LinearToUlaw(x) == 0xFF - ((if negative then 0x80 else 0) + 16 * e + m)
  {
    UlawMiddle(e, m);
    BucketsPartition(e, m, UlawMagnitude(e, m) + BIAS);
  }

  lemma OnlyFirstBucketIsZero(e: nat, m: nat)
    requires e < 8 && m < 16
    ensures UlawMagnitude(e, m) == 0 <==> e == 0 && m == 0
  {
  }

  /** The fields of a mu-law octet, and the octet made of them. */
  lemma UlawFields(ulaw: Code) returns (negative: bool, e: nat, m: nat)
    ensures e < 8 && m < 16
    ensures ulaw == 0xFF - ((if negative then 0x80 else 0) + 16 * e + m)
    ensures UlawToLinear(ulaw) as int == if negative then -UlawMagnitude(e, m) else UlawMagnitude(e, m)
  {
    var bits := 0xFF - ulaw;
    negative, e, m := bits / 128 == 1, bits / 16 % 8, bits % 16;
  }

  /** Encoding a decoded octet gives the octet back, except that negative zero becomes positive zero. */
  lemma UlawCodeRoundTrip(ulaw: Code)
    ensures LinearToUlaw(UlawToLinear(ulaw)) == if ulaw == 0x7F then 0xFF else ulaw
  {
    var negative, e, m := UlawFields(ulaw);
    OnlyFirstBucketIsZero(e, m);
    UlawEncodesMiddle(e, m, negative && !(e == 0 && m == 0));
  }

  lemma UlawIdempotent(x: Sample)
    ensures UlawQuantized(UlawQuantized(x)) == UlawQuantized(x)
  {
    UlawCodeRoundTrip(LinearToUlaw(x));
    assert UlawToLinear(0x7F) == 0 == UlawToLinear(0xFF);
  }

  // ---------- A-law ----------

  function AlawQuantized(x: Sample): Sample {
    AlawToLinear(LinearToAlaw(x))
  }

  lemma LowPair(low: nat, high: nat)
    requires low < 4
    ensures (low + 4 * high) % 4 == low && (low + 4 * high) / 4 == high
  {
  }

  lemma FlipLowTwice(pair: int)
    requires 0 <= pair < 4
    ensures FlipLow(FlipLow(pair)) == pair
  {
  }

  lemma {:induction false} FlipPairsTwice(n: nat, k: nat)
    requires k >= 1 && n < Bound(k)
    ensures FlipPairs(FlipPairs(n, k), k) == n
  {
    if k > 1 {
      var low, high := FlipLow(n % 4), FlipPairs(n / 4, k - 1);
      FlipPairsTwice(n / 4, k - 1);
      LowPair(low, high);
      FlipLowTwice(n % 4);
      assert FlipPairs(low + 4 * high, k) == FlipLow(low) + 4 * FlipPairs(high, k - 1);
    }
  }

  lemma FlipSevenTwice(n: nat)
    requires n < 0x80
    ensures FlipSeven(FlipSeven(n)) == n
  {
    assert Bound(4) == 0x80;
    FlipPairsTwice(n, 4);
  }

  lemma FlipByte(sign: nat, rest: nat)
    requires sign < 2 && rest < 0x80
    ensures FlipEvenBits(0x80 * sign + rest) == 0x80 * sign + FlipSeven(rest)
  {
    var n := 0x80 * sign + rest;
    assert n / 0x80 == sign && n % 0x80 == rest;
  }

  lemma MaskUndone(value: Code, positive: bool)
    requires value < 0x80
    ensures FlipEvenBits(AlawMask(value, positive)) == value + if positive then 0x80 else 0
  {
    FlipByte(if positive then 1 else 0, FlipSeven(value));
    FlipSevenTwice(value);
  }

  /** The fields of an A-law octet, and the octet made of them. */
  lemma AlawFields(alaw: Code) returns (e: nat, q: nat)
    ensures e < 8 && q < 16
    ensures var bits := FlipEvenBits(alaw);
            bits / 16 % 8 == e && bits % 16 == q && bits / 128 == alaw / 128
    ensures alaw == AlawMask(16 * e + q, alaw / 128 == 1)
  {
    var sign, rest := alaw / 0x80, FlipSeven(alaw % 0x80);
    e, q := rest / 16, rest % 16;
    Fields(sign, e, q);
    FlipSevenTwice(alaw % 0x80);
  }

  lemma AlawParts(x: Sample)
    ensures var s := AlawFolded(x);
            var e := UlawSegment(s);
            var q := Shr(s, if e == 0 then 4 else e + 3) % 16;
            && LinearToAlaw(x) == AlawMask(16 * e + q, x >= 0)
            && AlawQuantized(x) == (if x >= 0 then 1 else -1) * AlawMagnitude(e, q)
  {
    var s := AlawFolded(x);
    var e := UlawSegment(s);
    var q := Shr(s, if e == 0 then 4 else e + 3) % 16;
    SegmentByBounds(s);
    MaskUndone(16 * e + q, x >= 0);
    Fields(if x >= 0 then 1 else 0, e, q);
    assert FlipEvenBits(LinearToAlaw(x)) == (if x >= 0 then 0x80 else 0) + 16 * e + q;
  }

  /** Above the first segment the A-law buckets are the mu-law ones; the first has sixteen of width 16. */
  function AlawLow(e: nat, q: nat): int
    requires e < 8
  {
    if e == 0 then 16 * q else Low(e, q)
  }

  function AlawWidth(e: nat): int
    requires e < 8
  {
    if e == 0 then 16 else Width(e)
  }

  function AlawQuant(s: nat): nat
    requires s < 0x8000
  {
    Shr(s, if UlawSegment(s) == 0 then 4 else UlawSegment(s) + 3) % 16
  }

  lemma AlawInBucket(s: nat)
    requires s < 0x8000
    ensures var e := UlawSegment(s);
            && AlawLow(e, AlawQuant(s)) <= s < AlawLow(e, AlawQuant(s)) + AlawWidth(e)
            && (e > 0 ==> AlawWidth(e) <= s / 16)
  {
    if UlawSegment(s) > 0 {
      InBucket(s);
    }
  }

  lemma AlawMiddle(e: nat, q: nat)
    requires e < 8 && q < 16
    ensures AlawMagnitude(e, q) == AlawLow(e, q) + AlawWidth(e) / 2
    ensures 8 <= AlawMagnitude(e, q) <= 32256 && AlawWidth(e) % 16 == 0 && AlawWidth(e) >= 16
  {
  }

  lemma AlawError(x: Sample)
    ensures 32 * Abs(x as int - AlawQuantized(x)) <= if Abs(x) > 256 then Abs(x) else 256
  {
    var s := AlawFolded(x);
    AlawInBucket(s);
    AlawMiddle(UlawSegment(s), AlawQuant(s));
    AlawParts(x);
  }

  lemma AlawMagnitudesOrdered(s: nat, t: nat)
    requires s <= t < 0x8000
    ensures AlawMagnitude(UlawSegment(s), AlawQuant(s)) <= AlawMagnitude(UlawSegment(t), AlawQuant(t))
  {
    var e, f := UlawSegment(s), UlawSegment(t);
    AlawInBucket(s);
    AlawInBucket(t);
    AlawMiddle(e, AlawQuant(s));
    AlawMiddle(f, AlawQuant(t));
    if e > 0 {
      BucketsOrdered(s, t);
    }
  }

  lemma AlawMonotone(x: Sample, y: Sample)
    requires x <= y
    ensures AlawQuantized(x) <= AlawQuantized(y)
  {
    var s, t := AlawFolded(x), AlawFolded(y);
    AlawParts(x);
    AlawParts(y);
    AlawMiddle(UlawSegment(s), AlawQuant(s));
    AlawMiddle(UlawSegment(t), AlawQuant(t));
    if x >= 0 {
      AlawMagnitudesOrdered(s, t);
    } else if y < 0 {
      AlawMagnitudesOrdered(t, s);
    }
  }

  lemma AlawBucketsPartition(e: nat, q: nat, s: nat)
    requires e < 8 && q < 16 && AlawLow(e, q) <= s < AlawLow(e, q) + AlawWidth(e)
    ensures s < 0x8000 && UlawSegment(s) == e && AlawQuant(s) == q
  {
    if e > 0 {
      BucketsPartition(e, q, s);
    }
  }

  /** Every A-law octet comes back: the two zeros decode to different samples. */
  lemma AlawCodeRoundTrip(alaw: Code)
    ensures LinearToAlaw(AlawToLinear(alaw)) == alaw
  {
    var e, q := AlawFields(alaw);
    AlawMiddle(e, q);
    AlawEncodesMiddle(e, q, alaw / 128 == 1);
    assert AlawToLinear(alaw) == if alaw / 128 == 1 then AlawMagnitude(e, q) else -AlawMagnitude(e, q);
  }

  /** The middle of a bucket encodes to that bucket. */
  lemma AlawEncodesMiddle(e: nat, q: nat, positive: bool)
    requires e < 8 && q < 16
    ensures 0 < AlawMagnitude(e, q) < 0x8000
    ensures LinearToAlaw(if positive then AlawMagnitude(e, q) else -AlawMagnitude(e, q)) == AlawMask(16 * e + q, positive)
  {
    AlawMiddle(e, q);
    var magnitude := AlawMagnitude(e, q);
    var s := if positive then magnitude else magnitude - 1;
    assert AlawLow(e, q) <= s < AlawLow(e, q) + AlawWidth(e);
    AlawBucketsPartition(e, q, s);
    var x: Sample := if positive then magnitude else -magnitude;
    assert AlawFolded(x) == s && (x >= 0 <==> positive);
    AlawParts(x);
  }

  lemma AlawIdempotent(x: Sample)
    ensures AlawQuantized(AlawQuantized(x)) == AlawQuantized(x)
  {
    AlawCodeRoundTrip(LinearToAlaw(x));
  }
}
