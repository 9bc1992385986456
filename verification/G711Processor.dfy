/** The table-driven processor: four lookup tables filled once from the reference conversions, and what
    companding does to whole frames and chains of conversions. */
module G711Processor {
  import opened G711

  // ---------- The reference encoders as they run ----------

  predicate BitSet(x: nat, mask: nat)
    requires mask > 0
  {
    x / mask % 2 == 1
  }

  lemma TopBitSet(x: nat, mask: nat)
    requires mask > 0 && x < 2 * mask
    ensures BitSet(x, mask) <==> x >= mask
  {
    var q, r := x / mask, x % mask;
    assert x == q * mask + r;
    Multiples(q, mask);
  }

  lemma Multiples(q: nat, d: nat)
    ensures q >= 1 ==> q * d >= d
    ensures q >= 2 ==> q * d >= 2 * d
  {
  }

  method LinearToUlawSlow(linear: Sample) returns (code: Code)
    ensures code == LinearToUlaw(linear)
  {
    var sample: int := linear;
    var sign := if sample < 0 then 0x80 else 0x00;
    if sign != 0 {
      sample := -sample;
    }
    if sample > CLIP {
      sample := CLIP;
    }
    sample := sample + BIAS;
    var exponent := 7;
    var mask := 0x4000;
    TopBitSet(sample, mask);
    while exponent > 0 && !BitSet(sample, mask)
      invariant 0 <= exponent <= 7
      invariant mask == Shl(128, exponent)
      invariant BIAS <= sample == UlawBiased(linear) < 2 * mask
      invariant BitSet(sample, mask) <==> sample >= mask
    {
      exponent := exponent - 1;
      mask := mask / 2;
      TopBitSet(sample, mask);
    }
    assert exponent == UlawSegment(sample);
    var mantissa := Shr(sample, exponent + 3) % 16;
    code := 0xFF - (sign + 16 * exponent + mantissa);
  }

  /** The four tables of the processor. */
  class OptimizedCodecProcessor {
    const ulawToLinearTable: array<Sample>
    const alawToLinearTable: array<Sample>
    const linearToUlawTable: array<Code>
    const linearToAlawTable: array<Code>

    ghost predicate Shaped() {
      && ulawToLinearTable.Length == 256 && alawToLinearTable.Length == 256
      && linearToUlawTable.Length == 65536 && linearToAlawTable.Length == 65536
      && linearToUlawTable != linearToAlawTable && ulawToLinearTable != alawToLinearTable
    }

    /** Every entry is what the reference conversion gives for its index. */
    ghost predicate Filled()
      requires Shaped()
      reads ulawToLinearTable, alawToLinearTable, linearToUlawTable, linearToAlawTable
    {
      && (forall i :: 0 <= i < 256 ==> ulawToLinearTable[i] == UlawToLinear(i))
      && (forall i :: 0 <= i < 256 ==> alawToLinearTable[i] == AlawToLinear(i))
      && (forall i :: 0 <= i < 65536 ==> linearToUlawTable[i] == LinearToUlaw(i - 32768))
      && (forall i :: 0 <= i < 65536 ==> linearToAlawTable[i] == LinearToAlaw(i - 32768))
    }

    constructor ()
      ensures Shaped() && Filled()
      ensures fresh(ulawToLinearTable) && fresh(alawToLinearTable)
      ensures fresh(linearToUlawTable) && fresh(linearToAlawTable)
    {
      ulawToLinearTable := new Sample[256](_ => 0);
      alawToLinearTable := new Sample[256](_ => 0);
      linearToUlawTable := new Code[65536](_ => 0);
      linearToAlawTable := new Code[65536](_ => 0);
      new;
      InitTables();
    }

    method InitTables()
      requires Shaped()
      modifies ulawToLinearTable, alawToLinearTable, linearToUlawTable, linearToAlawTable
      ensures Filled()
    {
      FillDecoders();
      for i := 0 to 65536
        invariant forall k :: 0 <= k < 256 ==> ulawToLinearTable[k] == UlawToLinear(k)
        invariant forall k :: 0 <= k < 256 ==> alawToLinearTable[k] == AlawToLinear(k)
        invariant forall k :: 0 <= k < i ==> linearToUlawTable[k] == LinearToUlaw(k - 32768)
      {
        var signedVal := WrappingSub32768(i);
        linearToUlawTable[i] := LinearToUlawSlow(signedVal);
      }
      for i := 0 to 65536
        invariant forall k :: 0 <= k < 256 ==> ulawToLinearTable[k] == UlawToLinear(k)
        invariant forall k :: 0 <= k < 256 ==> alawToLinearTable[k] == AlawToLinear(k)
        invariant forall k :: 0 <= k < 65536 ==> linearToUlawTable[k] == LinearToUlaw(k - 32768)
        invariant forall k :: 0 <= k < i ==> linearToAlawTable[k] == LinearToAlaw(k - 32768)
      {
        var signedVal := WrappingSub32768(i);
        linearToAlawTable[i] := LinearToAlaw(signedVal);
      }
    }

    method FillDecoders()
      requires Shaped()
      modifies ulawToLinearTable, alawToLinearTable
      ensures forall k :: 0 <= k < 256 ==> ulawToLinearTable[k] == UlawToLinear(k)
      ensures forall k :: 0 <= k < 256 ==> alawToLinearTable[k] == AlawToLinear(k)
    {
      for i := 0 to 256
        invariant forall k :: 0 <= k < i ==> ulawToLinearTable[k] == UlawToLinear(k)
      {
        ulawToLinearTable[i] := UlawToLinear(i);
      }
      for i := 0 to 256
        invariant forall k :: 0 <= k < 256 ==> ulawToLinearTable[k] == UlawToLinear(k)
        invariant forall k :: 0 <= k < i ==> alawToLinearTable[k] == AlawToLinear(k)
      {
        alawToLinearTable[i] := AlawToLinear(i);
      }
    }

    /** (i as u16).wrapping_sub(32768) as i16 */
    static function WrappingSub32768(i: int): (r: Sample)
      requires 0 <= i < 65536
      ensures r == i - 32768
    {
      var unsigned := if i >= 32768 then i - 32768 else i - 32768 + 65536;
      if unsigned >= 32768 then unsigned - 65536 else unsigned
    }

    method UlawToLinearFast(ulaw: Code) returns (linear: Sample)
      requires Shaped() && Filled()
      ensures linear == UlawToLinear(ulaw)
    {
      linear := ulawToLinearTable[ulaw];
    }

    method AlawToLinearFast(alaw: Code) returns (linear: Sample)
      requires Shaped() && Filled()
      ensures linear == AlawToLinear(alaw)
    {
      linear := alawToLinearTable[alaw];
    }

    method LinearToUlawFast(linear: Sample) returns (code: Code)
      requires Shaped() && Filled()
      ensures code == LinearToUlaw(linear)
    {
      var index := linear as int + 32768;
      assert index % 65536 == index && index - 32768 == linear;
      code := linearToUlawTable[index % 65536];
    }

    method LinearToAlawFast(linear: Sample) returns (code: Code)
      requires Shaped() && Filled()
      ensures code == LinearToAlaw(linear)
    {
      var index := linear as int + 32768;
      assert index % 65536 == index && index - 32768 == linear;
      code := linearToAlawTable[index % 65536];
    }
  }

  // ---------- Frames and tandem passes ----------

  datatype Law = MuLaw | ALaw

  function Encode(law: Law, pcm: seq<Sample>): seq<Code> {
    seq(|pcm|, i requires 0 <= i < |pcm| => if law.MuLaw? then LinearToUlaw(pcm[i]) else LinearToAlaw(pcm[i]))
  }

  function Decode(law: Law, codes: seq<Code>): seq<Sample> {
    seq(|codes|, i requires 0 <= i < |codes| => if law.MuLaw? then UlawToLinear(codes[i]) else AlawToLinear(codes[i]))
  }

  /** n encode-decode passes, one after another. */
  function Tandem(law: Law, n: nat, pcm: seq<Sample>): seq<Sample> {
    if n == 0 then pcm else Decode(law, Encode(law, Tandem(law, n - 1, pcm)))
  }

  function Quantized(law: Law, x: Sample): Sample {
    if law.MuLaw? then UlawQuantized(x) else AlawQuantized(x)
  }

  /** After the first pass of a chain of any length nothing is lost any more: every later pass gives
      the same frame, for frames of any length. */
  lemma {:induction false} TandemSettles(law: Law, n: nat, pcm: seq<Sample>)
    requires n >= 1
    ensures Tandem(law, n, pcm) == Tandem(law, 1, pcm)
    ensures |Tandem(law, n, pcm)| == |pcm|
    ensures forall i :: 0 <= i < |pcm| ==> Tandem(law, n, pcm)[i] == Quantized(law, pcm[i])
  {
    var once := Tandem(law, 1, pcm);
    assert Tandem(law, 0, pcm) == pcm;
    assert forall i :: 0 <= i < |pcm| ==> once[i] == Quantized(law, pcm[i]);
    if n > 1 {
      TandemSettles(law, n - 1, pcm);
      var again := Decode(law, Encode(law, once));
      forall i | 0 <= i < |pcm| ensures again[i] == once[i] {
        UlawIdempotent(pcm[i]);
        AlawIdempotent(pcm[i]);
      }
      assert again == once;
    }
  }

  /** The error of a whole chain is the error of one pass, sample by sample. */
  lemma TandemError(law: Law, n: nat, pcm: seq<Sample>, i: nat)
    requires n >= 1 && i < |pcm|
    ensures |Tandem(law, n, pcm)| == |pcm|
    ensures var e := Abs(pcm[i] as int - Tandem(law, n, pcm)[i]);
            if law.MuLaw? then 32 * e <= Abs(pcm[i]) + 132
            else 32 * e <= if Abs(pcm[i]) > 256 then Abs(pcm[i]) else 256
  {
    TandemSettles(law, n, pcm);
    UlawError(pcm[i]);
    AlawError(pcm[i]);
  }

  /** A chain keeps the order of samples, within a frame and between frames. */
  lemma TandemMonotone(law: Law, n: nat, pcm: seq<Sample>, pcm': seq<Sample>, i: nat, j: nat)
    requires i < |pcm| && j < |pcm'| && pcm[i] <= pcm'[j]
    ensures i < |Tandem(law, n, pcm)| && j < |Tandem(law, n, pcm')|
    ensures Tandem(law, n, pcm)[i] <= Tandem(law, n, pcm')[j]
  {
    if n > 0 {
      TandemSettles(law, n, pcm);
      TandemSettles(law, n, pcm');
      UlawMonotone(pcm[i], pcm'[j]);
      AlawMonotone(pcm[i], pcm'[j]);
    }
  }

  /** A coded frame that is decoded and encoded again comes back, but for mu-law's negative zeros. */
  lemma RecodedFrame(law: Law, codes: seq<Code>)
    ensures var again := Encode(law, Decode(law, codes));
            && |again| == |codes|
            && forall i :: 0 <= i < |codes| ==>
                 again[i] == if law.MuLaw? && codes[i] == 0x7F then 0xFF else codes[i]
  {
    forall i | 0 <= i < |codes|
      ensures Encode(law, Decode(law, codes))[i] == if law.MuLaw? && codes[i] == 0x7F then 0xFF else codes[i]
    {
      UlawCodeRoundTrip(codes[i]);
      AlawCodeRoundTrip(codes[i]);
    }
  }
}
