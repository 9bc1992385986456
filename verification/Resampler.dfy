/** The linear resampler, in exact rationals: output sample i sits at input position i * from / to, and is
    the interpolation between the two inputs around it, truncated toward zero. */
module Resampler {
  import opened Common

  type Sample = n: int | -0x8000 <= n < 0x8000

  function OutputLength(n: nat, from: nat, to: nat): nat
    requires from > 0
  {
    n * to / from
  }

  /** num / den, truncated toward zero. */
  function TruncDiv(num: int, den: nat): int
    requires den > 0
  {
    if num >= 0 then num / den else -((-num) / den)
  }

  /** to times the value, at `rem` parts of `to` on the way from a to b. */
  function Scaled(a: int, b: int, rem: nat, to: nat): int {
    a * to + (b - a) * rem
  }

  function Next(floor: nat, n: nat): nat
    requires n > 0
  {
    if floor + 1 < n - 1 then floor + 1 else n - 1
  }

  /** Output sample i; zero if its position were past the input. */
  function Interpolated(input: seq<Sample>, from: nat, to: nat, i: nat): int
    requires input != [] && to > 0
  {
    var floor := i * from / to;
    if floor < |input|
    then TruncDiv(Scaled(input[floor], input[Next(floor, |input|)], i * from % to, to), to)
    else 0
  }

  lemma DivBounds(n: nat, d: nat)
    requires d > 0
    ensures n / d * d <= n < (n / d + 1) * d && n == n / d * d + n % d
  {
  }

  lemma LessByProduct(a: nat, b: nat, d: nat)
    ensures a * d < b * d ==> a < b
  {
    if b <= a {
      MulMono(b, a, d);
    }
  }

  lemma PositiveProduct(a: nat, b: nat)
    requires a * b > 0
    ensures a > 0 && b > 0
  {
  }

  lemma OneMore(i: nat, d: nat)
    ensures (i + 1) * d == i * d + d
  {
  }

  /** Every output position lies within the input: the zero fallback is never taken. */
  lemma PositionInRange(n: nat, from: nat, to: nat, i: nat)
    requires from > 0 && i < OutputLength(n, from, to)
    ensures to > 0 && n > 0 && i * from / to < n
  {
    var len, whole, position := OutputLength(n, from, to), n * to, i * from;
    assert position < whole by {
      DivBounds(whole, from);
      MulMono(i + 1, len, from);
      OneMore(i, from);
    }
    PositiveProduct(n, to);
    DivBounds(position, to);
    LessByProduct(position / to, n, to);
  }

  lemma TruncMono(x: int, y: int, den: nat)
    requires den > 0 && x <= y
    ensures TruncDiv(x, den) <= TruncDiv(y, den)
  {
    if x >= 0 {
      DivMono(x, y, den);
    } else if y < 0 {
      DivMono(-y, -x, den);
    } else {
      DivNonNegative(-x, den);
      DivNonNegative(y, den);
    }
  }

  lemma DivNonNegative(x: nat, den: nat)
    requires den > 0
    ensures x / den >= 0
  {
  }

  lemma DivMono(x: nat, y: nat, den: nat)
    requires den > 0 && x <= y
    ensures x / den <= y / den
  {
    DivBounds(x, den);
    DivBounds(y, den);
    if x / den > y / den {
      MulMono(y / den + 1, x / den, den);
    }
  }

  lemma TruncExact(a: int, den: nat)
    requires den > 0
    ensures TruncDiv(a * den, den) == a
  {
    if a >= 0 {
      DivExact(a, den);
    } else {
      DivExact(-a, den);
      assert (-a) * den == -(a * den);
      assert a * den < 0;
    }
  }

  lemma DivExact(a: nat, den: nat)
    requires den > 0
    ensures a * den / den == a
  {
    DivBounds(a * den, den);
    var q := a * den / den;
    if q < a {
      MulMono(q + 1, a, den);
    } else if q > a {
      MulMono(a + 1, q, den);
    }
  }

  /** An interpolation of two numbers lies between them, also after truncation. */
  lemma BetweenEnds(a: int, b: int, rem: nat, to: nat)
    requires rem <= to && to > 0
    ensures var x := TruncDiv(Scaled(a, b, rem, to), to);
            if a <= b then a <= x <= b else b <= x <= a
  {
    TruncExact(a, to);
    TruncExact(b, to);
    assert b * to - Scaled(a, b, rem, to) == (b - a) * (to - rem);
    if a <= b {
      MulMono(0, rem, b - a);
      MulMono(0, to - rem, b - a);
      TruncMono(a * to, Scaled(a, b, rem, to), to);
      TruncMono(Scaled(a, b, rem, to), b * to, to);
    } else {
      MulMono(0, rem, a - b);
      MulMono(0, to - rem, a - b);
      TruncMono(b * to, Scaled(a, b, rem, to), to);
      TruncMono(Scaled(a, b, rem, to), a * to, to);
    }
  }

  /** Each output sample lies between its two neighbouring inputs. */
  lemma OutputBetweenNeighbours(input: seq<Sample>, from: nat, to: nat, i: nat)
    requires from > 0 && i < OutputLength(|input|, from, to)
    ensures to > 0 && input != []
    ensures var floor := i * from / to;
            floor < |input| && Next(floor, |input|) < |input| &&
            var a, b, x := input[floor], input[Next(floor, |input|)], Interpolated(input, from, to, i);
            if a <= b then a <= x <= b else b <= x <= a
  {
    PositionInRange(|input|, from, to, i);
    var floor := i * from / to;
    DivBounds(i * from, to);
    BetweenEnds(input[floor], input[Next(floor, |input|)], i * from % to, to);
  }

  /** The resampler as it runs. */
  method ResampleAudio(input: seq<Sample>, from: nat, to: nat) returns (output: seq<Sample>)
    requires from > 0
    ensures from == to ==> output == input
    ensures from != to ==> |output| == OutputLength(|input|, from, to)
    ensures from != to ==> forall i :: 0 <= i < |output| ==> to > 0 && input != [] && output[i] == Interpolated(input, from, to, i)
  {
    if from == to {
      return input;
    }
    var outputLen := OutputLength(|input|, from, to);
    output := [];
    for i := 0 to outputLen
      invariant |output| == i
      invariant forall k :: 0 <= k < i ==> to > 0 && input != [] && output[k] == Interpolated(input, from, to, k)
    {
      PositionInRange(|input|, from, to, i);
      OutputBetweenNeighbours(input, from, to, i);
      var floor := i * from / to;
      var ceil := Next(floor, |input|);
      var sample := TruncDiv(Scaled(input[floor], input[ceil], i * from % to, to), to);
      output := output + [sample];
    }
  }

  /** Where an output position falls on an input sample, that sample comes through unchanged: at every
      k-th output when sampling up by a whole k, at every output when sampling down by one. */
  lemma ExactPositionsKept(input: seq<Sample>, from: nat, to: nat, i: nat)
    requires from > 0 && i < OutputLength(|input|, from, to) && to > 0 && i * from % to == 0
    ensures input != [] && i * from / to < |input|
    ensures Interpolated(input, from, to, i) == input[i * from / to]
  {
    PositionInRange(|input|, from, to, i);
    var floor := i * from / to;
    assert Scaled(input[floor], input[Next(floor, |input|)], 0, to) == input[floor] * to;
    TruncExact(input[floor], to);
  }

  lemma Regroup(a: nat, b: nat, c: nat)
    ensures a * (b * c) == (b * a) * c
  {
  }

  lemma ModExact(a: nat, den: nat)
    requires den > 0
    ensures a * den % den == 0
  {
    DivExact(a, den);
    DivBounds(a * den, den);
  }

  lemma UpsamplingKeepsInput(input: seq<Sample>, from: nat, k: nat, i: nat)
    requires from > 0 && k > 0 && i < |input|
    ensures OutputLength(|input|, from, k * from) == k * |input|
    ensures k * i < k * |input| && k * from > 0 && Interpolated(input, from, k * from, k * i) == input[i]
  {
    var n, to := |input|, k * from;
    assert to > 0 by {
      MulMono(1, k, from);
    }
    assert OutputLength(n, from, to) == k * n by {
      Regroup(n, k, from);
      DivExact(k * n, from);
    }
    assert k * i < k * n by {
      MulMono(i + 1, n, k);
      OneMore(i, k);
    }
    Regroup(i, k, from);
    DivExact(i, to);
    ModExact(i, to);
    ExactPositionsKept(input, from, to, k * i);
  }

  ghost predicate NonDecreasing(s: seq<Sample>) {
    forall i, j :: 0 <= i <= j < |s| ==> s[i] <= s[j]
  }

  lemma SameFloor(p: nat, q: nat, d: nat)
    requires d > 0 && p <= q && p / d == q / d
    ensures p % d <= q % d
  {
    DivBounds(p, d);
    DivBounds(q, d);
  }

  lemma FurtherAlong(a: int, b: int, r: nat, s: nat, to: nat)
    requires to > 0 && a <= b && r <= s
    ensures TruncDiv(Scaled(a, b, r, to), to) <= TruncDiv(Scaled(a, b, s, to), to)
  {
    MulMono(r, s, b - a);
    TruncMono(Scaled(a, b, r, to), Scaled(a, b, s, to), to);
  }

  /** Resampling keeps a non-decreasing signal non-decreasing, for all rates. */
  lemma KeepsMonotone(input: seq<Sample>, from: nat, to: nat, i: nat, j: nat)
    requires from > 0 && NonDecreasing(input) && i <= j < OutputLength(|input|, from, to)
    ensures to > 0 && input != [] && Interpolated(input, from, to, i) <= Interpolated(input, from, to, j)
  {
    OutputBetweenNeighbours(input, from, to, i);
    OutputBetweenNeighbours(input, from, to, j);
    var p, q := i * from, j * from;
    assert p <= q by {
      MulMono(i, j, from);
    }
    var f, g := p / to, q / to;
    DivMono(p, q, to);
    if f == g {
      SameFloor(p, q, to);
      FurtherAlong(input[f], input[Next(f, |input|)], p % to, q % to, to);
    } else {
      assert input[Next(f, |input|)] <= input[g];
    }
  }

  /** Every output sample is the weighted sum of the two inputs around its position, the nearer one weighing
      more, divided by the output rate and truncated toward zero; past the last input there is none to
      weigh, and the last input stands in. */
  lemma InterpolationExact(input: seq<Sample>, from: nat, to: nat, i: nat)
    requires from > 0 && i < OutputLength(|input|, from, to)
    ensures to > 0 && i * from / to < |input|
    ensures var floor, past := i * from / to, i * from % to;
            var a, b: int := input[floor], if floor + 1 < |input| then input[floor + 1] else input[floor];
            var sum, x := a * (to - past) + b * past, Interpolated(input, from, to, i);
            if sum >= 0 then x * to <= sum < (x + 1) * to else (x - 1) * to < sum <= x * to
  {
    PositionInRange(|input|, from, to, i);
    var floor, past := i * from / to, i * from % to;
    var a, b: int := input[floor], input[Next(floor, |input|)];
    assert Scaled(a, b, past, to) == a * (to - past) + b * past by {
      Weights(a, b, past, to);
    }
    TruncBounds(Scaled(a, b, past, to), to);
  }

  lemma Weights(a: int, b: int, past: nat, to: nat)
    ensures a * to + (b - a) * past == a * (to - past) + b * past
  {
  }

  lemma TruncBounds(x: int, d: nat)
    requires d > 0
    ensures var q := TruncDiv(x, d);
            if x >= 0 then q * d <= x < (q + 1) * d else (q - 1) * d < x <= q * d
  {
    if x >= 0 {
      DivBounds(x, d);
    } else {
      DivBounds(-x, d);
      var p := (-x) / d;
      assert (-p) * d == -(p * d) && (-p - 1) * d == -((p + 1) * d);
    }
  }

  /** The number of output samples is the number of inputs times the ratio of the rates, rounded down. */
  lemma OutputLengthExact(n: nat, from: nat, to: nat)
    requires from > 0
    ensures OutputLength(n, from, to) * from <= n * to < (OutputLength(n, from, to) + 1) * from
  {
    DivBounds(n * to, from);
  }
}
