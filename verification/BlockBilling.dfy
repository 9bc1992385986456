/** Block billing: an initial period, then whole increments. Durations are seconds, unbounded; the
    per-minute rounding of trunk costs is taken in exact rationals. */
module BlockBilling {
  import opened Common

  function CeilDiv(n: nat, d: nat): (q: nat)
    requires d > 0
    ensures q * d >= n && (n > 0 ==> (q - 1) * d < n) && (n == 0 ==> q == 0)
  {
    if n % d == 0 then n / d else n / d + 1
  }

  function Initial(initialSeconds: int): nat {
    if initialSeconds > 0 then initialSeconds else 0
  }

  function BilledSeconds(duration: nat, initialSeconds: int, incrementSeconds: int): nat {
    if duration == 0 then 0
    else if incrementSeconds <= 0 then duration
    else
      var initial := Initial(initialSeconds);
      if duration <= initial then initial
      else initial + incrementSeconds * CeilDiv(duration - initial, incrementSeconds)
  }

  /** The lengths a call can be billed for: the initial period and k increments. */
  function Block(initialSeconds: int, incrementSeconds: int, k: nat): int {
    Initial(initialSeconds) + k * incrementSeconds
  }

  /** What is billed for a call that lasted is the least block that covers it. */
  lemma LeastCoveringBlock(duration: nat, initial: int, increment: int) returns (k: nat)
    requires duration > 0 && increment > 0
    ensures BilledSeconds(duration, initial, increment) == Block(initial, increment, k) >= duration
    ensures forall j: nat :: Block(initial, increment, j) >= duration ==> k <= j
  {
    if duration <= Initial(initial) {
      k := 0;
    } else {
      k := CeilDiv(duration - Initial(initial), increment);
      forall j: nat | Block(initial, increment, j) >= duration ensures k <= j {
        if j < k {
          MulMono(j, k - 1, increment);
        }
      }
    }
  }

  /** The two settings that are no blocks: a call that did not last is free, and without a positive increment
      every second is billed as it is. */
  lemma UnblockedBilling(duration: nat, initial: int, increment: int)
    ensures BilledSeconds(0, initial, increment) == 0
    ensures increment <= 0 ==> BilledSeconds(duration, initial, increment) == duration
  {
  }


  lemma BlocksGrow(initial: int, increment: int, j: nat, k: nat)
    requires increment > 0
    ensures j <= k <==> Block(initial, increment, j) <= Block(initial, increment, k)
  {
    if j <= k {
      MulMono(j, k, increment);
    } else {
      MulMono(k + 1, j, increment);
    }
  }

  /** Being the least covering block says what the billed length is. */
  lemma Characterized(duration: nat, initial: int, increment: int, k: nat)
    requires duration > 0 && increment > 0
    requires Block(initial, increment, k) >= duration
    requires k > 0 ==> Block(initial, increment, k - 1) < duration
    ensures BilledSeconds(duration, initial, increment) == Block(initial, increment, k)
  {
    var least := LeastCoveringBlock(duration, initial, increment);
    if least < k {
      BlocksGrow(initial, increment, least, k - 1);
    }
  }

  /** A billed block is billed as itself: for every initial period and increment, degenerate ones too. */
  lemma Idempotent(duration: nat, initial: int, increment: int)
    ensures var billed := BilledSeconds(duration, initial, increment);
            BilledSeconds(billed, initial, increment) == billed >= duration
  {
    if duration > 0 && increment > 0 {
      var k := LeastCoveringBlock(duration, initial, increment);
      if k > 0 {
        BlocksGrow(initial, increment, k, k - 1);
      }
      Characterized(BilledSeconds(duration, initial, increment), initial, increment, k);
    }
  }

  lemma Monotone(a: nat, b: nat, initial: int, increment: int)
    requires a <= b
    ensures BilledSeconds(a, initial, increment) <= BilledSeconds(b, initial, increment)
  {
    if a > 0 && increment > 0 {
      var j := LeastCoveringBlock(a, initial, increment);
      var k := LeastCoveringBlock(b, initial, increment);
      BlocksGrow(initial, increment, j, k);
    }
  }

  /** Any block that covers the call costs at least what is billed. */
  lemma CoveringBlockIsEnough(duration: nat, initial: int, increment: int, k: nat)
    requires increment > 0 && Block(initial, increment, k) >= duration
    ensures BilledSeconds(duration, initial, increment) <= Block(initial, increment, k)
  {
    if duration == 0 {
      MulMono(0, k, increment);
    } else {
      var least := LeastCoveringBlock(duration, initial, increment);
      BlocksGrow(initial, increment, least, k);
    }
  }

  ghost predicate SplittingNeverPays(initial: int, increment: int) {
    forall a: nat, b: nat ::
      BilledSeconds(a + b, initial, increment) <= BilledSeconds(a, initial, increment) + BilledSeconds(b, initial, increment)
  }

  lemma Divided(initial: nat, increment: nat) returns (m: nat)
    requires increment > 0 && initial % increment == 0
    ensures initial == m * increment
  {
    m := initial / increment;
  }

  lemma SumOfBlocks(initial: int, increment: int, j: nat, k: nat, m: nat)
    requires increment > 0 && Initial(initial) == m * increment
    ensures Block(initial, increment, j) + Block(initial, increment, k) == Block(initial, increment, j + k + m)
  {
  }

  lemma SplitCostsMore(a: nat, b: nat, initial: int, increment: int)
    requires increment > 0 && Initial(initial) % increment == 0
    ensures BilledSeconds(a + b, initial, increment) <= BilledSeconds(a, initial, increment) + BilledSeconds(b, initial, increment)
  {
    if a > 0 && b > 0 {
      var m := Divided(Initial(initial), increment);
      var j := LeastCoveringBlock(a, initial, increment);
      var k := LeastCoveringBlock(b, initial, increment);
      SumOfBlocks(initial, increment, j, k, m);
      CoveringBlockIsEnough(a + b, initial, increment, j + k + m);
    }
  }

  /** When the increment does not divide the initial period, two calls of one initial period each are
      cheaper than one call of both. */
  lemma SplitCanPay(initial: int, increment: int)
    requires increment > 0 && Initial(initial) % increment != 0
    ensures var i := Initial(initial);
            BilledSeconds(i + i, initial, increment) > BilledSeconds(i, initial, increment) + BilledSeconds(i, initial, increment)
  {
    var i := Initial(initial);
    var k := LeastCoveringBlock(i + i, initial, increment);
    if k * increment == i {
      ModOfMultiple(k, increment);
    }
  }

  lemma ModOfMultiple(k: nat, d: nat)
    requires d > 0
    ensures (k * d) % d == 0
  {
    var q, r := (k * d) / d, (k * d) % d;
    assert k * d == q * d + r;
    assert (k - q) * d == r;
    if k - q >= 1 {
      MulMono(1, k - q, d);
    } else if k - q <= -1 {
      MulMono(k - q, -1, d);
    }
  }

  /** Splitting a call never lowers the bill exactly when the increment divides the initial period, or
      there is no positive increment and every second is billed. */
  lemma SplittingNeverPaysExactly(initial: int, increment: int)
    ensures SplittingNeverPays(initial, increment) <==> increment <= 0 || Initial(initial) % increment == 0
  {
    if increment <= 0 {
    } else if Initial(initial) % increment == 0 {
      forall a: nat, b: nat
        ensures BilledSeconds(a + b, initial, increment) <= BilledSeconds(a, initial, increment) + BilledSeconds(b, initial, increment)
      {
        SplitCostsMore(a, b, initial, increment);
      }
    } else {
      SplitCanPay(initial, increment);
    }
  }

  lemma NestedBlocks(d: int, j: int, k: int, m: int)
    ensures (j + k * m) * d == j * d + k * (m * d)
  {
    assert k * (m * d) == (k * m) * d;
  }

  /** A side whose blocks include all blocks of the other side never bills more. */
  lemma FinerGridBillsLess(duration: nat, fineInitial: int, fineIncrement: int, initial: int, increment: int, j: nat, m: nat)
    requires fineIncrement > 0 && m > 0
    requires Initial(initial) == Block(fineInitial, fineIncrement, j) && increment == m * fineIncrement
    ensures BilledSeconds(duration, fineInitial, fineIncrement) <= BilledSeconds(duration, initial, increment)
  {
    MulMono(1, m, fineIncrement);
    if duration > 0 {
      var k := LeastCoveringBlock(duration, initial, increment);
      NestedBlocks(fineIncrement, j, k, m);
      CoveringBlockIsEnough(duration, fineInitial, fineIncrement, j + k * m);
    }
  }

  // ---------- The per-minute rounding of trunk costs ----------

  function Ceil(x: real): int {
    if x.Floor as real == x then x.Floor else x.Floor + 1
  }

  function BillableMinutes(actualMinutes: real, billingIncrement: nat): real {
    if billingIncrement <= 1 then actualMinutes
    else
      var incrementMinutes := billingIncrement as real / 60.0;
      Ceil(actualMinutes / incrementMinutes) as real * incrementMinutes
  }

  lemma QuotientOrder(n: nat, d: nat, k: nat)
    requires d > 0
    ensures k * d <= n <==> k as real <= n as real / d as real
    ensures k * d == n <==> k as real == n as real / d as real
  {
    var x := n as real / d as real;
    assert x * d as real == n as real;
    assert k as real * d as real == (k * d) as real;
    RealOrder(k as real, x, d as real);
    RealOrder(x, k as real, d as real);
  }

  lemma CeilOfQuotient(n: nat, d: nat)
    requires d > 0
    ensures Ceil(n as real / d as real) == CeilDiv(n, d)
  {
    var q := n / d;
    assert q * d <= n < (q + 1) * d && (n % d == 0 <==> q * d == n);
    QuotientOrder(n, d, q);
    QuotientOrder(n, d, q + 1);
    FloorBetween(n as real / d as real, q);
  }

  lemma FloorBetween(x: real, q: int)
    requires q as real <= x < (q + 1) as real
    ensures x.Floor == q
  {
  }

  lemma RealOrder(x: real, y: real, d: real)
    requires d > 0.0
    ensures x * d <= y * d <==> x <= y
  {
    if x < y {
      assert (y - x) * d > 0.0;
    } else if y < x {
      assert (x - y) * d > 0.0;
    }
  }

  /** With no initial period, block billing and the per-minute rounding charge the same length, in exact
      arithmetic, for every increment: above one second by rounding up, otherwise to the second. */
  lemma MinutesMatchSeconds(duration: nat, increment: nat)
    ensures BillableMinutes(duration as real / 60.0, increment) * 60.0 == BilledSeconds(duration, 0, increment) as real
  {
    if increment > 1 {
      RatioOfMinutes(duration as real, increment as real);
      CeilOfQuotient(duration, increment);
      MinutesBack(CeilDiv(duration, increment), increment);
    } else if increment == 1 && duration > 0 {
      Characterized(duration, 0, 1, duration);
    }
  }

  lemma RatioOfMinutes(x: real, y: real)
    requires y > 0.0
    ensures (x / 60.0) / (y / 60.0) == x / y
  {
  }

  lemma MinutesBack(blocks: nat, increment: nat)
    ensures blocks as real * (increment as real / 60.0) * 60.0 == (increment * blocks) as real
  {
    assert blocks as real * increment as real == (increment * blocks) as real;
  }
}
