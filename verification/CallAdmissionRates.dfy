/** Registrations per clock second under interleaved admission. Callers that passed the rate check count
    themselves late, and a caller that won the reset may be delayed before it stores the zero, so that the
    store erases counts of a later second. Both effects together are bounded by the number of callers. */
module CallAdmissionRates {
  import opened Common
  import CC = CallControl
  import opened CallAdmission

  // ---------- Timed runs ----------

  /** Anywhere between the first load of admission and the last count of registration. */
  predicate BusyPc(pc: Pc) {
    !pc.Idle? && !pc.CountEnded?
  }

  function Busy(s: State): set<CallerId> {
    set c | c in s.callers && BusyPc(s.callers[c])
  }

  /** A run in which `now` is the time of every step that carries one, never running backwards, with at
      most m callers busy at a time. */
  ghost predicate TimedRun(cfg: CC.Config, m: nat, s: State, clock: int, actions: seq<Action>)
    decreases |actions|
  {
    && |Busy(s)| <= m
    && (actions != [] ==>
          && Enabled(s, actions[0])
          && clock <= TimeOf(clock, actions[0])
          && TimedRun(cfg, m, Next(cfg, s, actions[0]), TimeOf(clock, actions[0]), actions[1..]))
  }

  function TimeOf(clock: int, a: Action): int {
    if a.Continue? then a.now else clock
  }

  /** The step that completes a registration in second t. */
  predicate Registers(s: State, a: Action, t: int) {
    a.Continue? && PcOf(s, a.caller).CountRate? && a.now == t
  }

  function Registrations(cfg: CC.Config, s: State, actions: seq<Action>, t: int): nat
    decreases |actions|
  {
    if actions == [] then 0
    else (if Registers(s, actions[0], t) then 1 else 0)
         + Registrations(cfg, Next(cfg, s, actions[0]), actions[1..], t)
  }

  // ---------- The counter and the callers that will raise it ----------

  /** Past the rate check and not yet counted. */
  predicate CommittedPc(pc: Pc) {
    pc.CheckTrunk? || pc.MayRegister? || pc.CountActive? || pc.CountTotal? || pc.CountRate?
  }

  function Committed(s: State): set<CallerId> {
    set c | c in s.callers && CommittedPc(s.callers[c])
  }

  lemma CommittedSize(s: State, s': State, c: CallerId, pc: Pc)
    requires s'.callers == s.callers[c := pc]
    ensures |Committed(s')| == |Committed(s)|
              + (if CommittedPc(pc) then 1 else 0) - (if CommittedPc(PcOf(s, c)) then 1 else 0)
  {
    assert Committed(s') == if CommittedPc(pc) then Committed(s) + {c} else Committed(s) - {c};
    assert c in Committed(s) <==> CommittedPc(PcOf(s, c));
  }

  /** What m callers can bring the counter to before they are stopped. */
  function Fill(cfg: CC.Config, m: nat): int {
    cfg.maxCallsPerSecond + m - 1
  }

  ghost predicate CounterKept(cfg: CC.Config, m: nat, s: State) {
    s.service.callsPerSecond + |Committed(s)| <= Fill(cfg, m)
  }

  lemma CommittedBusy(s: State)
    ensures |Committed(s)| <= |Busy(s)|
  {
    assert Committed(s) <= Busy(s);
    SubsetSize(Committed(s), Busy(s));
  }

  lemma StepOnCounter(cfg: CC.Config, s: State, a: Action)
    requires cfg.enabled && Enabled(s, a)
    ensures var s', before, after := Next(cfg, s, a), PcOf(s, a.caller), PcOf(Next(cfg, s, a), a.caller);
            && s'.service.callsPerSecond ==
                 (if a.Continue? && before.CountRate? then s.service.callsPerSecond + 1
                  else if a.Continue? && before.ZeroRate? then 0 else s.service.callsPerSecond)
            && (CommittedPc(after) && !CommittedPc(before) ==>
                  s.service.callsPerSecond < cfg.maxCallsPerSecond && !(a.Continue? && before.CountRate?))
            && (a.Continue? && before.CountRate? ==> !CommittedPc(after))
  {
  }

  lemma StepKeepsCounter(cfg: CC.Config, m: nat, s: State, a: Action)
    requires cfg.enabled && Enabled(s, a) && |Busy(Next(cfg, s, a))| <= m && CounterKept(cfg, m, s)
    ensures CounterKept(cfg, m, Next(cfg, s, a))
  {
    var s' := Next(cfg, s, a);
    if s' != s {
      CommittedSize(s, s', a.caller, PcOf(s', a.caller));
      CommittedBusy(s');
      StepOnCounter(cfg, s, a);
    }
  }

  // ---------- The resets still to come in second t ----------

  /** About to store a zero, or holding a clock reading from before second t. */
  predicate PendingPc(pc: Pc, t: int) {
    pc.ZeroRate? || ((pc.ReadReset? || pc.Exchange?) && pc.now < t)
  }

  function Pending(s: State, t: int): set<CallerId> {
    set c | c in s.callers && PendingPc(s.callers[c], t)
  }

  /** At most this many zeros can still be stored in second t: one by each pending caller and one by
      whoever wins the reset of this second. */
  function ResetsLeft(s: State, t: int): nat {
    |Pending(s, t)| + if s.service.lastReset < t then 1 else 0
  }

  lemma PendingSize(s: State, s': State, c: CallerId, pc: Pc, t: int)
    requires s'.callers == s.callers[c := pc]
    ensures |Pending(s', t)| == |Pending(s, t)|
              + (if PendingPc(pc, t) then 1 else 0) - (if PendingPc(PcOf(s, c), t) then 1 else 0)
  {
    assert Pending(s', t) == if PendingPc(pc, t) then Pending(s, t) + {c} else Pending(s, t) - {c};
    assert c in Pending(s, t) <==> PendingPc(PcOf(s, c), t);
  }

  /** Nobody has read a clock ahead of the time. */
  ghost predicate ReadingsPast(s: State, clock: int) {
    && s.service.lastReset <= clock
    && (forall c :: c in s.callers && (s.callers[c].ReadReset? || s.callers[c].Exchange?) ==>
          s.callers[c].now <= clock)
  }

  lemma StepKeepsReadings(cfg: CC.Config, s: State, a: Action, clock: int)
    requires Enabled(s, a) && ReadingsPast(s, clock) && clock <= TimeOf(clock, a)
    ensures ReadingsPast(Next(cfg, s, a), TimeOf(clock, a))
  {
    var c, s' := a.caller, Next(cfg, s, a);
    assert PcOf(s, c).Exchange? ==> PcOf(s, c).now <= clock;
  }

  /** In second t no step adds a reset to come, and storing a zero takes one away. */
  lemma StepOnResets(cfg: CC.Config, s: State, a: Action, t: int)
    requires cfg.enabled && Enabled(s, a) && ReadingsPast(s, t) && (a.Continue? ==> a.now == t)
    ensures ResetsLeft(Next(cfg, s, a), t) <=
            ResetsLeft(s, t) - if a.Continue? && PcOf(s, a.caller).ZeroRate? then 1 else 0
  {
    var c, s' := a.caller, Next(cfg, s, a);
    if s' != s {
      PendingSize(s, s', c, PcOf(s', c), t);
      assert PcOf(s, c).Exchange? ==> PcOf(s, c).now <= t;
    }
  }

  lemma CountingIsNotPending(s: State, c: CallerId, t: int)
    requires PcOf(s, c).CountRate?
    ensures ResetsLeft(s, t) <= |Busy(s)|
  {
    assert Pending(s, t) <= Busy(s) - {c};
    SubsetSize(Pending(s, t), Busy(s) - {c});
    assert c in Busy(s);
  }

  // ---------- The bound ----------

  /** k registrations so far in second t: each zero already stored in it erased at most one fill. */
  ghost predicate RateKept(cfg: CC.Config, m: nat, s: State, clock: int, t: int, k: nat) {
    && (clock < t ==> k == 0)
    && (clock == t && k > 0 ==> k <= (m - ResetsLeft(s, t)) * Fill(cfg, m) + s.service.callsPerSecond)
    && (clock > t ==> k <= (m + 1) * Fill(cfg, m))
  }

  lemma WithinBound(cfg: CC.Config, m: nat, s: State, t: int, k: nat)
    requires m >= 1 && CounterKept(cfg, m, s)
    requires k > 0 ==> k <= (m - ResetsLeft(s, t)) * Fill(cfg, m) + s.service.callsPerSecond
    ensures k <= (m + 1) * Fill(cfg, m)
  {
    MulMono(m - ResetsLeft(s, t), m, Fill(cfg, m));
    assert (m + 1) * Fill(cfg, m) == m * Fill(cfg, m) + Fill(cfg, m);
    MulMono(0, m + 1, Fill(cfg, m));
  }

  /** One step within second t. */
  lemma RateStep(cfg: CC.Config, m: nat, s: State, a: Action, t: int, k: nat)
    requires cfg.enabled && m >= 1 && Enabled(s, a) && |Busy(s)| <= m
    requires CounterKept(cfg, m, s) && ReadingsPast(s, t) && (a.Continue? ==> a.now == t)
    requires k > 0 ==> k <= (m - ResetsLeft(s, t)) * Fill(cfg, m) + s.service.callsPerSecond
    ensures var s', k' := Next(cfg, s, a), k + if Registers(s, a, t) then 1 else 0;
            k' > 0 ==> k' <= (m - ResetsLeft(s', t)) * Fill(cfg, m) + s'.service.callsPerSecond
  {
    var s', fill := Next(cfg, s, a), Fill(cfg, m);
    var left, left' := ResetsLeft(s, t), ResetsLeft(s', t);
    StepOnCounter(cfg, s, a);
    StepOnResets(cfg, s, a, t);
    if Registers(s, a, t) {
      CountingIsNotPending(s, a.caller, t);
      MulMono(m - left, m - left', fill);
      MulMono(0, m - left', fill);
    } else if a.Continue? && PcOf(s, a.caller).ZeroRate? {
      MulMono(m - left + 1, m - left', fill);
      assert (m - left + 1) * fill == (m - left) * fill + fill;
    } else {
      MulMono(m - left, m - left', fill);
    }
  }

  lemma StepKeepsRate(cfg: CC.Config, m: nat, s: State, a: Action, clock: int, t: int, k: nat)
    requires cfg.enabled && m >= 1 && Enabled(s, a) && |Busy(s)| <= m && clock <= TimeOf(clock, a)
    requires CounterKept(cfg, m, s) && ReadingsPast(s, clock) && RateKept(cfg, m, s, clock, t, k)
    ensures RateKept(cfg, m, Next(cfg, s, a), TimeOf(clock, a), t, k + if Registers(s, a, t) then 1 else 0)
  {
    if TimeOf(clock, a) == t {
      RateStep(cfg, m, s, a, t, k);
    } else if TimeOf(clock, a) > t {
      if clock == t {
        WithinBound(cfg, m, s, t, k);
      } else if clock < t {
        MulMono(0, m + 1, Fill(cfg, m));
      }
    }
  }

  lemma {:induction false} RateBounded(cfg: CC.Config, m: nat, s: State, clock: int, actions: seq<Action>, t: int, k: nat)
    requires cfg.enabled && m >= 1 && TimedRun(cfg, m, s, clock, actions)
    requires CounterKept(cfg, m, s) && ReadingsPast(s, clock) && RateKept(cfg, m, s, clock, t, k)
    ensures k + Registrations(cfg, s, actions, t) <= (m + 1) * Fill(cfg, m)
    decreases |actions|
  {
    if actions == [] {
      if clock == t {
        WithinBound(cfg, m, s, t, k);
      } else if clock < t {
        MulMono(0, m + 1, Fill(cfg, m));
      }
    } else {
      var a := actions[0];
      StepKeepsCounter(cfg, m, s, a);
      StepKeepsReadings(cfg, s, a, clock);
      StepKeepsRate(cfg, m, s, a, clock, t, k);
      RateBounded(cfg, m, Next(cfg, s, a), TimeOf(clock, a), actions[1..], t,
                  k + if Registers(s, a, t) then 1 else 0);
    }
  }

  /** In every interleaving with at most m busy callers, however the exchange fails and however long each
      caller is delayed, no clock second completes more than (m + 1) * (limit + m - 1) registrations. For
      one caller that is the serial bound of twice the limit, which CallControl.DoubleRateReached reaches. */
  lemma RateOvershootBounded(cfg: CC.Config, m: nat, start: int, actions: seq<Action>, t: int)
    requires cfg.enabled && m >= 1 && TimedRun(cfg, m, New(start), start, actions)
    ensures Registrations(cfg, New(start), actions, t) <= (m + 1) * (cfg.maxCallsPerSecond + m - 1)
  {
    var s := New(start);
    assert Committed(s) == {};
    MulMono(0, m + 1, Fill(cfg, m));
    RateBounded(cfg, m, s, start, actions, t, 0);
  }
}
