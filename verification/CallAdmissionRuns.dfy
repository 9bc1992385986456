/** Two facts about the interleaved steps of CallAdmission: run without interruption they are exactly
    the admit, register and end of CallControl, and some interleaving reaches each overshoot bound. */
module CallAdmissionRuns {
  import opened Common
  import CC = CallControl
  import opened CallAdmission

  // ---------- Building runs ----------

  lemma Prepend(cfg: CC.Config, n: nat, s: State, a: Action, rest: seq<Action>)
    requires |InFlight(s)| <= n && Enabled(s, a) && ValidRun(cfg, n, Next(cfg, s, a), rest)
    ensures ValidRun(cfg, n, s, [a] + rest)
    ensures Run(cfg, s, [a] + rest) == Run(cfg, Next(cfg, s, a), rest)
  {
    assert ([a] + rest)[1..] == rest;
  }

  lemma {:induction false} Append(cfg: CC.Config, n: nat, s: State, a: seq<Action>, b: seq<Action>)
    requires ValidRun(cfg, n, s, a) && ValidRun(cfg, n, Run(cfg, s, a), b)
    ensures ValidRun(cfg, n, s, a + b) && Run(cfg, s, a + b) == Run(cfg, Run(cfg, s, a), b)
    decreases |a|
  {
    if a == [] {
      assert a + b == b;
    } else {
      Append(cfg, n, Next(cfg, s, a[0]), a[1..], b);
      assert (a + b)[1..] == a[1..] + b;
    }
  }

  /** s' differs from s, besides the service and the id bookkeeping, at most in where caller c is. */
  ghost predicate OnlyMoved(s: State, s': State, c: CallerId, pc: Pc) {
    && PcOf(s', c) == pc
    && (forall d: CallerId :: d != c ==> PcOf(s', d) == PcOf(s, d))
  }

  ghost predicate SameIds(s: State, s': State) {
    s'.issued == s.issued && s'.uncounted == s.uncounted && s'.returned == s.returned
  }

  lemma InFlightByPc(s: State, c: CallerId)
    ensures c in InFlight(s) <==> InFlightPc(PcOf(s, c))
  {
  }

  lemma OnlyMovedInFlight(s: State, s': State, c: CallerId, pc: Pc)
    requires OnlyMoved(s, s', c, pc)
    ensures InFlight(s') == if InFlightPc(pc) then InFlight(s) + {c} else InFlight(s) - {c}
    ensures |InFlight(s')| <= |InFlight(s) - {c}| + 1
  {
    forall d: CallerId ensures d in InFlight(s') <==> (if d == c then InFlightPc(pc) else d in InFlight(s)) {
      InFlightByPc(s', d);
      InFlightByPc(s, d);
    }
    assert InFlight(s') <= (InFlight(s) - {c}) + {c};
    SubsetSize(InFlight(s'), (InFlight(s) - {c}) + {c});
  }

  // ---------- Uninterrupted, the steps are the operations ----------

  /** The first load. */
  lemma LoadStep(cfg: CC.Config, s: State, c: CallerId, trunk: Option<string>)
    requires cfg.enabled && PcOf(s, c) == Idle && s.service.activeCalls < cfg.maxConcurrentCalls
    ensures var s' := Next(cfg, s, LoadActive(c, trunk));
            OnlyMoved(s, s', c, ReadClock(trunk)) && SameIds(s, s') && s'.service == s.service
  {
  }

  /** One step that moves caller c within flight. */
  lemma FlightStep(cfg: CC.Config, n: nat, s: State, c: CallerId, now: int, spurious: bool, pc: Pc)
    requires |InFlight(s)| <= n && InFlightPc(PcOf(s, c)) && !PcOf(s, c).MayRegister?
    requires OnlyMoved(s, Next(cfg, s, Continue(c, now, spurious)), c, pc)
    ensures |InFlight(Next(cfg, s, Continue(c, now, spurious)))| <= n
  {
    var s1 := Next(cfg, s, Continue(c, now, spurious));
    OnlyMovedInFlight(s, s1, c, pc);
    InFlightByPc(s, c);
    assert (InFlight(s) - {c}) + {c} == InFlight(s);
  }

  /** From a won exchange to the rate check. */
  lemma ZeroStep(cfg: CC.Config, n: nat, s: State, c: CallerId, trunk: Option<string>) returns (actions: seq<Action>)
    requires PcOf(s, c) == ZeroRate(trunk) && |InFlight(s)| <= n
    ensures ValidRun(cfg, n, s, actions)
    ensures var s' := Run(cfg, s, actions);
            && OnlyMoved(s, s', c, ReadRate(trunk)) && SameIds(s, s')
            && s'.service == s.service.(callsPerSecond := 0)
  {
    var go := Continue(c, 0, false);
    FlightStep(cfg, n, s, c, 0, false, ReadRate(trunk));
    Prepend(cfg, n, s, go, []);
    actions := [go];
  }

  /** From the exchange to the rate check. */
  lemma ExchangeSteps(cfg: CC.Config, n: nat, s: State, c: CallerId, spurious: bool)
    returns (actions: seq<Action>)
    requires PcOf(s, c).Exchange? && PcOf(s, c).lastReset == s.service.lastReset && |InFlight(s)| <= n
    ensures ValidRun(cfg, n, s, actions)
    ensures var s' := Run(cfg, s, actions);
            && OnlyMoved(s, s', c, ReadRate(PcOf(s, c).trunk)) && SameIds(s, s')
            && s'.service == CC.Reset(s.service, PcOf(s, c).now, spurious)
  {
    var go, pc := Continue(c, 0, spurious), PcOf(s, c);
    var s1 := Next(cfg, s, go);
    FlightStep(cfg, n, s, c, 0, spurious, PcOf(s1, c));
    if pc.now > pc.lastReset && !spurious {
      var zero := ZeroStep(cfg, n, s1, c, pc.trunk);
      Prepend(cfg, n, s, go, zero);
      actions := [go] + zero;
    } else {
      Prepend(cfg, n, s, go, []);
      actions := [go];
    }
  }

  /** From the clock reading to the rate check: the reset. */
  lemma ResetSteps(cfg: CC.Config, n: nat, s: State, c: CallerId, now: int, spurious: bool, trunk: Option<string>)
    returns (actions: seq<Action>)
    requires PcOf(s, c) == ReadClock(trunk) && |InFlight(s)| <= n
    ensures ValidRun(cfg, n, s, actions)
    ensures var s' := Run(cfg, s, actions);
            && OnlyMoved(s, s', c, ReadRate(trunk)) && SameIds(s, s')
            && s'.service == CC.Reset(s.service, now, spurious)
  {
    var go := Continue(c, now, spurious);
    var s1 := Next(cfg, s, go);
    var s2 := Next(cfg, s1, go);
    FlightStep(cfg, n, s, c, now, spurious, PcOf(s1, c));
    FlightStep(cfg, n, s1, c, now, spurious, PcOf(s2, c));
    var rest := ExchangeSteps(cfg, n, s2, c, spurious);
    Prepend(cfg, n, s1, go, rest);
    Prepend(cfg, n, s, go, [go] + rest);
    actions := [go] + ([go] + rest);
  }

  /** From the rate check to the verdict. */
  lemma CheckSteps(cfg: CC.Config, n: nat, s: State, c: CallerId, trunk: Option<string>)
    returns (actions: seq<Action>)
    requires PcOf(s, c) == ReadRate(trunk) && |InFlight(s)| <= n
    ensures ValidRun(cfg, n, s, actions)
    ensures var s' := Run(cfg, s, actions);
            && OnlyMoved(s, s', c,
                 if s.service.callsPerSecond >= cfg.maxCallsPerSecond || CC.TrunkFull(cfg, s.service, trunk)
                 then Idle else MayRegister(trunk))
            && SameIds(s, s') && s'.service == s.service
  {
    var go := Continue(c, 0, false);
    var s1 := Next(cfg, s, go);
    FlightStep(cfg, n, s, c, 0, false, PcOf(s1, c));
    if s.service.callsPerSecond >= cfg.maxCallsPerSecond {
      Prepend(cfg, n, s, go, []);
      actions := [go];
    } else {
      FlightStep(cfg, n, s1, c, 0, false, PcOf(Next(cfg, s1, go), c));
      Prepend(cfg, n, s1, go, []);
      Prepend(cfg, n, s, go, [go]);
      actions := [go] + [go];
    }
  }

  /** The steps after a first load that found room. */
  lemma AfterLoad(cfg: CC.Config, n: nat, s: State, c: CallerId, now: int, spurious: bool, trunk: Option<string>)
    returns (actions: seq<Action>)
    requires PcOf(s, c) == ReadClock(trunk) && |InFlight(s)| <= n
    ensures ValidRun(cfg, n, s, actions)
    ensures var reset := CC.Reset(s.service, now, spurious);
            var s' := Run(cfg, s, actions);
            && s'.service == reset && SameIds(s, s')
            && OnlyMoved(s, s', c,
                 if reset.callsPerSecond >= cfg.maxCallsPerSecond || CC.TrunkFull(cfg, reset, trunk)
                 then Idle else MayRegister(trunk))
  {
    var reset := ResetSteps(cfg, n, s, c, now, spurious, trunk);
    var s2 := Run(cfg, s, reset);
    assert |InFlight(s2)| <= n by {
      OnlyMovedInFlight(s, s2, c, ReadRate(trunk));
      InFlightByPc(s, c);
      assert InFlight(s2) == InFlight(s);
    }
    var check := CheckSteps(cfg, n, s2, c, trunk);
    Append(cfg, n, s, reset, check);
    actions := reset + check;
  }

  /** One caller's admission steps, uninterrupted, have the effect and the verdict of `Admit`. */
  lemma AdmitSteps(cfg: CC.Config, n: nat, s: State, c: CallerId, now: int, spurious: bool, trunk: Option<string>)
    returns (actions: seq<Action>)
    requires PcOf(s, c) == Idle && |InFlight(s)| < n
    ensures ValidRun(cfg, n, s, actions)
    ensures var (service, decision) := CC.Admit(cfg, s.service, now, spurious, trunk);
            var s' := Run(cfg, s, actions);
            && s'.service == service && SameIds(s, s')
            && OnlyMoved(s, s', c, if decision.Admitted? then MayRegister(trunk) else Idle)
  {
    var load := LoadActive(c, trunk);
    var s1 := Next(cfg, s, load);
    assert |InFlight(s1)| <= n by {
      OnlyMovedInFlight(s, s1, c, PcOf(s1, c));
      SubsetSize(InFlight(s) - {c}, InFlight(s));
    }
    if !cfg.enabled || s.service.activeCalls >= cfg.maxConcurrentCalls {
      Prepend(cfg, n, s, load, []);
      actions := [load];
    } else {
      LoadStep(cfg, s, c, trunk);
      var rest := AfterLoad(cfg, n, s1, c, now, spurious, trunk);
      Prepend(cfg, n, s, load, rest);
      actions := [load] + rest;
    }
  }

  /** One caller's registration steps, uninterrupted, have the effect of `Register`. */
  lemma RegisterSteps(cfg: CC.Config, n: nat, s: State, c: CallerId, id: CC.SessionId)
    returns (actions: seq<Action>)
    requires PcOf(s, c).MayRegister? && id !in s.issued && |InFlight(s)| <= n
    ensures ValidRun(cfg, n, s, actions)
    ensures var s' := Run(cfg, s, actions);
            && s'.service == CC.Register(s.service, id, PcOf(s, c).trunk)
            && OnlyMoved(s, s', c, Idle)
            && s'.issued == s.issued + {id} && s'.returned == s.returned + {id}
            && s'.uncounted == s.uncounted - {id}
  {
    var insert := Insert(c, id);
    var s1 := Next(cfg, s, insert);
    OnlyMovedInFlight(s, s1, c, PcOf(s1, c));
    InFlightByPc(s, c);
    assert (InFlight(s) - {c}) + {c} == InFlight(s);
    var rest := CountSteps(cfg, n, s1, c);
    Prepend(cfg, n, s, insert, rest);
    actions := [insert] + rest;
  }

  lemma CountSteps(cfg: CC.Config, n: nat, s: State, c: CallerId) returns (actions: seq<Action>)
    requires PcOf(s, c).CountActive? && |InFlight(s)| <= n
    ensures ValidRun(cfg, n, s, actions)
    ensures var s', id, svc := Run(cfg, s, actions), PcOf(s, c).id, s.service;
            && s'.service == svc.(activeCalls := svc.activeCalls + 1, totalEstablished := svc.totalEstablished + 1,
                                  callsPerSecond := svc.callsPerSecond + 1)
            && OnlyMoved(s, s', c, Idle)
            && s'.issued == s.issued && s'.returned == s.returned + {id} && s'.uncounted == s.uncounted - {id}
  {
    var go := Continue(c, 0, false);
    var s1 := Next(cfg, s, go);
    var s2 := Next(cfg, s1, go);
    var s3 := Next(cfg, s2, go);
    OnlyMovedInFlight(s, s1, c, PcOf(s1, c));
    OnlyMovedInFlight(s, s2, c, PcOf(s2, c));
    OnlyMovedInFlight(s, s3, c, PcOf(s3, c));
    SubsetSize(InFlight(s) - {c}, InFlight(s));
    Prepend(cfg, n, s2, go, []);
    Prepend(cfg, n, s1, go, [go]);
    Prepend(cfg, n, s, go, [go] + [go]);
    actions := [go] + ([go] + [go]);
  }

  /** One caller's ending steps, uninterrupted, have the effect of `End`. */
  lemma EndSteps(cfg: CC.Config, n: nat, s: State, c: CallerId, id: CC.SessionId)
    returns (actions: seq<Action>)
    requires PcOf(s, c) == Idle && id in s.returned && |InFlight(s)| <= n
    ensures ValidRun(cfg, n, s, actions)
    ensures var s' := Run(cfg, s, actions);
            s'.service == CC.End(s.service, id) && SameIds(s, s') && OnlyMoved(s, s', c, Idle)
  {
    var remove, go := Remove(c, id), Continue(c, 0, false);
    var s1 := Next(cfg, s, remove);
    OnlyMovedInFlight(s, s1, c, PcOf(s1, c));
    SubsetSize(InFlight(s) - {c}, InFlight(s));
    if id in s.service.sessions {
      var s2 := Next(cfg, s1, go);
      OnlyMovedInFlight(s, s2, c, PcOf(s2, c));
      Prepend(cfg, n, s1, go, []);
      Prepend(cfg, n, s, remove, [go]);
      actions := [remove] + [go];
    } else {
      Prepend(cfg, n, s, remove, []);
      actions := [remove];
    }
  }

  // ---------- The bound is reached ----------

  /** A number above every number of the set. */
  ghost function Above(used: set<nat>): (m: nat)
    ensures forall x :: x in used ==> x < m
  {
    if used == {} then 0
    else
      var x :| x in used;
      var m := Above(used - {x});
      assert forall y :: y in used ==> y == x || y in used - {x};
      if x < m then m else x + 1
  }

  /** Everyone below k has been admitted to the trunk and is about to register; nobody else is anywhere. */
  ghost predicate Poised(s: State, k: nat, trunk: Option<string>) {
    forall c: CallerId :: PcOf(s, c) == if c < k then MayRegister(trunk) else Idle
  }

  /** Ids are bookkept, and every session is on the trunk. */
  ghost predicate AllOn(s: State, trunk: Option<string>) {
    s.service.sessions.Keys <= s.issued && forall id :: id in s.service.sessions ==> s.service.sessions[id] == trunk
  }

  ghost predicate SameCalls(s: State, s': State) {
    s'.service.activeCalls == s.service.activeCalls && s'.service.sessions == s.service.sessions
  }

  /** The service admits a caller to the trunk, once the rate counter is reset. */
  ghost predicate HasRoom(cfg: CC.Config, s: State, trunk: Option<string>) {
    cfg.enabled ==>
      && s.service.activeCalls < cfg.maxConcurrentCalls && cfg.maxCallsPerSecond >= 1
      && !CC.TrunkFull(cfg, s.service, trunk)
  }

  lemma {:induction false} PoisedInFlight(s: State, k: nat, trunk: Option<string>)
    requires Poised(s, k, trunk)
    ensures |InFlight(s)| == k
  {
    forall c: CallerId ensures c in InFlight(s) <==> c < k {
      InFlightByPc(s, c);
    }
    RangeSize(InFlight(s), k);
  }

  lemma {:induction false} RangeSize(cs: set<nat>, k: nat)
    requires forall c: nat :: c in cs <==> c < k
    ensures |cs| == k
    decreases k
  {
    if k == 0 {
      assert cs == {};
    } else {
      RangeSize(cs - {k - 1}, k - 1);
    }
  }

  /** One more caller is admitted, in a later second than the last reset. */
  lemma OneAdmission(cfg: CC.Config, n: nat, s: State, k: nat, trunk: Option<string>) returns (actions: seq<Action>)
    requires Poised(s, k, trunk) && k < n && HasRoom(cfg, s, trunk)
    ensures ValidRun(cfg, n, s, actions)
    ensures var s' := Run(cfg, s, actions);
            Poised(s', k + 1, trunk) && SameIds(s, s') && SameCalls(s, s')
  {
    PoisedInFlight(s, k, trunk);
    actions := AdmitSteps(cfg, n, s, k, s.service.lastReset + 1, false, trunk);
  }

  /** Caller after caller is admitted while the counter stays one short. */
  lemma {:induction false} PoiseAll(cfg: CC.Config, n: nat, s: State, k: nat, trunk: Option<string>)
    returns (actions: seq<Action>)
    requires Poised(s, k, trunk) && k <= n && HasRoom(cfg, s, trunk)
    ensures ValidRun(cfg, n, s, actions)
    ensures var s' := Run(cfg, s, actions);
            Poised(s', n, trunk) && SameIds(s, s') && SameCalls(s, s')
    decreases n - k
  {
    PoisedInFlight(s, k, trunk);
    if k == n {
      actions := [];
    } else {
      var first := OneAdmission(cfg, n, s, k, trunk);
      var rest := PoiseAll(cfg, n, Run(cfg, s, first), k + 1, trunk);
      Append(cfg, n, s, first, rest);
      actions := first + rest;
    }
  }

  lemma LastRegisters(cfg: CC.Config, n: nat, s: State, k: nat, trunk: Option<string>) returns (actions: seq<Action>)
    requires Poised(s, k, trunk) && 1 <= k <= n && AllOn(s, trunk)
    ensures ValidRun(cfg, n, s, actions)
    ensures var s' := Run(cfg, s, actions);
            && Poised(s', k - 1, trunk) && AllOn(s', trunk)
            && s'.service.activeCalls == s.service.activeCalls + 1
            && |s'.service.sessions| == |s.service.sessions| + 1
  {
    PoisedInFlight(s, k, trunk);
    var id := Above(s.issued);
    actions := RegisterSteps(cfg, n, s, k - 1, id);
    MapSizes(s.service.sessions, id, trunk);
  }

  /** The k poised callers register, last first. */
  lemma {:induction false} RegisterAll(cfg: CC.Config, n: nat, s: State, k: nat, trunk: Option<string>)
    returns (actions: seq<Action>)
    requires Poised(s, k, trunk) && k <= n && AllOn(s, trunk)
    ensures ValidRun(cfg, n, s, actions)
    ensures var s' := Run(cfg, s, actions);
            && AllOn(s', trunk)
            && s'.service.activeCalls == s.service.activeCalls + k
            && |s'.service.sessions| == |s.service.sessions| + k
    decreases k
  {
    PoisedInFlight(s, k, trunk);
    if k == 0 {
      actions := [];
    } else {
      var first := LastRegisters(cfg, n, s, k, trunk);
      var rest := RegisterAll(cfg, n, Run(cfg, s, first), k - 1, trunk);
      Append(cfg, n, s, first, rest);
      actions := first + rest;
    }
  }

  /** One caller, alone, is admitted and registers. */
  lemma OneCall(cfg: CC.Config, n: nat, s: State, trunk: Option<string>) returns (actions: seq<Action>)
    requires Poised(s, 0, trunk) && n >= 1 && AllOn(s, trunk) && HasRoom(cfg, s, trunk)
    ensures ValidRun(cfg, n, s, actions)
    ensures var s' := Run(cfg, s, actions);
            && Poised(s', 0, trunk) && AllOn(s', trunk)
            && s'.service.activeCalls == s.service.activeCalls + 1
            && |s'.service.sessions| == |s.service.sessions| + 1
  {
    var admit := OneAdmission(cfg, n, s, 0, trunk);
    var register := LastRegisters(cfg, n, Run(cfg, s, admit), 1, trunk);
    Append(cfg, n, s, admit, register);
    actions := admit + register;
  }

  ghost predicate Resting(s: State, calls: nat, trunk: Option<string>) {
    Poised(s, 0, trunk) && AllOn(s, trunk) && s.service.activeCalls == |s.service.sessions| == calls
  }

  /** With every session on the trunk, the trunk's calls are all the calls. */
  lemma TrunkHasAll(s: State, trunk: string)
    requires AllOn(s, Some(trunk))
    ensures |CC.TrunkCalls(s.service.sessions, trunk)| == |s.service.sessions|
  {
    assert CC.TrunkCalls(s.service.sessions, trunk) == s.service.sessions.Keys;
  }

  /** The smallest limit that stops a caller for this trunk is above `target`. */
  ghost predicate Allows(cfg: CC.Config, target: nat, trunk: Option<string>) {
    && cfg.enabled && target < cfg.maxConcurrentCalls && cfg.maxCallsPerSecond >= 1
    && (trunk.Some? && trunk.value in cfg.trunkLimits ==> target < cfg.trunkLimits[trunk.value])
  }

  lemma RestingHasRoom(cfg: CC.Config, s: State, calls: nat, target: nat, trunk: Option<string>)
    requires Resting(s, calls, trunk) && calls <= target && Allows(cfg, target, trunk)
    ensures HasRoom(cfg, s, trunk)
  {
    if trunk.Some? {
      TrunkHasAll(s, trunk.value);
    }
  }

  /** One caller alone brings the counter to any value below the limits. */
  lemma {:induction false} FillUp(cfg: CC.Config, n: nat, s: State, calls: nat, target: nat, trunk: Option<string>)
    returns (actions: seq<Action>)
    requires n >= 1 && Resting(s, calls, trunk) && calls <= target && Allows(cfg, target, trunk)
    ensures ValidRun(cfg, n, s, actions) && Resting(Run(cfg, s, actions), target, trunk)
    decreases target - calls
  {
    PoisedInFlight(s, 0, trunk);
    if calls == target {
      actions := [];
    } else {
      RestingHasRoom(cfg, s, calls, target, trunk);
      var call := OneCall(cfg, n, s, trunk);
      var rest := FillUp(cfg, n, Run(cfg, s, call), calls + 1, target, trunk);
      Append(cfg, n, s, call, rest);
      actions := call + rest;
    }
  }

  /** From an empty service, one short of the smallest limit, n callers pass the check together. */
  lemma Overshoot(cfg: CC.Config, n: nat, now: int, target: nat, trunk: Option<string>) returns (actions: seq<Action>)
    requires n >= 1 && Allows(cfg, target, trunk)
    ensures ValidRun(cfg, n, New(now), actions)
    ensures var s := Run(cfg, New(now), actions);
            AllOn(s, trunk) && s.service.activeCalls == target + n == |s.service.sessions|
  {
    var fill := FillUp(cfg, n, New(now), 0, target, trunk);
    var s1 := Run(cfg, New(now), fill);
    RestingHasRoom(cfg, s1, target, target, trunk);
    var poise := PoiseAll(cfg, n, s1, 0, trunk);
    var s2 := Run(cfg, s1, poise);
    Append(cfg, n, New(now), fill, poise);
    var register := RegisterAll(cfg, n, s2, n, trunk);
    Append(cfg, n, New(now), fill + poise, register);
    actions := (fill + poise) + register;
  }

  /** The overshoot bound is sharp: for every positive limit, rate and n, some run with at most n
      callers in flight brings both the counter and the session map to exactly the limit plus n - 1. */
  lemma OvershootReached(cfg: CC.Config, n: nat, now: int) returns (actions: seq<Action>)
    requires cfg.enabled && cfg.maxConcurrentCalls >= 1 && cfg.maxCallsPerSecond >= 1 && n >= 1
    ensures ValidRun(cfg, n, New(now), actions)
    ensures var s := Run(cfg, New(now), actions).service;
            s.activeCalls == cfg.maxConcurrentCalls + n - 1 && |s.sessions| == cfg.maxConcurrentCalls + n - 1
  {
    actions := Overshoot(cfg, n, now, cfg.maxConcurrentCalls - 1, None);
  }

  /** So is the bound of every trunk whose positive limit the global limit leaves room for. */
  lemma TrunkOvershootReached(cfg: CC.Config, n: nat, now: int, trunk: string) returns (actions: seq<Action>)
    requires cfg.enabled && cfg.maxCallsPerSecond >= 1 && n >= 1
    requires trunk in cfg.trunkLimits && 1 <= cfg.trunkLimits[trunk] <= cfg.maxConcurrentCalls
    ensures ValidRun(cfg, n, New(now), actions)
    ensures |CC.TrunkCalls(Run(cfg, New(now), actions).service.sessions, trunk)| == cfg.trunkLimits[trunk] + n - 1
  {
    actions := Overshoot(cfg, n, now, cfg.trunkLimits[trunk] - 1, Some(trunk));
    TrunkHasAll(Run(cfg, New(now), actions), trunk);
  }

  /** With admission control disabled there is no bound: one caller alone passes every limit. */
  lemma {:induction false} DisabledHasNoBound(cfg: CC.Config, s: State, target: nat, trunk: Option<string>)
    returns (actions: seq<Action>)
    requires !cfg.enabled && Poised(s, 0, trunk) && AllOn(s, trunk) && s.service.activeCalls <= target
    ensures ValidRun(cfg, 1, s, actions) && Run(cfg, s, actions).service.activeCalls == target
    decreases target - s.service.activeCalls
  {
    PoisedInFlight(s, 0, trunk);
    if s.service.activeCalls == target {
      actions := [];
    } else {
      var call := OneCall(cfg, 1, s, trunk);
      var rest := DisabledHasNoBound(cfg, Run(cfg, s, call), target, trunk);
      Append(cfg, 1, s, call, rest);
      actions := call + rest;
    }
  }
}
