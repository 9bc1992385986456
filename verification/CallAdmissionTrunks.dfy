/** The limit of one trunk under interleaved admission: callers that passed its check and have not yet
    stored their session can overshoot it together, and by no more. */
module CallAdmissionTrunks {
  import opened Common
  import CC = CallControl
  import opened CallAdmission

  /** Callers that passed the trunk's check and may register on it. */
  function Passed(s: State, trunk: string): set<CallerId> {
    set c | c in s.callers && s.callers[c] == MayRegister(Some(trunk))
  }

  function OnTrunk(s: State, trunk: string): nat {
    |CC.TrunkCalls(s.service.sessions, trunk)|
  }

  lemma PassedSize(s: State, s': State, c: CallerId, pc: Pc, trunk: string)
    requires s'.callers == s.callers[c := pc]
    ensures |Passed(s', trunk)| == |Passed(s, trunk)|
              + (if pc == MayRegister(Some(trunk)) then 1 else 0)
              - (if PcOf(s, c) == MayRegister(Some(trunk)) then 1 else 0)
  {
    assert Passed(s', trunk) ==
           if pc == MayRegister(Some(trunk)) then Passed(s, trunk) + {c} else Passed(s, trunk) - {c};
    assert c in Passed(s, trunk) <==> PcOf(s, c) == MayRegister(Some(trunk));
  }

  lemma PassedInFlight(s: State, trunk: string)
    ensures |Passed(s, trunk)| <= |InFlight(s)|
  {
    assert Passed(s, trunk) <= InFlight(s);
    SubsetSize(Passed(s, trunk), InFlight(s));
  }

  /** Storing a session moves one caller from passed to stored; removing one lowers the trunk's calls at
      most. */
  lemma StepOnTrunk(cfg: CC.Config, s: State, a: Action, trunk: string)
    requires s.service.sessions.Keys <= s.issued && Enabled(s, a)
    ensures OnTrunk(Next(cfg, s, a), trunk) <=
            OnTrunk(s, trunk) + if a.Insert? && PcOf(s, a.caller) == MayRegister(Some(trunk)) then 1 else 0
  {
    match a
    case Insert(c, id) =>
      CC.TrunkCallsChange(s.service.sessions, id, PcOf(s, c).trunk, trunk);
    case Remove(_, id) =>
      CC.TrunkCallsChange(s.service.sessions, id, None, trunk);
    case _ =>
      assert Next(cfg, s, a).service.sessions == s.service.sessions;
  }

  /** A caller passes the trunk's check only below its limit, and stops having passed only by storing its
      session or giving up. */
  lemma StepOnPassed(cfg: CC.Config, s: State, a: Action, trunk: string)
    requires cfg.enabled && trunk in cfg.trunkLimits && Enabled(s, a)
    ensures var before, after := PcOf(s, a.caller), PcOf(Next(cfg, s, a), a.caller);
            && (after == MayRegister(Some(trunk)) ==>
                  before != after && OnTrunk(s, trunk) < cfg.trunkLimits[trunk] && a.Continue?)
            && (a.Insert? ==> before.MayRegister? && after.CountActive?)
  {
  }

  ghost predicate TrunkSum(cfg: CC.Config, n: nat, s: State, trunk: string)
    requires trunk in cfg.trunkLimits
  {
    OnTrunk(s, trunk) + |Passed(s, trunk)| <= cfg.trunkLimits[trunk] + n - 1
  }

  lemma StepKeepsTrunkSum(cfg: CC.Config, n: nat, s: State, a: Action, trunk: string)
    requires cfg.enabled && trunk in cfg.trunkLimits && Enabled(s, a)
    requires s.service.sessions.Keys <= s.issued && |InFlight(Next(cfg, s, a))| <= n
    requires TrunkSum(cfg, n, s, trunk)
    ensures TrunkSum(cfg, n, Next(cfg, s, a), trunk)
  {
    var c, s' := a.caller, Next(cfg, s, a);
    if s' != s {
      PassedSize(s, s', c, PcOf(s', c), trunk);
      PassedInFlight(s', trunk);
      StepOnTrunk(cfg, s, a, trunk);
      StepOnPassed(cfg, s, a, trunk);
    }
  }

  lemma {:induction false} TrunkOvershootBounded(cfg: CC.Config, n: nat, s: State, actions: seq<Action>, trunk: string)
    requires cfg.enabled && trunk in cfg.trunkLimits && Accounts(s) && ValidRun(cfg, n, s, actions)
    requires TrunkSum(cfg, n, s, trunk)
    ensures TrunkSum(cfg, n, Run(cfg, s, actions), trunk)
    decreases |actions|
  {
    if actions != [] {
      StepKeepsAccounts(cfg, s, actions[0]);
      StepKeepsTrunkSum(cfg, n, s, actions[0], trunk);
      TrunkOvershootBounded(cfg, n, Next(cfg, s, actions[0]), actions[1..], trunk);
    }
  }

  /** In every interleaving with at most n callers in flight, the sessions of a limited trunk never pass
      its limit by more than n - 1. */
  lemma TrunkSafety(cfg: CC.Config, n: nat, now: int, actions: seq<Action>, trunk: string)
    requires cfg.enabled && n >= 1 && trunk in cfg.trunkLimits && ValidRun(cfg, n, New(now), actions)
    ensures |CC.TrunkCalls(Run(cfg, New(now), actions).service.sessions, trunk)| <= cfg.trunkLimits[trunk] + n - 1
  {
    NewInvariant(cfg, n, now);
    assert Passed(New(now), trunk) == {} && CC.TrunkCalls(New(now).service.sessions, trunk) == {};
    TrunkOvershootBounded(cfg, n, New(now), actions, trunk);
  }
}
