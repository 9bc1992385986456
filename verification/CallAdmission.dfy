/** Call admission by any number of concurrent callers. Each load, store, exchange, map operation and
    counter update of admit, register and end is one atomic step of one caller; a run is any
    interleaving of such steps. */
module CallAdmission {
  import opened Common
  import CC = CallControl

  type CallerId = nat

  /** What a caller does next. The arguments are its local variables. */
  datatype Pc =
    | Idle
    | ReadClock(trunk: Option<string>)
    | ReadReset(trunk: Option<string>, now: int)
    | Exchange(trunk: Option<string>, now: int, lastReset: int)
    | ZeroRate(trunk: Option<string>)
    | ReadRate(trunk: Option<string>)
    | CheckTrunk(trunk: Option<string>)
    | MayRegister(trunk: Option<string>)
    | CountActive(id: CC.SessionId)
    | CountTotal(id: CC.SessionId)
    | CountRate(id: CC.SessionId)
    | CountEnded

  /** The choices a step leaves open: who moves, which trunk and session id, what the clock says, and
      whether a weak compare-exchange fails spuriously or an admitted caller gives up. */
  datatype Action =
    | LoadActive(caller: CallerId, trunk: Option<string>)
    | Continue(caller: CallerId, now: int, spurious: bool)
    | Insert(caller: CallerId, id: CC.SessionId)
    | GiveUp(caller: CallerId)
    | Remove(caller: CallerId, id: CC.SessionId)

  /** `issued` holds every session id ever drawn, `uncounted` those stored but not yet counted, and
      `returned` those that registration has handed out. They are bookkeeping: no step's effect on the
      service depends on them. */
  datatype State = State(
    service: CC.Service,
    callers: map<CallerId, Pc>,
    issued: set<CC.SessionId>,
    uncounted: set<CC.SessionId>,
    returned: set<CC.SessionId>)

  function New(now: int): State {
    State(CC.New(now), map[], {}, {}, {})
  }

  function PcOf(s: State, caller: CallerId): Pc {
    if caller in s.callers then s.callers[caller] else Idle
  }

  /** A session id is never drawn twice, and a call can be ended only by an id that registration returned. */
  ghost predicate Enabled(s: State, a: Action) {
    match a
    case LoadActive(c, _) => PcOf(s, c) == Idle
    case Continue(c, _, _) => PcOf(s, c) != Idle && !PcOf(s, c).MayRegister?
    case Insert(c, id) => PcOf(s, c).MayRegister? && id !in s.issued
    case GiveUp(c) => PcOf(s, c).MayRegister?
    case Remove(c, id) => PcOf(s, c) == Idle && id in s.returned
  }

  function MoveTo(s: State, caller: CallerId, pc: Pc): State {
    s.(callers := s.callers[caller := pc])
  }

  /** The step after the first load, by program counter. */
  function Advance(cfg: CC.Config, s: State, c: CallerId, now: int, spurious: bool): State {
    var svc := s.service;
    match PcOf(s, c)
    case ReadClock(trunk) => MoveTo(s, c, ReadReset(trunk, now))
    case ReadReset(trunk, read) => MoveTo(s, c, Exchange(trunk, read, svc.lastReset))
    case Exchange(trunk, read, last) =>
      if read > last && svc.lastReset == last && !spurious
      then MoveTo(s.(service := svc.(lastReset := read)), c, ZeroRate(trunk))
      else MoveTo(s, c, ReadRate(trunk))
    case ZeroRate(trunk) => MoveTo(s.(service := svc.(callsPerSecond := 0)), c, ReadRate(trunk))
    case ReadRate(trunk) =>
      MoveTo(s, c, if svc.callsPerSecond >= cfg.maxCallsPerSecond then Idle else CheckTrunk(trunk))
    case CheckTrunk(trunk) => MoveTo(s, c, if CC.TrunkFull(cfg, svc, trunk) then Idle else MayRegister(trunk))
    case CountActive(id) =>
      MoveTo(s.(service := svc.(activeCalls := svc.activeCalls + 1), uncounted := s.uncounted - {id}), c, CountTotal(id))
    case CountTotal(id) =>
      MoveTo(s.(service := svc.(totalEstablished := svc.totalEstablished + 1)), c, CountRate(id))
    case CountRate(id) =>
      MoveTo(s.(service := svc.(callsPerSecond := svc.callsPerSecond + 1), returned := s.returned + {id}), c, Idle)
    case CountEnded => MoveTo(s.(service := svc.(activeCalls := svc.activeCalls - 1)), c, Idle)
    case _ => s
  }

  function Next(cfg: CC.Config, s: State, a: Action): State {
    match a
    case LoadActive(c, trunk) =>
      if !cfg.enabled then MoveTo(s, c, MayRegister(trunk))
      else if s.service.activeCalls >= cfg.maxConcurrentCalls then s
      else MoveTo(s, c, ReadClock(trunk))
    case Continue(c, now, spurious) => Advance(cfg, s, c, now, spurious)
    case Insert(c, id) =>
      var trunk := if PcOf(s, c).MayRegister? then PcOf(s, c).trunk else None;
      MoveTo(s.(service := s.service.(sessions := s.service.sessions[id := trunk]),
                issued := s.issued + {id}, uncounted := s.uncounted + {id}), c, CountActive(id))
    case GiveUp(c) => MoveTo(s, c, Idle)
    case Remove(c, id) =>
      if id in s.service.sessions
      then MoveTo(s.(service := s.service.(sessions := s.service.sessions - {id})), c, CountEnded)
      else s
  }

  // ---------- Callers at a point of the program ----------

  /** Between reading the call counter and incrementing it. */
  predicate InFlightPc(pc: Pc) {
    !pc.Idle? && !pc.CountTotal? && !pc.CountRate? && !pc.CountEnded?
  }

  function InFlight(s: State): set<CallerId> {
    set c | c in s.callers && InFlightPc(s.callers[c])
  }

  function Storing(s: State): set<CallerId> {
    set c | c in s.callers && s.callers[c].CountActive?
  }

  function Ending(s: State): set<CallerId> {
    set c | c in s.callers && s.callers[c].CountEnded?
  }

  lemma Moved(s: State, c: CallerId, pc: Pc)
    ensures var s' := MoveTo(s, c, pc);
            && InFlight(s') == (if InFlightPc(pc) then InFlight(s) + {c} else InFlight(s) - {c})
            && Storing(s') == (if pc.CountActive? then Storing(s) + {c} else Storing(s) - {c})
            && Ending(s') == (if pc.CountEnded? then Ending(s) + {c} else Ending(s) - {c})
  {
  }

  // ---------- Runs ----------

  /** A run every step of which is enabled, with never more than n callers in flight. */
  ghost predicate ValidRun(cfg: CC.Config, n: nat, s: State, actions: seq<Action>)
    decreases |actions|
  {
    && |InFlight(s)| <= n
    && (actions != [] ==>
          Enabled(s, actions[0]) && ValidRun(cfg, n, Next(cfg, s, actions[0]), actions[1..]))
  }

  function Run(cfg: CC.Config, s: State, actions: seq<Action>): State
    decreases |actions|
  {
    if actions == [] then s else Run(cfg, Next(cfg, s, actions[0]), actions[1..])
  }

  // ---------- The invariant ----------

  /** Which ids are where: a caller storing a session owns one uncounted id, and no two share one. */
  ghost predicate IdsInPlace(s: State) {
    && s.uncounted <= s.service.sessions.Keys <= s.issued
    && s.returned <= s.issued - s.uncounted
    && (forall c :: c in Storing(s) ==> s.callers[c].id in s.uncounted)
    && (forall c, d :: c in Storing(s) && d in Storing(s) && s.callers[c].id == s.callers[d].id ==> c == d)
    && (forall c :: c in s.callers && (s.callers[c].CountTotal? || s.callers[c].CountRate?) ==>
          s.callers[c].id in s.issued - s.uncounted)
  }

  /** The counter lags behind the session map by the sessions stored and not yet counted, and leads it
      by the calls removed and not yet counted. */
  ghost predicate CountsAgree(s: State) {
    && |s.uncounted| == |Storing(s)|
    && s.service.activeCalls == |s.service.sessions| - |s.uncounted| + |Ending(s)|
  }

  ghost predicate Accounts(s: State) {
    IdsInPlace(s) && CountsAgree(s)
  }

  /** The sharp form: the counter and the callers in flight together stay below the limit plus n. */
  ghost predicate Invariant(cfg: CC.Config, n: nat, s: State) {
    && Accounts(s)
    && s.service.activeCalls + |InFlight(s)| <= cfg.maxConcurrentCalls + n - 1
  }

  lemma QuietMoveIds(s: State, s': State, c: CallerId, pc: Pc)
    requires IdsInPlace(s)
    requires !PcOf(s, c).CountActive? && !pc.CountActive?
    requires (pc.CountTotal? || pc.CountRate?) ==> pc.id in s.issued - s.uncounted
    requires s'.callers == s.callers[c := pc]
    requires s'.uncounted == s.uncounted && s'.issued == s.issued && s'.returned <= s.issued - s.uncounted
    requires s'.service.sessions.Keys <= s.service.sessions.Keys && s.uncounted <= s'.service.sessions.Keys
    ensures IdsInPlace(s') && Storing(s') == Storing(s)
  {
    Moved(s, c, pc);
    assert Storing(s') == Storing(MoveTo(s, c, pc)) == Storing(s);
  }

  lemma QuietMove(s: State, s': State, c: CallerId, pc: Pc)
    requires Accounts(s)
    requires !PcOf(s, c).CountActive? && !PcOf(s, c).CountEnded? && !pc.CountActive? && !pc.CountEnded?
    requires (pc.CountTotal? || pc.CountRate?) ==> pc.id in s.issued - s.uncounted
    requires s'.callers == s.callers[c := pc]
    requires s'.uncounted == s.uncounted && s'.issued == s.issued && s'.returned <= s.issued - s.uncounted
    requires s'.service.sessions == s.service.sessions && s'.service.activeCalls == s.service.activeCalls
    ensures Accounts(s')
  {
    QuietMoveIds(s, s', c, pc);
    QuietMoveEnding(s, s', c, pc);
  }

  lemma QuietMoveEnding(s: State, s': State, c: CallerId, pc: Pc)
    requires !PcOf(s, c).CountEnded? && !pc.CountEnded? && s'.callers == s.callers[c := pc]
    ensures Ending(s') == Ending(s)
  {
    Moved(s, c, pc);
    assert Ending(s') == Ending(MoveTo(s, c, pc));
  }

  lemma InsertKeepsIds(cfg: CC.Config, s: State, c: CallerId, id: CC.SessionId)
    requires IdsInPlace(s) && Enabled(s, Insert(c, id))
    ensures IdsInPlace(Next(cfg, s, Insert(c, id)))
  {
    var s' := Next(cfg, s, Insert(c, id));
    Moved(s, c, CountActive(id));
    assert Storing(s') == Storing(s) + {c};
    forall d | d in Storing(s) ensures s'.callers[d].id in s.uncounted && s'.callers[d].id != id {
    }
  }

  lemma InsertKeepsCounts(cfg: CC.Config, s: State, c: CallerId, id: CC.SessionId)
    requires IdsInPlace(s) && CountsAgree(s) && Enabled(s, Insert(c, id))
    ensures CountsAgree(Next(cfg, s, Insert(c, id)))
  {
    var s' := Next(cfg, s, Insert(c, id));
    assert Storing(s') == Storing(s) + {c} && Ending(s') == Ending(s) by {
      Moved(s, c, CountActive(id));
    }
    assert c !in Storing(s) && id !in s.uncounted && id !in s.service.sessions;
  }

  lemma CountKeepsIds(cfg: CC.Config, s: State, c: CallerId, now: int, spurious: bool)
    requires IdsInPlace(s) && PcOf(s, c).CountActive?
    ensures IdsInPlace(Next(cfg, s, Continue(c, now, spurious)))
  {
    var id := PcOf(s, c).id;
    var s' := Next(cfg, s, Continue(c, now, spurious));
    Moved(s, c, CountTotal(id));
    assert c in Storing(s) && Storing(s') == Storing(s) - {c};
  }

  lemma CountKeepsCounts(cfg: CC.Config, s: State, c: CallerId, now: int, spurious: bool)
    requires IdsInPlace(s) && CountsAgree(s) && PcOf(s, c).CountActive?
    ensures CountsAgree(Next(cfg, s, Continue(c, now, spurious)))
  {
    var id := PcOf(s, c).id;
    var s' := Next(cfg, s, Continue(c, now, spurious));
    assert c in Storing(s) && id in s.uncounted;
    assert Storing(s') == Storing(s) - {c} && Ending(s') == Ending(s) by {
      Moved(s, c, CountTotal(id));
    }
    assert |s'.uncounted| == |s.uncounted| - 1;
  }

  lemma RemoveKeepsAccounts(cfg: CC.Config, s: State, c: CallerId, id: CC.SessionId)
    requires Accounts(s) && Enabled(s, Remove(c, id))
    ensures Accounts(Next(cfg, s, Remove(c, id)))
  {
    var s' := Next(cfg, s, Remove(c, id));
    if id in s.service.sessions {
      MapSizes(s.service.sessions, id, None);
      QuietMoveIds(s, s', c, CountEnded);
      Moved(s, c, CountEnded);
      assert Ending(s') == Ending(s) + {c};
    }
  }

  lemma EndedKeepsAccounts(cfg: CC.Config, s: State, c: CallerId, now: int, spurious: bool)
    requires Accounts(s) && PcOf(s, c).CountEnded?
    ensures Accounts(Next(cfg, s, Continue(c, now, spurious)))
  {
    var s' := Next(cfg, s, Continue(c, now, spurious));
    Moved(s, c, Idle);
    assert c in Ending(s);
    assert Storing(s') == Storing(s) && Ending(s') == Ending(s) - {c};
  }

  lemma StepKeepsAccounts(cfg: CC.Config, s: State, a: Action)
    requires Accounts(s) && Enabled(s, a)
    ensures Accounts(Next(cfg, s, a))
  {
    var c, s' := a.caller, Next(cfg, s, a);
    match a
    case LoadActive(_, _) => if s' != s { QuietMove(s, s', c, PcOf(s', c)); }
    case Insert(_, id) =>
      InsertKeepsIds(cfg, s, c, id);
      InsertKeepsCounts(cfg, s, c, id);
    case GiveUp(_) => QuietMove(s, s', c, Idle);
    case Remove(_, id) => RemoveKeepsAccounts(cfg, s, c, id);
    case Continue(_, now, spurious) =>
      if PcOf(s, c).CountActive? {
        CountKeepsIds(cfg, s, c, now, spurious);
        CountKeepsCounts(cfg, s, c, now, spurious);
      } else if PcOf(s, c).CountEnded? {
        EndedKeepsAccounts(cfg, s, c, now, spurious);
      } else {
        QuietMove(s, s', c, PcOf(s', c));
      }
  }

  lemma InFlightSize(s: State, c: CallerId, pc: Pc)
    ensures |InFlight(MoveTo(s, c, pc))| ==
            |InFlight(s)| + (if InFlightPc(pc) then 1 else 0) - (if InFlightPc(PcOf(s, c)) then 1 else 0)
  {
    Moved(s, c, pc);
    assert c in InFlight(s) <==> InFlightPc(PcOf(s, c));
  }

  /** A caller enters flight only with the counter below the limit; counting a call moves one from
      flight to the counter; everything else leaves the sum alone or lowers it. */
  lemma StepKeepsSum(cfg: CC.Config, n: nat, s: State, a: Action)
    requires cfg.enabled && Enabled(s, a) && |InFlight(Next(cfg, s, a))| <= n
    requires s.service.activeCalls + |InFlight(s)| <= cfg.maxConcurrentCalls + n - 1
    ensures var s' := Next(cfg, s, a);
            s'.service.activeCalls + |InFlight(s')| <= cfg.maxConcurrentCalls + n - 1
  {
    var c, s' := a.caller, Next(cfg, s, a);
    if s' != s {
      assert s'.callers == MoveTo(s, c, PcOf(s', c)).callers;
      assert InFlight(s') == InFlight(MoveTo(s, c, PcOf(s', c)));
      InFlightSize(s, c, PcOf(s', c));
      StepOnService(cfg, s, a);
    }
  }

  /** The counter changes only where a caller leaves flight for it, or ends a call. */
  lemma StepOnService(cfg: CC.Config, s: State, a: Action)
    requires cfg.enabled && Enabled(s, a)
    ensures var s', before := Next(cfg, s, a), PcOf(s, a.caller);
            && s'.service.activeCalls == s.service.activeCalls
                 + (if a.Continue? && before.CountActive? then 1 else 0)
                 - (if a.Continue? && before.CountEnded? then 1 else 0)
            && (InFlightPc(PcOf(s', a.caller)) && !InFlightPc(before) ==>
                  s.service.activeCalls < cfg.maxConcurrentCalls)
            && (a.Continue? && before.CountActive? ==> !InFlightPc(PcOf(s', a.caller)))
  {
  }

  /** For every interleaving of any number of callers, at every step: with at most n callers between
      reading the counter and incrementing it, the counter never underflows, and neither it nor the
      session map passes the limit by more than n - 1. */
  lemma {:induction false} OvershootBounded(cfg: CC.Config, n: nat, s: State, actions: seq<Action>)
    requires cfg.enabled && Invariant(cfg, n, s) && ValidRun(cfg, n, s, actions)
    ensures var s' := Run(cfg, s, actions);
            && Invariant(cfg, n, s')
            && 0 <= s'.service.activeCalls <= cfg.maxConcurrentCalls + n - 1
            && |s'.service.sessions| <= cfg.maxConcurrentCalls + n - 1
    decreases |actions|
  {
    if actions == [] {
      InvariantBounds(cfg, n, s);
    } else {
      var s' := Next(cfg, s, actions[0]);
      StepKeepsAccounts(cfg, s, actions[0]);
      StepKeepsSum(cfg, n, s, actions[0]);
      OvershootBounded(cfg, n, s', actions[1..]);
    }
  }

  lemma InvariantBounds(cfg: CC.Config, n: nat, s: State)
    requires Invariant(cfg, n, s)
    ensures 0 <= s.service.activeCalls <= cfg.maxConcurrentCalls + n - 1
    ensures |s.service.sessions| <= cfg.maxConcurrentCalls + n - 1
  {
    SubsetSize(s.uncounted, s.service.sessions.Keys);
    assert Storing(s) <= InFlight(s);
    SubsetSize(Storing(s), InFlight(s));
  }

  lemma NewInvariant(cfg: CC.Config, n: nat, now: int)
    requires n >= 1
    ensures Invariant(cfg, n, New(now))
  {
    assert InFlight(New(now)) == {} && Storing(New(now)) == {} && Ending(New(now)) == {};
  }

  /** The bound from a new service: every state of every valid run. */
  lemma AdmissionSafety(cfg: CC.Config, n: nat, now: int, actions: seq<Action>)
    requires cfg.enabled && n >= 1 && ValidRun(cfg, n, New(now), actions)
    ensures var s := Run(cfg, New(now), actions).service;
            0 <= s.activeCalls <= cfg.maxConcurrentCalls + n - 1 && |s.sessions| <= cfg.maxConcurrentCalls + n - 1
  {
    NewInvariant(cfg, n, now);
    OvershootBounded(cfg, n, New(now), actions);
  }
}
