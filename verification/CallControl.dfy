/** Call admission, one caller at a time: the counters and the session map of the call-control service,
    and what admit, register and end do to them when each runs alone. The clock reading and the
    spurious failure of the weak compare-exchange are arguments. CallAdmission interleaves the same
    operations as atomic steps. */
module CallControl {
  import opened Common

  type SessionId = nat

  datatype Config = Config(
    enabled: bool,
    maxConcurrentCalls: nat,
    maxCallsPerSecond: nat,
    trunkLimits: map<string, nat>)

  datatype Service = Service(
    activeCalls: int,
    sessions: map<SessionId, Option<string>>,
    totalEstablished: nat,
    callsPerSecond: nat,
    lastReset: int)

  datatype Decision = Admitted | GlobalLimit | CpsLimit | TrunkLimit

  function New(now: int): Service {
    Service(0, map[], 0, 0, now)
  }

  function TrunkCalls(sessions: map<SessionId, Option<string>>, trunk: string): set<SessionId> {
    set id | id in sessions && sessions[id] == Some(trunk)
  }

  /** The reset of the per-second counter: only in a later second than the last reset, and only if
      the compare-exchange does not fail spuriously. */
  function Reset(s: Service, now: int, spurious: bool): Service {
    if now > s.lastReset && !spurious then s.(lastReset := now, callsPerSecond := 0) else s
  }

  predicate TrunkFull(cfg: Config, s: Service, trunk: Option<string>) {
    trunk.Some? && trunk.value in cfg.trunkLimits
    && |TrunkCalls(s.sessions, trunk.value)| >= cfg.trunkLimits[trunk.value]
  }

  /** The checks in the order they are made; a call refused for the global limit resets nothing. */
  function Admit(cfg: Config, s: Service, now: int, spurious: bool, trunk: Option<string>): (Service, Decision) {
    if !cfg.enabled then (s, Admitted)
    else if s.activeCalls >= cfg.maxConcurrentCalls then (s, GlobalLimit)
    else
      var reset := Reset(s, now, spurious);
      if reset.callsPerSecond >= cfg.maxCallsPerSecond then (reset, CpsLimit)
      else if TrunkFull(cfg, reset, trunk) then (reset, TrunkLimit)
      else (reset, Admitted)
  }

  function Register(s: Service, id: SessionId, trunk: Option<string>): Service {
    s.(activeCalls := s.activeCalls + 1, sessions := s.sessions[id := trunk],
       totalEstablished := s.totalEstablished + 1, callsPerSecond := s.callsPerSecond + 1)
  }

  function End(s: Service, id: SessionId): Service {
    if id in s.sessions then s.(activeCalls := s.activeCalls - 1, sessions := s.sessions - {id}) else s
  }

  class CallControlService {
    const config: Config
    var activeSessions: map<SessionId, Option<string>>
    var activeCalls: int
    var totalCallsEstablished: nat
    var callsPerSecondCurrent: nat
    var lastCpsReset: int

    ghost function View(): Service
      reads this
    {
      Service(activeCalls, activeSessions, totalCallsEstablished, callsPerSecondCurrent, lastCpsReset)
    }

    constructor (config: Config, now: int)
      ensures this.config == config && View() == New(now)
    {
      this.config := config;
      activeSessions := map[];
      activeCalls, totalCallsEstablished, callsPerSecondCurrent, lastCpsReset := 0, 0, 0, now;
    }

    method CanAdmitCallFast(now: int, spurious: bool, trunk: Option<string>) returns (decision: Decision)
      modifies this`lastCpsReset, this`callsPerSecondCurrent
      ensures (View(), decision) == Admit(config, old(View()), now, spurious, trunk)
    {
      if !config.enabled {
        return Admitted;
      }
      var currentCalls := activeCalls;
      if currentCalls >= config.maxConcurrentCalls {
        return GlobalLimit;
      }
      var lastReset := lastCpsReset;
      if now > lastReset {
        if !spurious {
          lastCpsReset := now;
          callsPerSecondCurrent := 0;
        }
      }
      var currentCps := callsPerSecondCurrent;
      if currentCps >= config.maxCallsPerSecond {
        return CpsLimit;
      }
      if trunk.Some? && trunk.value in config.trunkLimits {
        var trunkCalls := GetTrunkCallCount(trunk.value);
        if trunkCalls >= config.trunkLimits[trunk.value] {
          return TrunkLimit;
        }
      }
      return Admitted;
    }

    method RegisterCall(id: SessionId, trunk: Option<string>)
      modifies this
      ensures View() == Register(old(View()), id, trunk)
    {
      activeSessions := activeSessions[id := trunk];
      activeCalls := activeCalls + 1;
      totalCallsEstablished := totalCallsEstablished + 1;
      callsPerSecondCurrent := callsPerSecondCurrent + 1;
    }

    method EndCall(id: SessionId)
      modifies this
      ensures View() == End(old(View()), id)
    {
      if id in activeSessions {
        activeSessions := activeSessions - {id};
        activeCalls := activeCalls - 1;
      }
    }

    method GetTrunkCallCount(trunk: string) returns (count: nat)
      ensures count == |TrunkCalls(activeSessions, trunk)|
    {
      var pending := activeSessions.Keys;
      count := 0;
      ghost var counted: set<SessionId> := {};
      while pending != {}
        invariant pending <= activeSessions.Keys
        invariant counted == TrunkCalls(activeSessions, trunk) - pending
        invariant count == |counted|
        decreases pending
      {
        var id :| id in pending;
        pending := pending - {id};
        if activeSessions[id] == Some(trunk) {
          count := count + 1;
          counted := counted + {id};
        }
      }
      assert counted == TrunkCalls(activeSessions, trunk);
    }
  }

  // ---------- What decides ----------

  /** Each verdict, and what an attempt changes, told from the configuration, the counters and the
      sessions: the checks are made in the order global limit, rate, trunk, and of the sessions only
      those of the attempt's own trunk matter. */
  lemma AdmitExactly(cfg: Config, s: Service, now: int, spurious: bool, trunk: Option<string>)
    ensures var (s', decision) := Admit(cfg, s, now, spurious, trunk);
            var resets := now > s.lastReset && !spurious;
            var calls := if resets then 0 else s.callsPerSecond;
            var onTrunk := set id | id in s.sessions && trunk.Some? && s.sessions[id] == trunk;
            var room := s.activeCalls < cfg.maxConcurrentCalls;
            && (decision == GlobalLimit <==> cfg.enabled && !room)
            && (decision == CpsLimit <==> cfg.enabled && room && calls >= cfg.maxCallsPerSecond)
            && (decision == TrunkLimit <==>
                  && cfg.enabled && room && calls < cfg.maxCallsPerSecond
                  && trunk.Some? && trunk.value in cfg.trunkLimits && |onTrunk| >= cfg.trunkLimits[trunk.value])
            && s' == if cfg.enabled && room && resets then s.(lastReset := now, callsPerSecond := 0) else s
  {
    if trunk.Some? {
      assert TrunkCalls(s.sessions, trunk.value) == set id | id in s.sessions && trunk.Some? && s.sessions[id] == trunk;
    }
  }

  /** Sessions of other trunks never change a trunk's verdict. */
  lemma OtherTrunksDoNotMatter(cfg: Config, s: Service, sessions: map<SessionId, Option<string>>, now: int,
                               spurious: bool, trunk: Option<string>)
    requires forall id :: (id in s.sessions && s.sessions[id] == trunk) <==> (id in sessions && sessions[id] == trunk)
    ensures Admit(cfg, s.(sessions := sessions), now, spurious, trunk).1 == Admit(cfg, s, now, spurious, trunk).1
  {
    AdmitExactly(cfg, s, now, spurious, trunk);
    AdmitExactly(cfg, s.(sessions := sessions), now, spurious, trunk);
    assert (set id | id in s.sessions && trunk.Some? && s.sessions[id] == trunk)
        == set id | id in sessions && trunk.Some? && sessions[id] == trunk;
  }

  // ---------- Serial runs: admit, and register if admitted ----------

  datatype Call =
    | Attempt(now: int, spurious: bool, trunk: Option<string>, id: SessionId)
    | Finish(id: SessionId)

  /** One call event, and the clock readings of the registrations it makes (none or one). */
  function Step(cfg: Config, s: Service, call: Call): (Service, seq<int>) {
    match call
    case Attempt(now, spurious, trunk, id) =>
      var (s', decision) := Admit(cfg, s, now, spurious, trunk);
      if decision.Admitted? then (Register(s', id, trunk), [now]) else (s', [])
    case Finish(id) => (End(s, id), [])
  }

  function Run(cfg: Config, s: Service, calls: seq<Call>): (Service, seq<int>)
    decreases |calls|
  {
    if calls == [] then (s, [])
    else
      var (s', log) := Step(cfg, s, calls[0]);
      var (s'', logs) := Run(cfg, s', calls[1..]);
      (s'', log + logs)
  }

  /** The clock never runs backwards: every attempt reads a time no earlier than `clock` or any
      attempt before it. */
  ghost predicate ClockForward(clock: int, calls: seq<Call>)
    decreases |calls|
  {
    calls != [] ==>
      && (calls[0].Attempt? ==> clock <= calls[0].now)
      && ClockForward(if calls[0].Attempt? then calls[0].now else clock, calls[1..])
  }

  predicate NeverSpurious(calls: seq<Call>) {
    forall c :: c in calls && c.Attempt? ==> !c.spurious
  }

  /** Registrations logged in clock second t. */
  function CountAt(log: seq<int>, t: int): nat {
    if log == [] then 0 else (if log[0] == t then 1 else 0) + CountAt(log[1..], t)
  }

  lemma {:induction false} CountAtConcat(a: seq<int>, b: seq<int>, t: int)
    ensures CountAt(a + b, t) == CountAt(a, t) + CountAt(b, t)
  {
    if a == [] {
      assert a + b == b;
    } else {
      assert (a + b)[1..] == a[1..] + b;
      CountAtConcat(a[1..], b, t);
    }
  }

  // ---------- Calls per second ----------

  /** After reading clock `clock`, with k registrations so far in second t. Before a reset in second t
      they are all in the counter; a reset can forget at most one full counter of them, and only if
      an exchange before it failed spuriously (`slack`). */
  ghost predicate RateKept(max: nat, slack: nat, s: Service, clock: int, t: int, k: nat) {
    && s.lastReset <= clock && s.callsPerSecond <= max
    && (clock < t ==> k == 0)
    && (clock == t && s.lastReset == t ==> k <= slack + s.callsPerSecond)
    && (clock == t && s.lastReset < t ==> k <= slack && k <= s.callsPerSecond)
    && (clock > t ==> k <= slack + max)
  }

  lemma RateStep(cfg: Config, slack: nat, s: Service, call: Call, clock: int, t: int, k: nat)
    requires cfg.enabled && RateKept(cfg.maxCallsPerSecond, slack, s, clock, t, k)
    requires call.Attempt? ==> clock <= call.now
    requires slack == cfg.maxCallsPerSecond || (slack == 0 && (call.Attempt? ==> !call.spurious))
    ensures var (s', log) := Step(cfg, s, call);
            RateKept(cfg.maxCallsPerSecond, slack, s', if call.Attempt? then call.now else clock, t, k + CountAt(log, t))
  {
    var (s', log) := Step(cfg, s, call);
    if log != [] {
      assert log == [call.now] && log[1..] == [];
      assert CountAt(log, t) == if call.now == t then 1 else 0;
    } else {
      assert CountAt(log, t) == 0;
    }
  }

  lemma {:induction false} RateBound(cfg: Config, slack: nat, s: Service, calls: seq<Call>, clock: int, t: int, k: nat)
    requires cfg.enabled && RateKept(cfg.maxCallsPerSecond, slack, s, clock, t, k)
    requires ClockForward(clock, calls)
    requires slack == cfg.maxCallsPerSecond || (slack == 0 && NeverSpurious(calls))
    ensures k + CountAt(Run(cfg, s, calls).1, t) <= slack + cfg.maxCallsPerSecond
    decreases |calls|
  {
    if calls != [] {
      var (s', log) := Step(cfg, s, calls[0]);
      RateStep(cfg, slack, s, calls[0], clock, t, k);
      RateBound(cfg, slack, s', calls[1..], if calls[0].Attempt? then calls[0].now else clock, t, k + CountAt(log, t));
      CountAtConcat(log, Run(cfg, s', calls[1..]).1, t);
    }
  }

  /** With a clock that never runs backwards, the registrations of any one clock second never exceed
      the limit when the compare-exchange only fails if another caller won, and never exceed twice the
      limit however often it fails spuriously. */
  lemma CallsPerSecondBounded(cfg: Config, start: int, calls: seq<Call>, t: int)
    requires cfg.enabled && ClockForward(start, calls)
    ensures var count := CountAt(Run(cfg, New(start), calls).1, t);
            && count <= 2 * cfg.maxCallsPerSecond
            && (NeverSpurious(calls) ==> count <= cfg.maxCallsPerSecond)
  {
    RateBound(cfg, cfg.maxCallsPerSecond, New(start), calls, start, t, 0);
    if NeverSpurious(calls) {
      RateBound(cfg, 0, New(start), calls, start, t, 0);
    }
  }

  // ---------- The doubled bound is reached ----------

  /** n calls in second t, each attempted and then ended. */
  function ShortCalls(n: nat, t: int, spurious: bool): seq<Call> {
    if n == 0 then [] else [Attempt(t, spurious, None, 0), Finish(0)] + ShortCalls(n - 1, t, spurious)
  }

  ghost predicate NoneActive(s: Service) {
    s.activeCalls == 0 && s.sessions == map[]
  }

  lemma {:induction false} ShortCallsRegister(cfg: Config, s: Service, n: nat, t: int, spurious: bool)
    requires cfg.enabled && cfg.maxConcurrentCalls >= 1 && NoneActive(s) && s.lastReset <= t
    requires n > 0
    requires (if s.lastReset < t && !spurious then 0 else s.callsPerSecond) + n <= cfg.maxCallsPerSecond
    ensures var (s', log) := Run(cfg, s, ShortCalls(n, t, spurious));
            && NoneActive(s') && CountAt(log, t) == n
            && s'.lastReset == (if spurious then s.lastReset else t)
            && s'.callsPerSecond == (if s.lastReset < t && !spurious then 0 else s.callsPerSecond) + n
    ensures ClockForward(t, ShortCalls(n, t, spurious))
    decreases n
  {
    var calls := ShortCalls(n, t, spurious);
    var rest := ShortCalls(n - 1, t, spurious);
    assert calls[1..] == [Finish(0)] + rest && calls[1..][1..] == rest;
    var s1 := Step(cfg, s, calls[0]).0;
    var s2 := Step(cfg, s1, Finish(0)).0;
    assert s1 == Register(Reset(s, t, spurious), 0, None);
    assert s2.sessions == map[];
    if n > 1 {
      ShortCallsRegister(cfg, s2, n - 1, t, spurious);
    }
    var logs := Run(cfg, s2, rest).1;
    assert Run(cfg, s1, calls[1..]).1 == [] + logs == logs;
    assert Run(cfg, s, calls).1 == [t] + logs;
    assert ([t] + logs)[1..] == logs;
  }

  lemma {:induction false} RunConcat(cfg: Config, s: Service, a: seq<Call>, b: seq<Call>)
    ensures var (s', log) := Run(cfg, s, a);
            Run(cfg, s, a + b) == (Run(cfg, s', b).0, log + Run(cfg, s', b).1)
    decreases |a|
  {
    if a == [] {
      assert a + b == b;
      assert [] + Run(cfg, s, b).1 == Run(cfg, s, b).1;
    } else {
      var (s1, log) := Step(cfg, s, a[0]);
      RunConcat(cfg, s1, a[1..], b);
      var (s2, logs) := Run(cfg, s1, a[1..]);
      assert (a + b)[1..] == a[1..] + b;
      assert log + (logs + Run(cfg, s2, b).1) == (log + logs) + Run(cfg, s2, b).1;
    }
  }

  lemma {:induction false} ClockForwardConcat(t: int, n: nat, spurious: bool, b: seq<Call>)
    requires ClockForward(t, b)
    ensures ClockForward(t, ShortCalls(n, t, spurious) + b)
    decreases n
  {
    var a := ShortCalls(n, t, spurious);
    if n == 0 {
      assert a + b == b;
    } else {
      ClockForwardConcat(t, n - 1, spurious, b);
      assert (a + b)[1..][1..] == ShortCalls(n - 1, t, spurious) + b;
    }
  }

  lemma {:induction false} ClockForwardLater(clock: int, clock': int, calls: seq<Call>)
    requires clock <= clock' && ClockForward(clock', calls)
    ensures ClockForward(clock, calls)
    decreases |calls|
  {
    if calls != [] && !calls[0].Attempt? {
      ClockForwardLater(clock, clock', calls[1..]);
    }
  }

  /** Twice the limit is reached, for every limit: the exchange fails spuriously until the counter is
      full, then succeeds and forgets it, all within one second. */
  lemma DoubleRateReached(cfg: Config, start: int) returns (calls: seq<Call>)
    requires cfg.enabled && cfg.maxConcurrentCalls >= 1
    ensures ClockForward(start, calls)
    ensures CountAt(Run(cfg, New(start), calls).1, start + 1) == 2 * cfg.maxCallsPerSecond
  {
    var max, t := cfg.maxCallsPerSecond, start + 1;
    if max == 0 {
      calls := [];
      return;
    }
    var before, after := ShortCalls(max, t, true), ShortCalls(max, t, false);
    calls := before + after;
    ShortCallsRegister(cfg, New(start), max, t, true);
    ShortCallsRegister(cfg, Run(cfg, New(start), before).0, max, t, false);
    RunConcat(cfg, New(start), before, after);
    CountAtConcat(Run(cfg, New(start), before).1, Run(cfg, Run(cfg, New(start), before).0, after).1, t);
    ClockForwardConcat(t, max, true, after);
    ClockForwardLater(start, t, calls);
  }

  /** Every registration is counted as established, whether the call lasts or not. */
  lemma {:induction false} EstablishedExactly(cfg: Config, s: Service, calls: seq<Call>)
    ensures Run(cfg, s, calls).0.totalEstablished == s.totalEstablished + |Run(cfg, s, calls).1|
    decreases |calls|
  {
    if calls != [] {
      EstablishedExactly(cfg, Step(cfg, s, calls[0]).0, calls[1..]);
    }
  }

  // ---------- Limits, one caller at a time ----------

  ghost predicate LimitsKept(cfg: Config, s: Service) {
    && s.activeCalls == |s.sessions| <= cfg.maxConcurrentCalls
    && (forall trunk :: trunk in cfg.trunkLimits ==> |TrunkCalls(s.sessions, trunk)| <= cfg.trunkLimits[trunk])
  }

  /** Every attempt brings a session id that is not in use. */
  ghost predicate FreshIds(cfg: Config, s: Service, calls: seq<Call>)
    decreases |calls|
  {
    calls != [] ==>
      && (calls[0].Attempt? ==> calls[0].id !in s.sessions)
      && FreshIds(cfg, Step(cfg, s, calls[0]).0, calls[1..])
  }

  lemma TrunkCallsChange(sessions: map<SessionId, Option<string>>, id: SessionId, owner: Option<string>, trunk: string)
    ensures id !in sessions ==>
              TrunkCalls(sessions[id := owner], trunk) ==
              TrunkCalls(sessions, trunk) + (if owner == Some(trunk) then {id} else {})
    ensures TrunkCalls(sessions - {id}, trunk) == TrunkCalls(sessions, trunk) - {id}
  {
  }

  lemma RegisterKeepsLimits(cfg: Config, s: Service, id: SessionId, owner: Option<string>)
    requires LimitsKept(cfg, s) && id !in s.sessions
    requires s.activeCalls < cfg.maxConcurrentCalls && !TrunkFull(cfg, s, owner)
    ensures LimitsKept(cfg, Register(s, id, owner))
  {
    var s' := Register(s, id, owner);
    forall t | t in cfg.trunkLimits ensures |TrunkCalls(s'.sessions, t)| <= cfg.trunkLimits[t] {
      TrunkCallsChange(s.sessions, id, owner, t);
    }
  }

  lemma EndKeepsLimits(cfg: Config, s: Service, id: SessionId)
    requires LimitsKept(cfg, s)
    ensures LimitsKept(cfg, End(s, id))
  {
    var s' := End(s, id);
    if id in s.sessions {
      assert s'.sessions.Keys == s.sessions.Keys - {id};
      forall t | t in cfg.trunkLimits ensures |TrunkCalls(s'.sessions, t)| <= cfg.trunkLimits[t] {
        TrunkCallsChange(s.sessions, id, None, t);
      }
    }
  }

  lemma StepKeepsLimits(cfg: Config, s: Service, call: Call)
    requires cfg.enabled && LimitsKept(cfg, s) && (call.Attempt? ==> call.id !in s.sessions)
    ensures LimitsKept(cfg, Step(cfg, s, call).0)
  {
    match call
    case Attempt(now, spurious, trunk, id) =>
      var (s', decision) := Admit(cfg, s, now, spurious, trunk);
      assert LimitsKept(cfg, s');
      if decision.Admitted? {
        RegisterKeepsLimits(cfg, s', id, trunk);
      }
    case Finish(id) => EndKeepsLimits(cfg, s, id);
  }

  /** Run serially, admission is exact: the counter is the number of sessions, and neither the global
      nor any trunk limit is ever passed. */
  lemma {:induction false} SerialLimitsExact(cfg: Config, s: Service, calls: seq<Call>)
    requires cfg.enabled && LimitsKept(cfg, s) && FreshIds(cfg, s, calls)
    ensures LimitsKept(cfg, Run(cfg, s, calls).0)
    decreases |calls|
  {
    if calls != [] {
      StepKeepsLimits(cfg, s, calls[0]);
      SerialLimitsExact(cfg, Step(cfg, s, calls[0]).0, calls[1..]);
    }
  }
}
