/** The compliance framework's tracking of calls: the table of valid transitions, the statistics, and the
    engine that keeps the call detail records (CDRs) of running calls and stores them when calls end.
    Lawful intercept is off. An event carries the timestamp its sender gave it and the reading of the
    engine's own clock, in nanoseconds, while it is processed. */
module Compliance {
  import opened Common

  datatype EventType =
    | CallAttempt | CallProgress | CallAnswered | CallEnded | CallTransferred | CallForwarded
    | CallHold | DtmfDetected | MediaStarted | MediaEnded

  datatype CallStateEnum = Attempting | Progressing | Answered | Ended | Transferred | Forwarded

  datatype CallResult = Normal | Busy | NoAnswer | InvalidNumber | ServiceUnavailable | SystemFailure

  datatype CallState = CallState(
    startTime: int,
    answerTime: Option<int>,
    endTime: Option<int>,
    current: CallStateEnum,
    cdrCreated: bool,
    hasMetrics: bool)

  datatype Event = Event(
    callId: string, eventType: EventType, timestamp: int, hasRtp: bool, response: Option<int>, clock: int)

  datatype Cdr = Cdr(
    startTime: int,
    answerTime: Option<int>,
    endTime: Option<int>,
    duration: Option<nat>,
    billable: Option<nat>,
    result: CallResult,
    hasMetrics: bool)

  /** CDRs of running calls by call id, and the storage. */
  datatype Engine = Engine(active: map<string, Cdr>, stored: seq<Cdr>)

  datatype Stats = Stats(totalCalls: nat, cdrsGenerated: nat)

  datatype Framework = Framework(calls: map<string, CallState>, engine: Engine, stats: Stats)

  const NEW_FRAMEWORK := Framework(map[], Engine(map[], []), Stats(0, 0))

  // ---------- The CDR engine ----------

  /** Whole seconds, none of them negative. */
  function Seconds(nanoseconds: int): nat {
    if nanoseconds < 0 then 0 else nanoseconds / 1_000_000_000
  }

  function NewCdr(clock: int): Cdr {
    Cdr(clock, None, None, None, None, Normal, false)
  }

  function MarkEnded(c: Cdr, result: CallResult, clock: int): Cdr {
    c.(endTime := Some(clock), result := result, duration := Some(Seconds(clock - c.startTime)),
       billable := Some(if c.answerTime.Some? then Seconds(clock - c.answerTime.value) else 0))
  }

  function StartCall(g: Engine, id: string, clock: int): Engine {
    g.(active := g.active[id := NewCdr(clock)])
  }

  function AnswerCall(g: Engine, id: string, clock: int): Engine {
    if id in g.active then g.(active := g.active[id := g.active[id].(answerTime := Some(clock))]) else g
  }

  /** A call without a CDR is passed over in silence. */
  function EndCall(g: Engine, id: string, result: CallResult, clock: int): Engine {
    if id in g.active then Engine(g.active - {id}, g.stored + [MarkEnded(g.active[id], result, clock)]) else g
  }

  function UpdateMetrics(g: Engine, id: string): Engine {
    if id in g.active then g.(active := g.active[id := g.active[id].(hasMetrics := true)]) else g
  }

  class JStd025CdrEngine {
    var activeCdrs: map<string, Cdr>
    var storage: seq<Cdr>

    ghost function View(): Engine
      reads this
    {
      Engine(activeCdrs, storage)
    }

    constructor ()
      ensures View() == NEW_FRAMEWORK.engine
    {
      activeCdrs, storage := map[], [];
    }

    method Start(id: string, clock: int)
      modifies this
      ensures View() == StartCall(old(View()), id, clock)
    {
      activeCdrs := activeCdrs[id := NewCdr(clock)];
    }

    method Answer(id: string, clock: int)
      modifies this
      ensures View() == AnswerCall(old(View()), id, clock)
    {
      if id in activeCdrs {
        activeCdrs := activeCdrs[id := activeCdrs[id].(answerTime := Some(clock))];
      }
    }

    method End(id: string, result: CallResult, clock: int)
      modifies this
      ensures View() == EndCall(old(View()), id, result, clock)
    {
      if id in activeCdrs {
        var cdr := activeCdrs[id];
        activeCdrs := activeCdrs - {id};
        cdr := cdr.(endTime := Some(clock), result := result);
        cdr := cdr.(duration := Some(Seconds(clock - cdr.startTime)));
        if cdr.answerTime.Some? {
          cdr := cdr.(billable := Some(Seconds(clock - cdr.answerTime.value)));
        } else {
          cdr := cdr.(billable := Some(0));
        }
        storage := storage + [cdr];
      }
    }

    method UpdateQosMetrics(id: string)
      modifies this
      ensures View() == UpdateMetrics(old(View()), id)
    {
      if id in activeCdrs {
        activeCdrs := activeCdrs[id := activeCdrs[id].(hasMetrics := true)];
      }
    }
  }

  // ---------- Events ----------

  function EventToState(e: EventType): Option<CallStateEnum> {
    match e
    case CallAttempt => Some(Attempting)
    case CallProgress => Some(Progressing)
    case CallAnswered => Some(Answered)
    case CallEnded => Some(Ended)
    case CallTransferred => Some(Transferred)
    case CallForwarded => Some(Forwarded)
    case _ => None
  }

  predicate ValidTransition(current: CallStateEnum, e: EventType, isNew: bool) {
    match (current, e)
    case (Attempting, CallProgress) => true
    case (Attempting, CallAnswered) => true
    case (Attempting, CallEnded) => true
    case (Progressing, CallAnswered) => true
    case (Progressing, CallEnded) => true
    case (Answered, CallEnded) => true
    case (Answered, CallTransferred) => true
    case (Answered, CallForwarded) => true
    case (Answered, CallHold) => true
    case (Answered, DtmfDetected) => true
    case (Answered, MediaStarted) => true
    case (Answered, MediaEnded) => true
    case (_, _) => EventToState(e) == Some(current) || (e.CallAttempt? && isNew)
  }

  function NewCall(e: Event): CallState {
    CallState(e.timestamp, None, None, Attempting, false, e.hasRtp)
  }

  /** The call's state after a valid transition. */
  function Transition(c: CallState, e: Event): CallState {
    var moved := match e.eventType
      case CallAttempt => c.(current := Attempting)
      case CallProgress => c.(current := Progressing)
      case CallAnswered => c.(current := Answered, answerTime := Some(e.timestamp))
      case CallEnded => c.(current := Ended, endTime := Some(e.timestamp))
      case CallTransferred => c.(current := Transferred)
      case CallForwarded => c.(current := Forwarded)
      case _ => c;
    if e.hasRtp then moved.(hasMetrics := true) else moved
  }

  function UpdateCall(c: CallState, e: Event, isNew: bool): CallState {
    if ValidTransition(c.current, e.eventType, isNew) then Transition(c, e) else c
  }

  function DetermineResult(e: Event, c: CallState): CallResult {
    match e.response
    case Some(200) => Normal
    case Some(486) => Busy
    case Some(408) => NoAnswer
    case Some(480) => NoAnswer
    case Some(503) => ServiceUnavailable
    case Some(404) => InvalidNumber
    case Some(_) => SystemFailure
    case None => if c.answerTime.Some? then Normal else SystemFailure
  }

  /** The call an event is about, found or made, and updated. */
  function CallAfter(f: Framework, e: Event): CallState {
    var isNew := e.callId !in f.calls;
    UpdateCall(if isNew then NewCall(e) else f.calls[e.callId], e, isNew)
  }

  /** A call's end: the engine stores its CDR and is then told the metrics; the call is forgotten and
      counted. */
  function FinishCall(f: Framework, call: CallState, e: Event): Framework {
    var ended := EndCall(f.engine, e.callId, DetermineResult(e, call), e.clock);
    Framework(f.calls - {e.callId}, if call.hasMetrics then UpdateMetrics(ended, e.callId) else ended,
              f.stats.(cdrsGenerated := f.stats.cdrsGenerated + 1))
  }

  /** What the CDR branch does after the call was updated. */
  function RecordCall(f: Framework, call: CallState, isNew: bool, e: Event): Framework {
    match e.eventType
    case CallAttempt =>
      if isNew then f.(calls := f.calls[e.callId := call.(cdrCreated := true)],
                       engine := StartCall(f.engine, e.callId, e.clock))
      else f
    case CallAnswered => f.(engine := AnswerCall(f.engine, e.callId, e.clock))
    case CallEnded => FinishCall(f, call, e)
    case _ => f
  }

  function CountNew(f: Framework, isNew: bool): Framework {
    if isNew then f.(stats := f.stats.(totalCalls := f.stats.totalCalls + 1)) else f
  }

  function ProcessEvent(f: Framework, cdrEnabled: bool, e: Event): Framework {
    var isNew, call := e.callId !in f.calls, CallAfter(f, e);
    var tracked := f.(calls := f.calls[e.callId := call]);
    CountNew(if cdrEnabled then RecordCall(tracked, call, isNew, e) else tracked, isNew)
  }

  class ComplianceFramework {
    const cdrEnabled: bool
    const engine: JStd025CdrEngine
    var activeCalls: map<string, CallState>
    var stats: Stats

    ghost function View(): Framework
      reads this, engine
    {
      Framework(activeCalls, engine.View(), stats)
    }

    constructor (cdrEnabled: bool)
      ensures this.cdrEnabled == cdrEnabled && fresh(engine) && View() == NEW_FRAMEWORK
    {
      this.cdrEnabled := cdrEnabled;
      engine := new JStd025CdrEngine();
      activeCalls := map[];
      stats := Stats(0, 0);
    }

    method Process(event: Event)
      modifies this, engine
      ensures View() == ProcessEvent(old(View()), cdrEnabled, event)
    {
      var isNew := event.callId !in activeCalls;
      if isNew {
        activeCalls := activeCalls[event.callId := NewCall(event)];
      }
      var call := activeCalls[event.callId];
      if ValidTransition(call.current, event.eventType, isNew) {
        call := Transition(call, event);
        activeCalls := activeCalls[event.callId := call];
      }
      assert activeCalls == old(activeCalls)[event.callId := call];
      if cdrEnabled {
        match event.eventType {
          case CallAttempt =>
            if isNew {
              engine.Start(event.callId, event.clock);
              activeCalls := activeCalls[event.callId := call.(cdrCreated := true)];
            }
          case CallAnswered =>
            engine.Answer(event.callId, event.clock);
          case CallEnded =>
            engine.End(event.callId, DetermineResult(event, call), event.clock);
            if call.hasMetrics {
              engine.UpdateQosMetrics(event.callId);
            }
            activeCalls := activeCalls - {event.callId};
            stats := stats.(cdrsGenerated := stats.cdrsGenerated + 1);
          case _ =>
        }
      }
      if isNew {
        stats := stats.(totalCalls := stats.totalCalls + 1);
      }
    }
  }

  // ---------- Runs ----------

  function Run(cdrEnabled: bool, events: seq<Event>): Framework {
    if events == [] then NEW_FRAMEWORK
    else ProcessEvent(Run(cdrEnabled, events[..|events| - 1]), cdrEnabled, events[|events| - 1])
  }

  /** With CDRs on, total calls are the CDRs generated and the calls still tracked, after every event. */
  lemma {:induction false} CallsAccounted(events: seq<Event>)
    ensures var f := Run(true, events);
            f.stats.totalCalls == f.stats.cdrsGenerated + |f.calls|
  {
    if events != [] {
      var before, e := Run(true, events[..|events| - 1]), events[|events| - 1];
      CallsAccounted(events[..|events| - 1]);
      StepBalance(before, e);
    }
  }

  lemma StepBalance(f: Framework, e: Event)
    ensures var f' := ProcessEvent(f, true, e);
            f'.stats.totalCalls - f'.stats.cdrsGenerated - |f'.calls| ==
            f.stats.totalCalls - f.stats.cdrsGenerated - |f.calls|
  {
    var call := CallAfter(f, e);
    MapSizes(f.calls, e.callId, call);
    MapSizes(f.calls[e.callId := call], e.callId, call.(cdrCreated := true));
    assert f.calls[e.callId := call] - {e.callId} == f.calls - {e.callId};
  }

  lemma StepForgetsNothing(f: Framework, e: Event)
    ensures var f' := ProcessEvent(f, false, e);
            && f'.calls.Keys == f.calls.Keys + {e.callId}
            && f'.stats.totalCalls - |f'.calls| == f.stats.totalCalls - |f.calls|
            && f'.stats.cdrsGenerated == f.stats.cdrsGenerated
  {
    MapSizes(f.calls, e.callId, CallAfter(f, e));
  }

  function CallIds(events: seq<Event>): set<string> {
    set e | e in events :: e.callId
  }

  lemma CallIdsSnoc(events: seq<Event>, e: Event)
    ensures CallIds(events + [e]) == CallIds(events) + {e.callId}
  {
  }

  /** Without CDRs no call is ever forgotten: ended calls stay tracked, and the total is their number. */
  lemma {:induction false} WithoutCdrsNothingIsForgotten(events: seq<Event>)
    ensures var f := Run(false, events);
            f.stats == Stats(|f.calls|, 0) && f.calls.Keys == CallIds(events)
  {
    if events != [] {
      var rest, e := events[..|events| - 1], events[|events| - 1];
      WithoutCdrsNothingIsForgotten(rest);
      StepForgetsNothing(Run(false, rest), e);
      CallIdsSnoc(rest, e);
      assert events == rest + [e];
    }
  }

  // ---------- CDRs stored and CDRs counted ----------

  /** Whether the call is tracked after the events and, if so, whether a call attempt started it: told
      from the events of that call alone. */
  function Opened(events: seq<Event>, id: string): Option<bool> {
    if events == [] then None
    else
      var before, e := Opened(events[..|events| - 1], id), events[|events| - 1];
      if e.callId != id then before
      else if e.eventType.CallEnded? then None
      else if before.Some? then before
      else Some(e.eventType.CallAttempt?)
  }

  /** The calls that ended without having started with a call attempt. */
  function UnrecordedEnds(events: seq<Event>): nat {
    if events == [] then 0
    else
      var rest, e := events[..|events| - 1], events[|events| - 1];
      UnrecordedEnds(rest) + if e.eventType.CallEnded? && Opened(rest, e.callId) != Some(true) then 1 else 0
  }

  /** The call attempts that started a call. */
  function Attempts(events: seq<Event>): nat {
    if events == [] then 0
    else
      var rest, e := events[..|events| - 1], events[|events| - 1];
      Attempts(rest) + if e.eventType.CallAttempt? && Opened(rest, e.callId).None? then 1 else 0
  }

  /** The framework tracks the opened calls, and the engine keeps CDRs for those an attempt opened. */
  ghost predicate Follows(f: Framework, events: seq<Event>) {
    forall id :: (id in f.calls <==> Opened(events, id).Some?)
              && (id in f.engine.active <==> Opened(events, id) == Some(true))
  }

  lemma StepFollows(f: Framework, events: seq<Event>, e: Event)
    requires Follows(f, events)
    ensures Follows(ProcessEvent(f, true, e), events + [e])
  {
    var f' := ProcessEvent(f, true, e);
    assert (events + [e])[..|events|] == events;
    forall id ensures (id in f'.calls <==> Opened(events + [e], id).Some?)
                   && (id in f'.engine.active <==> Opened(events + [e], id) == Some(true)) {
      assert id in f.calls <==> Opened(events, id).Some?;
    }
  }

  lemma {:induction false} RunFollows(events: seq<Event>)
    ensures Follows(Run(true, events), events)
  {
    if events != [] {
      var rest, e := events[..|events| - 1], events[|events| - 1];
      RunFollows(rest);
      StepFollows(Run(true, rest), rest, e);
      assert events == rest + [e];
    }
  }

  lemma StepStores(f: Framework, e: Event)
    ensures var f' := ProcessEvent(f, true, e);
            && |f'.engine.stored| == |f.engine.stored|
                 + (if e.eventType.CallEnded? && e.callId in f.engine.active then 1 else 0)
            && f'.stats.cdrsGenerated == f.stats.cdrsGenerated + (if e.eventType.CallEnded? then 1 else 0)
  {
  }

  /** Over every run, the statistic counts the CDRs stored and, with them, every call that ended without
      having started with a call attempt, of which nothing was stored. So the statistic is right if and
      only if every call that ended had started with one. */
  lemma {:induction false} StoredExactly(events: seq<Event>)
    ensures var f := Run(true, events);
            && f.stats.cdrsGenerated == |f.engine.stored| + UnrecordedEnds(events)
            && (f.stats.cdrsGenerated == |f.engine.stored| <==> UnrecordedEnds(events) == 0)
  {
    if events != [] {
      var rest, e := events[..|events| - 1], events[|events| - 1];
      StoredExactly(rest);
      RunFollows(rest);
      assert e.callId in Run(true, rest).engine.active <==> Opened(rest, e.callId) == Some(true);
      StepStores(Run(true, rest), e);
    }
  }

  function CdrsHeld(g: Engine): nat {
    |g.stored| + |g.active|
  }

  lemma EngineSizes(g: Engine, id: string, result: CallResult, clock: int)
    ensures id !in g.active ==> CdrsHeld(StartCall(g, id, clock)) == CdrsHeld(g) + 1
    ensures CdrsHeld(AnswerCall(g, id, clock)) == CdrsHeld(g)
    ensures CdrsHeld(EndCall(g, id, result, clock)) == CdrsHeld(g) && id !in EndCall(g, id, result, clock).active
  {
    MapSizes(g.active, id, NewCdr(clock));
    if id in g.active {
      MapSizes(g.active, id, g.active[id].(answerTime := Some(clock)));
    }
  }

  lemma StepKeepsStarted(f: Framework, e: Event)
    requires e.callId !in f.calls ==> e.callId !in f.engine.active
    ensures CdrsHeld(ProcessEvent(f, true, e).engine) ==
            CdrsHeld(f.engine) + if e.eventType.CallAttempt? && e.callId !in f.calls then 1 else 0
  {
    EngineSizes(f.engine, e.callId, DetermineResult(e, CallAfter(f, e)), e.clock);
  }

  /** No CDR is lost or stored twice: those started by a call attempt are the stored and the running. */
  lemma {:induction false} StartedIsStoredOrRunning(events: seq<Event>)
    ensures Attempts(events) == CdrsHeld(Run(true, events).engine)
  {
    if events != [] {
      var rest, e := events[..|events| - 1], events[|events| - 1];
      StartedIsStoredOrRunning(rest);
      RunFollows(rest);
      assert e.callId in Run(true, rest).calls <==> Opened(rest, e.callId).Some?;
      assert e.callId in Run(true, rest).engine.active <==> Opened(rest, e.callId) == Some(true);
      StepKeepsStarted(Run(true, rest), e);
    }
  }

  /** A call whose first event is its end is counted as a call with a CDR, and nothing is stored. */
  lemma EndAloneStoresNothing(e: Event)
    requires e.eventType.CallEnded?
    ensures var f := Run(true, [e]);
            f.stats == Stats(1, 1) && f.engine.stored == [] && f.calls == map[]
  {
    assert [e][..0] == [];
  }

  // ---------- What stored CDRs say ----------

  /** A running CDR: started, perhaps answered since, not ended. */
  ghost predicate Running(c: Cdr, clock: int) {
    && c.startTime <= clock && (c.answerTime.Some? ==> c.startTime <= c.answerTime.value <= clock)
    && c.endTime.None? && !c.hasMetrics
  }

  /** A finished CDR: its times in order, billed for no more than it lasted and for nothing unless
      answered. */
  ghost predicate Finished(c: Cdr) {
    && c.endTime.Some? && c.startTime <= c.endTime.value
    && c.duration == Some((c.endTime.value - c.startTime) / 1_000_000_000)
    && (match c.answerTime
        case Some(answer) =>
          && c.startTime <= answer <= c.endTime.value
          && c.billable == Some((c.endTime.value - answer) / 1_000_000_000)
          && c.billable.value <= c.duration.value
        case None => c.billable == Some(0))
  }

  ghost predicate EngineSound(g: Engine, clock: int) {
    && (forall id :: id in g.active ==> Running(g.active[id], clock))
    && (forall c :: c in g.stored ==> Finished(c) && !c.hasMetrics)
  }

  ghost predicate ClockForward(events: seq<Event>) {
    forall i, j :: 0 <= i < j < |events| ==> events[i].clock <= events[j].clock
  }

  lemma EndFinishes(c: Cdr, result: CallResult, clock: int, clock': int)
    requires Running(c, clock) && clock <= clock'
    ensures Finished(MarkEnded(c, result, clock')) && !MarkEnded(c, result, clock').hasMetrics
  {
  }

  lemma EndKeepsSound(g: Engine, id: string, result: CallResult, clock: int, clock': int)
    requires EngineSound(g, clock) && clock <= clock'
    ensures EngineSound(EndCall(g, id, result, clock'), clock') && id !in EndCall(g, id, result, clock').active
  {
    if id in g.active {
      EndFinishes(g.active[id], result, clock, clock');
    }
  }

  lemma StepKeepsSound(f: Framework, e: Event, clock: int)
    requires EngineSound(f.engine, clock) && clock <= e.clock
    ensures EngineSound(ProcessEvent(f, true, e).engine, e.clock)
  {
    EndKeepsSound(f.engine, e.callId, DetermineResult(e, CallAfter(f, e)), clock, e.clock);
  }

  /** With a clock that never runs backwards every stored CDR has its times in order and is billed for no
      more than it lasted; and no stored CDR ever carries quality metrics, because the engine is told
      them after the CDR has left it. */
  lemma {:induction false} StoredCdrsSound(events: seq<Event>)
    requires ClockForward(events)
    ensures EngineSound(Run(true, events).engine, if events == [] then 0 else events[|events| - 1].clock)
  {
    if events != [] {
      var rest, e := events[..|events| - 1], events[|events| - 1];
      StoredCdrsSound(rest);
      var f := Run(true, rest);
      assert EngineSound(f.engine, if rest == [] then e.clock else rest[|rest| - 1].clock);
      StepKeepsSound(f, e, if rest == [] then e.clock else rest[|rest| - 1].clock);
    }
  }

  lemma StepKeepsMetricsOut(f: Framework, cdrEnabled: bool, e: Event)
    requires forall id :: id in f.engine.active ==> !f.engine.active[id].hasMetrics
    requires forall c :: c in f.engine.stored ==> !c.hasMetrics
    ensures var g := ProcessEvent(f, cdrEnabled, e).engine;
            && (forall id :: id in g.active ==> !g.active[id].hasMetrics)
            && (forall c :: c in g.stored ==> !c.hasMetrics)
  {
  }

  /** The same about metrics whatever the clock does. */
  lemma {:induction false} NoMetricsEver(cdrEnabled: bool, events: seq<Event>)
    ensures var g := Run(cdrEnabled, events).engine;
            && (forall id :: id in g.active ==> !g.active[id].hasMetrics)
            && (forall c :: c in g.stored ==> !c.hasMetrics)
  {
    if events != [] {
      NoMetricsEver(cdrEnabled, events[..|events| - 1]);
      StepKeepsMetricsOut(Run(cdrEnabled, events[..|events| - 1]), cdrEnabled, events[|events| - 1]);
    }
  }

  // ---------- States and times of one call ----------

  function Rank(s: CallStateEnum): nat {
    match s
    case Attempting => 0
    case Progressing => 1
    case Answered => 2
    case _ => 3
  }

  predicate Final(s: CallStateEnum) {
    Rank(s) == 3
  }

  /** A tracked call never falls back, and a finished one (ended, transferred or forwarded) stays what it
      is for as long as it is tracked. */
  ghost predicate Advances(f: Framework, f': Framework, callId: string) {
    callId in f.calls && callId in f'.calls ==>
      && Rank(f.calls[callId].current) <= Rank(f'.calls[callId].current)
      && (Final(f.calls[callId].current) ==> f'.calls[callId].current == f.calls[callId].current)
      && f'.calls[callId].startTime == f.calls[callId].startTime
  }

  lemma StepAdvances(f: Framework, cdrEnabled: bool, e: Event, callId: string)
    ensures Advances(f, ProcessEvent(f, cdrEnabled, e), callId)
  {
  }

  /** Over any part of a run through which a call stays tracked, with or without CDRs. */
  lemma {:induction false} RunAdvances(cdrEnabled: bool, events: seq<Event>, i: nat, callId: string)
    requires i <= |events|
    requires forall k :: i <= k <= |events| ==> callId in Run(cdrEnabled, events[..k]).calls
    ensures Advances(Run(cdrEnabled, events[..i]), Run(cdrEnabled, events), callId)
    decreases |events|
  {
    if i < |events| {
      var rest := events[..|events| - 1];
      forall k | i <= k <= |rest| ensures callId in Run(cdrEnabled, rest[..k]).calls {
        assert rest[..k] == events[..k];
      }
      RunAdvances(cdrEnabled, rest, i, callId);
      assert rest[..i] == events[..i];
      assert callId in Run(cdrEnabled, rest).calls;
      StepAdvances(Run(cdrEnabled, rest), cdrEnabled, events[|events| - 1], callId);
    } else {
      assert events[..i] == events;
    }
  }

  /** Start, answer and end of a call are in order, none after `now`; and a call has an answer time
      exactly when its state says it was answered, unless it has ended. */
  ghost predicate TimesInOrder(c: CallState, now: int) {
    && c.startTime <= now
    && (c.answerTime.Some? ==> c.startTime <= c.answerTime.value <= now)
    && (c.endTime.Some? ==> c.startTime <= c.endTime.value <= now)
    && (c.answerTime.Some? && c.endTime.Some? ==> c.answerTime.value <= c.endTime.value)
    && (c.endTime.Some? <==> c.current == Ended)
    && (c.current in {Attempting, Progressing} ==> c.answerTime.None?)
    && (c.current in {Answered, Transferred, Forwarded} ==> c.answerTime.Some?)
  }

  ghost predicate AllInOrder(f: Framework, now: int) {
    forall id :: id in f.calls ==> TimesInOrder(f.calls[id], now)
  }

  ghost predicate TimestampsForward(events: seq<Event>) {
    forall i, j :: 0 <= i < j < |events| ==> events[i].timestamp <= events[j].timestamp
  }

  lemma UpdateKeepsOrder(c: CallState, e: Event, isNew: bool, now: int)
    requires TimesInOrder(c, now) && now <= e.timestamp
    requires isNew ==> c.current == Attempting
    ensures TimesInOrder(UpdateCall(c, e, isNew), e.timestamp)
  {
  }

  lemma StepKeepsOrder(f: Framework, cdrEnabled: bool, e: Event, now: int)
    requires AllInOrder(f, now) && now <= e.timestamp
    ensures AllInOrder(ProcessEvent(f, cdrEnabled, e), e.timestamp)
  {
    var isNew := e.callId !in f.calls;
    var c := if isNew then NewCall(e) else f.calls[e.callId];
    UpdateKeepsOrder(c, e, isNew, if isNew then e.timestamp else now);
  }

  /** With timestamps that never run backwards, start <= answer <= end holds for every tracked call after
      every event, with or without CDRs. */
  lemma {:induction false} RunKeepsOrder(cdrEnabled: bool, events: seq<Event>)
    requires events != [] && TimestampsForward(events)
    ensures AllInOrder(Run(cdrEnabled, events), events[|events| - 1].timestamp)
  {
    var rest, e := events[..|events| - 1], events[|events| - 1];
    if rest == [] {
      StepKeepsOrder(NEW_FRAMEWORK, cdrEnabled, e, e.timestamp);
    } else {
      RunKeepsOrder(cdrEnabled, rest);
      StepKeepsOrder(Run(cdrEnabled, rest), cdrEnabled, e, rest[|rest| - 1].timestamp);
    }
  }
}
