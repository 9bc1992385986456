/** Serial runs of the call handlers and the cleanup over the session index: each handler or cleanup runs
    to completion before the next. What sockets, routing, codec negotiation and route advancement
    answer is part of the event. */
module SessionRuns {
  import opened Common
  import opened SessionIndex

  datatype Cdr = Cdr(sessionId: string, cause: nat, endTime: int, duration: Option<nat>)

  /** `used` collects every session id ever drawn and `expired` counts the sessions removed by cleanup;
      both are bookkeeping. */
  datatype Switch = Switch(index: Index, cdrEnabled: bool, cdrs: seq<Cdr>, expired: nat, used: set<string>)

  function NewSwitch(cdrEnabled: bool): Switch {
    Switch(EMPTY_INDEX, cdrEnabled, [], 0, {})
  }

  function BLegName(sessionId: string): string {
    sessionId + "-b"
  }

  // ---------- Shared steps of the handlers ----------

  /** The CDR a termination sends: the duration is set on the handler's own copy of the session. */
  function FinalCdr(s: Session, cause: nat, now: int): Cdr {
    Cdr(s.sessionId, cause, now,
        if s.answerTime.None? then s.duration
        else Some(if now - s.answerTime.value > 0 then now - s.answerTime.value else 0))
  }

  function TerminateSession(w: Switch, id: string, cause: nat, now: int): Switch {
    if id !in w.index.sessions then w
    else w.(cdrs := w.cdrs + if w.cdrEnabled then [FinalCdr(w.index.sessions[id], cause, now)] else [],
            index := RemoveSession(w.index, id))
  }

  /** An attempt fails without a trace if an address does not parse; otherwise the session gets its
      second leg and the leg's call id is mapped. */
  datatype Attempt = NotPlaced | Placed

  function AttemptTermination(x: Index, s: Session, attempt: Attempt): Index {
    if attempt.NotPlaced? then x
    else
      var updated := UpdateSession(x, s.(bLeg := Some(BLegName(s.sessionId)), state := Terminating));
      updated.(mapping := updated.mapping[BLegName(s.sessionId) := s.sessionId])
  }

  /** What route advancement answers: it fails, it names a route, or the call is over. */
  datatype Advance = AdvanceFailed | NextRoute(attempt: Attempt) | NoMoreRoutes

  function AdvanceRoute(w: Switch, s: Session, advance: Advance, cause: nat, now: int): Switch {
    match advance
    case AdvanceFailed => w
    case NextRoute(attempt) => w.(index := AttemptTermination(w.index, s, attempt))
    case NoMoreRoutes => TerminateSession(w, s.sessionId, cause, now)
  }

  // ---------- Events ----------

  /** Refused: no session was made. Delivered: an origination call. The others are termination calls:
      no usable codec, routing failing or naming no route, no route found, or a route to attempt. */
  datatype InviteOutcome = Refused | Delivered | NoCodec | RoutingFailed | NoRoute | Routed(attempt: Attempt)

  datatype Negotiation = Agreed | ByeFailed | Disagreed(advance: Advance)

  datatype Event =
    | Invite(callId: string, sessionId: string, now: int, outcome: InviteOutcome)
    | Answer(callId: string, now: int, negotiation: Negotiation)
    | ErrorResponse(callId: string, now: int, code: nat, advance: Advance)
    | Ack(callId: string, now: int)
    | Bye(callId: string, now: int)
    | Cancel(callId: string, now: int)
    | Cleanup(cutoff: int, order: seq<string>)

  function NewSession(callId: string, sessionId: string, now: int): Session {
    Session(sessionId, callId, None, Originating, now, None, None)
  }

  function BeginTerminationRouting(w: Switch, s: Session, now: int, outcome: InviteOutcome): Switch {
    var routing := w.(index := UpdateSession(w.index, s.(state := Routing)));
    match outcome
    case NoCodec => TerminateSession(routing, s.sessionId, 488, now)
    case NoRoute => TerminateSession(routing, s.sessionId, 503, now)
    case Routed(attempt) =>
      var routed := s.(state := Terminating);
      routing.(index := AttemptTermination(UpdateSession(routing.index, routed), routed, attempt))
    case _ => routing
  }

  /** The invite of a call id already mapped is a retransmission. */
  function HandleInvite(w: Switch, callId: string, sessionId: string, now: int, outcome: InviteOutcome): Switch {
    if callId in w.index.mapping || outcome.Refused? then w
    else
      var s := NewSession(callId, sessionId, now);
      var added := w.(index := AddSession(w.index, s), used := w.used + {sessionId});
      if outcome.Delivered? then added else BeginTerminationRouting(added, s, now, outcome)
  }

  function UnmapBLeg(x: Index, s: Session): Index {
    if s.bLeg.None? then x else x.(mapping := x.mapping - {s.bLeg.value})
  }

  function HandleAnswer(w: Switch, s: Session, now: int, negotiation: Negotiation): Switch {
    var connected := s.(state := Connected, answerTime := Some(now));
    match negotiation
    case Agreed => w.(index := UpdateSession(w.index, connected))
    case ByeFailed => w
    case Disagreed(advance) =>
      AdvanceRoute(w.(index := UnmapBLeg(w.index, s)), connected.(bLeg := None, state := Routing), advance, 488, now)
  }

  function HandleAck(w: Switch, s: Session, now: int): Switch {
    if s.state != Connecting then w
    else w.(index := UpdateSession(w.index, s.(state := Connected, lastActivity := now)))
  }

  /** A message of a known call. */
  function HandleKnown(w: Switch, s: Session, e: Event): Switch
    requires !e.Invite? && !e.Cleanup?
  {
    match e
    case Answer(_, now, negotiation) => HandleAnswer(w, s, now, negotiation)
    case ErrorResponse(_, now, code, advance) => AdvanceRoute(w, s, advance, code, now)
    case Ack(_, now) => HandleAck(w, s, now)
    case Bye(_, now) => TerminateSession(w, s.sessionId, 200, now)
    case Cancel(_, now) => TerminateSession(w, s.sessionId, 487, now)
  }

  function Expire(w: Switch, id: string): Switch {
    w.(index := RemoveSession(w.index, id), expired := w.expired + 1)
  }

  function ExpireAll(w: Switch, order: seq<string>): Switch
    decreases |order|
  {
    if order == [] then w else ExpireAll(Expire(w, order[0]), order[1..])
  }

  /** On the index this is the cleanup of SessionIndex; no CDR is sent. */
  lemma {:induction false} ExpireAllOnIndex(w: Switch, order: seq<string>)
    ensures ExpireAll(w, order) == w.(index := RemoveSessions(w.index, order), expired := w.expired + |order|)
    decreases |order|
  {
    if order != [] {
      ExpireAllOnIndex(Expire(w, order[0]), order[1..]);
    }
  }

  function Step(w: Switch, e: Event): Switch {
    match e
    case Invite(callId, sessionId, now, outcome) => HandleInvite(w, callId, sessionId, now, outcome)
    case Cleanup(cutoff, order) => ExpireAll(w, order)
    case _ =>
      var found := FindByCallId(w.index, e.callId);
      if found.None? then w else HandleKnown(w, found.value, e)
  }

  /** Session ids are never drawn twice, and a cleanup takes exactly the expired sessions. */
  ghost predicate Possible(w: Switch, e: Event) {
    && (e.Invite? ==> e.sessionId !in w.used)
    && (e.Cleanup? ==> Enumerates(e.order, Expired(w.index, e.cutoff)))
  }

  function Run(w: Switch, events: seq<Event>): Switch
    decreases |events|
  {
    if events == [] then w else Run(Step(w, events[0]), events[1..])
  }

  ghost predicate PossibleRun(w: Switch, events: seq<Event>)
    decreases |events|
  {
    events != [] ==> Possible(w, events[0]) && PossibleRun(Step(w, events[0]), events[1..])
  }

  /** The shared steps and the cleanup as they run on the session manager's fields. */
  class Class4B2BUA {
    const sessionManager: SessionManager
    const cdrEnabled: bool
    var cdrs: seq<Cdr>

    constructor (cdrEnabled: bool)
      ensures fresh(sessionManager) && sessionManager.View() == EMPTY_INDEX
      ensures this.cdrEnabled == cdrEnabled && cdrs == []
    {
      sessionManager := new SessionManager();
      this.cdrEnabled := cdrEnabled;
      cdrs := [];
    }

    ghost function View(): Switch
      reads this, sessionManager
    {
      Switch(sessionManager.View(), cdrEnabled, cdrs, 0, {})
    }

    method Terminate(id: string, cause: nat, now: int)
      modifies this, sessionManager
      ensures View() == TerminateSession(old(View()), id, cause, now)
    {
      if id in sessionManager.activeSessions {
        var session := sessionManager.activeSessions[id].(state := Terminated);
        if session.answerTime.Some? {
          var elapsed := now - session.answerTime.value;
          session := session.(duration := Some(if elapsed > 0 then elapsed else 0));
        }
        if cdrEnabled {
          cdrs := cdrs + [Cdr(session.sessionId, cause, now, session.duration)];
        }
        sessionManager.Remove(id);
      }
    }

    method Attempt(session: Session, attempt: Attempt)
      modifies this, sessionManager
      ensures View() == old(View()).(index := AttemptTermination(old(View()).index, session, attempt))
    {
      if attempt.NotPlaced? {
        return;
      }
      var bLegCallId := session.sessionId + "-b";
      sessionManager.Update(session.(bLeg := Some(bLegCallId), state := Terminating));
      sessionManager.callIdMapping := sessionManager.callIdMapping[bLegCallId := session.sessionId];
    }

    /** The periodic cleanup: the step of a run, in the order the expired sessions were taken. */
    method Cleanup(cutoff: int) returns (count: nat, ghost order: seq<string>)
      modifies sessionManager
      ensures Possible(old(View()), Event.Cleanup(cutoff, order)) && count == |order|
      ensures View() == Step(old(View()), Event.Cleanup(cutoff, order)).(expired := 0)
    {
      ghost var before := View();
      count, order := sessionManager.CleanupExpired(cutoff);
      ExpireAllOnIndex(before, order);
    }
  }

  // ---------- What every run keeps ----------

  ghost predicate LegsNamed(s: Session) {
    (s.bLeg.None? || s.bLeg == Some(BLegName(s.sessionId))) && s.duration.None?
  }

  /** At most one CDR per session, and none for a session still live. */
  ghost predicate CdrsOnce(w: Switch) {
    && (forall i, j :: 0 <= i < j < |w.cdrs| ==> w.cdrs[i].sessionId != w.cdrs[j].sessionId)
    && (forall c :: c in w.cdrs ==> c.sessionId in w.used && c.sessionId !in w.index.sessions)
  }

  ghost predicate Good(w: Switch) {
    && Consistent(w.index)
    && (forall id :: id in w.index.sessions ==> id in w.used && LegsNamed(w.index.sessions[id]))
    && w.index.stats.callMinutes == 0
    && CdrsOnce(w)
    && (if w.cdrEnabled then w.index.stats.total == w.index.stats.active + |w.cdrs| + w.expired else w.cdrs == [])
  }

  lemma UpdateKeepsGood(w: Switch, s: Session)
    requires Good(w) && s.sessionId in w.index.sessions && LegsNamed(s)
    requires LegIds(w.index.sessions[s.sessionId]) <= LegIds(s)
    ensures Good(w.(index := UpdateSession(w.index, s)))
  {
    UpdateKeepsConsistent(w.index, s);
  }

  lemma AddKeepsGood(w: Switch, s: Session)
    requires Good(w) && s.sessionId !in w.used && LegsNamed(s)
    ensures Good(w.(index := AddSession(w.index, s), used := w.used + {s.sessionId}))
  {
    AddKeepsConsistent(w.index, s);
  }

  lemma UnmapKeepsGood(w: Switch, s: Session)
    requires Good(w)
    ensures Good(w.(index := UnmapBLeg(w.index, s)))
  {
  }

  lemma TerminateKeepsGood(w: Switch, id: string, cause: nat, now: int)
    requires Good(w)
    ensures Good(TerminateSession(w, id, cause, now))
  {
    RemoveKeepsConsistent(w.index, id);
  }

  /** The legs a session may have are named after it, so a new attempt loses none. */
  lemma LegsOfNamed(before: Session, after: Session)
    requires LegsNamed(before) && before.aLeg == after.aLeg && before.sessionId == after.sessionId
    requires after.bLeg == Some(BLegName(after.sessionId)) || before.bLeg == after.bLeg
    ensures LegIds(before) <= LegIds(after)
  {
  }

  lemma AttemptKeepsGood(w: Switch, s: Session, attempt: Attempt)
    requires Good(w) && s.sessionId in w.index.sessions && s.duration.None?
    requires w.index.sessions[s.sessionId].aLeg == s.aLeg
    ensures Good(w.(index := AttemptTermination(w.index, s, attempt)))
  {
    if attempt.Placed? {
      var s' := s.(bLeg := Some(BLegName(s.sessionId)), state := Terminating);
      LegsOfNamed(w.index.sessions[s.sessionId], s');
      UpdateKeepsGood(w, s');
    }
  }

  lemma AdvanceKeepsGood(w: Switch, s: Session, advance: Advance, cause: nat, now: int)
    requires Good(w) && s.sessionId in w.index.sessions && s.duration.None?
    requires w.index.sessions[s.sessionId].aLeg == s.aLeg
    ensures Good(AdvanceRoute(w, s, advance, cause, now))
  {
    match advance
    case AdvanceFailed =>
    case NextRoute(attempt) => AttemptKeepsGood(w, s, attempt);
    case NoMoreRoutes => TerminateKeepsGood(w, s.sessionId, cause, now);
  }

  lemma RoutedKeepsGood(w: Switch, s: Session, attempt: Attempt)
    requires Good(w) && s.sessionId in w.index.sessions && LegsNamed(s) && s.bLeg.None?
    requires w.index.sessions[s.sessionId].aLeg == s.aLeg && w.index.sessions[s.sessionId].bLeg.None?
    ensures Good(w.(index := AttemptTermination(UpdateSession(w.index, s), s, attempt)))
  {
    UpdateKeepsGood(w, s);
    AttemptKeepsGood(w.(index := UpdateSession(w.index, s)), s, attempt);
  }

  lemma RoutingKeepsGood(w: Switch, s: Session, now: int, outcome: InviteOutcome)
    requires Good(w) && s.sessionId in w.index.sessions && w.index.sessions[s.sessionId] == s && s.bLeg.None?
    ensures Good(BeginTerminationRouting(w, s, now, outcome))
  {
    var routing := w.(index := UpdateSession(w.index, s.(state := Routing)));
    UpdateKeepsGood(w, s.(state := Routing));
    match outcome
    case NoCodec => TerminateKeepsGood(routing, s.sessionId, 488, now);
    case NoRoute => TerminateKeepsGood(routing, s.sessionId, 503, now);
    case Routed(attempt) => RoutedKeepsGood(routing, s.(state := Terminating), attempt);
    case _ =>
  }

  lemma InviteKeepsGood(w: Switch, callId: string, sessionId: string, now: int, outcome: InviteOutcome)
    requires Good(w) && sessionId !in w.used
    ensures Good(HandleInvite(w, callId, sessionId, now, outcome))
  {
    if callId !in w.index.mapping && !outcome.Refused? {
      var s := NewSession(callId, sessionId, now);
      var added := w.(index := AddSession(w.index, s), used := w.used + {sessionId});
      AddKeepsGood(w, s);
      RoutingKeepsGood(added, s, now, outcome);
    }
  }

  lemma AnswerKeepsGood(w: Switch, s: Session, now: int, negotiation: Negotiation)
    requires Good(w) && s.sessionId in w.index.sessions && w.index.sessions[s.sessionId] == s
    ensures Good(HandleAnswer(w, s, now, negotiation))
  {
    var connected := s.(state := Connected, answerTime := Some(now));
    match negotiation
    case Agreed =>
      LegsOfNamed(s, connected);
      UpdateKeepsGood(w, connected);
    case ByeFailed =>
    case Disagreed(advance) =>
      UnmapKeepsGood(w, s);
      AdvanceKeepsGood(w.(index := UnmapBLeg(w.index, s)), connected.(bLeg := None, state := Routing), advance, 488, now);
  }

  lemma ExpireKeepsGood(w: Switch, id: string)
    requires Good(w) && id in w.index.sessions
    ensures Good(Expire(w, id))
    ensures Expire(w, id).index.sessions.Keys == w.index.sessions.Keys - {id}
  {
    RemoveKeepsConsistent(w.index, id);
  }

  ghost predicate LiveOnce(w: Switch, order: seq<string>) {
    && (forall i, j :: 0 <= i < j < |order| ==> order[i] != order[j])
    && (forall id :: id in order ==> id in w.index.sessions.Keys)
  }

  lemma RestLiveOnce(w: Switch, order: seq<string>)
    requires Good(w) && LiveOnce(w, order) && order != []
    ensures LiveOnce(Expire(w, order[0]), order[1..])
  {
    ExpireKeepsGood(w, order[0]);
    forall id | id in order[1..] ensures id in Expire(w, order[0]).index.sessions.Keys {
      assert id in order && id != order[0];
    }
  }

  lemma {:induction false} CleanupKeepsGood(w: Switch, order: seq<string>)
    requires Good(w) && LiveOnce(w, order)
    ensures Good(ExpireAll(w, order))
    decreases |order|
  {
    if order != [] {
      ExpireKeepsGood(w, order[0]);
      RestLiveOnce(w, order);
      CleanupKeepsGood(Expire(w, order[0]), order[1..]);
    }
  }

  lemma AckKeepsGood(w: Switch, s: Session, now: int)
    requires Good(w) && s.sessionId in w.index.sessions && w.index.sessions[s.sessionId] == s
    ensures Good(HandleAck(w, s, now))
  {
    var s' := s.(state := Connected, lastActivity := now);
    LegsOfNamed(s, s');
    UpdateKeepsGood(w, s');
  }

  lemma KnownKeepsGood(w: Switch, s: Session, e: Event)
    requires Good(w) && s.sessionId in w.index.sessions && w.index.sessions[s.sessionId] == s
    requires !e.Invite? && !e.Cleanup?
    ensures Good(HandleKnown(w, s, e))
  {
    match e
    case Answer(_, now, negotiation) => AnswerKeepsGood(w, s, now, negotiation);
    case ErrorResponse(_, now, code, advance) => AdvanceKeepsGood(w, s, advance, code, now);
    case Ack(_, now) => AckKeepsGood(w, s, now);
    case Bye(_, now) => TerminateKeepsGood(w, s.sessionId, 200, now);
    case Cancel(_, now) => TerminateKeepsGood(w, s.sessionId, 487, now);
  }

  lemma StepKeepsGood(w: Switch, e: Event)
    requires Good(w) && Possible(w, e)
    ensures Good(Step(w, e))
  {
    match e
    case Invite(callId, sessionId, now, outcome) => InviteKeepsGood(w, callId, sessionId, now, outcome);
    case Cleanup(_, order) => CleanupKeepsGood(w, order);
    case _ =>
      var found := FindByCallId(w.index, e.callId);
      if found.Some? {
        KnownKeepsGood(w, found.value, e);
      }
  }

  lemma {:induction false} ExpireKeepsSwitch(w: Switch, order: seq<string>)
    ensures ExpireAll(w, order).cdrEnabled == w.cdrEnabled
    decreases |order|
  {
    if order != [] {
      ExpireKeepsSwitch(Expire(w, order[0]), order[1..]);
    }
  }

  lemma StepKeepsSwitch(w: Switch, e: Event)
    ensures Step(w, e).cdrEnabled == w.cdrEnabled
  {
    if e.Cleanup? {
      ExpireKeepsSwitch(w, e.order);
    }
  }

  lemma {:induction false} RunKeepsGood(w: Switch, events: seq<Event>)
    requires Good(w) && PossibleRun(w, events)
    ensures Good(Run(w, events)) && Run(w, events).cdrEnabled == w.cdrEnabled
    decreases |events|
  {
    if events != [] {
      StepKeepsGood(w, events[0]);
      StepKeepsSwitch(w, events[0]);
      RunKeepsGood(Step(w, events[0]), events[1..]);
    }
  }

  /** Over every serial run from a new switch: the active count is the number of live sessions, every
      session is active, successful or failed, every mapped call id is a leg of a live session, no
      session has two CDRs or a CDR while live, and with CDRs on every session is active, has its
      CDR, or was expired by cleanup without one. */
  lemma SerialRunInvariant(cdrEnabled: bool, events: seq<Event>)
    requires PossibleRun(NewSwitch(cdrEnabled), events)
    ensures var w := Run(NewSwitch(cdrEnabled), events);
            var stats := w.index.stats;
            && stats.active == |w.index.sessions| <= stats.peak
            && stats.total == stats.active + stats.successful + stats.failed
            && MappingLive(w.index) && CdrsOnce(w)
            && (cdrEnabled ==> stats.total == stats.active + |w.cdrs| + w.expired)
  {
    RunKeepsGood(NewSwitch(cdrEnabled), events);
  }

  /** The stored session never gets a duration (termination sets it on a copy), so the call-minutes
      total stays zero over every serial run, whatever calls connect. */
  lemma CallMinutesStayZero(cdrEnabled: bool, events: seq<Event>)
    requires PossibleRun(NewSwitch(cdrEnabled), events)
    ensures Run(NewSwitch(cdrEnabled), events).index.stats.callMinutes == 0
  {
    RunKeepsGood(NewSwitch(cdrEnabled), events);
  }

  // ---------- Finding a call by its client call id ----------

  /** Every live session is found by the call id its caller uses, and no live caller's id is, or will be,
      the name of a second leg. */
  ghost predicate Findable(w: Switch) {
    && (forall id :: id in w.index.sessions ==>
          w.index.sessions[id].aLeg in w.index.mapping && w.index.mapping[w.index.sessions[id].aLeg] == id)
    && (forall id, other :: id in w.index.sessions && other in w.used ==>
          w.index.sessions[id].aLeg != BLegName(other))
  }

  /** A caller's call id is never a name this switch makes for a second leg, nor the other way round. */
  ghost predicate Apart(w: Switch, e: Event) {
    e.Invite? ==>
      && (forall id :: id in w.used + {e.sessionId} ==> e.callId != BLegName(id))
      && (forall id :: id in w.index.sessions ==> w.index.sessions[id].aLeg != BLegName(e.sessionId))
  }

  ghost predicate ApartRun(w: Switch, events: seq<Event>)
    decreases |events|
  {
    events != [] ==> Apart(w, events[0]) && ApartRun(Step(w, events[0]), events[1..])
  }

  lemma LegsApart(w: Switch, id: string, other: string)
    requires Good(w) && Findable(w) && id in w.index.sessions && other in w.index.sessions && id != other
    ensures w.index.sessions[other].aLeg !in LegIds(w.index.sessions[id])
  {
    var a := w.index.sessions[other].aLeg;
    assert w.index.mapping[a] == other && w.index.mapping[w.index.sessions[id].aLeg] == id;
    assert a != BLegName(id);
  }

  /** Sessions removed and second legs mapped or unmapped leave the other callers' ids where they are. */
  lemma RemovalKeepsFindable(w: Switch, w': Switch, id: string)
    requires Good(w) && Findable(w) && w'.used == w.used && w'.index == RemoveSession(w.index, id)
    ensures Findable(w')
  {
    if id in w.index.sessions {
      forall other | other in w'.index.sessions
        ensures w'.index.sessions[other].aLeg in w'.index.mapping
        ensures w'.index.mapping[w'.index.sessions[other].aLeg] == other
      {
        LegsApart(w, id, other);
      }
    }
  }

  lemma UpdateKeepsFindable(w: Switch, s: Session)
    requires Good(w) && Findable(w) && s.sessionId in w.index.sessions && w.index.sessions[s.sessionId].aLeg == s.aLeg
    ensures Findable(w.(index := UpdateSession(w.index, s)))
  {
  }

  lemma AttemptKeepsFindable(w: Switch, s: Session, attempt: Attempt)
    requires Good(w) && Findable(w) && s.sessionId in w.index.sessions && w.index.sessions[s.sessionId].aLeg == s.aLeg
    ensures Findable(w.(index := AttemptTermination(w.index, s, attempt)))
  {
  }

  lemma AdvanceKeepsFindable(w: Switch, s: Session, advance: Advance, cause: nat, now: int)
    requires Good(w) && Findable(w) && s.sessionId in w.index.sessions && w.index.sessions[s.sessionId].aLeg == s.aLeg
    ensures Findable(AdvanceRoute(w, s, advance, cause, now))
  {
    match advance
    case AdvanceFailed =>
    case NextRoute(attempt) => AttemptKeepsFindable(w, s, attempt);
    case NoMoreRoutes => RemovalKeepsFindable(w, TerminateSession(w, s.sessionId, cause, now), s.sessionId);
  }

  lemma KnownKeepsFindable(w: Switch, s: Session, e: Event)
    requires Good(w) && Findable(w) && s.sessionId in w.index.sessions && w.index.sessions[s.sessionId] == s
    requires !e.Invite? && !e.Cleanup?
    ensures Findable(HandleKnown(w, s, e))
  {
    match e
    case Answer(_, now, negotiation) =>
      var connected := s.(state := Connected, answerTime := Some(now));
      UpdateKeepsFindable(w, connected);
      if negotiation.Disagreed? {
        UnmapKeepsGood(w, s);
        assert Findable(w.(index := UnmapBLeg(w.index, s)));
        AdvanceKeepsFindable(w.(index := UnmapBLeg(w.index, s)), connected.(bLeg := None, state := Routing),
                             negotiation.advance, 488, now);
      }
    case ErrorResponse(_, now, code, advance) => AdvanceKeepsFindable(w, s, advance, code, now);
    case Ack(_, now) => UpdateKeepsFindable(w, s.(state := Connected, lastActivity := now));
    case Bye(_, now) => RemovalKeepsFindable(w, TerminateSession(w, s.sessionId, 200, now), s.sessionId);
    case Cancel(_, now) => RemovalKeepsFindable(w, TerminateSession(w, s.sessionId, 487, now), s.sessionId);
  }

  lemma RoutingKeepsFindable(w: Switch, s: Session, now: int, outcome: InviteOutcome)
    requires Good(w) && Findable(w) && s.sessionId in w.index.sessions && w.index.sessions[s.sessionId] == s
    requires s.bLeg.None?
    ensures Findable(BeginTerminationRouting(w, s, now, outcome))
  {
    var routing := w.(index := UpdateSession(w.index, s.(state := Routing)));
    UpdateKeepsGood(w, s.(state := Routing));
    UpdateKeepsFindable(w, s.(state := Routing));
    match outcome
    case NoCodec => RemovalKeepsFindable(routing, TerminateSession(routing, s.sessionId, 488, now), s.sessionId);
    case NoRoute => RemovalKeepsFindable(routing, TerminateSession(routing, s.sessionId, 503, now), s.sessionId);
    case Routed(attempt) =>
      var routed := s.(state := Terminating);
      UpdateKeepsGood(routing, routed);
      UpdateKeepsFindable(routing, routed);
      AttemptKeepsFindable(routing.(index := UpdateSession(routing.index, routed)), routed, attempt);
    case _ =>
  }

  lemma AddKeepsFindable(w: Switch, s: Session)
    requires Good(w) && Findable(w) && s.sessionId !in w.used && s.bLeg.None? && s.aLeg !in w.index.mapping
    requires forall id :: id in w.used + {s.sessionId} ==> s.aLeg != BLegName(id)
    requires forall id :: id in w.index.sessions ==> w.index.sessions[id].aLeg != BLegName(s.sessionId)
    ensures Findable(w.(index := AddSession(w.index, s), used := w.used + {s.sessionId}))
  {
    var added := w.(index := AddSession(w.index, s), used := w.used + {s.sessionId});
    assert added.index.mapping == w.index.mapping[s.aLeg := s.sessionId];
    forall id | id in added.index.sessions
      ensures added.index.sessions[id].aLeg in added.index.mapping
      ensures added.index.mapping[added.index.sessions[id].aLeg] == id
    {
      assert id == s.sessionId || id in w.index.sessions;
    }
  }

  lemma InviteKeepsFindable(w: Switch, callId: string, sessionId: string, now: int, outcome: InviteOutcome)
    requires Good(w) && Findable(w) && sessionId !in w.used && Apart(w, Invite(callId, sessionId, now, outcome))
    ensures Findable(HandleInvite(w, callId, sessionId, now, outcome))
  {
    if callId !in w.index.mapping && !outcome.Refused? {
      var s := NewSession(callId, sessionId, now);
      var added := w.(index := AddSession(w.index, s), used := w.used + {sessionId});
      AddKeepsGood(w, s);
      AddKeepsFindable(w, s);
      RoutingKeepsFindable(added, s, now, outcome);
    }
  }

  lemma {:induction false} CleanupKeepsFindable(w: Switch, order: seq<string>)
    requires Good(w) && Findable(w) && LiveOnce(w, order)
    ensures Findable(ExpireAll(w, order))
    decreases |order|
  {
    if order != [] {
      ExpireKeepsGood(w, order[0]);
      RestLiveOnce(w, order);
      RemovalKeepsFindable(w, Expire(w, order[0]), order[0]);
      CleanupKeepsFindable(Expire(w, order[0]), order[1..]);
    }
  }

  lemma StepKeepsFindable(w: Switch, e: Event)
    requires Good(w) && Findable(w) && Possible(w, e) && Apart(w, e)
    ensures Findable(Step(w, e))
  {
    match e
    case Invite(callId, sessionId, now, outcome) => InviteKeepsFindable(w, callId, sessionId, now, outcome);
    case Cleanup(_, order) => CleanupKeepsFindable(w, order);
    case _ =>
      var found := FindByCallId(w.index, e.callId);
      if found.Some? {
        KnownKeepsFindable(w, found.value, e);
      }
  }

  lemma {:induction false} RunKeepsFindable(w: Switch, events: seq<Event>)
    requires Good(w) && Findable(w) && PossibleRun(w, events) && ApartRun(w, events)
    ensures Good(Run(w, events)) && Findable(Run(w, events)) && Run(w, events).cdrEnabled == w.cdrEnabled
    decreases |events|
  {
    if events != [] {
      StepKeepsGood(w, events[0]);
      StepKeepsFindable(w, events[0]);
      StepKeepsSwitch(w, events[0]);
      RunKeepsFindable(Step(w, events[0]), events[1..]);
    }
  }

  /** As long as callers' ids and second-leg names stay apart, a BYE with a live caller's call id ends
      exactly that caller's session after any serial run: it leaves the index with all its call ids,
      everyone else stays, and with CDRs on its CDR, with the connected time, is the one sent. */
  lemma ByeEndsItsCall(cdrEnabled: bool, events: seq<Event>, id: string, now: int)
    requires PossibleRun(NewSwitch(cdrEnabled), events) && ApartRun(NewSwitch(cdrEnabled), events)
    requires id in Run(NewSwitch(cdrEnabled), events).index.sessions
    ensures var w := Run(NewSwitch(cdrEnabled), events);
            var s := w.index.sessions[id];
            var w' := Step(w, Bye(s.aLeg, now));
            && w'.index.sessions == w.index.sessions - {id}
            && id !in w'.index.mapping.Values
            && w'.index.stats.successful == w.index.stats.successful + (if s.state == Connected then 1 else 0)
            && w'.cdrs == w.cdrs + if cdrEnabled then [FinalCdr(s, 200, now)] else []
  {
    RunKeepsFindable(NewSwitch(cdrEnabled), events);
    ByeTerminates(Run(NewSwitch(cdrEnabled), events), id, now);
  }

  lemma ByeTerminates(w: Switch, id: string, now: int)
    requires Good(w) && Findable(w) && id in w.index.sessions
    ensures var s := w.index.sessions[id];
            var w' := Step(w, Bye(s.aLeg, now));
            && w'.index.sessions == w.index.sessions - {id}
            && id !in w'.index.mapping.Values
            && w'.index.stats.successful == w.index.stats.successful + (if s.state == Connected then 1 else 0)
            && w'.cdrs == w.cdrs + if w.cdrEnabled then [FinalCdr(s, 200, now)] else []
  {
    assert Step(w, Bye(w.index.sessions[id].aLeg, now)) == TerminateSession(w, id, 200, now);
    NothingDangles(w.index, id);
  }
}
