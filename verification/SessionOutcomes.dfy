/** No call is counted as successful that was not answered: over every serial run, successful calls and
    live connected sessions together never outnumber the answers with agreed codecs. */
module SessionOutcomes {
  import opened Common
  import opened SessionIndex
  import opened SessionRuns

  function ConnectedIds(x: Index): set<string> {
    set id | id in x.sessions && x.sessions[id].state == Connected
  }

  ghost predicate Bounded(x: Index, answers: nat) {
    && |ConnectedIds(x)| + x.stats.successful <= answers
    && (forall id :: id in x.sessions ==> x.sessions[id].state != Connecting)
  }

  lemma AddBounded(x: Index, s: Session, n: nat)
    requires Bounded(x, n) && s.state == Originating
    ensures Bounded(AddSession(x, s), n)
  {
    SubsetSize(ConnectedIds(AddSession(x, s)), ConnectedIds(x));
  }

  lemma UpdateBounded(x: Index, s: Session, n: nat)
    requires Bounded(x, n) && s.state != Connecting
    ensures Bounded(UpdateSession(x, s), n + if s.state == Connected then 1 else 0)
  {
    SubsetSize(ConnectedIds(UpdateSession(x, s)),
               ConnectedIds(x) + if s.state == Connected then {s.sessionId} else {});
  }

  lemma RemoveBounded(x: Index, id: string, n: nat)
    requires Bounded(x, n)
    ensures Bounded(RemoveSession(x, id), n)
  {
    if id in x.sessions {
      assert ConnectedIds(RemoveSession(x, id)) == ConnectedIds(x) - {id};
    }
  }

  lemma AttemptBounded(x: Index, s: Session, attempt: Attempt, n: nat)
    requires Bounded(x, n)
    ensures Bounded(AttemptTermination(x, s, attempt), n)
  {
    if attempt.Placed? {
      var s' := s.(bLeg := Some(BLegName(s.sessionId)), state := Terminating);
      UpdateBounded(x, s', n);
      assert ConnectedIds(AttemptTermination(x, s, attempt)) == ConnectedIds(UpdateSession(x, s'));
    }
  }

  lemma AdvanceBounded(w: Switch, s: Session, advance: Advance, cause: nat, now: int, n: nat)
    requires Bounded(w.index, n)
    ensures Bounded(AdvanceRoute(w, s, advance, cause, now).index, n)
  {
    match advance
    case AdvanceFailed =>
    case NextRoute(attempt) => AttemptBounded(w.index, s, attempt, n);
    case NoMoreRoutes => RemoveBounded(w.index, s.sessionId, n);
  }

  lemma RoutingBounded(w: Switch, s: Session, now: int, outcome: InviteOutcome, n: nat)
    requires Bounded(w.index, n)
    ensures Bounded(BeginTerminationRouting(w, s, now, outcome).index, n)
  {
    var routing := UpdateSession(w.index, s.(state := Routing));
    UpdateBounded(w.index, s.(state := Routing), n);
    match outcome
    case NoCodec => RemoveBounded(routing, s.sessionId, n);
    case NoRoute => RemoveBounded(routing, s.sessionId, n);
    case Routed(attempt) =>
      var routed := s.(state := Terminating);
      UpdateBounded(routing, routed, n);
      AttemptBounded(UpdateSession(routing, routed), routed, attempt, n);
    case _ =>
  }

  lemma AnswerBounded(w: Switch, s: Session, now: int, negotiation: Negotiation, n: nat)
    requires Bounded(w.index, n)
    ensures Bounded(HandleAnswer(w, s, now, negotiation).index, n + if negotiation.Agreed? then 1 else 0)
  {
    var connected := s.(state := Connected, answerTime := Some(now));
    match negotiation
    case Agreed => UpdateBounded(w.index, connected, n);
    case ByeFailed =>
    case Disagreed(advance) =>
      var unmapped := w.(index := UnmapBLeg(w.index, s));
      assert ConnectedIds(unmapped.index) == ConnectedIds(w.index);
      AdvanceBounded(unmapped, connected.(bLeg := None, state := Routing), advance, 488, now, n);
  }

  lemma {:induction false} ExpireBounded(w: Switch, order: seq<string>, n: nat)
    requires Bounded(w.index, n)
    ensures Bounded(ExpireAll(w, order).index, n)
    decreases |order|
  {
    if order != [] {
      RemoveBounded(w.index, order[0], n);
      ExpireBounded(Expire(w, order[0]), order[1..], n);
    }
  }

  predicate IsAnswer(e: Event) {
    e.Answer? && e.negotiation.Agreed?
  }

  lemma StepBounded(w: Switch, e: Event, n: nat)
    requires Bounded(w.index, n)
    ensures Bounded(Step(w, e).index, n + if IsAnswer(e) then 1 else 0)
  {
    match e
    case Invite(callId, sessionId, now, outcome) =>
      var s := NewSession(callId, sessionId, now);
      AddBounded(w.index, s, n);
      RoutingBounded(w.(index := AddSession(w.index, s), used := w.used + {sessionId}), s, now, outcome, n);
    case Cleanup(_, order) => ExpireBounded(w, order, n);
    case _ =>
      var found := FindByCallId(w.index, e.callId);
      if found.Some? {
        KnownBounded(w, found.value, e, n);
      }
  }

  lemma KnownBounded(w: Switch, s: Session, e: Event, n: nat)
    requires Bounded(w.index, n) && s.state != Connecting && !e.Invite? && !e.Cleanup?
    ensures Bounded(HandleKnown(w, s, e).index, n + if IsAnswer(e) then 1 else 0)
  {
    match e
    case Answer(_, now, negotiation) => AnswerBounded(w, s, now, negotiation, n);
    case ErrorResponse(_, now, code, advance) => AdvanceBounded(w, s, advance, code, now, n);
    case Ack(_, _) =>
    case Bye(_, _) => RemoveBounded(w.index, s.sessionId, n);
    case Cancel(_, _) => RemoveBounded(w.index, s.sessionId, n);
  }

  function CountAnswers(events: seq<Event>): nat {
    if events == [] then 0 else (if IsAnswer(events[0]) then 1 else 0) + CountAnswers(events[1..])
  }

  lemma {:induction false} RunBounded(w: Switch, events: seq<Event>, n: nat)
    requires Bounded(w.index, n)
    ensures Bounded(Run(w, events).index, n + CountAnswers(events))
    decreases |events|
  {
    if events != [] {
      StepBounded(w, events[0], n);
      RunBounded(Step(w, events[0]), events[1..], n + if IsAnswer(events[0]) then 1 else 0);
    }
  }

  /** The bound from a new switch. It also shows that no session is ever in state Connecting, so the ACK
      handler's update to Connected never happens. */
  lemma SuccessNeedsAnswer(cdrEnabled: bool, events: seq<Event>)
    ensures var x := Run(NewSwitch(cdrEnabled), events).index;
            && |ConnectedIds(x)| + x.stats.successful <= CountAnswers(events)
            && (forall id :: id in x.sessions ==> x.sessions[id].state != Connecting)
  {
    assert ConnectedIds(EMPTY_INDEX) == {};
    RunBounded(NewSwitch(cdrEnabled), events, 0);
  }
}
