/** What each message does to its call, told on the fields of sessions, statistics and CDRs, and the life
    of a call over a run: an answered call that is hung up is counted as successful and its CDR carries
    the time it was connected. */
module SessionCalls {
  import opened Common
  import opened SessionIndex
  import opened SessionRuns

  // ---------- Ways to say it ----------

  /** The call id is one of the live session's. */
  ghost predicate Reaches(w: Switch, callId: string, id: string) {
    callId in w.index.mapping && w.index.mapping[callId] == id && id in w.index.sessions
  }

  ghost predicate OthersKept(w: Switch, w': Switch, id: string) {
    forall other :: other != id ==>
      && (other in w'.index.sessions <==> other in w.index.sessions)
      && (other in w.index.sessions ==> w'.index.sessions[other] == w.index.sessions[other])
  }

  /** The time a call was connected by `now`: none if it was never answered. */
  function ConnectedTime(answerTime: Option<int>, now: int): Option<nat> {
    match answerTime
    case None => None
    case Some(answer) => Some(if now > answer then now - answer else 0)
  }

  function Sent(cdrEnabled: bool, cdr: Cdr): seq<Cdr> {
    if cdrEnabled then [cdr] else []
  }

  /** Session `id` is gone with its call ids, counted as successful exactly if it was connected, and its
      CDR, if CDRs are on, is the one sent. */
  ghost predicate EndedWith(w: Switch, w': Switch, id: string, cause: nat, now: int)
    requires id in w.index.sessions
  {
    var s, stats := w.index.sessions[id], w.index.stats;
    var connected := s.state == Connected;
    && w'.index.sessions == w.index.sessions - {id}
    && (forall callId :: callId in w'.index.mapping <==>
          callId in w.index.mapping && callId != s.aLeg && s.bLeg != Some(callId))
    && (forall callId :: callId in w'.index.mapping ==> w'.index.mapping[callId] == w.index.mapping[callId])
    && w'.index.stats.active == stats.active - 1 && w'.index.stats.total == stats.total
    && w'.index.stats.successful == stats.successful + (if connected then 1 else 0)
    && w'.index.stats.failed == stats.failed + (if connected then 0 else 1)
    && w'.cdrs == w.cdrs + Sent(w.cdrEnabled, Cdr(id, cause, now, ConnectedTime(s.answerTime, now)))
    && w'.expired == w.expired
  }

  lemma TerminationUnmaps(x: Index, id: string)
    requires id in x.sessions
    ensures var s, x' := x.sessions[id], RemoveSession(x, id);
            && (forall callId :: callId in x'.mapping <==> callId in x.mapping && callId != s.aLeg && s.bLeg != Some(callId))
            && (forall callId :: callId in x'.mapping ==> x'.mapping[callId] == x.mapping[callId])
  {
  }

  lemma TerminationEnds(w: Switch, id: string, cause: nat, now: int)
    requires Good(w) && id in w.index.sessions
    ensures EndedWith(w, TerminateSession(w, id, cause, now), id, cause, now)
  {
    TerminationUnmaps(w.index, id);
    assert w.index.stats.active > 0 by {
      MapSizes(w.index.sessions, id, w.index.sessions[id]);
    }
    assert FinalCdr(w.index.sessions[id], cause, now) == Cdr(id, cause, now, ConnectedTime(w.index.sessions[id].answerTime, now));
  }

  // ---------- The messages ----------

  /** A hang-up or cancellation ends the call it reaches. */
  lemma HangUpEnds(w: Switch, callId: string, id: string, now: int)
    requires Good(w) && Reaches(w, callId, id)
    ensures EndedWith(w, Step(w, Bye(callId, now)), id, 200, now)
    ensures EndedWith(w, Step(w, Cancel(callId, now)), id, 487, now)
  {
    TerminationEnds(w, id, 200, now);
    TerminationEnds(w, id, 487, now);
  }

  /** An answer with agreed codecs connects the call it reaches, from that moment, and touches nothing
      else: the session keeps its legs and everything but state and answer time. */
  lemma AnswerConnects(w: Switch, callId: string, id: string, now: int)
    requires Good(w) && Reaches(w, callId, id)
    ensures var w', s := Step(w, Answer(callId, now, Agreed)), w.index.sessions[id];
            && id in w'.index.sessions
            && w'.index.sessions[id] == Session(id, s.aLeg, s.bLeg, Connected, s.lastActivity, Some(now), None)
            && OthersKept(w, w', id)
            && w'.index.mapping == w.index.mapping && w'.index.stats == w.index.stats && w'.cdrs == w.cdrs
  {
  }

  /** A new attempt toward a route: if it can be placed, the call waits on a second leg named after it. */
  ghost predicate AttemptedFrom(w: Switch, w': Switch, id: string, answerTime: Option<int>)
    requires id in w.index.sessions
  {
    var s, name := w.index.sessions[id], id + "-b";
    && id in w'.index.sessions
    && w'.index.sessions[id] == Session(id, s.aLeg, Some(name), Terminating, s.lastActivity, answerTime, None)
    && OthersKept(w, w', id)
    && Reaches(w', name, id)
    && (forall callId :: callId != name ==>
          (callId in w'.index.mapping <==> callId in w.index.mapping)
          && (callId in w.index.mapping ==> w'.index.mapping[callId] == w.index.mapping[callId]))
    && w'.index.stats == w.index.stats && w'.cdrs == w.cdrs
  }

  /** An error response moves the call to the next route if there is one that can be attempted, and ends
      it with the response's code when there is none. */
  lemma ErrorAdvances(w: Switch, callId: string, id: string, now: int, code: nat, advance: Advance)
    requires Good(w) && Reaches(w, callId, id)
    ensures var w' := Step(w, ErrorResponse(callId, now, code, advance));
            match advance
            case AdvanceFailed => w' == w
            case NextRoute(NotPlaced) => w' == w
            case NextRoute(Placed) => AttemptedFrom(w, w', id, w.index.sessions[id].answerTime)
            case NoMoreRoutes => EndedWith(w, w', id, code, now)
  {
    TerminationEnds(w, id, code, now);
  }

  /** An answer without a common codec unmaps the second leg and moves on as an error does; the attempt
      that follows keeps the answer time, though the call was never connected. */
  lemma DisagreementAdvances(w: Switch, callId: string, id: string, now: int, advance: Advance)
    requires Good(w) && Reaches(w, callId, id)
    ensures var w', s := Step(w, Answer(callId, now, Disagreed(advance))), w.index.sessions[id];
            var unmapped := w.(index := w.index.(mapping :=
                              w.index.mapping - if s.bLeg.Some? then {s.bLeg.value} else {}));
            match advance
            case AdvanceFailed => w' == unmapped
            case NextRoute(NotPlaced) => w' == unmapped
            case NextRoute(Placed) => AttemptedFrom(unmapped, w', id, Some(now))
            case NoMoreRoutes => EndedWith(unmapped, w', id, 488, now)
  {
    var s := w.index.sessions[id];
    var unmapped := w.(index := UnmapBLeg(w.index, s));
    assert w.index.mapping - {} == w.index.mapping;
    UnmapKeepsGood(w, s);
    TerminationEnds(unmapped, id, 488, now);
  }

  lemma ByeFailedChangesNothing(w: Switch, callId: string, id: string, now: int)
    requires Good(w) && Reaches(w, callId, id)
    ensures Step(w, Answer(callId, now, ByeFailed)) == w
  {
  }

  /** Messages of unknown calls, acknowledgements of calls that are not Connecting, and repeated or refused
      invites change nothing. */
  lemma NothingToDo(w: Switch, e: Event)
    requires !e.Cleanup?
    requires e.Invite? ==> e.callId in w.index.mapping || e.outcome.Refused?
    requires !e.Invite? ==>
               || e.callId !in w.index.mapping || w.index.mapping[e.callId] !in w.index.sessions
               || (e.Ack? && w.index.sessions[w.index.mapping[e.callId]].state != Connecting)
    ensures Step(w, e) == w
  {
  }

  /** The call that a new invite makes, if one remains: its state tells how far routing got. */
  ghost predicate Started(w: Switch, w': Switch, s: Session) {
    && s.sessionId in w'.index.sessions && w'.index.sessions[s.sessionId] == s
    && OthersKept(w, w', s.sessionId)
    && Reaches(w', s.aLeg, s.sessionId) && (s.bLeg.Some? ==> Reaches(w', s.bLeg.value, s.sessionId))
    && w'.index.stats == w.index.stats.(total := w.index.stats.total + 1, active := w.index.stats.active + 1,
                                        peak := w'.index.stats.peak)
    && w'.cdrs == w.cdrs
  }

  /** The call is over at once: counted, failed, its CDR sent, and nothing left in the index. */
  ghost predicate Rejected(w: Switch, w': Switch, id: string, cause: nat, now: int) {
    && w'.index.sessions == w.index.sessions
    && (forall callId :: callId in w'.index.mapping ==>
          callId in w.index.mapping && w'.index.mapping[callId] == w.index.mapping[callId])
    && w'.index.stats == w.index.stats.(total := w.index.stats.total + 1, failed := w.index.stats.failed + 1,
                                        peak := w'.index.stats.peak)
    && w'.cdrs == w.cdrs + Sent(w.cdrEnabled, Cdr(id, cause, now, None))
  }

  ghost predicate Invited(w: Switch, callId: string, id: string) {
    Good(w) && id !in w.used && callId !in w.index.mapping
  }

  /** The peak is the highest the active count has been. */
  lemma PeakIsHighest(x: Index, s: Session, id: string)
    ensures AddSession(x, s).stats.peak == if x.stats.active + 1 > x.stats.peak then x.stats.active + 1 else x.stats.peak
    ensures UpdateSession(x, s).stats.peak == RemoveSession(x, id).stats.peak == x.stats.peak
  {
  }

  lemma InviteStarts(w: Switch, callId: string, id: string, now: int, outcome: InviteOutcome)
    requires Invited(w, callId, id)
    ensures var w' := Step(w, Invite(callId, id, now, outcome));
            match outcome
            case Refused => w' == w
            case Delivered => Started(w, w', Session(id, callId, None, Originating, now, None, None))
            case RoutingFailed => Started(w, w', Session(id, callId, None, Routing, now, None, None))
            case NoCodec => Rejected(w, w', id, 488, now)
            case NoRoute => Rejected(w, w', id, 503, now)
            case Routed(NotPlaced) => Started(w, w', Session(id, callId, None, Terminating, now, None, None))
            case Routed(Placed) => Started(w, w', Session(id, callId, Some(id + "-b"), Terminating, now, None, None))
  {
    match outcome
    case NoCodec => InviteRejected(w, callId, id, now, outcome, 488);
    case NoRoute => InviteRejected(w, callId, id, now, outcome, 503);
    case _ =>
  }

  /** A new call once its routing has begun. */
  function RoutingOf(w: Switch, callId: string, id: string, now: int): Switch {
    var s := NewSession(callId, id, now);
    w.(index := UpdateSession(AddSession(w.index, s), s.(state := Routing)), used := w.used + {id})
  }

  lemma RoutingGood(w: Switch, callId: string, id: string, now: int)
    requires Invited(w, callId, id)
    ensures Good(RoutingOf(w, callId, id, now))
  {
    var s := NewSession(callId, id, now);
    AddKeepsGood(w, s);
    UpdateKeepsGood(w.(index := AddSession(w.index, s), used := w.used + {id}), s.(state := Routing));
  }

  lemma RejectionTerminates(w: Switch, callId: string, id: string, now: int, outcome: InviteOutcome, cause: nat)
    requires Invited(w, callId, id)
    requires (outcome.NoCodec? && cause == 488) || (outcome.NoRoute? && cause == 503)
    ensures Step(w, Invite(callId, id, now, outcome)) == TerminateSession(RoutingOf(w, callId, id, now), id, cause, now)
  {
  }

  lemma RemovalKeepsTotals(x: Index, id: string)
    ensures RemoveSession(x, id).stats.peak == x.stats.peak
    ensures id in x.sessions && x.sessions[id].state != Connected ==> RemoveSession(x, id).stats.callMinutes == x.stats.callMinutes
  {
  }

  lemma RoutingOfIs(w: Switch, callId: string, id: string, now: int)
    requires Invited(w, callId, id)
    ensures var routing, stats := RoutingOf(w, callId, id, now), w.index.stats;
            && routing.index.sessions == w.index.sessions[id := Session(id, callId, None, Routing, now, None, None)]
            && routing.index.mapping == w.index.mapping[callId := id]
            && routing.index.stats == stats.(total := stats.total + 1, active := stats.active + 1, peak := routing.index.stats.peak)
            && routing.cdrs == w.cdrs && routing.cdrEnabled == w.cdrEnabled
  {
  }

  lemma RejectedFromRouting(w: Switch, callId: string, id: string, now: int, cause: nat)
    requires Invited(w, callId, id)
    ensures Rejected(w, TerminateSession(RoutingOf(w, callId, id, now), id, cause, now), id, cause, now)
  {
    var routing := RoutingOf(w, callId, id, now);
    RoutingOfIs(w, callId, id, now);
    RoutingGood(w, callId, id, now);
    RemovalKeepsTotals(routing.index, id);
    TerminationEnds(routing, id, cause, now);
    RejectedIsEnded(w, routing, TerminateSession(routing, id, cause, now),
                    Session(id, callId, None, Routing, now, None, None), cause, now);
  }

  lemma InviteRejected(w: Switch, callId: string, id: string, now: int, outcome: InviteOutcome, cause: nat)
    requires Invited(w, callId, id)
    requires (outcome.NoCodec? && cause == 488) || (outcome.NoRoute? && cause == 503)
    ensures Rejected(w, Step(w, Invite(callId, id, now, outcome)), id, cause, now)
  {
    RejectionTerminates(w, callId, id, now, outcome, cause);
    RejectedFromRouting(w, callId, id, now, cause);
  }

  lemma RejectedIsEnded(w: Switch, routing: Switch, w': Switch, s: Session, cause: nat, now: int)
    requires Invited(w, s.aLeg, s.sessionId) && s == Session(s.sessionId, s.aLeg, None, Routing, now, None, None)
    requires routing.index.sessions == w.index.sessions[s.sessionId := s]
    requires routing.index.mapping == w.index.mapping[s.aLeg := s.sessionId]
    requires var stats := w.index.stats;
             routing.index.stats == stats.(total := stats.total + 1, active := stats.active + 1, peak := routing.index.stats.peak)
    requires routing.cdrs == w.cdrs && routing.cdrEnabled == w.cdrEnabled
    requires EndedWith(routing, w', s.sessionId, cause, now) && w'.index.stats.peak == routing.index.stats.peak
    requires w'.index.stats.callMinutes == w.index.stats.callMinutes
    ensures Rejected(w, w', s.sessionId, cause, now)
  {
    assert w.index.sessions[s.sessionId := s] - {s.sessionId} == w.index.sessions;
  }

  // ---------- Cleanup ----------

  function Members(ids: seq<string>): set<string> {
    set id | id in ids
  }

  lemma {:induction false} CleanupRemoves(w: Switch, order: seq<string>)
    requires LiveOnce(w, order)
    ensures ExpireAll(w, order).index.sessions == w.index.sessions - Members(order)
    decreases |order|
  {
    if order == [] {
      assert w.index.sessions - Members(order) == w.index.sessions;
    } else {
      var rest := Expire(w, order[0]);
      assert LiveOnce(rest, order[1..]) by {
        forall id | id in order[1..] ensures id in rest.index.sessions.Keys {
          assert id in order && id != order[0];
        }
      }
      CleanupRemoves(rest, order[1..]);
      assert Members(order) == {order[0]} + Members(order[1..]);
    }
  }

  /** The cleanup removes exactly the sessions with no activity since the cutoff, counts them, and sends no
      CDR for them; the others stay as they are. */
  lemma {:induction false} CleanupExactly(w: Switch, cutoff: int, order: seq<string>)
    requires Good(w) && Possible(w, Cleanup(cutoff, order))
    ensures var w' := Step(w, Cleanup(cutoff, order));
            && (forall id :: id in w'.index.sessions <==>
                  id in w.index.sessions && w.index.sessions[id].lastActivity >= cutoff)
            && (forall id :: id in w'.index.sessions ==> w'.index.sessions[id] == w.index.sessions[id])
            && w'.cdrs == w.cdrs
            && w'.expired == w.expired + |w.index.sessions| - |w'.index.sessions|
  {
    var gone := set id | id in w.index.sessions && w.index.sessions[id].lastActivity < cutoff;
    assert LiveOnce(w, order) && Members(order) == gone;
    ExpireAllOnIndex(w, order);
    CleanupRemoves(w, order);
    DistinctSize(order);
    assert (w.index.sessions - gone).Keys == w.index.sessions.Keys - gone;
    assert |w.index.sessions.Keys - gone| == |w.index.sessions.Keys| - |gone|;
    assert |(w.index.sessions - gone).Keys| == |w.index.sessions - gone|;
  }

  lemma {:induction false} DistinctSize(ids: seq<string>)
    requires forall i, j :: 0 <= i < j < |ids| ==> ids[i] != ids[j]
    ensures |Members(ids)| == |ids|
  {
    if ids != [] {
      DistinctSize(ids[1..]);
      assert Members(ids) == {ids[0]} + Members(ids[1..]);
      assert ids[0] !in Members(ids[1..]);
    }
  }

  // ---------- The life of a call ----------

  /** The event is about session `id`: a message that reaches it, or a cleanup that takes it. */
  ghost predicate About(w: Switch, e: Event, id: string) {
    match e
    case Invite(_, _, _, _) => false
    case Cleanup(_, order) => id in order
    case _ => Reaches(w, e.callId, id)
  }

  lemma InviteLeavesAlone(w: Switch, callId: string, sessionId: string, now: int, outcome: InviteOutcome, id: string)
    requires Good(w) && sessionId !in w.used && id in w.index.sessions
    ensures var w' := Step(w, Invite(callId, sessionId, now, outcome));
            id in w'.index.sessions && w'.index.sessions[id] == w.index.sessions[id]
  {
    if callId !in w.index.mapping {
      InviteStarts(w, callId, sessionId, now, outcome);
    }
  }

  lemma KnownLeavesAlone(w: Switch, e: Event, other: string, id: string)
    requires Good(w) && !e.Invite? && !e.Cleanup? && Reaches(w, e.callId, other) && id != other && id in w.index.sessions
    ensures id in Step(w, e).index.sessions && Step(w, e).index.sessions[id] == w.index.sessions[id]
  {
    match e
    case Answer(callId, now, Agreed) =>
    case Answer(callId, now, ByeFailed) =>
    case Answer(callId, now, Disagreed(advance)) => DisagreementAdvances(w, callId, other, now, advance);
    case ErrorResponse(callId, now, code, advance) => ErrorAdvances(w, callId, other, now, code, advance);
    case Ack(_, _) =>
    case Bye(callId, now) => HangUpEnds(w, callId, other, now);
    case Cancel(callId, now) => HangUpEnds(w, callId, other, now);
  }

  lemma OthersLeaveAlone(w: Switch, e: Event, id: string)
    requires Good(w) && Possible(w, e) && id in w.index.sessions && !About(w, e, id)
    ensures id in Step(w, e).index.sessions && Step(w, e).index.sessions[id] == w.index.sessions[id]
  {
    match e
    case Invite(callId, sessionId, now, outcome) => InviteLeavesAlone(w, callId, sessionId, now, outcome, id);
    case Cleanup(_, order) => CleanupRemoves(w, order);
    case _ =>
      if e.callId in w.index.mapping && w.index.mapping[e.callId] in w.index.sessions {
        KnownLeavesAlone(w, e, w.index.mapping[e.callId], id);
      } else {
        NothingToDo(w, e);
      }
  }

  ghost predicate QuietRun(w: Switch, events: seq<Event>, id: string)
    decreases |events|
  {
    events != [] ==>
      && Possible(w, events[0]) && Apart(w, events[0]) && !About(w, events[0], id)
      && QuietRun(Step(w, events[0]), events[1..], id)
  }

  lemma {:induction false} QuietRunKeeps(w: Switch, events: seq<Event>, id: string)
    requires Good(w) && Findable(w) && id in w.index.sessions && QuietRun(w, events, id)
    ensures var w' := Run(w, events);
            && Good(w') && Findable(w') && w'.cdrEnabled == w.cdrEnabled
            && id in w'.index.sessions && w'.index.sessions[id] == w.index.sessions[id]
    decreases |events|
  {
    if events != [] {
      StepKeepsGood(w, events[0]);
      StepKeepsFindable(w, events[0]);
      StepKeepsSwitch(w, events[0]);
      OthersLeaveAlone(w, events[0], id);
      QuietRunKeeps(Step(w, events[0]), events[1..], id);
    }
  }

  /** The caller's own call id reaches the session as long as it lives. */
  lemma CallerReaches(w: Switch, id: string)
    requires Findable(w) && id in w.index.sessions
    ensures Reaches(w, w.index.sessions[id].aLeg, id)
  {
  }

  /** The call was connected at t and, hung up at u, is gone, counted once more as successful, with CDRs on
      a CDR that says it was connected from t to u. */
  ghost predicate SucceededFrom(connected: Switch, over: Switch, id: string, t: int, u: int) {
    && id in connected.index.sessions && over.index.sessions == connected.index.sessions - {id}
    && over.index.stats.successful == connected.index.stats.successful + 1
    && over.index.stats.failed == connected.index.stats.failed
    && over.cdrs == connected.cdrs + Sent(connected.cdrEnabled, Cdr(id, 200, u, Some(if u > t then u - t else 0)))
  }

  /** After any serial run, a call that is answered at t with agreed codecs and, whatever happens to other
      calls in between, hung up by its caller at u has succeeded. */
  lemma {:induction false} AnsweredCallSucceeds(cdrEnabled: bool, before: seq<Event>, callId: string, id: string, t: int,
                             between: seq<Event>, u: int)
    requires PossibleRun(NewSwitch(cdrEnabled), before) && ApartRun(NewSwitch(cdrEnabled), before)
    requires Reaches(Run(NewSwitch(cdrEnabled), before), callId, id)
    requires QuietRun(Step(Run(NewSwitch(cdrEnabled), before), Answer(callId, t, Agreed)), between, id)
    ensures var w := Run(NewSwitch(cdrEnabled), before);
            var connected := Run(Step(w, Answer(callId, t, Agreed)), between);
            && connected.cdrEnabled == cdrEnabled
            && SucceededFrom(connected, Step(connected, Bye(w.index.sessions[id].aLeg, u)), id, t, u)
  {
    RunKeepsFindable(NewSwitch(cdrEnabled), before);
    AnsweredCallEnds(Run(NewSwitch(cdrEnabled), before), callId, id, t, between, u);
  }

  lemma AnswerKeepsAll(w: Switch, callId: string, id: string, t: int)
    requires Good(w) && Findable(w) && Reaches(w, callId, id)
    ensures var w' := Step(w, Answer(callId, t, Agreed));
            Good(w') && Findable(w') && w'.cdrEnabled == w.cdrEnabled
  {
    StepKeepsGood(w, Answer(callId, t, Agreed));
    StepKeepsFindable(w, Answer(callId, t, Agreed));
    StepKeepsSwitch(w, Answer(callId, t, Agreed));
  }

  lemma ConnectedCallEnds(w: Switch, id: string, t: int, u: int)
    requires Good(w) && Findable(w) && id in w.index.sessions
    requires w.index.sessions[id].state == Connected && w.index.sessions[id].answerTime == Some(t)
    ensures SucceededFrom(w, Step(w, Bye(w.index.sessions[id].aLeg, u)), id, t, u)
  {
    CallerReaches(w, id);
    HangUpEnds(w, w.index.sessions[id].aLeg, id, u);
  }

  lemma {:induction false} AnsweredCallEnds(w: Switch, callId: string, id: string, t: int, between: seq<Event>, u: int)
    requires Good(w) && Findable(w) && Reaches(w, callId, id)
    requires QuietRun(Step(w, Answer(callId, t, Agreed)), between, id)
    ensures var connected := Run(Step(w, Answer(callId, t, Agreed)), between);
            && connected.cdrEnabled == w.cdrEnabled
            && SucceededFrom(connected, Step(connected, Bye(w.index.sessions[id].aLeg, u)), id, t, u)
  {
    var answered := Step(w, Answer(callId, t, Agreed));
    AnswerConnects(w, callId, id, t);
    AnswerKeepsAll(w, callId, id, t);
    QuietRunKeeps(answered, between, id);
    ConnectedCallEnds(Run(answered, between), id, t, u);
  }

  /** A call cancelled before it was answered is counted as failed, and its CDR has no duration. */
  lemma UnansweredCallFails(w: Switch, callId: string, id: string, now: int)
    requires Good(w) && Reaches(w, callId, id)
    requires w.index.sessions[id].state != Connected && w.index.sessions[id].answerTime.None?
    ensures var over := Step(w, Cancel(callId, now));
            && over.index.stats.failed == w.index.stats.failed + 1
            && over.index.stats.successful == w.index.stats.successful
            && over.cdrs == w.cdrs + Sent(w.cdrEnabled, Cdr(id, 487, now, None))
  {
    HangUpEnds(w, callId, id, now);
  }

  /** A call whose codecs were refused at t and whose next route failed at u is counted as failed, yet its
      CDR says it was connected from t to u: the next attempt kept the answer time. */
  lemma RefusedAnswerIsTimed(w: Switch, callId: string, id: string, t: int, u: int, code: nat)
    requires Good(w) && Reaches(w, callId, id)
    ensures var retried := Step(w, Answer(callId, t, Disagreed(NextRoute(Placed))));
            var over := Step(retried, ErrorResponse(id + "-b", u, code, NoMoreRoutes));
            && over.index.stats.failed == w.index.stats.failed + 1
            && over.cdrs == w.cdrs + Sent(w.cdrEnabled, Cdr(id, code, u, Some(if u > t then u - t else 0)))
  {
    var retry := Answer(callId, t, Disagreed(NextRoute(Placed)));
    DisagreementAdvances(w, callId, id, t, NextRoute(Placed));
    StepKeepsGood(w, retry);
    StepKeepsSwitch(w, retry);
    ErrorAdvances(Step(w, retry), id + "-b", id, u, code, NoMoreRoutes);
  }
}
