/** What the compliance framework tracks and stores, told from the events alone: the state and times of
    every tracked call, and every stored CDR field by field. */
module ComplianceRecords {
  import opened Common
  import opened Compliance

  // ---------- The story of a call ----------

  /** What the events of one call add up to since it was opened. `final` is its end, transfer or forward,
      whichever came first; transfers and forwards of unanswered calls do not count. */
  datatype Story = Story(
    startTime: int, progressed: bool, answered: Option<int>, final: Option<CallStateEnum>, endTime: Option<int>)

  function Continue(story: Story, e: Event): Story {
    match e.eventType
    case CallProgress => story.(progressed := true)
    case CallAnswered => if story.final.None? then story.(answered := Some(e.timestamp)) else story
    case CallTransferred =>
      if story.final.None? && story.answered.Some? then story.(final := Some(Transferred)) else story
    case CallForwarded =>
      if story.final.None? && story.answered.Some? then story.(final := Some(Forwarded)) else story
    case CallEnded =>
      if story.final.None? || story.final.value == Ended
      then story.(final := Some(Ended), endTime := Some(e.timestamp)) else story
    case _ => story
  }

  /** A call is opened by its first event, and with CDRs on closed by its end. */
  function StoryOf(cdrEnabled: bool, events: seq<Event>, id: string): Option<Story> {
    if events == [] then None
    else
      var before, e := StoryOf(cdrEnabled, events[..|events| - 1], id), events[|events| - 1];
      if e.callId != id then before
      else if cdrEnabled && e.eventType.CallEnded? then None
      else Some(Continue(if before.Some? then before.value else Story(e.timestamp, false, None, None, None), e))
  }

  /** The call is in the last state its story reached, with the times of that story. */
  ghost predicate Tells(story: Story, c: CallState) {
    && c.startTime == story.startTime && c.answerTime == story.answered && c.endTime == story.endTime
    && c.current == (if story.final.Some? then story.final.value
                     else if story.answered.Some? then Answered
                     else if story.progressed then Progressing
                     else Attempting)
  }

  ghost predicate Reachable(story: Story) {
    && (story.final.Some? ==> story.final.value in {Ended, Transferred, Forwarded})
    && (story.final.Some? && story.final.value != Ended ==> story.answered.Some?)
  }

  lemma UpdateTells(story: Story, c: CallState, e: Event, isNew: bool)
    requires Tells(story, c) && Reachable(story)
    requires isNew ==> story == Story(e.timestamp, false, None, None, None)
    ensures Tells(Continue(story, e), UpdateCall(c, e, isNew)) && Reachable(Continue(story, e))
  {
  }

  ghost predicate AllTold(f: Framework, cdrEnabled: bool, events: seq<Event>) {
    forall id :: match StoryOf(cdrEnabled, events, id)
                 case Some(story) => id in f.calls && Tells(story, f.calls[id]) && Reachable(story)
                 case None => id !in f.calls
  }

  lemma {:induction false} StepTells(f: Framework, cdrEnabled: bool, events: seq<Event>, e: Event)
    requires AllTold(f, cdrEnabled, events)
    ensures AllTold(ProcessEvent(f, cdrEnabled, e), cdrEnabled, events + [e])
  {
    var f' := ProcessEvent(f, cdrEnabled, e);
    assert (events + [e])[..|events|] == events;
    forall id ensures match StoryOf(cdrEnabled, events + [e], id)
                      case Some(story) => id in f'.calls && Tells(story, f'.calls[id]) && Reachable(story)
                      case None => id !in f'.calls
    {
      var before := StoryOf(cdrEnabled, events, id);
      if id == e.callId {
        var isNew := id !in f.calls;
        UpdateTells(if isNew then Story(e.timestamp, false, None, None, None) else before.value,
                    if isNew then NewCall(e) else f.calls[id], e, isNew);
        StepTracks(f, cdrEnabled, e);
      } else {
        StepLeavesOthers(f, cdrEnabled, e, id);
      }
    }
  }

  lemma StepTracks(f: Framework, cdrEnabled: bool, e: Event)
    ensures var calls := ProcessEvent(f, cdrEnabled, e).calls;
            if cdrEnabled && e.eventType.CallEnded? then e.callId !in calls
            else e.callId in calls && calls[e.callId].(cdrCreated := true) == CallAfter(f, e).(cdrCreated := true)
  {
  }

  lemma StepLeavesOthers(f: Framework, cdrEnabled: bool, e: Event, id: string)
    requires id != e.callId
    ensures var f' := ProcessEvent(f, cdrEnabled, e);
            && (id in f'.calls <==> id in f.calls) && (id in f.calls ==> f'.calls[id] == f.calls[id])
            && (id in f'.engine.active <==> id in f.engine.active)
            && (id in f.engine.active ==> f'.engine.active[id] == f.engine.active[id])
  {
  }

  /** After every run, with or without CDRs, exactly the calls with a story are tracked, each in the state
      and with the times its story tells. */
  lemma {:induction false} TrackedExactly(cdrEnabled: bool, events: seq<Event>)
    ensures AllTold(Run(cdrEnabled, events), cdrEnabled, events)
  {
    if events != [] {
      var rest, e := events[..|events| - 1], events[|events| - 1];
      TrackedExactly(cdrEnabled, rest);
      StepTells(Run(cdrEnabled, rest), cdrEnabled, rest, e);
      assert events == rest + [e];
    }
  }

  // ---------- The stored CDRs ----------

  /** The call attempt that opened the call, as the number of events before it; none if the call is not
      open or was opened otherwise. */
  function StartedBy(events: seq<Event>, id: string): (j: Option<nat>)
    ensures j.Some? ==> j.value < |events|
  {
    if events == [] then None
    else
      var rest, e := events[..|events| - 1], events[|events| - 1];
      if e.callId != id then StartedBy(rest, id)
      else if e.eventType.CallEnded? then None
      else if e.eventType.CallAttempt? && Opened(rest, id).None? then Some(|rest|)
      else StartedBy(rest, id)
  }

  /** The last answer of the call since it was opened. */
  function AnsweredBy(events: seq<Event>, id: string): (j: Option<nat>)
    ensures j.Some? ==> j.value < |events|
  {
    if events == [] then None
    else
      var rest, e := events[..|events| - 1], events[|events| - 1];
      if e.callId != id then AnsweredBy(rest, id)
      else if e.eventType.CallEnded? then None
      else if e.eventType.CallAnswered? then Some(|rest|)
      else AnsweredBy(rest, id)
  }

  /** What those two mean: the attempt is one, the call has not ended since, and the answer is the last one
      after the attempt, or there was none. */
  lemma {:induction false} StartedAndAnswered(events: seq<Event>, id: string)
    requires StartedBy(events, id).Some?
    ensures var a, answered := StartedBy(events, id).value, AnsweredBy(events, id);
            && events[a].callId == id && events[a].eventType.CallAttempt?
            && (forall k :: a < k < |events| && events[k].callId == id ==> !events[k].eventType.CallEnded?)
            && match answered
               case Some(j) =>
                 && a < j && events[j].callId == id && events[j].eventType.CallAnswered?
                 && forall k :: j < k < |events| && events[k].callId == id ==> !events[k].eventType.CallAnswered?
               case None =>
                 forall k :: a < k < |events| && events[k].callId == id ==> !events[k].eventType.CallAnswered?
  {
    var rest, e := events[..|events| - 1], events[|events| - 1];
    if e.callId == id && e.eventType.CallAttempt? && Opened(rest, id).None? {
      NotOpen(rest, id);
    } else {
      StartedAndAnswered(rest, id);
    }
  }

  lemma {:induction false} NotOpen(events: seq<Event>, id: string)
    requires Opened(events, id).None?
    ensures StartedBy(events, id).None? && AnsweredBy(events, id).None?
  {
    if events != [] && events[|events| - 1].callId != id {
      NotOpen(events[..|events| - 1], id);
    }
  }

  lemma {:induction false} StartedIsOpened(events: seq<Event>, id: string)
    ensures StartedBy(events, id).Some? <==> Opened(events, id) == Some(true)
  {
    if events != [] {
      var rest := events[..|events| - 1];
      StartedIsOpened(rest, id);
      if Opened(rest, id).None? {
        NotOpen(rest, id);
      }
    }
  }

  /** The clock at the last answer. */
  function AnswerClock(events: seq<Event>, id: string): Option<int> {
    var answered := AnsweredBy(events, id);
    if answered.Some? then Some(events[answered.value].clock) else None
  }

  /** Whole seconds from one clock reading to a later one; none if it is not later. */
  ghost predicate WholeSeconds(seconds: nat, from: int, to: int) {
    if to <= from then seconds == 0
    else seconds * 1_000_000_000 <= to - from < (seconds + 1) * 1_000_000_000
  }

  /** What a CDR must say of a call attempted at `start`, last answered at `answer` and ended at `end`. */
  ghost predicate Records(c: Cdr, start: int, answer: Option<int>, end: int, response: Option<int>) {
    && c.startTime == start && c.answerTime == answer && c.endTime == Some(end) && !c.hasMetrics
    && c.duration.Some? && WholeSeconds(c.duration.value, start, end)
    && c.billable.Some?
    && (match answer
        case Some(at) => WholeSeconds(c.billable.value, at, end)
        case None => c.billable.value == 0)
    && c.result == (match response
                    case None => if answer.Some? then Normal else SystemFailure
                    case Some(code) =>
                      if code == 200 then Normal
                      else if code == 486 then Busy
                      else if code == 408 || code == 480 then NoAnswer
                      else if code == 503 then ServiceUnavailable
                      else if code == 404 then InvalidNumber
                      else SystemFailure)
  }

  lemma {:induction false} AnswerTold(events: seq<Event>, id: string)
    ensures var story := StoryOf(true, events, id);
            if story.Some? then story.value.answered.Some? <==> AnsweredBy(events, id).Some?
            else AnsweredBy(events, id).None?
    ensures var story := StoryOf(true, events, id);
            story.Some? && story.value.final.Some? ==> story.value.answered.Some?
  {
    if events != [] {
      AnswerTold(events[..|events| - 1], id);
    }
  }

  lemma {:induction false} SnocKeepsClocks(events: seq<Event>, e: Event, id: string)
    ensures (events + [e])[..|events|] == events
    ensures e.callId != id ==>
              && StartedBy(events + [e], id) == StartedBy(events, id)
              && AnsweredBy(events + [e], id) == AnsweredBy(events, id)
              && AnswerClock(events + [e], id) == AnswerClock(events, id)
  {
    assert (events + [e])[..|events|] == events;
  }

  ghost predicate CdrTold(f: Framework, events: seq<Event>, id: string) {
    id in f.engine.active ==>
      StartedBy(events, id).Some?
      && f.engine.active[id] == Cdr(events[StartedBy(events, id).value].clock, AnswerClock(events, id),
                                    None, None, None, Normal, false)
  }

  lemma {:induction false} StepCdr(f: Framework, events: seq<Event>, e: Event)
    requires Follows(f, events) && CdrTold(f, events, e.callId)
    ensures CdrTold(ProcessEvent(f, true, e), events + [e], e.callId)
  {
    var id, events' := e.callId, events + [e];
    assert events'[..|events|] == events && events'[|events|] == e;
    assert id in f.calls <==> Opened(events, id).Some?;
    assert id in f.engine.active <==> Opened(events, id) == Some(true);
    StepCdrOf(f, e);
    if e.eventType.CallAttempt? && id !in f.calls {
      NotOpen(events, id);
    }
  }

  /** What one event does to its call's running CDR. */
  lemma StepCdrOf(f: Framework, e: Event)
    requires e.callId in f.engine.active ==> !f.engine.active[e.callId].hasMetrics
    ensures var before, after, id := f.engine.active, ProcessEvent(f, true, e).engine.active, e.callId;
            match e.eventType
            case CallEnded => id !in after
            case CallAttempt =>
              if id !in f.calls then id in after && after[id] == Cdr(e.clock, None, None, None, None, Normal, false)
              else (id in after <==> id in before) && (id in before ==> after[id] == before[id])
            case CallAnswered =>
              (id in after <==> id in before) && (id in before ==> after[id] == before[id].(answerTime := Some(e.clock)))
            case _ => (id in after <==> id in before) && (id in before ==> after[id] == before[id])
  {
  }

  /** Every running CDR is that of an open call started by an attempt: unended, from the attempt's clock,
      answered at the clock of the last answer since. */
  lemma {:induction false} RunningExactly(events: seq<Event>)
    ensures forall id :: CdrTold(Run(true, events), events, id)
  {
    if events != [] {
      var rest, e := events[..|events| - 1], events[|events| - 1];
      var f := Run(true, rest);
      assert events == rest + [e];
      RunningExactly(rest);
      RunFollows(rest);
      forall id ensures CdrTold(Run(true, events), events, id) {
        assert CdrTold(f, rest, id);
        if id == e.callId {
          StepCdr(f, rest, e);
        } else {
          StepLeavesOthers(f, true, e, id);
          SnocKeepsClocks(rest, e, id);
        }
      }
    }
  }

  /** With CDRs on, a tracked call is marked as having a CDR exactly if one is running for it; without
      CDRs none is marked. */
  lemma {:induction false} MarkedExactly(cdrEnabled: bool, events: seq<Event>)
    ensures var f := Run(cdrEnabled, events);
            && f.engine.active.Keys <= f.calls.Keys
            && (forall id :: id in f.calls ==> (f.calls[id].cdrCreated <==> id in f.engine.active))
            && (!cdrEnabled ==> f.engine == NEW_FRAMEWORK.engine)
  {
    if events != [] {
      var f, e := Run(cdrEnabled, events[..|events| - 1]), events[|events| - 1];
      MarkedExactly(cdrEnabled, events[..|events| - 1]);
      StepMarks(f, cdrEnabled, e);
    }
  }

  lemma StepMarks(f: Framework, cdrEnabled: bool, e: Event)
    requires f.engine.active.Keys <= f.calls.Keys
    requires forall id :: id in f.calls ==> (f.calls[id].cdrCreated <==> id in f.engine.active)
    requires !cdrEnabled ==> f.engine == NEW_FRAMEWORK.engine
    ensures var f' := ProcessEvent(f, cdrEnabled, e);
            && f'.engine.active.Keys <= f'.calls.Keys
            && (forall id :: id in f'.calls ==> (f'.calls[id].cdrCreated <==> id in f'.engine.active))
            && (!cdrEnabled ==> f'.engine == NEW_FRAMEWORK.engine)
  {
  }

  /** The calls that ended after having started with an attempt, as the number of events up to their ends. */
  function RecordedEnds(events: seq<Event>): seq<nat> {
    if events == [] then []
    else
      var rest, e := events[..|events| - 1], events[|events| - 1];
      RecordedEnds(rest) + if e.eventType.CallEnded? && StartedBy(rest, e.callId).Some? then [|rest|] else []
  }

  /** The stored CDR of the call that ended with event n. */
  ghost predicate RecordsEnd(c: Cdr, events: seq<Event>, n: nat)
    requires n < |events|
  {
    var before, end := events[..n], events[n];
    StartedBy(before, end.callId).Some?
    && Records(c, before[StartedBy(before, end.callId).value].clock, AnswerClock(before, end.callId),
               end.clock, end.response)
  }

  ghost predicate StoredTold(stored: seq<Cdr>, events: seq<Event>) {
    var ends := RecordedEnds(events);
    && |stored| == |ends|
    && (forall i :: 0 <= i < |ends| ==> ends[i] < |events| && RecordsEnd(stored[i], events, ends[i]))
  }

  lemma {:induction false} EndRecords(f: Framework, events: seq<Event>, e: Event)
    requires Follows(f, events) && AllTold(f, true, events) && CdrTold(f, events, e.callId) && e.eventType.CallEnded?
    ensures var stored := ProcessEvent(f, true, e).engine.stored;
            if StartedBy(events, e.callId).Some?
            then |stored| == |f.engine.stored| + 1 && stored[..|f.engine.stored|] == f.engine.stored
                 && Records(stored[|f.engine.stored|], events[StartedBy(events, e.callId).value].clock,
                            AnswerClock(events, e.callId), e.clock, e.response)
            else stored == f.engine.stored
  {
    var id := e.callId;
    StartedIsOpened(events, id);
    assert id in f.engine.active <==> Opened(events, id) == Some(true);
    assert id in f.calls <==> Opened(events, id).Some?;
    if id in f.engine.active {
      AnswerTold(events, id);
      assert StoryOf(true, events, id).Some?;
      StoredIs(f, e);
      EndedRecords(f.engine.active[id], DetermineResult(e, CallAfter(f, e)), e.clock);
    }
  }

  lemma StoredIs(f: Framework, e: Event)
    requires e.eventType.CallEnded? && e.callId in f.engine.active && e.callId in f.calls
    ensures var c := MarkEnded(f.engine.active[e.callId], DetermineResult(e, CallAfter(f, e)), e.clock);
            ProcessEvent(f, true, e).engine.stored == f.engine.stored + [c]
    ensures CallAfter(f, e).answerTime == f.calls[e.callId].answerTime
  {
  }

  lemma EndedRecords(c: Cdr, result: CallResult, clock: int)
    ensures var ended := MarkEnded(c, result, clock);
            && ended.startTime == c.startTime && ended.answerTime == c.answerTime && ended.endTime == Some(clock)
            && ended.hasMetrics == c.hasMetrics && ended.result == result
            && ended.duration.Some? && WholeSeconds(ended.duration.value, c.startTime, clock)
            && ended.billable.Some?
            && (match c.answerTime
                case Some(at) => WholeSeconds(ended.billable.value, at, clock)
                case None => ended.billable.value == 0)
  {
  }

  lemma OnlyEndsStore(f: Framework, e: Event)
    requires !e.eventType.CallEnded?
    ensures ProcessEvent(f, true, e).engine.stored == f.engine.stored
  {
  }

  lemma {:induction false} StoredToldLater(stored: seq<Cdr>, events: seq<Event>, e: Event)
    requires StoredTold(stored, events)
    ensures forall i :: 0 <= i < |stored| ==>
              RecordedEnds(events)[i] < |events| && RecordsEnd(stored[i], events + [e], RecordedEnds(events)[i])
  {
    forall i | 0 <= i < |stored|
      ensures RecordedEnds(events)[i] < |events| && RecordsEnd(stored[i], events + [e], RecordedEnds(events)[i])
    {
      var n := RecordedEnds(events)[i];
      assert n < |events| && RecordsEnd(stored[i], events, n);
      assert (events + [e])[..n] == events[..n] && (events + [e])[n] == events[n];
    }
  }

  /** After every run the stored CDRs are exactly those of the calls that ended having started with an
      attempt, in the order of their ends, and each says what the events say: when the call was attempted,
      when it was last answered, if it was, when it ended, how many whole seconds it lasted and is billed
      for, and with what result. */
  lemma {:induction false} StoredExactlyAsTold(events: seq<Event>)
    ensures StoredTold(Run(true, events).engine.stored, events)
  {
    if events != [] {
      var rest, e := events[..|events| - 1], events[|events| - 1];
      var f := Run(true, rest);
      assert events == rest + [e];
      StoredExactlyAsTold(rest);
      StoredToldLater(f.engine.stored, rest, e);
      if e.eventType.CallEnded? {
        RunFollows(rest);
        TrackedExactly(true, rest);
        RunningExactly(rest);
        EndRecords(f, rest, e);
      } else {
        OnlyEndsStore(f, e);
      }
    }
  }
}
