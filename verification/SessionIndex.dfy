/** The session index of the back-to-back user agent: live sessions by id, session ids by call id, and the
    statistics. `AddSession`, `UpdateSession` and `RemoveSession` give the effect of one operation;
    the class carries the state in its fields. Clock readings are arguments. */
module SessionIndex {
  import opened Common

  datatype SessionState =
    | Initial | Originating | Routing | Terminating | Connecting | Connected | Disconnecting | Terminated | Failed

  /** What the index and the statistics depend on. `duration` and `answerTime` are those of the CDR. */
  datatype Session = Session(
    sessionId: string,
    aLeg: string,
    bLeg: Option<string>,
    state: SessionState,
    lastActivity: int,
    answerTime: Option<int>,
    duration: Option<nat>)

  datatype Stats = Stats(total: nat, active: nat, successful: nat, failed: nat, callMinutes: nat, peak: nat)

  datatype Index = Index(sessions: map<string, Session>, mapping: map<string, string>, stats: Stats)

  const EMPTY_INDEX := Index(map[], map[], Stats(0, 0, 0, 0, 0, 0))

  function LegIds(s: Session): set<string> {
    {s.aLeg} + if s.bLeg.Some? then {s.bLeg.value} else {}
  }

  function MapLegs(mapping: map<string, string>, s: Session): map<string, string> {
    var withA := mapping[s.aLeg := s.sessionId];
    if s.bLeg.Some? then withA[s.bLeg.value := s.sessionId] else withA
  }

  function AddSession(x: Index, s: Session): Index {
    var active := x.stats.active + 1;
    Index(x.sessions[s.sessionId := s], MapLegs(x.mapping, s),
          x.stats.(total := x.stats.total + 1, active := active,
                   peak := if active > x.stats.peak then active else x.stats.peak))
  }

  /** Unconditional: it would bring a removed session back. */
  function UpdateSession(x: Index, s: Session): Index {
    x.(sessions := x.sessions[s.sessionId := s])
  }

  function CountRemoved(stats: Stats, s: Session): Stats {
    var left := stats.(active := if stats.active > 0 then stats.active - 1 else 0);
    if s.state == Connected then
      left.(successful := stats.successful + 1,
            callMinutes := stats.callMinutes + if s.duration.Some? then s.duration.value / 60 else 0)
    else
      left.(failed := stats.failed + 1)
  }

  function RemoveSession(x: Index, id: string): Index {
    if id !in x.sessions then x
    else
      var s := x.sessions[id];
      Index(x.sessions - {id}, x.mapping - LegIds(s), CountRemoved(x.stats, s))
  }

  function RemoveSessions(x: Index, ids: seq<string>): Index
    decreases |ids|
  {
    if ids == [] then x else RemoveSessions(RemoveSession(x, ids[0]), ids[1..])
  }

  function Expired(x: Index, cutoff: int): set<string> {
    set id | id in x.sessions && x.sessions[id].lastActivity < cutoff
  }

  /** Some order of exactly the expired sessions; the map's own order is not defined. */
  ghost predicate Enumerates(ids: seq<string>, s: set<string>) {
    && (forall i, j :: 0 <= i < j < |ids| ==> ids[i] != ids[j])
    && (forall id :: id in ids <==> id in s)
  }

  function FindByCallId(x: Index, callId: string): Option<Session> {
    if callId in x.mapping && x.mapping[callId] in x.sessions
    then Some(x.sessions[x.mapping[callId]]) else None
  }

  class SessionManager {
    var activeSessions: map<string, Session>
    var callIdMapping: map<string, string>
    var stats: Stats

    ghost function View(): Index
      reads this
    {
      Index(activeSessions, callIdMapping, stats)
    }

    constructor ()
      ensures View() == EMPTY_INDEX
    {
      activeSessions, callIdMapping := map[], map[];
      stats := Stats(0, 0, 0, 0, 0, 0);
    }

    method Add(session: Session)
      modifies this
      ensures View() == AddSession(old(View()), session)
    {
      callIdMapping := callIdMapping[session.aLeg := session.sessionId];
      if session.bLeg.Some? {
        callIdMapping := callIdMapping[session.bLeg.value := session.sessionId];
      }
      activeSessions := activeSessions[session.sessionId := session];
      stats := stats.(total := stats.total + 1, active := stats.active + 1);
      if stats.active > stats.peak {
        stats := stats.(peak := stats.active);
      }
    }

    method Update(session: Session)
      modifies this`activeSessions
      ensures View() == UpdateSession(old(View()), session)
    {
      activeSessions := activeSessions[session.sessionId := session];
    }

    method Remove(id: string)
      modifies this
      ensures View() == RemoveSession(old(View()), id)
    {
      if id in activeSessions {
        var session := activeSessions[id];
        activeSessions := activeSessions - {id};
        callIdMapping := callIdMapping - {session.aLeg};
        if session.bLeg.Some? {
          callIdMapping := callIdMapping - {session.bLeg.value};
        }
        stats := stats.(active := if stats.active > 0 then stats.active - 1 else 0);
        if session.state == Connected {
          stats := stats.(successful := stats.successful + 1);
          if session.duration.Some? {
            stats := stats.(callMinutes := stats.callMinutes + session.duration.value / 60);
          }
        } else {
          stats := stats.(failed := stats.failed + 1);
        }
        assert callIdMapping == old(callIdMapping) - LegIds(session);
      }
    }

    method CleanupExpired(cutoff: int) returns (count: nat, ghost order: seq<string>)
      modifies this
      ensures Enumerates(order, Expired(old(View()), cutoff)) && count == |order|
      ensures View() == RemoveSessions(old(View()), order)
    {
      var pending := set id | id in activeSessions && activeSessions[id].lastActivity < cutoff;
      count := 0;
      order := [];
      ghost var before := View();
      assert pending == Expired(before, cutoff);
      while pending != {}
        invariant count == |order|
        invariant pending <= Expired(before, cutoff)
        invariant Enumerates(order, Expired(before, cutoff) - pending)
        invariant View() == RemoveSessions(before, order)
        decreases pending
      {
        var id :| id in pending;
        Remove(id);
        RemoveOneMore(before, order, id);
        pending := pending - {id};
        order := order + [id];
        count := count + 1;
      }
    }
  }

  lemma {:induction false} RemoveOneMore(x: Index, ids: seq<string>, id: string)
    ensures RemoveSessions(x, ids + [id]) == RemoveSession(RemoveSessions(x, ids), id)
    decreases |ids|
  {
    if ids == [] {
      assert [] + [id] == [id] && [id][1..] == [];
    } else {
      assert (ids + [id])[1..] == ids[1..] + [id];
      RemoveOneMore(RemoveSession(x, ids[0]), ids[1..], id);
    }
  }

  // ---------- The invariant of the index ----------

  /** Every mapped call id is a leg of the live session it points to. */
  ghost predicate MappingLive(x: Index) {
    forall callId :: callId in x.mapping ==>
      x.mapping[callId] in x.sessions && callId in LegIds(x.sessions[x.mapping[callId]])
  }

  ghost predicate Consistent(x: Index) {
    && (forall id :: id in x.sessions ==> x.sessions[id].sessionId == id)
    && MappingLive(x)
    && x.stats.active == |x.sessions| <= x.stats.peak
    && x.stats.total == x.stats.active + x.stats.successful + x.stats.failed
  }

  /** A changed session keeps the legs it had, but may gain a second one. */
  ghost predicate KeepsLegs(before: Session, after: Session) {
    before.sessionId == after.sessionId && LegIds(before) <= LegIds(after)
  }

  lemma AddKeepsMapping(x: Index, s: Session)
    requires MappingLive(x) && s.sessionId !in x.sessions
    ensures MappingLive(AddSession(x, s))
  {
    var x' := AddSession(x, s);
    forall callId | callId in x'.mapping
      ensures x'.mapping[callId] in x'.sessions && callId in LegIds(x'.sessions[x'.mapping[callId]])
    {
      if callId !in LegIds(s) {
        assert x'.mapping[callId] == x.mapping[callId];
      }
    }
  }

  lemma AddKeepsConsistent(x: Index, s: Session)
    requires Consistent(x) && s.sessionId !in x.sessions
    ensures Consistent(AddSession(x, s))
  {
    AddKeepsMapping(x, s);
    MapSizes(x.sessions, s.sessionId, s);
  }

  lemma UpdateKeepsConsistent(x: Index, s: Session)
    requires Consistent(x) && s.sessionId in x.sessions && KeepsLegs(x.sessions[s.sessionId], s)
    ensures Consistent(UpdateSession(x, s))
  {
    assert UpdateSession(x, s).sessions.Keys == x.sessions.Keys;
    assert |UpdateSession(x, s).sessions.Keys| == |x.sessions.Keys|;
  }

  lemma RemoveKeepsConsistent(x: Index, id: string)
    requires Consistent(x)
    ensures Consistent(RemoveSession(x, id))
  {
    if id in x.sessions {
      assert RemoveSession(x, id).sessions.Keys == x.sessions.Keys - {id};
      assert |RemoveSession(x, id).sessions.Keys| == |x.sessions.Keys| - 1;
    }
  }

  /** Nothing points to a removed session. */
  lemma NothingDangles(x: Index, id: string)
    requires Consistent(x)
    ensures id !in RemoveSession(x, id).mapping.Values && id !in RemoveSession(x, id).sessions
  {
    RemoveKeepsConsistent(x, id);
  }

  /** The minutes of a removed session count only if it was connected, and whole. */
  lemma MinutesOfRemoved(x: Index, id: string)
    ensures var minutes := RemoveSession(x, id).stats.callMinutes - x.stats.callMinutes;
            if id in x.sessions && x.sessions[id].state == Connected && x.sessions[id].duration.Some?
            then 60 * minutes <= x.sessions[id].duration.value < 60 * minutes + 60
            else minutes == 0
  {
  }

  /** Why runs must be serial: an update that arrives after its session was removed brings the session
      back and breaks the index, whatever it was before. */
  lemma LateUpdateBreaks(x: Index, s: Session)
    requires Consistent(x) && s.sessionId in x.sessions
    ensures !Consistent(UpdateSession(RemoveSession(x, s.sessionId), s))
  {
    var x' := UpdateSession(RemoveSession(x, s.sessionId), s);
    RemoveKeepsConsistent(x, s.sessionId);
    assert x'.sessions.Keys == x.sessions.Keys;
    assert |x'.sessions.Keys| == |x.sessions.Keys| == x'.stats.active + 1;
  }
}
