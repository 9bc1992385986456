/** What the jitter buffer is for: packets that arrive in any order within its depth are played out in
    sequence order, with nothing lost. And the window of JitterWindow cannot be widened by one. */
module JitterReorder {
  import opened Common
  import opened CesopsnPacket
  import opened JitterBuffer
  import opened JitterWindow

  // ---------- Filling ----------

  ghost predicate AllArrivals(events: seq<QueueEvent>) {
    forall e :: e in events ==> e.Arrival?
  }

  ghost predicate CanFill(q: Queue, events: seq<QueueEvent>) {
    && AllArrivals(events)
    && Ahead(q) && Valid(q)
    && |q.items| + |events| <= q.maxSize
    && Distinct(Arrivals(events))
    && (forall y :: y in q.items ==> y.index !in Arrivals(events) && y.index < q.next + 32768)
    && (forall e :: e in events ==> Numbered(e.x) && q.next <= e.x.index < q.next + 32768)
  }

  /** q' is q with exactly the packets `added` put in their places. */
  ghost predicate Filled(q: Queue, added: seq<Indexed>, q': Queue) {
    && Ahead(q')
    && q' == q.(items := q'.items, received := q.received + |added|)
    && |q'.items| == |q.items| + |added|
    && (forall y :: y in q'.items <==> y in q.items || y in added)
  }

  lemma ArrivalsTail(events: seq<QueueEvent>)
    requires events != [] && events[0].Arrival?
    ensures Arrivals(events) == [events[0].x.index] + Arrivals(events[1..])
    ensures Distinct(Arrivals(events)) ==>
              Distinct(Arrivals(events[1..])) && events[0].x.index !in Arrivals(events[1..])
  {
    var all, later := Arrivals(events), Arrivals(events[1..]);
    assert all[1..] == later;
    if Distinct(all) {
      forall i | 0 <= i < |later| ensures later[i] != events[0].x.index {
        assert later[i] == all[i + 1];
      }
    }
  }

  lemma FillOne(q: Queue, x: Indexed, now: int)
    requires Ahead(q) && Valid(q) && |q.items| < q.maxSize && Numbered(x)
    requires q.next <= x.index < q.next + 32768
    requires forall y :: y in q.items ==> y.index != x.index && y.index < q.next + 32768
    ensures StepFits(q, Arrival(x, now))
    ensures Filled(q, [Stamp(x, now)], QueueAdd(q, Stamp(x, now))) && Valid(QueueAdd(q, Stamp(x, now)))
  {
    assert QueueRoom(q) == q.items;
    AddAgrees(q, x, now);
    InsertKeepsOrder(q.items, Stamp(x, now));
    StepKeepsAhead(q, Arrival(x, now));
  }

  lemma FillStep(q: Queue, events: seq<QueueEvent>)
    requires CanFill(q, events) && events != []
    ensures events[0].Arrival? && StepFits(q, events[0])
    ensures QueueStep(q, events[0]).1 == []
    ensures var q' := QueueStep(q, events[0]).0;
            CanFill(q', events[1..]) && Filled(q, [Stamp(events[0].x, events[0].now)], q')
  {
    var e := events[0];
    assert e in events;
    ArrivalsTail(events);
    assert e.x.index in Arrivals(events);
    FillOne(q, e.x, e.now);
    var q' := QueueStep(q, e).0;
    forall y | y in q'.items ensures y.index !in Arrivals(events[1..]) && y.index < q'.next + 32768 {
    }
  }

  /** The packets of a run of arrivals, as the buffer stores them. */
  function Stamped(events: seq<QueueEvent>): seq<Indexed>
    requires forall e :: e in events ==> e.Arrival?
  {
    if events == [] then [] else [Stamp(events[0].x, events[0].now)] + Stamped(events[1..])
  }

  lemma {:induction false} Fill(q: Queue, events: seq<QueueEvent>)
    requires CanFill(q, events)
    ensures |Stamped(events)| == |events|
    ensures RunFits(q, events)
    ensures QueueRun(q, events).1 == [] && Filled(q, Stamped(events), QueueRun(q, events).0)
    ensures Valid(QueueRun(q, events).0)
    decreases |events|
  {
    if events == [] {
      assert Stamped(events) == [];
    } else {
      FillStep(q, events);
      var q1 := QueueStep(q, events[0]).0;
      Fill(q1, events[1..]);
      var later := Stamped(events[1..]);
      assert Stamped(events) == [Stamp(events[0].x, events[0].now)] + later;
      var q' := QueueRun(q, events).0;
      assert q' == QueueRun(q1, events[1..]).0;
      assert Filled(q1, later, q');
    }
  }

  // ---------- Draining ----------

  ghost predicate Consecutive(items: seq<Indexed>, start: int) {
    forall i :: 0 <= i < |items| ==> items[i].index == start + i
  }

  function Requests(n: nat): (r: seq<QueueEvent>)
    ensures |r| == n && forall i :: 0 <= i < n ==> r[i] == Request
  {
    seq(n, _ => Request)
  }

  lemma {:induction false} Drain(q: Queue)
    requires Consecutive(q.items, q.next)
    ensures var (q', outs) := QueueRun(q, Requests(|q.items|));
            outs == q.items && q' == q.(items := [], next := q.next + |q.items|)
    ensures RunFits(q, Requests(|q.items|))
    decreases |q.items|
  {
    if q.items != [] {
      assert Requests(|q.items|)[1..] == Requests(|q.items[1..]|);
      Drain(QueueStep(q, Request).0);
    }
  }

  /** Distinct integers, as many as the range they lie in holds, are that range in order. */
  lemma {:induction false} StrictIsConsecutive(items: seq<Indexed>, start: int)
    requires StrictlySorted(items)
    requires forall x :: x in items ==> start <= x.index < start + |items|
    ensures Consecutive(items, start)
  {
    forall i | 0 <= i < |items| ensures items[i].index == start + i {
      AtLeast(items, start, i);
      AtMost(items, start, i);
    }
  }

  lemma {:induction false} AtLeast(items: seq<Indexed>, start: int, i: nat)
    requires StrictlySorted(items) && i < |items| && start <= items[0].index
    ensures items[i].index >= start + i
  {
    if i > 0 {
      AtLeast(items, start, i - 1);
    }
  }

  lemma {:induction false} AtMost(items: seq<Indexed>, start: int, i: nat)
    requires StrictlySorted(items) && i < |items| && items[|items| - 1].index < start + |items|
    ensures items[i].index <= start + i
    decreases |items| - i
  {
    if i < |items| - 1 {
      AtMost(items, start, i + 1);
    }
  }

  // ---------- Any order in, sequence order out ----------

  lemma {:induction false} QueueRunSplit(q: Queue, a: seq<QueueEvent>, b: seq<QueueEvent>)
    ensures var (q', outs) := QueueRun(q, a);
            var (q'', outs') := QueueRun(q', b);
            QueueRun(q, a + b) == (q'', outs + outs')
    ensures RunFits(q, a) && RunFits(QueueRun(q, a).0, b) ==> RunFits(q, a + b)
    decreases |a|
  {
    if a == [] {
      assert a + b == b;
      assert [] + QueueRun(q, b).1 == QueueRun(q, b).1;
    } else {
      assert (a + b)[1..] == a[1..] + b;
      var (q1, out) := QueueStep(q, a[0]);
      QueueRunSplit(q1, a[1..], b);
      var (q2, outs) := QueueRun(q1, a[1..]);
      var (q3, outs') := QueueRun(q2, b);
      assert QueueRun(q, a) == (q2, out + outs);
      assert (a + b)[0] == a[0];
      assert QueueRun(q, a + b) == (q3, out + (outs + outs'));
      assert out + (outs + outs') == (out + outs) + outs';
    }
  }

  function ArrivalsOf(start: int, arrivals: seq<Packet>, nows: seq<int>, order: seq<int>): (r: seq<QueueEvent>)
    requires |arrivals| == |nows| == |order|
    ensures |r| == |order|
    ensures forall i :: 0 <= i < |r| ==> r[i] == Arrival(Indexed(start + order[i], arrivals[i]), nows[i])
  {
    seq(|order|, i requires 0 <= i < |order| => Arrival(Indexed(start + order[i], arrivals[i]), nows[i]))
  }

  lemma {:induction false} ArrivalIndices(start: int, arrivals: seq<Packet>, nows: seq<int>, order: seq<int>)
    requires |arrivals| == |nows| == |order|
    ensures var indices := Arrivals(ArrivalsOf(start, arrivals, nows, order));
            |indices| == |order| && forall i :: 0 <= i < |order| ==> indices[i] == start + order[i]
    decreases |order|
  {
    if order != [] {
      var events := ArrivalsOf(start, arrivals, nows, order);
      assert events[1..] == ArrivalsOf(start, arrivals[1..], nows[1..], order[1..]);
      ArrivalIndices(start, arrivals[1..], nows[1..], order[1..]);
      assert forall i :: 1 <= i < |order| ==> order[i] == order[1..][i - 1];
    }
  }

  lemma {:induction false} StampedAt(events: seq<QueueEvent>)
    requires forall e :: e in events ==> e.Arrival?
    ensures |Stamped(events)| == |events|
    ensures forall i :: 0 <= i < |events| ==> Stamped(events)[i] == Stamp(events[i].x, events[i].now)
  {
    if events != [] {
      StampedAt(events[1..]);
      assert forall i :: 1 <= i < |events| ==> events[i] == events[1..][i - 1];
    }
  }

  lemma {:induction false} UnindexedAt(events: seq<QueueEvent>)
    ensures forall i :: 0 <= i < |events| ==> UnindexedRun(events)[i] == Unindexed(events[i])
  {
    if events != [] {
      UnindexedAt(events[1..]);
      assert forall i :: 1 <= i < |events| ==> events[i] == events[1..][i - 1];
    }
  }

  /** What the two theorems below ask of the arrivals: arrival i is the packet at place `order[i]`. */
  ghost predicate Shuffled(start: int, arrivals: seq<Packet>, nows: seq<int>, order: seq<int>) {
    && |arrivals| == |nows| == |order| <= 32768
    && Distinct(order)
    && (forall i :: 0 <= i < |order| ==> 0 <= order[i] < |order|)
    && (forall i :: 0 <= i < |order| ==> arrivals[i].header.sequenceNumber == Residue(start + order[i]))
  }

  lemma ShuffleCanFill(q: Queue, arrivals: seq<Packet>, nows: seq<int>, order: seq<int>)
    requires q.items == [] && Shuffled(q.next, arrivals, nows, order) && |order| <= q.maxSize
    ensures CanFill(q, ArrivalsOf(q.next, arrivals, nows, order))
  {
    ArrivalIndices(q.next, arrivals, nows, order);
  }

  lemma StampedArrivals(start: int, arrivals: seq<Packet>, nows: seq<int>, order: seq<int>)
    requires |arrivals| == |nows| == |order|
    ensures var added := Stamped(ArrivalsOf(start, arrivals, nows, order));
            && |added| == |order|
            && forall i :: 0 <= i < |order| ==> added[i] == Stamp(Indexed(start + order[i], arrivals[i]), nows[i])
  {
    StampedAt(ArrivalsOf(start, arrivals, nows, order));
  }

  lemma FillFacts(q: Queue, arrivals: seq<Packet>, nows: seq<int>, order: seq<int>)
    requires q.items == [] && Shuffled(q.next, arrivals, nows, order) && |order| <= q.maxSize
    ensures var fill := ArrivalsOf(q.next, arrivals, nows, order);
            RunFits(q, fill) && QueueRun(q, fill).1 == [] && Filled(q, Stamped(fill), QueueRun(q, fill).0)
  {
    ShuffleCanFill(q, arrivals, nows, order);
    Fill(q, ArrivalsOf(q.next, arrivals, nows, order));
  }

  /** The packet of arrival i is at place `order[i]`, as the buffer stores it. */
  ghost predicate EachAt(items: seq<Indexed>, start: int, arrivals: seq<Packet>, nows: seq<int>, order: seq<int>)
    requires |arrivals| == |nows| == |order|
  {
    && |items| == |order|
    && (forall i :: 0 <= i < |order| ==> 0 <= order[i] < |items|)
    && (forall i :: 0 <= i < |order| ==>
          items[order[i]] == Stamp(Indexed(start + order[i], arrivals[i]), nows[i]))
  }

  lemma FilledConsecutive(q: Queue, arrivals: seq<Packet>, nows: seq<int>, order: seq<int>, full: Queue)
    requires q.items == [] && Shuffled(q.next, arrivals, nows, order)
    requires Filled(q, Stamped(ArrivalsOf(q.next, arrivals, nows, order)), full)
    ensures |full.items| == |order| && Consecutive(full.items, q.next)
  {
    StampedArrivals(q.next, arrivals, nows, order);
    StrictIsConsecutive(full.items, q.next);
  }

  lemma PlaceInOrder(items: seq<Indexed>, start: int, y: Indexed)
    requires Consecutive(items, start) && y in items
    ensures 0 <= y.index - start < |items| && items[y.index - start] == y
  {
  }

  lemma EachInPlace(items: seq<Indexed>, start: int, arrivals: seq<Packet>, nows: seq<int>, order: seq<int>)
    requires |arrivals| == |nows| == |order| == |items| && Consecutive(items, start)
    requires forall y :: y in Stamped(ArrivalsOf(start, arrivals, nows, order)) ==> y in items
    ensures EachAt(items, start, arrivals, nows, order)
  {
    var added := Stamped(ArrivalsOf(start, arrivals, nows, order));
    StampedArrivals(start, arrivals, nows, order);
    forall i | 0 <= i < |order| ensures 0 <= order[i] < |items| && items[order[i]] == added[i] {
      PlaceInOrder(items, start, added[i]);
    }
  }

  /** Filling leaves the packets in index order, each in its own place. */
  lemma FilledInOrder(q: Queue, arrivals: seq<Packet>, nows: seq<int>, order: seq<int>)
    requires q.items == [] && Shuffled(q.next, arrivals, nows, order) && |order| <= q.maxSize
    ensures var fill := ArrivalsOf(q.next, arrivals, nows, order);
            var (full, outs) := QueueRun(q, fill);
            && RunFits(q, fill) && outs == []
            && full == q.(items := full.items, received := q.received + |order|)
            && Consecutive(full.items, q.next) && EachAt(full.items, q.next, arrivals, nows, order)
  {
    FillFacts(q, arrivals, nows, order);
    var fill := ArrivalsOf(q.next, arrivals, nows, order);
    var full := QueueRun(q, fill).0;
    FilledConsecutive(q, arrivals, nows, order, full);
    EachInPlace(full.items, q.next, arrivals, nows, order);
    assert |Stamped(fill)| == |order| by {
      StampedArrivals(q.next, arrivals, nows, order);
    }
  }

  /** The reordering law for the queue of indices. */
  lemma QueueReorders(q: Queue, arrivals: seq<Packet>, nows: seq<int>, order: seq<int>)
    requires q.items == [] && Shuffled(q.next, arrivals, nows, order) && |order| <= q.maxSize
    ensures var k := |order|;
            var events := ArrivalsOf(q.next, arrivals, nows, order) + Requests(k);
            var (q', outs) := QueueRun(q, events);
            && RunFits(q, events)
            && q' == q.(received := q.received + k, next := q.next + k)
            && Consecutive(outs, q.next) && EachAt(outs, q.next, arrivals, nows, order)
  {
    var fill, drain := ArrivalsOf(q.next, arrivals, nows, order), Requests(|order|);
    FilledInOrder(q, arrivals, nows, order);
    var full := QueueRun(q, fill).0;
    Drain(full);
    QueueRunSplit(q, fill, drain);
    assert [] + full.items == full.items;
  }

  function ShuffledRun(arrivals: seq<Packet>, nows: seq<int>): seq<Event>
    requires |arrivals| == |nows|
  {
    seq(|nows|, i requires 0 <= i < |nows| => Arrive(arrivals[i], nows[i])) + Playouts(|nows|)
  }

  lemma ShuffledRunUnindexed(start: int, arrivals: seq<Packet>, nows: seq<int>, order: seq<int>)
    requires |arrivals| == |nows| == |order|
    ensures UnindexedRun(ArrivalsOf(start, arrivals, nows, order) + Requests(|order|)) ==
            ShuffledRun(arrivals, nows)
  {
    var indexed := ArrivalsOf(start, arrivals, nows, order) + Requests(|order|);
    UnindexedAt(indexed);
    forall i | 0 <= i < |indexed| ensures UnindexedRun(indexed)[i] == ShuffledRun(arrivals, nows)[i] {
      assert UnindexedRun(indexed)[i] == Unindexed(indexed[i]);
    }
  }

  /** Starting empty with next sequence number s, k packets numbered s, s+1, ... modulo 65536 arriving
      in any order (`order[i]` is the place of arrival i), then k playouts: the packets come out in
      sequence order, each with its own payload, nothing late, nothing dropped, nothing left. k may be
      anything up to the buffer's size and half the sequence space. */
  lemma ReorderingUndone(maxSize: nat, s: U16, arrivals: seq<Packet>, nows: seq<int>, order: seq<int>)
    requires Shuffled(s, arrivals, nows, order) && |order| <= maxSize
    ensures var k := |order|;
            var (end, played) := Run(Empty(maxSize).(nextSequence := s), ShuffledRun(arrivals, nows));
            && end == Empty(maxSize).(nextSequence := Residue(s + k), received := k)
            && |played| == k
            && (forall i :: 0 <= i < k ==> played[i].header.sequenceNumber == Residue(s + i))
            && (forall i :: 0 <= i < k ==> played[order[i]] == arrivals[i].(receivedAt := Some(nows[i])))
  {
    var q := EmptyQueue(maxSize, s);
    assert Residue(s) == s && Wrap(q) == Empty(maxSize).(nextSequence := s);
    var q', outs := PlayedOut(q, arrivals, nows, order);
    assert Wrap(q') == Empty(maxSize).(nextSequence := Residue(s + |order|), received := |order|);
    forall i | 0 <= i < |order| ensures Packets(outs)[i].header.sequenceNumber == Residue(s + i) {
      assert outs[i] in outs;
    }
  }

  lemma PlayedOut(q: Queue, arrivals: seq<Packet>, nows: seq<int>, order: seq<int>)
    returns (q': Queue, outs: seq<Indexed>)
    requires q.items == [] && Shuffled(q.next, arrivals, nows, order) && |order| <= q.maxSize
    ensures Run(Wrap(q), ShuffledRun(arrivals, nows)) == (Wrap(q'), Packets(outs))
    ensures q' == q.(received := q.received + |order|, next := q.next + |order|)
    ensures Consecutive(outs, q.next) && EachAt(outs, q.next, arrivals, nows, order)
    ensures forall x :: x in outs ==> Numbered(x)
  {
    QueueReorders(q, arrivals, nows, order);
    var indexed := ArrivalsOf(q.next, arrivals, nows, order) + Requests(|order|);
    q', outs := QueueRun(q, indexed).0, QueueRun(q, indexed).1;
    assert forall x :: x in outs ==> Numbered(x) by {
      PlayoutInOrder(q, indexed);
    }
    assert Run(Wrap(q), ShuffledRun(arrivals, nows)) == (Wrap(q'), Packets(outs)) by {
      ShuffledRunUnindexed(q.next, arrivals, nows, order);
      BufferRefinesQueue(q, indexed);
    }
  }

  // ---------- The window is tight ----------

  function Numbering(index: int): Indexed {
    Indexed(index, Packet(Header(Residue(index), 0, 0, 0, 0, false, false, 0), [], None))
  }

  /** Offset 32767 is one too many. Index 0 arrives twice and is played once, so its copy waits one
      behind the next index; index 32768 then arrives at offset 32767 and is placed in front of it. */
  lemma WindowTopIsTight()
    ensures var x, y := Numbering(0), Numbering(32768);
            var q := QueueRun(EmptyQueue(4, 0), [Arrival(x, 0), Arrival(x, 0), Request]).0;
            && Valid(q) && y.index - q.next == 32767
            && Wrap(QueueAdd(q, Stamp(y, 0))) != Add(Wrap(q), y.packet, 0)
  {
    var x, y := Numbering(0), Numbering(32768);
    var q0 := EmptyQueue(4, 0);
    var events := [Arrival(x, 0), Arrival(x, 0), Request];
    var q1 := QueueAdd(q0, Stamp(x, 0));
    var q2 := QueueAdd(q1, Stamp(x, 0));
    assert q1.items == [Stamp(x, 0)];
    assert q2.items == [Stamp(x, 0), Stamp(x, 0)];
    var q := QueueGet(q2).0;
    assert q.items == [Stamp(x, 0)] && q.next == 1;
    assert events[1..] == [Arrival(x, 0), Request] && events[1..][1..] == [Request];
    assert QueueRun(q2, [Request]).0 == q;
    assert QueueRun(q1, events[1..]).0 == q;
    assert QueueRun(q0, events).0 == q;
    assert q.items[0] in QueueRoom(q);
    assert !Fits(q, y.index);
    AddAgreesExactly(q, y, 0);
  }

  /** Offset -32768 is one too many: it is half the space behind, and is not called late. */
  lemma WindowBottomIsTight(q: Queue, x: Indexed, now: int)
    requires Valid(q) && Numbered(x) && x.index - q.next == -32768
    ensures x.index < q.next && Add(Wrap(q), x.packet, now).late == q.late
    ensures QueueAdd(q, Stamp(x, now)).late == q.late + 1
  {
    LateAgrees(x.index, q.next);
  }
}
