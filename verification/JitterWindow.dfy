/** The jitter buffer against its reference: a queue ordered by unbounded packet indices. A packet's
    16-bit sequence number is its index modulo 65536; within the stated window every decision of the
    16-bit buffer is the decision the queue makes on the indices. */
module JitterWindow {
  import opened Common
  import opened CesopsnPacket
  import opened JitterBuffer

  datatype Indexed = Indexed(index: int, packet: Packet)

  datatype Queue = Queue(
    items: seq<Indexed>,
    maxSize: nat,
    targetDepth: nat,
    next: int,
    received: nat,
    dropped: nat,
    late: nat)

  function EmptyQueue(maxSize: nat, next: int): Queue {
    Queue([], maxSize, maxSize / 2, next, 0, 0, 0)
  }

  // ---------- The reference queue ----------

  /** After every item of the same or a smaller index. */
  function InsertSorted(items: seq<Indexed>, x: Indexed): (r: seq<Indexed>)
    ensures |r| == |items| + 1
    ensures multiset(r) == multiset(items) + multiset{x}
  {
    if items == [] || x.index < items[0].index then [x] + items
    else
      assert items == [items[0]] + items[1..];
      [items[0]] + InsertSorted(items[1..], x)
  }

  function QueueRoom(q: Queue): seq<Indexed> {
    if |q.items| >= q.maxSize && q.items != [] then q.items[1..] else q.items
  }

  function QueueAdd(q: Queue, x: Indexed): Queue {
    if x.index < q.next then
      q.(received := q.received + 1, late := q.late + 1)
    else
      q.(received := q.received + 1,
         dropped := q.dropped + |q.items| - |QueueRoom(q)|,
         items := InsertSorted(QueueRoom(q), x))
  }

  function QueueGet(q: Queue): (Queue, Option<Indexed>) {
    if q.items != [] && (q.items[0].index == q.next || |q.items| > q.targetDepth) then
      (q.(items := q.items[1..], next := q.items[0].index + 1), Some(q.items[0]))
    else
      (q, None)
  }

  // ---------- Forgetting the indices ----------

  function Residue(index: int): U16 { index % 0x1_0000 }

  ghost predicate Numbered(x: Indexed) {
    x.packet.header.sequenceNumber == Residue(x.index)
  }

  function Packets(items: seq<Indexed>): (ps: seq<Packet>)
    ensures |ps| == |items|
    ensures forall i :: 0 <= i < |items| ==> ps[i] == items[i].packet
  {
    seq(|items|, i requires 0 <= i < |items| => items[i].packet)
  }

  /** The 16-bit buffer that this queue stands for. */
  function Wrap(q: Queue): State {
    State(Packets(q.items), q.maxSize, q.targetDepth, Residue(q.next), q.received, q.dropped, q.late)
  }

  ghost predicate Sorted(items: seq<Indexed>) {
    forall i, j :: 0 <= i < j < |items| ==> items[i].index <= items[j].index
  }

  /** What every step within the window keeps: the queue is in index order, nothing in it is more
      than one behind the next index or more than half the space ahead of it. (One behind: a second
      copy of the packet played last.) */
  ghost predicate Valid(q: Queue) {
    && Sorted(q.items)
    && (forall x :: x in q.items ==> Numbered(x) && q.next - 1 <= x.index <= q.next + 32768)
  }

  /** An arrival the 16-bit arithmetic can place: at most half the space from the next index, and,
      unless late, less than half the space ahead of everything it will be queued with. */
  ghost predicate Fits(q: Queue, index: int) {
    && q.next - 32767 <= index <= q.next + 32768
    && (index >= q.next ==> forall x :: x in QueueRoom(q) ==> index - x.index <= 32767)
  }

  // ---------- One step ----------

  lemma LateAgrees(index: int, next: int)
    requires -32768 <= index - next <= 32768
    ensures IsSequenceLate(Residue(index), Residue(next)) <==> index < next && index != next - 32768
  {
    WrapsDifference(index, next);
  }

  lemma WrapsDifference(a: int, b: int)
    ensures WrappingSub(Residue(a), Residue(b)) == (a - b) % 0x1_0000
  {
  }

  lemma CompareAgrees(a: int, b: int)
    requires -32768 <= a - b <= 32769
    ensures SequenceCompare(Residue(a), Residue(b)) < 0 <==> a < b || a - b >= 32768
  {
    WrapsDifference(a, b);
  }

  ghost predicate ComparesLikeIndex(number: U16, index: int, y: Indexed) {
    SequenceCompare(number, y.packet.header.sequenceNumber) < 0 <==> index < y.index
  }

  lemma InsertAtTail<T>(s: seq<T>, pos: nat, x: T)
    requires s != [] && pos <= |s| - 1
    ensures InsertAt(s, 1 + pos, x) == [s[0]] + InsertAt(s[1..], pos, x)
  {
  }

  lemma PacketsCons(x: Indexed, items: seq<Indexed>)
    ensures Packets([x] + items) == [x.packet] + Packets(items)
  {
  }

  lemma {:induction false} InsertionAgrees(items: seq<Indexed>, x: Indexed)
    requires forall y :: y in items ==> ComparesLikeIndex(x.packet.header.sequenceNumber, x.index, y)
    ensures Packets(InsertSorted(items, x)) ==
            InsertAt(Packets(items), InsertPosition(Packets(items), x.packet.header.sequenceNumber), x.packet)
  {
    var ps, number := Packets(items), x.packet.header.sequenceNumber;
    if items == [] {
    } else if x.index < items[0].index {
      assert ComparesLikeIndex(number, x.index, items[0]);
      PacketsCons(x, items);
      assert InsertPosition(ps, number) == 0;
    } else {
      assert ComparesLikeIndex(number, x.index, items[0]);
      var tail := items[1..];
      InsertionAgrees(tail, x);
      PacketsCons(items[0], tail);
      PacketsCons(items[0], InsertSorted(tail, x));
      assert items == [items[0]] + tail;
      assert ps[1..] == Packets(tail);
      var pos := InsertPosition(ps[1..], number);
      InsertAtTail(ps, pos, x.packet);
    }
  }

  lemma InsertMembers(items: seq<Indexed>, x: Indexed)
    ensures forall y :: y in InsertSorted(items, x) <==> y == x || y in items
  {
    forall y ensures y in InsertSorted(items, x) <==> y == x || y in items {
      assert y in multiset(InsertSorted(items, x)) <==> y in multiset(items) + multiset{x};
    }
  }

  lemma {:induction false} InsertKeepsOrder(items: seq<Indexed>, x: Indexed)
    requires Sorted(items)
    ensures Sorted(InsertSorted(items, x))
    ensures forall y :: y in InsertSorted(items, x) <==> y == x || y in items
  {
    InsertMembers(items, x);
    if items != [] && x.index >= items[0].index {
      var later := InsertSorted(items[1..], x);
      InsertKeepsOrder(items[1..], x);
      forall y | y in later ensures items[0].index <= y.index {
      }
      assert InsertSorted(items, x) == [items[0]] + later;
    }
  }

  /** The packet as the buffer stores it. */
  function Stamp(x: Indexed, now: int): Indexed {
    x.(packet := x.packet.(receivedAt := Some(now)))
  }

  /** Where the packet goes, in a queue whose packets are all less than half the space from it. */
  lemma PlaceAgrees(room: seq<Indexed>, x: Indexed)
    requires Numbered(x)
    requires forall y :: y in room ==> Numbered(y) && -32768 <= x.index - y.index <= 32767
    ensures Packets(InsertSorted(room, x)) ==
            InsertAt(Packets(room), InsertPosition(Packets(room), x.packet.header.sequenceNumber), x.packet)
  {
    forall y | y in room ensures ComparesLikeIndex(x.packet.header.sequenceNumber, x.index, y) {
      CompareAgrees(x.index, y.index);
    }
    InsertionAgrees(room, x);
  }

  lemma AddKeepsValid(q: Queue, x: Indexed)
    requires Valid(q) && Numbered(x) && x.index <= q.next + 32768
    ensures Valid(QueueAdd(q, x))
  {
    if x.index >= q.next {
      InsertKeepsOrder(QueueRoom(q), x);
    }
  }

  lemma RoomAgrees(q: Queue)
    ensures MakeRoom(Wrap(q)) ==
            Wrap(q).(buffer := Packets(QueueRoom(q)), dropped := q.dropped + |q.items| - |QueueRoom(q)|)
  {
    if q.items != [] {
      assert Packets(q.items)[1..] == Packets(q.items[1..]);
    }
  }

  lemma EnqueueAgrees(q: Queue, x: Indexed)
    requires x.index >= q.next && Numbered(x)
    requires forall y :: y in QueueRoom(q) ==> Numbered(y) && -32768 <= x.index - y.index <= 32767
    ensures Wrap(QueueAdd(q, x)) == Enqueue(Wrap(q), x.packet)
  {
    RoomAgrees(q);
    PlaceAgrees(QueueRoom(q), x);
  }

  lemma AddAgrees(q: Queue, x: Indexed, now: int)
    requires Valid(q) && Numbered(x) && Fits(q, x.index)
    ensures Wrap(QueueAdd(q, Stamp(x, now))) == Add(Wrap(q), x.packet, now)
    ensures Valid(QueueAdd(q, Stamp(x, now)))
  {
    AddKeepsValid(q, Stamp(x, now));
    LateAgrees(x.index, q.next);
    if x.index >= q.next {
      EnqueueAgrees(q, Stamp(x, now));
    }
  }

  /** An arrival that is not late and lies half the space or more ahead of the front packet compares
      as earlier than it: the buffer puts it first, where the queue puts it later. */
  lemma FarAheadGoesFirst(room: seq<Indexed>, x: Indexed)
    requires room != [] && Numbered(x) && Numbered(room[0])
    requires 32768 <= x.index - room[0].index <= 32769
    ensures InsertPosition(Packets(room), x.packet.header.sequenceNumber) == 0
    ensures InsertSorted(room, x)[0] == room[0]
    ensures x.packet.header.sequenceNumber != room[0].packet.header.sequenceNumber
  {
    CompareAgrees(x.index, room[0].index);
    WrapsDifference(x.index, room[0].index);
  }

  lemma EnqueueDisagrees(q: Queue, x: Indexed)
    requires x.index >= q.next && Numbered(x)
    requires QueueRoom(q) != [] && Numbered(QueueRoom(q)[0])
    requires 32768 <= x.index - QueueRoom(q)[0].index <= 32769
    ensures Wrap(QueueAdd(q, x)) != Enqueue(Wrap(q), x.packet)
  {
    var room := QueueRoom(q);
    RoomAgrees(q);
    FarAheadGoesFirst(room, x);
    assert Enqueue(Wrap(q), x.packet).buffer[0] == x.packet;
    assert Wrap(QueueAdd(q, x)).buffer[0] == room[0].packet;
  }

  lemma FarAheadDisagrees(q: Queue, x: Indexed, now: int)
    requires Valid(q) && Numbered(x) && q.next <= x.index <= q.next + 32768 && !Fits(q, x.index)
    ensures Wrap(QueueAdd(q, Stamp(x, now))) != Add(Wrap(q), x.packet, now)
  {
    var room := QueueRoom(q);
    var y :| y in room && x.index - y.index > 32767;
    assert room[0].index <= y.index && room[0] in q.items;
    LateAgrees(x.index, q.next);
    EnqueueDisagrees(q, Stamp(x, now));
  }

  /** The window is exact. For an arrival within half the sequence space on either side of the next
      index, the 16-bit buffer takes the queue's step if and only if the arrival fits. */
  lemma AddAgreesExactly(q: Queue, x: Indexed, now: int)
    requires Valid(q) && Numbered(x) && -32768 <= x.index - q.next <= 32768
    ensures Wrap(QueueAdd(q, Stamp(x, now))) == Add(Wrap(q), x.packet, now) <==> Fits(q, x.index)
  {
    if Fits(q, x.index) {
      AddAgrees(q, x, now);
    } else if x.index >= q.next {
      FarAheadDisagrees(q, x, now);
    } else {
      LateAgrees(x.index, q.next);
    }
  }

  lemma GetKeepsValid(q: Queue)
    requires Valid(q)
    ensures var (q', x) := QueueGet(q);
            && Valid(q') && q.next <= q'.next
            && (x.Some? ==> x.value in q.items && q.next - 1 <= x.value.index && q'.next == x.value.index + 1)
  {
    if q.items != [] {
      assert q.items[0] in q.items;
    }
  }

  lemma ResidueNext(index: int)
    ensures WrappingInc(Residue(index)) == Residue(index + 1)
  {
  }

  lemma FrontAgrees(q: Queue)
    requires Valid(q) && q.items != []
    ensures Packets(q.items)[0].header.sequenceNumber == Residue(q.items[0].index)
    ensures Residue(q.items[0].index) == Residue(q.next) <==> q.items[0].index == q.next
  {
    assert q.items[0] in q.items;
  }

  lemma GetAgrees(q: Queue)
    requires Valid(q)
    ensures var (q', x) := QueueGet(q);
            Get(Wrap(q)) == (Wrap(q'), if x.Some? then Some(x.value.packet) else None)
  {
    if q.items != [] {
      FrontAgrees(q);
      ResidueNext(q.items[0].index);
      assert Packets(q.items)[1..] == Packets(q.items[1..]);
    }
  }

  // ---------- Whole runs ----------

  datatype QueueEvent = Arrival(x: Indexed, now: int) | Request

  function QueueStep(q: Queue, e: QueueEvent): (Queue, seq<Indexed>) {
    match e
    case Arrival(x, now) => (QueueAdd(q, Stamp(x, now)), [])
    case Request =>
      var (q', out) := QueueGet(q);
      (q', if out.Some? then [out.value] else [])
  }

  function QueueRun(q: Queue, events: seq<QueueEvent>): (Queue, seq<Indexed>)
    decreases |events|
  {
    if events == [] then (q, [])
    else
      var (q', out) := QueueStep(q, events[0]);
      var (q'', outs) := QueueRun(q', events[1..]);
      (q'', out + outs)
  }

  function Unindexed(e: QueueEvent): Event {
    match e
    case Arrival(x, now) => Arrive(x.packet, now)
    case Request => Playout
  }

  function UnindexedRun(events: seq<QueueEvent>): (r: seq<Event>)
    ensures |r| == |events|
  {
    if events == [] then [] else [Unindexed(events[0])] + UnindexedRun(events[1..])
  }

  ghost predicate StepFits(q: Queue, e: QueueEvent) {
    e.Arrival? ==> Numbered(e.x) && Fits(q, e.x.index)
  }

  /** Every arrival of the run carries its index modulo 65536 and fits where it arrives. */
  ghost predicate RunFits(q: Queue, events: seq<QueueEvent>)
    decreases |events|
  {
    events != [] ==>
      && StepFits(q, events[0])
      && RunFits(QueueStep(q, events[0]).0, events[1..])
  }

  /** The plain form of the window: every arrival at an offset from -32767 to 32766 from the next
      index. It says nothing about what is buffered. */
  ghost predicate RunInWindow(q: Queue, events: seq<QueueEvent>)
    decreases |events|
  {
    events != [] ==>
      && (events[0].Arrival? ==> Numbered(events[0].x) && -32767 <= events[0].x.index - q.next <= 32766)
      && RunInWindow(QueueStep(q, events[0]).0, events[1..])
  }

  lemma StepAgrees(q: Queue, e: QueueEvent)
    requires Valid(q) && StepFits(q, e)
    ensures var (q', out) := QueueStep(q, e);
            && Step(Wrap(q), Unindexed(e)) == (Wrap(q'), Packets(out))
            && Valid(q') && q.next <= q'.next
            && (forall x :: x in out ==> Numbered(x) && q.next - 1 <= x.index && q'.next == x.index + 1)
  {
    match e
    case Arrival(x, now) =>
      AddAgrees(q, x, now);
      assert QueueStep(q, e) == (QueueAdd(q, Stamp(x, now)), []);
      assert Packets([]) == [];
    case Request =>
      GetAgrees(q);
      GetKeepsValid(q);
      var (q', out) := QueueGet(q);
      if out.Some? {
        assert Packets([out.value]) == [out.value.packet];
      } else {
        assert Packets([]) == [];
      }
  }

  lemma {:induction false} WindowFits(q: Queue, events: seq<QueueEvent>)
    requires Valid(q) && RunInWindow(q, events)
    ensures RunFits(q, events)
    decreases |events|
  {
    if events != [] {
      StepAgrees(q, events[0]);
      WindowFits(QueueStep(q, events[0]).0, events[1..]);
    }
  }

  lemma PacketsConcat(a: seq<Indexed>, b: seq<Indexed>)
    ensures Packets(a + b) == Packets(a) + Packets(b)
  {
  }

  /** Refinement. Over any run whose arrivals fit, across any number of wraparounds, the 16-bit buffer
      ends in the state the queue stands for and has played out the queue's packets, in its order. */
  lemma {:induction false} BufferRefinesQueue(q: Queue, events: seq<QueueEvent>)
    requires Valid(q) && RunFits(q, events)
    ensures Run(Wrap(q), UnindexedRun(events)) ==
            (Wrap(QueueRun(q, events).0), Packets(QueueRun(q, events).1))
    ensures Valid(QueueRun(q, events).0)
    decreases |events|
  {
    if events != [] {
      StepAgrees(q, events[0]);
      var (q', out) := QueueStep(q, events[0]);
      BufferRefinesQueue(q', events[1..]);
      var (q'', outs) := QueueRun(q', events[1..]);
      PacketsConcat(out, outs);
      var plain := UnindexedRun(events);
      assert plain[0] == Unindexed(events[0]) && plain[1..] == UnindexedRun(events[1..]);
      assert Run(Wrap(q), plain) == (Wrap(q''), Packets(out) + Packets(outs));
    }
  }

  // ---------- Order of playout ----------

  /** Within the window the indices played out never decrease and the next index never moves back. */
  lemma {:induction false} PlayoutInOrder(q: Queue, events: seq<QueueEvent>)
    requires Valid(q) && RunFits(q, events)
    ensures var (q', outs) := QueueRun(q, events);
            && q.next <= q'.next
            && Sorted(outs)
            && (forall x :: x in outs ==> Numbered(x) && q.next - 1 <= x.index < q'.next)
    decreases |events|
  {
    if events != [] {
      StepAgrees(q, events[0]);
      var (q', out) := QueueStep(q, events[0]);
      PlayoutInOrder(q', events[1..]);
    }
  }

  ghost predicate StrictlySorted(items: seq<Indexed>) {
    forall i, j :: 0 <= i < j < |items| ==> items[i].index < items[j].index
  }

  ghost predicate StepCopiesNothing(q: Queue, e: QueueEvent) {
    e.Arrival? ==> forall y :: y in q.items ==> y.index != e.x.index
  }

  /** No arrival repeats the index of a packet that is still buffered. */
  ghost predicate NoCopyOfBuffered(q: Queue, events: seq<QueueEvent>)
    decreases |events|
  {
    events != [] ==>
      && StepCopiesNothing(q, events[0])
      && NoCopyOfBuffered(QueueStep(q, events[0]).0, events[1..])
  }

  ghost predicate Ahead(q: Queue) {
    StrictlySorted(q.items) && forall x :: x in q.items ==> q.next <= x.index
  }

  lemma {:induction false} InsertKeepsStrictOrder(items: seq<Indexed>, x: Indexed)
    requires StrictlySorted(items) && forall y :: y in items ==> y.index != x.index
    ensures StrictlySorted(InsertSorted(items, x))
  {
    if items != [] && x.index >= items[0].index {
      var tail := items[1..];
      assert x.index > items[0].index by { assert items[0] in items; }
      InsertKeepsStrictOrder(tail, x);
      InsertKeepsOrder(tail, x);
      forall y | y in InsertSorted(tail, x) ensures items[0].index < y.index {
      }
    }
  }

  lemma StepKeepsAhead(q: Queue, e: QueueEvent)
    requires Ahead(q) && StepCopiesNothing(q, e)
    ensures Ahead(QueueStep(q, e).0)
  {
    match e
    case Arrival(x, now) =>
      if x.index >= q.next {
        InsertKeepsStrictOrder(QueueRoom(q), Stamp(x, now));
        InsertKeepsOrder(QueueRoom(q), Stamp(x, now));
      }
    case Request =>
      if q.items != [] {
        assert forall x :: x in q.items[1..] ==> q.items[0].index < x.index;
      }
  }

  /** If no arrival repeats an index still buffered (one already played is refused as late), playout
      is strictly increasing, never behind the next index. */
  lemma {:induction false} PlayoutStrictlyIncreasing(q: Queue, events: seq<QueueEvent>)
    requires Ahead(q) && NoCopyOfBuffered(q, events)
    ensures var (q', outs) := QueueRun(q, events);
            && Ahead(q') && q.next <= q'.next
            && StrictlySorted(outs)
            && (forall x :: x in outs ==> q.next <= x.index < q'.next)
    decreases |events|
  {
    if events != [] {
      StepKeepsAhead(q, events[0]);
      PlayoutStrictlyIncreasing(QueueStep(q, events[0]).0, events[1..]);
    }
  }

  /** The indices that arrive in a run. */
  function Arrivals(events: seq<QueueEvent>): seq<int> {
    if events == [] then []
    else (if events[0].Arrival? then [events[0].x.index] else []) + Arrivals(events[1..])
  }

  ghost predicate Distinct(s: seq<int>) {
    forall i, j :: 0 <= i < j < |s| ==> s[i] != s[j]
  }

  lemma {:induction false} DistinctArrivalsCopyNothing(q: Queue, events: seq<QueueEvent>)
    requires Ahead(q) && Distinct(Arrivals(events))
    requires forall y :: y in q.items ==> y.index !in Arrivals(events)
    ensures NoCopyOfBuffered(q, events)
    decreases |events|
  {
    if events != [] {
      var later := Arrivals(events[1..]);
      assert later == Arrivals(events)[|Arrivals(events)| - |later|..];
      var q' := QueueStep(q, events[0]).0;
      if events[0].Arrival? {
        assert Arrivals(events)[0] == events[0].x.index;
        assert Arrivals(events)[1..] == Arrivals(events[1..]);
        var room := QueueRoom(q);
        InsertKeepsOrder(room, Stamp(events[0].x, events[0].now));
      }
      forall y | y in q'.items ensures y.index !in Arrivals(events[1..]) {
      }
      StepKeepsAhead(q, events[0]);
      DistinctArrivalsCopyNothing(q', events[1..]);
    }
  }

  /** The whole statement on the 16-bit buffer: from a new buffer, over any run of arrivals in the
      window, the packets played out are those of some non-decreasing sequence of indices, strictly
      increasing when no index arrives twice, each packet numbered by its index modulo 65536. */
  lemma BufferPlaysInOrder(maxSize: nat, events: seq<QueueEvent>)
    requires RunInWindow(EmptyQueue(maxSize, 0), events)
    ensures var played := Run(Empty(maxSize), UnindexedRun(events)).1;
            var items := QueueRun(EmptyQueue(maxSize, 0), events).1;
            && |played| == |items|
            && (forall i :: 0 <= i < |played| ==>
                  && played[i] == items[i].packet
                  && played[i].header.sequenceNumber == Residue(items[i].index))
            && Sorted(items)
            && (Distinct(Arrivals(events)) ==> StrictlySorted(items))
  {
    var q := EmptyQueue(maxSize, 0);
    assert Wrap(q) == Empty(maxSize);
    WindowFits(q, events);
    BufferRefinesQueue(q, events);
    PlayoutInOrder(q, events);
    if Distinct(Arrivals(events)) {
      DistinctArrivalsCopyNothing(q, events);
      PlayoutStrictlyIncreasing(q, events);
    }
  }
}
