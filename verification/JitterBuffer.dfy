/** The CESoPSN jitter buffer: a reorder buffer over wrapping 16-bit sequence numbers. `Add` and `Get`
    give the effect of one call on the buffer's state; the class below carries the state in its
    fields. Time enters as the argument `now`. */
module JitterBuffer {
  import opened Common
  import opened CesopsnPacket

  function WrappingSub(a: U16, b: U16): U16 { if b <= a then a - b else a - b + 0x1_0000 }

  function WrappingInc(a: U16): U16 { if a == 0xFFFF then 0 else a + 1 }

  /** The cast of an unsigned 16-bit difference to a signed one. */
  function AsSigned(n: U16): int { if n < 0x8000 then n else n - 0x1_0000 }

  predicate IsSequenceLate(number: U16, next: U16) {
    WrappingSub(number, next) > 32768
  }

  function SequenceCompare(a: U16, b: U16): int {
    AsSigned(WrappingSub(a, b))
  }

  datatype State = State(
    buffer: seq<Packet>,
    maxSize: nat,
    targetDepth: nat,
    nextSequence: U16,
    received: nat,
    dropped: nat,
    late: nat)

  function Empty(maxSize: nat): State {
    State([], maxSize, maxSize / 2, 0, 0, 0, 0)
  }

  /** The first place whose packet compares as later than `number`. */
  function InsertPosition(buffer: seq<Packet>, number: U16): (pos: nat)
    ensures pos <= |buffer|
    ensures forall i :: 0 <= i < pos ==> SequenceCompare(number, buffer[i].header.sequenceNumber) >= 0
    ensures pos < |buffer| ==> SequenceCompare(number, buffer[pos].header.sequenceNumber) < 0
  {
    if buffer == [] || SequenceCompare(number, buffer[0].header.sequenceNumber) < 0 then 0
    else 1 + InsertPosition(buffer[1..], number)
  }

  function InsertAt<T>(s: seq<T>, pos: nat, x: T): seq<T>
    requires pos <= |s|
  {
    s[..pos] + [x] + s[pos..]
  }

  /** Dropping the front packet when the buffer is full; an empty buffer has nothing to drop. */
  function MakeRoom(s: State): State {
    if |s.buffer| >= s.maxSize && s.buffer != []
    then s.(buffer := s.buffer[1..], dropped := s.dropped + 1)
    else s
  }

  /** Queueing a packet that is not late. */
  function Enqueue(s: State, packet: Packet): State {
    var room := MakeRoom(s);
    var pos := InsertPosition(room.buffer, packet.header.sequenceNumber);
    room.(received := s.received + 1, buffer := InsertAt(room.buffer, pos, packet))
  }

  function Add(s: State, packet: Packet, now: int): State {
    if IsSequenceLate(packet.header.sequenceNumber, s.nextSequence)
    then s.(received := s.received + 1, late := s.late + 1)
    else Enqueue(s, packet.(receivedAt := Some(now)))
  }

  function Get(s: State): (State, Option<Packet>) {
    if s.buffer != [] && s.buffer[0].header.sequenceNumber == s.nextSequence then
      (s.(buffer := s.buffer[1..], nextSequence := WrappingInc(s.nextSequence)), Some(s.buffer[0]))
    else if |s.buffer| > s.targetDepth then
      (s.(buffer := s.buffer[1..], nextSequence := WrappingInc(s.buffer[0].header.sequenceNumber)),
       Some(s.buffer[0]))
    else
      (s, None)
  }

  class CesopsnJitterBuffer {
    var buffer: seq<Packet>
    const maxSize: nat
    const targetDepth: nat
    var nextSequence: U16
    var packetsReceived: nat
    var packetsDropped: nat
    var packetsLate: nat

    ghost function View(): State
      reads this
    {
      State(buffer, maxSize, targetDepth, nextSequence, packetsReceived, packetsDropped, packetsLate)
    }

    constructor (maxSize: nat)
      ensures View() == Empty(maxSize)
    {
      this.buffer := [];
      this.maxSize := maxSize;
      this.targetDepth := maxSize / 2;
      this.nextSequence := 0;
      this.packetsReceived, this.packetsDropped, this.packetsLate := 0, 0, 0;
    }

    method AddPacket(packet: Packet, now: int)
      modifies this
      ensures View() == Add(old(View()), packet, now)
    {
      packetsReceived := packetsReceived + 1;
      var stamped := packet.(receivedAt := Some(now));
      var number := packet.header.sequenceNumber;
      if IsSequenceLate(number, nextSequence) {
        packetsLate := packetsLate + 1;
        return;
      }
      if |buffer| >= maxSize {
        if buffer != [] {
          buffer := buffer[1..];
          packetsDropped := packetsDropped + 1;
        }
      }
      var insertPos := InsertPosition(buffer, number);
      buffer := buffer[..insertPos] + [stamped] + buffer[insertPos..];
    }

    method GetNextPacket() returns (packet: Option<Packet>)
      modifies this
      ensures (View(), packet) == Get(old(View()))
    {
      if buffer != [] {
        var front := buffer[0];
        if front.header.sequenceNumber == nextSequence {
          buffer := buffer[1..];
          nextSequence := WrappingInc(nextSequence);
          return Some(front);
        }
      }
      if |buffer| > targetDepth {
        var front := buffer[0];
        buffer := buffer[1..];
        nextSequence := WrappingInc(front.header.sequenceNumber);
        return Some(front);
      }
      return None;
    }
  }

  // ---------- Whole runs ----------

  datatype Event = Arrive(packet: Packet, now: int) | Playout

  function Step(s: State, e: Event): (State, seq<Packet>) {
    match e
    case Arrive(packet, now) => (Add(s, packet, now), [])
    case Playout =>
      var (s', out) := Get(s);
      (s', if out.Some? then [out.value] else [])
  }

  /** The state after a run, and the packets it played out, in order. */
  function Run(s: State, events: seq<Event>): (State, seq<Packet>)
    decreases |events|
  {
    if events == [] then (s, [])
    else
      var (s', out) := Step(s, events[0]);
      var (s'', outs) := Run(s', events[1..]);
      (s'', out + outs)
  }

  function Capacity(s: State): nat {
    if s.maxSize > 0 then s.maxSize else 1
  }

  ghost predicate Accounted(s: State, played: nat) {
    && s.received == s.late + s.dropped + played + |s.buffer|
    && |s.buffer| <= Capacity(s)
  }

  /** Every packet received is late, dropped, played out or still buffered, and the depth never
      exceeds max(maxSize, 1): over any run, with sequence numbers of any kind. */
  lemma {:induction false} RunAccounts(s: State, played: nat, events: seq<Event>)
    requires Accounted(s, played)
    ensures var (s', outs) := Run(s, events);
            Accounted(s', played + |outs|) && s'.maxSize == s.maxSize && s'.targetDepth == s.targetDepth
    decreases |events|
  {
    if events != [] {
      var (s', out) := Step(s, events[0]);
      RunAccounts(s', played + |out|, events[1..]);
    }
  }

  lemma RunFromEmptyAccounts(maxSize: nat, events: seq<Event>)
    ensures var (s, outs) := Run(Empty(maxSize), events);
            && s.received == s.late + s.dropped + |outs| + |s.buffer|
            && |s.buffer| <= if maxSize > 0 then maxSize else 1
  {
    RunAccounts(Empty(maxSize), 0, events);
  }

  /** A playout takes exactly the front packet, or it changes nothing and the depth is at most the
      target: a buffer deeper than the target always makes progress. */
  lemma GetProgress(s: State)
    ensures match Get(s)
            case (s', Some(p)) => s.buffer == [p] + s'.buffer && s'.nextSequence == WrappingInc(p.header.sequenceNumber)
            case (s', None) => s' == s && |s.buffer| <= s.targetDepth
  {
    if Get(s).1.Some? {
      assert s.buffer == [s.buffer[0]] + s.buffer[1..];
    }
  }

  function Playouts(n: nat): (r: seq<Event>)
    ensures |r| == n && forall i :: 0 <= i < n ==> r[i] == Playout
  {
    seq(n, _ => Playout)
  }

  /** Without arrivals, playouts release everything above the target depth, one packet a call. */
  lemma {:induction false} PlayoutsDrain(s: State, n: nat)
    ensures var (s', outs) := Run(s, Playouts(n));
            && outs + s'.buffer == s.buffer
            && |s'.buffer| <= (if |s.buffer| - n > s.targetDepth then |s.buffer| - n else s.targetDepth)
    decreases n
  {
    if n == 0 {
      assert Playouts(n) == [];
      assert [] + s.buffer == s.buffer;
    } else {
      var s', out := PlayoutStep(s);
      PlayoutsDrain(s', n - 1);
      var (s'', outs) := Run(s', Playouts(n - 1));
      assert Run(s, Playouts(n)) == (s'', out + outs) by {
        assert Playouts(n)[1..] == Playouts(n - 1);
      }
      calc {
        (out + outs) + s''.buffer;
        { Associative(out, outs, s''.buffer); }
        out + (outs + s''.buffer);
        s.buffer;
      }
    }
  }

  lemma Associative<T>(a: seq<T>, b: seq<T>, c: seq<T>)
    ensures (a + b) + c == a + (b + c)
  {
  }

  lemma PlayoutStep(s: State) returns (s': State, out: seq<Packet>)
    ensures Step(s, Playout) == (s', out)
    ensures out + s'.buffer == s.buffer && s'.targetDepth == s.targetDepth
    ensures |s'.buffer| == |s.buffer| - 1 || |s'.buffer| == |s.buffer| <= s.targetDepth
  {
    GetProgress(s);
    s', out := Step(s, Playout).0, Step(s, Playout).1;
  }

  // ---------- One arrival and one request ----------

  /** x put somewhere into s. */
  ghost predicate IsInsertion<T>(s: seq<T>, x: T, r: seq<T>) {
    exists pos :: 0 <= pos <= |s| && r == s[..pos] + [x] + s[pos..]
  }

  /** What an arrival does, to every field. A late packet is counted and nothing else happens; any other is
      stamped and queued, at the expense of the front packet alone and only if the buffer is full, all
      others keeping their order. */
  lemma AddExactly(s: State, packet: Packet, now: int)
    ensures var s', late := Add(s, packet, now), IsSequenceLate(packet.header.sequenceNumber, s.nextSequence);
            var full := |s.buffer| >= s.maxSize && s.buffer != [];
            var kept := if full then s.buffer[1..] else s.buffer;
            && s'.received == s.received + 1
            && s'.late == s.late + (if late then 1 else 0)
            && s'.dropped == s.dropped + (if !late && full then 1 else 0)
            && s'.nextSequence == s.nextSequence && s'.maxSize == s.maxSize && s'.targetDepth == s.targetDepth
            && (late ==> s'.buffer == s.buffer)
            && (!late ==> IsInsertion(kept, Packet(packet.header, packet.payload, Some(now)), s'.buffer))
  {
    if !IsSequenceLate(packet.header.sequenceNumber, s.nextSequence) {
      var stamped, room := packet.(receivedAt := Some(now)), MakeRoom(s);
      var pos := InsertPosition(room.buffer, packet.header.sequenceNumber);
      assert Add(s, packet, now).buffer == room.buffer[..pos] + [stamped] + room.buffer[pos..];
    }
  }

  /** A request is answered with the front packet exactly if it is the expected one or the buffer is deeper
      than the target; then it alone leaves, and the number after it is expected. Otherwise nothing changes. */
  lemma GetExactly(s: State)
    ensures var (s', out) := Get(s);
            var due := s.buffer != [] && (s.buffer[0].header.sequenceNumber == s.nextSequence || |s.buffer| > s.targetDepth);
            if due
            then out == Some(s.buffer[0]) && s' == s.(buffer := s.buffer[1..], nextSequence := s'.nextSequence)
                 && s'.nextSequence == (s.buffer[0].header.sequenceNumber + 1) % 0x1_0000
            else out == None && s' == s
  {
  }
}
