/** The pool of reusable buffers. A buffer is a vector: its items and the capacity it has grown to. The
    pool's queue is one object shared by the pool and every buffer it has handed out. */
module BufferPool {
  import opened Common

  datatype Vec<T> = Vec(items: seq<T>, capacity: nat)

  function Filled<T>(n: nat, zero: T): (v: Vec<T>)
    ensures |v.items| == n == v.capacity && forall x :: x in v.items ==> x == zero
  {
    Vec(seq(n, _ => zero), n)
  }

  /** The front buffer, or a new one when the queue is empty; and the queue that is left. */
  function Take<T>(queue: seq<Vec<T>>, size: nat, zero: T): (Vec<T>, seq<Vec<T>>) {
    if queue == [] then (Filled(size, zero), []) else (queue[0], queue[1..])
  }

  /** A vector resized: cut, or extended with `value`; growing past the capacity gives it a new one. */
  function Resized<T>(v: Vec<T>, newLen: nat, value: T, newCapacity: nat): Vec<T> {
    if newLen <= |v.items| then v.(items := v.items[..newLen])
    else Vec(v.items + seq(newLen - |v.items|, _ => value), if newLen <= v.capacity then v.capacity else newCapacity)
  }

  /** A returned buffer is cleared to its full capacity, and kept if there is room. */
  function PutBack<T>(queue: seq<Vec<T>>, v: Vec<T>, max: nat, zero: T): seq<Vec<T>> {
    if |queue| < max then queue + [Filled(v.capacity, zero)] else queue
  }

  function Preallocated<T>(queue: seq<Vec<T>>, count: nat, size: nat, max: nat, zero: T): (r: seq<Vec<T>>)
    ensures queue <= r
    decreases count
  {
    if count == 0 || |queue| >= max then queue
    else Preallocated(queue + [Filled(size, zero)], count - 1, size, max, zero)
  }

  function Min(a: nat, b: nat): nat { if a < b then a else b }

  class SharedQueue<T> {
    var buffers: seq<Vec<T>>

    constructor ()
      ensures buffers == []
    {
      buffers := [];
    }
  }

  class BufferPool<T> {
    const pool: SharedQueue<T>
    const bufferSize: nat
    const maxPoolSize: nat
    const zero: T

    constructor (bufferSize: nat, maxPoolSize: nat, zero: T)
      ensures fresh(pool) && pool.buffers == []
      ensures this.bufferSize == bufferSize && this.maxPoolSize == maxPoolSize && this.zero == zero
    {
      this.pool := new SharedQueue();
      this.bufferSize, this.maxPoolSize, this.zero := bufferSize, maxPoolSize, zero;
    }

    method Get() returns (buffer: PooledBuffer<T>)
      modifies pool
      ensures fresh(buffer) && buffer.pool == pool && buffer.maxPoolSize == maxPoolSize && buffer.zero == zero
      ensures (buffer.buffer, pool.buffers) == Take(old(pool.buffers), bufferSize, zero)
    {
      var v: Vec<T>;
      if pool.buffers == [] {
        v := Filled(bufferSize, zero);
      } else {
        v := pool.buffers[0];
        pool.buffers := pool.buffers[1..];
      }
      buffer := new PooledBuffer(v, pool, maxPoolSize, zero);
    }

    method Preallocate(count: nat)
      modifies pool
      ensures pool.buffers == Preallocated(old(pool.buffers), Min(count, maxPoolSize), bufferSize, maxPoolSize, zero)
    {
      var n := Min(count, maxPoolSize);
      var i := 0;
      while i < n
        invariant 0 <= i <= n
        invariant Preallocated(old(pool.buffers), n, bufferSize, maxPoolSize, zero) ==
                  Preallocated(pool.buffers, n - i, bufferSize, maxPoolSize, zero)
      {
        if |pool.buffers| >= maxPoolSize {
          break;
        }
        pool.buffers := pool.buffers + [Filled(bufferSize, zero)];
        i := i + 1;
      }
    }
  }

  class PooledBuffer<T> {
    var buffer: Vec<T>
    const pool: SharedQueue<T>
    const maxPoolSize: nat
    const zero: T

    constructor (buffer: Vec<T>, pool: SharedQueue<T>, maxPoolSize: nat, zero: T)
      ensures this.buffer == buffer && this.pool == pool && this.maxPoolSize == maxPoolSize && this.zero == zero
    {
      this.buffer, this.pool, this.maxPoolSize, this.zero := buffer, pool, maxPoolSize, zero;
    }

    method Resize(newLen: nat, value: T, newCapacity: nat)
      modifies this
      ensures buffer == Resized(old(buffer), newLen, value, newCapacity)
    {
      if newLen <= |buffer.items| {
        buffer := buffer.(items := buffer.items[..newLen]);
      } else {
        var items := buffer.items + seq(newLen - |buffer.items|, _ => value);
        buffer := Vec(items, if newLen <= buffer.capacity then buffer.capacity else newCapacity);
      }
    }

    method Drop()
      modifies this, pool
      ensures pool.buffers == PutBack(old(pool.buffers), old(buffer), maxPoolSize, zero)
    {
      buffer := buffer.(items := []);
      buffer := Filled(buffer.capacity, zero);
      if |pool.buffers| < maxPoolSize {
        pool.buffers := pool.buffers + [buffer];
        buffer := Vec([], 0);
      }
    }
  }

  // ---------- Interleavings ----------

  type Holder = nat

  datatype Event<T> =
    | Acquire(holder: Holder)
    | Write(holder: Holder, items: seq<T>)
    | Regrow(holder: Holder, newLen: nat, value: T, newCapacity: nat)
    | Release(holder: Holder)
    | Warm(count: nat)

  /** The queue, what each holder has, and how many buffers were made and thrown away. */
  datatype State<T> = State(queue: seq<Vec<T>>, held: map<Holder, Vec<T>>, created: nat, discarded: nat)

  datatype Config<T> = Config(size: nat, max: nat, zero: T)

  /** A holder has at most one buffer; writing keeps the length; a vector that must grow gets a capacity
      of at least the new length. */
  predicate Possible<T>(s: State<T>, e: Event<T>) {
    match e
    case Acquire(h) => h !in s.held
    case Write(h, items) => h in s.held && |items| == |s.held[h].items|
    case Regrow(h, newLen, _, newCapacity) => h in s.held && newCapacity >= newLen
    case Release(h) => h in s.held
    case Warm(_) => true
  }

  function Step<T>(c: Config<T>, s: State<T>, e: Event<T>): State<T>
    requires Possible(s, e)
  {
    match e
    case Acquire(h) =>
      var (v, queue) := Take(s.queue, c.size, c.zero);
      s.(queue := queue, held := s.held[h := v], created := s.created + if s.queue == [] then 1 else 0)
    case Write(h, items) => s.(held := s.held[h := s.held[h].(items := items)])
    case Regrow(h, newLen, value, newCapacity) => s.(held := s.held[h := Resized(s.held[h], newLen, value, newCapacity)])
    case Release(h) =>
      s.(queue := PutBack(s.queue, s.held[h], c.max, c.zero), held := s.held - {h},
         discarded := s.discarded + if |s.queue| < c.max then 0 else 1)
    case Warm(count) =>
      var queue := Preallocated(s.queue, Min(count, c.max), c.size, c.max, c.zero);
      s.(queue := queue, created := s.created + (|queue| - |s.queue|))
  }

  ghost predicate PossibleRun<T>(c: Config<T>, s: State<T>, events: seq<Event<T>>)
    decreases |events|
  {
    events != [] ==> Possible(s, events[0]) && PossibleRun(c, Step(c, s, events[0]), events[1..])
  }

  function Run<T>(c: Config<T>, s: State<T>, events: seq<Event<T>>): State<T>
    requires PossibleRun(c, s, events)
    decreases |events|
  {
    if events == [] then s else Run(c, Step(c, s, events[0]), events[1..])
  }

  /** As the pool hands it out: every item the default value, up to a capacity of at least `size`. */
  ghost predicate Clean<T>(c: Config<T>, v: Vec<T>) {
    v == Filled(v.capacity, c.zero) && v.capacity >= c.size
  }

  ghost predicate Sound<T>(c: Config<T>, s: State<T>) {
    && |s.queue| <= c.max
    && (forall v :: v in s.queue ==> Clean(c, v))
    && (forall h :: h in s.held ==> |s.held[h].items| <= s.held[h].capacity && s.held[h].capacity >= c.size)
    && s.created == |s.queue| + |s.held| + s.discarded
  }

  /** No holder has grown a buffer: every buffer anywhere still has exactly the pool's size as capacity. */
  ghost predicate NeverGrown<T>(c: Config<T>, s: State<T>) {
    (forall v :: v in s.queue ==> v.capacity == c.size) && (forall h :: h in s.held ==> s.held[h].capacity == c.size)
  }

  ghost predicate GrowsNothing<T>(c: Config<T>, e: Event<T>) {
    e.Regrow? ==> e.newLen <= c.size
  }

  lemma {:induction false} PreallocateKeeps<T>(c: Config<T>, queue: seq<Vec<T>>, count: nat)
    requires |queue| <= c.max && forall v :: v in queue ==> Clean(c, v)
    ensures var queue' := Preallocated(queue, count, c.size, c.max, c.zero);
            && |queue| <= |queue'| <= c.max
            && (forall v :: v in queue' ==> Clean(c, v) && (v in queue || v.capacity == c.size))
    decreases count
  {
    if count > 0 && |queue| < c.max {
      PreallocateKeeps(c, queue + [Filled(c.size, c.zero)], count - 1);
    }
  }

  lemma AcquireKeepsSound<T>(c: Config<T>, s: State<T>, h: Holder)
    requires Sound(c, s) && h !in s.held
    ensures Sound(c, Step(c, s, Acquire(h)))
    ensures NeverGrown(c, s) ==> NeverGrown(c, Step(c, s, Acquire(h)))
  {
    var v := Take(s.queue, c.size, c.zero).0;
    MapSizes(s.held, h, v);
    assert Clean(c, v);
  }

  lemma HolderKeepsSound<T>(c: Config<T>, s: State<T>, h: Holder, v: Vec<T>)
    requires Sound(c, s) && h in s.held && |v.items| <= v.capacity && v.capacity >= c.size
    ensures Sound(c, s.(held := s.held[h := v]))
    ensures NeverGrown(c, s) && v.capacity == c.size ==> NeverGrown(c, s.(held := s.held[h := v]))
  {
    MapSizes(s.held, h, v);
  }

  lemma ReleaseKeepsSound<T>(c: Config<T>, s: State<T>, h: Holder)
    requires Sound(c, s) && h in s.held
    ensures Sound(c, Step(c, s, Release(h)))
    ensures NeverGrown(c, s) ==> NeverGrown(c, Step(c, s, Release(h)))
  {
    MapSizes(s.held, h, s.held[h]);
    assert Clean(c, Filled(s.held[h].capacity, c.zero));
  }

  lemma StepKeepsSound<T>(c: Config<T>, s: State<T>, e: Event<T>)
    requires Sound(c, s) && Possible(s, e)
    ensures Sound(c, Step(c, s, e))
    ensures NeverGrown(c, s) && GrowsNothing(c, e) ==> NeverGrown(c, Step(c, s, e))
  {
    match e
    case Acquire(h) => AcquireKeepsSound(c, s, h);
    case Write(h, items) => HolderKeepsSound(c, s, h, s.held[h].(items := items));
    case Regrow(h, newLen, value, newCapacity) => HolderKeepsSound(c, s, h, Resized(s.held[h], newLen, value, newCapacity));
    case Release(h) => ReleaseKeepsSound(c, s, h);
    case Warm(count) => PreallocateKeeps(c, s.queue, Min(count, c.max));
  }

  lemma {:induction false} RunKeepsSound<T>(c: Config<T>, s: State<T>, events: seq<Event<T>>)
    requires Sound(c, s) && PossibleRun(c, s, events)
    ensures Sound(c, Run(c, s, events))
    ensures NeverGrown(c, s) && (forall e :: e in events ==> GrowsNothing(c, e)) ==> NeverGrown(c, Run(c, s, events))
    decreases |events|
  {
    if events != [] {
      StepKeepsSound(c, s, events[0]);
      RunKeepsSound(c, Step(c, s, events[0]), events[1..]);
      assert events[0] in events;
    }
  }

  /** After any interleaving from an empty pool: the pool is within its limit, every buffer made is
      pooled, held or discarded, and the next buffer handed out holds only default values, at least
      `size` of them, and exactly `size` if no holder asked for more. */
  lemma NextBufferIsClean<T>(c: Config<T>, events: seq<Event<T>>)
    requires PossibleRun(c, State([], map[], 0, 0), events)
    ensures var s := Run(c, State([], map[], 0, 0), events);
            var v := Take(s.queue, c.size, c.zero).0;
            && |s.queue| <= c.max
            && s.created == |s.queue| + |s.held| + s.discarded
            && |v.items| >= c.size && (forall x :: x in v.items ==> x == c.zero)
            && ((forall e :: e in events ==> GrowsNothing(c, e)) ==> |v.items| == c.size)
  {
    var s := Run(c, State([], map[], 0, 0), events);
    RunKeepsSound(c, State([], map[], 0, 0), events);
    var v := Take(s.queue, c.size, c.zero).0;
    assert Clean(c, v);
    assert forall x :: x in Filled(v.capacity, c.zero).items ==> x == c.zero;
  }

  // ---------- Contents and order ----------

  /** A resized buffer keeps its items up to the new length and fills up with the value. */
  lemma ResizeExactly<T>(v: Vec<T>, newLen: nat, value: T, newCapacity: nat)
    ensures var v' := Resized(v, newLen, value, newCapacity);
            && |v'.items| == newLen
            && (forall i :: 0 <= i < newLen ==> v'.items[i] == if i < |v.items| then v.items[i] else value)
            && v'.capacity == (if newLen > |v.items| && newLen > v.capacity then newCapacity else v.capacity)
  {
  }

  /** Preallocation adds default buffers behind those pooled, as many as asked for but none beyond the
      limit. */
  lemma {:induction false} PreallocateExactly<T>(queue: seq<Vec<T>>, count: nat, size: nat, max: nat, zero: T)
    requires |queue| <= max
    ensures var queue' := Preallocated(queue, count, size, max, zero);
            && |queue'| == (if |queue| + count < max then |queue| + count else max)
            && queue'[..|queue|] == queue
            && (forall i :: |queue| <= i < |queue'| ==> queue'[i] == Filled(size, zero))
    decreases count
  {
    if count > 0 && |queue| < max {
      PreallocateExactly(queue + [Filled(size, zero)], count - 1, size, max, zero);
    }
  }

  /** n buffers taken one after another. */
  function Taken<T>(queue: seq<Vec<T>>, n: nat, size: nat, zero: T): seq<Vec<T>> {
    if n == 0 then []
    else
      var (v, rest) := Take(queue, size, zero);
      [v] + Taken(rest, n - 1, size, zero)
  }

  /** The pool is first in, first out: a returned buffer comes out, cleared to its full capacity, after
      exactly those pooled before it; if the pool was full it never does. */
  lemma {:induction false} FirstInFirstOut<T>(queue: seq<Vec<T>>, v: Vec<T>, max: nat, size: nat, zero: T)
    ensures var cleared := Vec(seq(v.capacity, _ => zero), v.capacity);
            Taken(PutBack(queue, v, max, zero), |queue| + 1, size, zero) ==
            queue + [if |queue| < max then cleared else Vec(seq(size, _ => zero), size)]
  {
    if |queue| < max {
      TakenAll(queue + [Filled(v.capacity, zero)], [], size, zero);
      var all := queue + [Filled(v.capacity, zero)];
      assert all + [] == all;
    } else {
      TakenAll(queue, [Filled(size, zero)], size, zero);
    }
  }

  /** Taking as many as are pooled gives them in order; what is taken beyond that is new. */
  lemma {:induction false} TakenAll<T>(queue: seq<Vec<T>>, extra: seq<Vec<T>>, size: nat, zero: T)
    requires |extra| <= 1 && forall x :: x in extra ==> x == Filled(size, zero)
    ensures Taken(queue, |queue| + |extra|, size, zero) == queue + extra
  {
    if queue == [] {
      if extra != [] {
        assert extra == [extra[0]] && extra[0] in extra;
        var none: seq<Vec<T>> := [];
        assert Taken(none, 0, size, zero) == [];
      }
    } else {
      TakenAll(queue[1..], extra, size, zero);
      assert queue + extra == [queue[0]] + (queue[1..] + extra);
    }
  }
}
