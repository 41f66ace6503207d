/** The bounded event queue: a fixed-capacity FIFO whose push fails fast
    when full and whose pop never blocks. `Queue` is its contents as a
    value; `Handle` and `SharedQueue` model the reference-counted clones
    that all denote one queue. Concurrency is not modelled: operations are
    applied one at a time. */
module RingBuffer {
  import opened Wrappers
  import opened MachineInts

  /** The columnar payload of an event, carried through unchanged. */
  datatype RecordBatch = RecordBatch(columns: seq<string>, rowCount: nat)

  datatype EventHeader = EventHeader(sourceId: uint32, seqNo: uint64)

  datatype Event = Event(header: EventHeader, batch: RecordBatch)

  datatype QueueError = BufferFull

  datatype Queue = Queue(capacity: nat, items: seq<Event>)
  {
    /** The library refuses a zero capacity; the contents never exceed it. */
    predicate Valid()
    {
      0 < capacity && |items| <= capacity
    }

    function Len(): nat
    {
      |items|
    }

    function IsEmpty(): (b: bool)
      ensures b <==> Len() == 0
    {
      items == []
    }

    /** `push`: succeeds iff there is room; the event goes to the back. */
    function Push(e: Event): (r: (Queue, Result<(), QueueError>))
      requires Valid()
      ensures r.0.Valid() && r.0.capacity == capacity
      ensures r.1.Ok? <==> Len() < capacity
      ensures r.1.Ok? ==> r.0.items == items + [e] && r.0.Len() == Len() + 1
      ensures r.1.Err? ==> r.1.error == BufferFull && r.0 == this
    {
      if |items| < capacity then (this.(items := items + [e]), Ok(()))
      else (this, Err(BufferFull))
    }

    /** `pop`: removes and returns the oldest event, or `None` when empty. */
    function Pop(): (r: (Queue, Option<Event>))
      requires Valid()
      ensures r.0.Valid() && r.0.capacity == capacity
      ensures IsEmpty() ==> r.1.None? && r.0 == this
      ensures !IsEmpty() ==> r.1 == Some(items[0]) && [items[0]] + r.0.items == items
    {
      if items == [] then (this, None)
      else (this.(items := items[1..]), Some(items[0]))
    }
  }

  /** `ZenithRingBuffer::new`. */
  function New(capacity: nat): (q: Queue)
    requires capacity > 0
    ensures q.Valid() && q.capacity == capacity
    ensures q.Len() == 0 && q.IsEmpty()
  {
    Queue(capacity, [])
  }

  /** One call made on the queue by a producer or the consumer. */
  datatype Op = PushOp(event: Event) | PopOp

  /** Applies `ops` in order; returns the final queue, the events the pops
      returned and the events whose push succeeded. */
  function Run(q: Queue, ops: seq<Op>): (r: (Queue, seq<Event>, seq<Event>))
    requires q.Valid()
    ensures r.0.Valid() && r.0.capacity == q.capacity
    decreases |ops|
  {
    if ops == [] then (q, [], [])
    else
      match ops[0]
      case PushOp(e) =>
        var (q1, res) := q.Push(e);
        var (q2, popped, accepted) := Run(q1, ops[1..]);
        (q2, popped, if res.Ok? then [e] + accepted else accepted)
      case PopOp =>
        var (q1, got) := q.Pop();
        var (q2, popped, accepted) := Run(q1, ops[1..]);
        (q2, if got.Some? then [got.value] + popped else popped, accepted)
  }

  /** No loss, no duplication, FIFO order: for any interleaving of pushes
      and pops, what was popped followed by what is still queued equals what
      was queued before followed by every successfully pushed event. */
  lemma {:induction false} RunConservesEvents(q: Queue, ops: seq<Op>)
    requires q.Valid()
    ensures var (q', popped, accepted) := Run(q, ops);
            popped + q'.items == q.items + accepted
    decreases |ops|
  {
    if ops != [] {
      match ops[0]
      case PushOp(e) =>
        var (q1, res) := q.Push(e);
        RunConservesEvents(q1, ops[1..]);
      case PopOp =>
        var (q1, got) := q.Pop();
        RunConservesEvents(q1, ops[1..]);
        if got.Some? {
          var (q2, popped, accepted) := Run(q1, ops[1..]);
          assert q.items == [got.value] + q1.items;
          assert ([got.value] + popped) + q2.items == [got.value] + (popped + q2.items);
        }
    }
  }

  function PushAll(q: Queue, es: seq<Event>): (r: (Queue, seq<Result<(), QueueError>>))
    requires q.Valid()
    ensures r.0.Valid() && r.0.capacity == q.capacity && |r.1| == |es|
    decreases |es|
  {
    if es == [] then (q, [])
    else
      var (q1, res) := q.Push(es[0]);
      var (q2, rest) := PushAll(q1, es[1..]);
      (q2, [res] + rest)
  }

  /** Pushing onto a queue of capacity C: a push succeeds exactly while
      fewer than C events are held, so from empty the first C pushes succeed
      and every later one fails with `BufferFull`; the queue then holds the
      first C events in order. */
  lemma {:induction false} PushAllFillsToCapacity(q: Queue, es: seq<Event>)
    requires q.Valid()
    ensures var (q', results) := PushAll(q, es);
            var room := q.capacity - q.Len();
            && (forall i :: 0 <= i < |es| ==> (results[i].Ok? <==> i < room))
            && (forall i :: 0 <= i < |es| && results[i].Err? ==> results[i].error == BufferFull)
            && q'.items == q.items + es[..if |es| < room then |es| else room]
    decreases |es|
  {
    if es != [] {
      var (q1, res) := q.Push(es[0]);
      PushAllFillsToCapacity(q1, es[1..]);
      var room := q.capacity - q.Len();
      if room > 0 {
        assert es[..if |es| < room then |es| else room] ==
               [es[0]] + es[1..][..if |es| - 1 < room - 1 then |es| - 1 else room - 1];
      } else {
        assert q1 == q;
      }
    }
  }

  /** The reference-counted allocation every clone points to. */
  class SharedQueue {
    var state: Queue

    constructor (capacity: nat)
      requires capacity > 0
      ensures state == New(capacity)
    {
      state := New(capacity);
    }
  }

  /** `ZenithRingBuffer`: a handle on a shared queue. */
  class Handle {
    const shared: SharedQueue

    constructor (capacity: nat)
      requires capacity > 0
      ensures fresh(shared) && shared.state == New(capacity)
    {
      shared := new SharedQueue(capacity);
    }

    constructor Share(s: SharedQueue)
      ensures shared == s
    {
      shared := s;
    }

    /** `clone`: a new handle on the same queue, not a copy of it. */
    method Clone() returns (h: Handle)
      ensures fresh(h) && h.shared == shared
    {
      h := new Handle.Share(shared);
    }

    method Push(e: Event) returns (r: Result<(), QueueError>)
      requires shared.state.Valid()
      modifies shared
      ensures (shared.state, r) == old(shared.state).Push(e)
    {
      var (q, res) := shared.state.Push(e);
      shared.state := q;
      r := res;
    }

    method Pop() returns (r: Option<Event>)
      requires shared.state.Valid()
      modifies shared
      ensures (shared.state, r) == old(shared.state).Pop()
    {
      var (q, got) := shared.state.Pop();
      shared.state := q;
      r := got;
    }

    function Len(): nat
      reads shared
    {
      shared.state.Len()
    }
  }

  /** Clones alias one queue: an event pushed through the original is
      popped, with the same header, through a clone, after which the
      original is empty too. */
  method CloneSharesQueue(capacity: nat, e: Event) returns (popped: Option<Event>, lenAfter: nat)
    requires capacity > 0
    ensures popped == Some(e) && lenAfter == 0
  {
    var original := new Handle(capacity);
    var _ := original.Push(e);
    var clone := original.Clone();
    popped := clone.Pop();
    lenAfter := original.Len();
  }
}
