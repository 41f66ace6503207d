/** The slab memory pool's bookkeeping: a vector of slabs known only by
    their `in_use` flags, an allocated-slab counter and a high-water mark.
    The raw allocation of a slab is an oracle (`created` flags say whether
    each attempt succeeded); the bytes of a slab are not modelled. */
module Pool {
  import opened Wrappers
  import opened MachineInts

  /** `PoolConfig`. The alignment only matters to the slab allocator. */
  datatype PoolConfig = PoolConfig(slabSize: uint64, initialSlabs: uint64, maxSlabs: uint64, alignment: uint64)

  /** `PoolConfig::default`: 4 KiB slabs, 16 up front, at most 1024,
      cache-line aligned. */
  const DEFAULT_CONFIG: PoolConfig := PoolConfig(4096, 16, 1024, 64)

  /** `PoolBuffer`: the slab it came from and its size in bytes. */
  datatype PoolBuffer = PoolBuffer(size: uint64, poolIdx: nat)

  datatype MemoryPool = MemoryPool(config: PoolConfig, inUse: seq<bool>, allocatedCount: uint64, highWaterMark: uint64)
  {
    /** The vector's length fits a `usize`, as a Rust `Vec` guarantees. */
    predicate Sized()
    {
      |inUse| < TWO_TO_THE_64
    }

    /** The counter counts the slabs in use: what the allocator as written
        keeps, provided each buffer is returned at most once. */
    predicate Counted()
    {
      Sized() && allocatedCount == CountTrue(inUse)
    }

    /** Counted, and the mark is at least the counter: what the corrected
        allocator keeps as well. */
    predicate Valid()
    {
      Counted() && highWaterMark >= allocatedCount
    }
  }

  /** The number of `true` entries. */
  function CountTrue(s: seq<bool>): (n: nat)
    ensures n <= |s|
    ensures n == 0 <==> forall i :: 0 <= i < |s| ==> !s[i]
    ensures n == |s| <==> forall i :: 0 <= i < |s| ==> s[i]
  {
    if s == [] then 0 else (if s[0] then 1 else 0) + CountTrue(s[1..])
  }

  lemma {:induction false} CountTrueUpdate(s: seq<bool>, i: nat, b: bool)
    requires i < |s|
    ensures CountTrue(s[i := b]) == CountTrue(s) - (if s[i] then 1 else 0) + (if b then 1 else 0)
  {
    if i > 0 {
      assert s[i := b][1..] == s[1..][i - 1 := b];
      CountTrueUpdate(s[1..], i - 1, b);
    }
  }

  lemma {:induction false} CountTrueAppend(s: seq<bool>, b: bool)
    ensures CountTrue(s + [b]) == CountTrue(s) + (if b then 1 else 0)
  {
    if s != [] {
      assert (s + [b])[1..] == s[1..] + [b];
      CountTrueAppend(s[1..], b);
    }
  }

  /** `MemoryPool::new`: one slab per successful initial allocation, all
      free; failed attempts are skipped; counter and mark start at 0. */
  function New(config: PoolConfig, created: seq<bool>): (p: MemoryPool)
    requires |created| == config.initialSlabs
    ensures p.Valid() && p.config == config
    ensures |p.inUse| == CountTrue(created) && p.allocatedCount == 0 && p.highWaterMark == 0
    ensures forall i :: 0 <= i < |p.inUse| ==> !p.inUse[i]
    ensures (forall i :: 0 <= i < |created| ==> created[i]) ==> Capacity(p) == config.initialSlabs
  {
    MemoryPool(config, seq(CountTrue(created), _ => false), 0, 0)
  }

  /** Lowest index at or after `from` whose slab is free. */
  function FirstFreeFrom(s: seq<bool>, from: nat): (r: Option<nat>)
    requires from <= |s|
    ensures r.Some? ==> from <= r.value < |s| && !s[r.value]
                        && forall j :: from <= j < r.value ==> s[j]
    ensures r.None? ==> forall j :: from <= j < |s| ==> s[j]
    decreases |s| - from
  {
    if from == |s| then None
    else if !s[from] then Some(from)
    else FirstFreeFrom(s, from + 1)
  }

  /** The lowest-index free slab, as the reuse scan finds it. */
  function FirstFree(s: seq<bool>): (r: Option<nat>)
    ensures r.Some? ==> r.value < |s| && !s[r.value] && forall j :: 0 <= j < r.value ==> s[j]
    ensures r.None? <==> forall j :: 0 <= j < |s| ==> s[j]
  {
    FirstFreeFrom(s, 0)
  }

  function Max(a: uint64, b: uint64): uint64
  {
    if a >= b then a else b
  }

  /** `allocate` as written: the lowest free slab is reused; failing that
      the vector grows by one in-use slab while below `maxSlabs` and the
      slab can be created; otherwise nothing changes. The reuse path raises
      the high-water mark to the new count, the growth path leaves it. */
  function AllocateAsWritten(p: MemoryPool, slabCreated: bool): (r: (MemoryPool, Option<PoolBuffer>))
    ensures r.0.config == p.config
    ensures FirstFree(p.inUse).Some? ==>
              var idx := FirstFree(p.inUse).value;
              && r.1 == Some(PoolBuffer(p.config.slabSize, idx))
              && r.0.inUse == p.inUse[idx := true]
              && r.0.allocatedCount == WrappingAdd64(p.allocatedCount, 1)
              && r.0.highWaterMark == Max(p.highWaterMark, r.0.allocatedCount)
    ensures FirstFree(p.inUse).None? && |p.inUse| < p.config.maxSlabs && slabCreated ==>
              && r.1 == Some(PoolBuffer(p.config.slabSize, |p.inUse|))
              && r.0.inUse == p.inUse + [true]
              && r.0.allocatedCount == WrappingAdd64(p.allocatedCount, 1)
              && r.0.highWaterMark == p.highWaterMark
    ensures r.1.None? <==> FirstFree(p.inUse).None? && (|p.inUse| >= p.config.maxSlabs || !slabCreated)
    ensures r.1.None? ==> r.0 == p
  {
    match FirstFree(p.inUse)
    case Some(idx) =>
      var n := WrappingAdd64(p.allocatedCount, 1);
      (p.(inUse := p.inUse[idx := true], allocatedCount := n, highWaterMark := Max(p.highWaterMark, n)),
       Some(PoolBuffer(p.config.slabSize, idx)))
    case None =>
      if |p.inUse| < p.config.maxSlabs && slabCreated then
        (p.(inUse := p.inUse + [true], allocatedCount := WrappingAdd64(p.allocatedCount, 1)),
         Some(PoolBuffer(p.config.slabSize, |p.inUse|)))
      else (p, None)
  }

  /** As written, a pool with no initial slabs hands out a grown slab and
      then reports one allocation against a high-water mark of zero. */
  lemma GrowthSkipsHighWaterMark()
    ensures var p := New(PoolConfig(1024, 0, 16, 64), []);
            var (p', buf) := AllocateAsWritten(p, true);
            && buf == Some(PoolBuffer(1024, 0))
            && p'.allocatedCount == 1 && p'.highWaterMark == 0 && !p'.Valid()
            && Stats(p').allocatedSlabs == 1 && Stats(p').highWaterMark == 0
  {
    var p := New(PoolConfig(1024, 0, 16, 64), []);
    assert p.inUse == [];
  }

  /** `allocate` with the mark raised on both paths: the lowest free slab
      is reused; failing that the vector grows by one in-use slab while
      below `maxSlabs` and the slab can be created; otherwise nothing
      changes. The returned buffer has the slab size and names a slab that
      is now in use, and validity is preserved. */
  function Allocate(p: MemoryPool, slabCreated: bool): (r: (MemoryPool, Option<PoolBuffer>))
    ensures r.0.config == p.config
    ensures FirstFree(p.inUse).Some? ==>
              var idx := FirstFree(p.inUse).value;
              && r.1 == Some(PoolBuffer(p.config.slabSize, idx))
              && r.0.inUse == p.inUse[idx := true]
              && r.0.allocatedCount == WrappingAdd64(p.allocatedCount, 1)
    ensures FirstFree(p.inUse).None? && |p.inUse| < p.config.maxSlabs && slabCreated ==>
              && r.1 == Some(PoolBuffer(p.config.slabSize, |p.inUse|))
              && r.0.inUse == p.inUse + [true]
              && r.0.allocatedCount == WrappingAdd64(p.allocatedCount, 1)
    ensures r.1.None? <==> FirstFree(p.inUse).None? && (|p.inUse| >= p.config.maxSlabs || !slabCreated)
    ensures r.1.None? ==> r.0 == p
    ensures r.1.Some? ==> r.1.value.poolIdx < |r.0.inUse| && r.0.inUse[r.1.value.poolIdx]
    ensures r.0.highWaterMark >= p.highWaterMark
    ensures r.1.Some? ==> r.0.highWaterMark >= r.0.allocatedCount
  {
    var (q, buf) := AllocateAsWritten(p, slabCreated);
    if buf.Some? then (q.(highWaterMark := Max(q.highWaterMark, q.allocatedCount)), buf) else (p, None)
  }

  /** The corrected allocator differs from the one as written only in the
      high-water mark: same buffer, same slabs, same counter. */
  lemma AllocateDiffersOnlyInMark(p: MemoryPool, slabCreated: bool)
    ensures Allocate(p, slabCreated).1 == AllocateAsWritten(p, slabCreated).1
    ensures Allocate(p, slabCreated).0 ==
              AllocateAsWritten(p, slabCreated).0.(highWaterMark := Allocate(p, slabCreated).0.highWaterMark)
  {
  }

  /** Allocation as written keeps the counter equal to the slabs in use. */
  lemma AllocateAsWrittenKeepsCount(p: MemoryPool, slabCreated: bool)
    requires p.Counted()
    ensures AllocateAsWritten(p, slabCreated).0.Counted()
  {
    var (q, buf) := AllocateAsWritten(p, slabCreated);
    if buf.Some? {
      if FirstFree(p.inUse).Some? {
        CountTrueUpdate(p.inUse, FirstFree(p.inUse).value, true);
      } else {
        CountTrueAppend(p.inUse, true);
      }
    }
  }

  /** The corrected allocation keeps the counter equal to the slabs in use
      and under the mark. */
  lemma AllocatePreservesValid(p: MemoryPool, slabCreated: bool)
    requires p.Valid()
    ensures Allocate(p, slabCreated).0.Valid()
  {
    AllocateAsWrittenKeepsCount(p, slabCreated);
    AllocateDiffersOnlyInMark(p, slabCreated);
  }

  /** `deallocate`: an index inside the vector frees that slab and
      decrements the counter (wrapping, as `fetch_sub` does); any other
      index is ignored. */
  function Deallocate(p: MemoryPool, buffer: PoolBuffer): (r: MemoryPool)
    ensures buffer.poolIdx < |p.inUse| ==>
              r == p.(inUse := p.inUse[buffer.poolIdx := false], allocatedCount := WrappingSub64(p.allocatedCount, 1))
    ensures buffer.poolIdx >= |p.inUse| ==> r == p
  {
    if buffer.poolIdx < |p.inUse| then
      p.(inUse := p.inUse[buffer.poolIdx := false], allocatedCount := WrappingSub64(p.allocatedCount, 1))
    else p
  }

  /** Returning a buffer whose slab is in use keeps the count, and the
      corrected pool's invariant, and lowers the count by one. */
  lemma DeallocatePreservesValid(p: MemoryPool, buffer: PoolBuffer)
    requires p.Counted() && buffer.poolIdx < |p.inUse| && p.inUse[buffer.poolIdx]
    ensures Deallocate(p, buffer).Counted()
    ensures p.Valid() ==> Deallocate(p, buffer).Valid()
    ensures Deallocate(p, buffer).allocatedCount == p.allocatedCount - 1
  {
    CountTrueUpdate(p.inUse, buffer.poolIdx, false);
  }

  /** Returning a buffer whose slab is already free breaks the count: the
      counter wraps below zero while no slab is in use. A `PoolBuffer` is
      neither `Clone` nor `Copy`, so the second return here stands for a
      buffer from another pool whose index names a free slab of this one. */
  lemma DoubleFreeBreaksCount()
    ensures var p := New(PoolConfig(1024, 1, 16, 64), [true]);
            var (p1, buf) := Allocate(p, true);
            var p3 := Deallocate(Deallocate(p1, buf.value), buf.value);
            && buf.Some? && p3.allocatedCount == TWO_TO_THE_64 - 1 && CountTrue(p3.inUse) == 0
  {
    var p := New(PoolConfig(1024, 1, 16, 64), [true]);
    assert p.inUse == [false];
  }

  /** `capacity`: the number of slabs held, free or not. */
  function Capacity(p: MemoryPool): nat
  {
    |p.inUse|
  }

  datatype PoolStats = PoolStats(totalSlabs: uint64, allocatedSlabs: uint64, slabSize: uint64,
                                 totalMemory: uint64, highWaterMark: uint64)

  /** `stats`: the counters as they stand and the memory held, the
      product `len * slab_size` wrapping like an unchecked `usize`
      multiplication. It reads the counters whatever they hold. */
  function Stats(p: MemoryPool): (s: PoolStats)
    requires p.Sized()
    ensures s.totalSlabs == Capacity(p) && s.allocatedSlabs == p.allocatedCount
    ensures s.slabSize == p.config.slabSize && s.highWaterMark == p.highWaterMark
    ensures Capacity(p) * p.config.slabSize < TWO_TO_THE_64 ==> s.totalMemory == Capacity(p) * p.config.slabSize
    ensures (s.totalMemory - Capacity(p) * p.config.slabSize) % TWO_TO_THE_64 == 0
  {
    PoolStats(|p.inUse|, p.allocatedCount, p.config.slabSize,
              WrappingMul64(|p.inUse|, p.config.slabSize), p.highWaterMark)
  }

  /** On a pool that keeps the corrected invariant, the statistics report
      the slabs in use, never more than the capacity or the mark. */
  lemma StatsOfValidPool(p: MemoryPool)
    requires p.Valid()
    ensures Stats(p).allocatedSlabs == CountTrue(p.inUse)
    ensures Stats(p).allocatedSlabs <= Stats(p).totalSlabs
    ensures Stats(p).allocatedSlabs <= Stats(p).highWaterMark
  {
  }

  /** One call on the pool: an allocation (with the outcome of creating a
      slab should it need one) or the return of the buffer for a slab. */
  datatype PoolOp = AllocOp(slabCreated: bool) | FreeOp(buffer: PoolBuffer)

  /** One call, by the corrected allocator or by the one as written. */
  function Apply(p: MemoryPool, op: PoolOp, corrected: bool): MemoryPool
  {
    match op
    case AllocOp(created) => if corrected then Allocate(p, created).0 else AllocateAsWritten(p, created).0
    case FreeOp(b) => Deallocate(p, b)
  }

  function Run(p: MemoryPool, ops: seq<PoolOp>, corrected: bool): MemoryPool
    decreases |ops|
  {
    if ops == [] then p else Run(Apply(p, ops[0], corrected), ops[1..], corrected)
  }

  /** Every buffer is returned at most once while it is live: each `FreeOp`
      names a slab in use at that point. */
  predicate FreesLive(p: MemoryPool, ops: seq<PoolOp>, corrected: bool)
    decreases |ops|
  {
    ops == [] ||
    ((ops[0].FreeOp? ==> ops[0].buffer.poolIdx < |p.inUse| && p.inUse[ops[0].buffer.poolIdx])
     && FreesLive(Apply(p, ops[0], corrected), ops[1..], corrected))
  }

  /** The program's promise: provided each buffer is returned at most
      once, the allocator as written keeps the counter equal to the number
      of slabs in use after any sequence of calls; the vector never
      shrinks. */
  lemma {:induction false} RunAsWrittenKeepsCount(p: MemoryPool, ops: seq<PoolOp>)
    requires p.Counted() && FreesLive(p, ops, false)
    ensures Run(p, ops, false).Counted()
    ensures Run(p, ops, false).allocatedCount == CountTrue(Run(p, ops, false).inUse)
    ensures |Run(p, ops, false).inUse| >= |p.inUse|
    decreases |ops|
  {
    if ops != [] {
      match ops[0]
      case AllocOp(created) =>
        AllocateAsWrittenKeepsCount(p, created);
        RunAsWrittenKeepsCount(AllocateAsWritten(p, created).0, ops[1..]);
      case FreeOp(b) =>
        DeallocatePreservesValid(p, b);
        RunAsWrittenKeepsCount(Deallocate(p, b), ops[1..]);
    }
  }

  /** With the corrected allocator the counter also never exceeds the
      high-water mark. */
  lemma {:induction false} RunKeepsCount(p: MemoryPool, ops: seq<PoolOp>)
    requires p.Valid() && FreesLive(p, ops, true)
    ensures Run(p, ops, true).Valid()
    ensures Run(p, ops, true).allocatedCount == CountTrue(Run(p, ops, true).inUse)
    ensures |Run(p, ops, true).inUse| >= |p.inUse|
    decreases |ops|
  {
    if ops != [] {
      match ops[0]
      case AllocOp(created) =>
        AllocatePreservesValid(p, created);
        RunKeepsCount(Allocate(p, created).0, ops[1..]);
      case FreeOp(b) =>
        DeallocatePreservesValid(p, b);
        RunKeepsCount(Deallocate(p, b), ops[1..]);
    }
  }

  /** The behaviour the pool's own tests exercise: four initial slabs, two
      allocations take slabs 0 and 1, the stats report an allocated count
      of two and a mark of two, and returning both brings the count back
      to zero. */
  lemma AllocateThenReturn()
    ensures var p := New(PoolConfig(1024, 4, 16, 64), [true, true, true, true]);
            var (p1, b1) := Allocate(p, true);
            var (p2, b2) := Allocate(p1, true);
            && Capacity(p) == 4 && p.allocatedCount == 0
            && b1 == Some(PoolBuffer(1024, 0)) && b2 == Some(PoolBuffer(1024, 1))
            && Stats(p2).allocatedSlabs == 2 && Stats(p2).highWaterMark == 2
            && Deallocate(Deallocate(p2, b1.value), b2.value).allocatedCount == 0
  {
    var p := New(PoolConfig(1024, 4, 16, 64), [true, true, true, true]);
    assert p.inUse == [false, false, false, false];
    var (p1, b1) := Allocate(p, true);
    assert FirstFree(p.inUse) == Some(0);
    assert p1.inUse == [true, false, false, false];
    assert p1.inUse[0] && !p1.inUse[1];
    assert FirstFree(p1.inUse) == Some(1);
  }
}
