/** The turbo engine's bookkeeping: the byte width of each tensor element
    type, the running flag, and the two monotone counters of samples and
    bytes processed, which wrap like the `AtomicU64` they are. */
module Turbo {
  import opened MachineInts

  datatype DataType = Float32 | Float16 | BFloat16 | Int32 | Int64 | UInt8

  /** `DataType::size`: bytes per element. */
  function Size(dt: DataType): (n: nat)
    ensures n in {1, 2, 4, 8}
    ensures n == 4 <==> dt == Float32 || dt == Int32
    ensures n == 2 <==> dt == Float16 || dt == BFloat16
    ensures n == 8 <==> dt == Int64
    ensures n == 1 <==> dt == UInt8
  {
    match dt
    case Float32 | Int32 => 4
    case Float16 | BFloat16 => 2
    case Int64 => 8
    case UInt8 => 1
  }

  /** The bit width each type is named for: IEEE 754 binary32/binary16,
      bfloat16, and the integer widths. */
  function BitWidth(dt: DataType): nat
  {
    match dt
    case Float32 => 32
    case Float16 => 16
    case BFloat16 => 16
    case Int32 => 32
    case Int64 => 64
    case UInt8 => 8
  }

  /** The byte sizes agree with the bit widths the type names state. */
  lemma SizeMatchesBitWidth(dt: DataType)
    ensures Size(dt) * 8 == BitWidth(dt)
  {
  }

  /** The engine's observable state: the running flag and the counters. The
      configuration is carried unchanged and not modelled. */
  datatype TurboEngine = TurboEngine(running: bool, samples: uint64, bytes: uint64)

  /** `TurboEngine::new`: stopped, nothing counted. */
  function New(): (e: TurboEngine)
    ensures !IsRunning(e) && e.samples == 0 && e.bytes == 0
  {
    TurboEngine(false, 0, 0)
  }

  function Start(e: TurboEngine): (r: TurboEngine)
    ensures IsRunning(r) && r.samples == e.samples && r.bytes == e.bytes
  {
    e.(running := true)
  }

  function Stop(e: TurboEngine): (r: TurboEngine)
    ensures !IsRunning(r) && r.samples == e.samples && r.bytes == e.bytes
  {
    e.(running := false)
  }

  function IsRunning(e: TurboEngine): bool
  {
    e.running
  }

  /** `record_samples`: adds to both counters, modulo 2^64; the running
      flag is not consulted. */
  function RecordSamples(e: TurboEngine, count: uint64, bytes: uint64): (r: TurboEngine)
    ensures r.running == e.running
    ensures r.samples == (e.samples + count) % TWO_TO_THE_64
    ensures r.bytes == (e.bytes + bytes) % TWO_TO_THE_64
  {
    TurboEngine(e.running, WrappingAdd64(e.samples, count), WrappingAdd64(e.bytes, bytes))
  }

  /** `TurboStats` without the floating-point throughput. */
  datatype TurboStats = TurboStats(samplesProcessed: uint64, bytesProcessed: uint64, simdOps: uint64,
                                   cacheHits: uint64, cacheMisses: uint64, prefetchDepth: uint64)

  /** `stats`: the two counters as they stand; the other counters are
      never updated and keep their default of zero. */
  function Stats(e: TurboEngine): (s: TurboStats)
    ensures s.samplesProcessed == e.samples && s.bytesProcessed == e.bytes
    ensures s.simdOps == 0 && s.cacheHits == 0 && s.cacheMisses == 0 && s.prefetchDepth == 0
  {
    TurboStats(e.samples, e.bytes, 0, 0, 0, 0)
  }

  datatype TurboOp = StartOp | StopOp | RecordOp(count: uint64, bytes: uint64)

  function Apply(e: TurboEngine, op: TurboOp): TurboEngine
  {
    match op
    case StartOp => Start(e)
    case StopOp => Stop(e)
    case RecordOp(c, b) => RecordSamples(e, c, b)
  }

  function ApplyAll(e: TurboEngine, ops: seq<TurboOp>): TurboEngine
    decreases |ops|
  {
    if ops == [] then e else ApplyAll(Apply(e, ops[0]), ops[1..])
  }

  function SumCounts(ops: seq<TurboOp>): nat
  {
    if ops == [] then 0 else (if ops[0].RecordOp? then ops[0].count else 0) + SumCounts(ops[1..])
  }

  function SumBytes(ops: seq<TurboOp>): nat
  {
    if ops == [] then 0 else (if ops[0].RecordOp? then ops[0].bytes else 0) + SumBytes(ops[1..])
  }

  /** Whatever the interleaving with starts and stops, the counters hold
      the totals recorded (modulo 2^64), and the flag is set by the last
      start or stop, if any. */
  lemma CountersAccumulate(e: TurboEngine, ops: seq<TurboOp>)
    ensures ApplyAll(e, ops).samples == (e.samples + SumCounts(ops)) % TWO_TO_THE_64
    ensures ApplyAll(e, ops).bytes == (e.bytes + SumBytes(ops)) % TWO_TO_THE_64
    ensures (forall i :: 0 <= i < |ops| ==> ops[i].RecordOp?) ==> ApplyAll(e, ops).running == e.running
    ensures |ops| > 0 && ops[|ops| - 1].StartOp? ==> IsRunning(ApplyAll(e, ops))
    ensures |ops| > 0 && ops[|ops| - 1].StopOp? ==> !IsRunning(ApplyAll(e, ops))
  {
    SamplesAccumulate(e, ops);
    BytesAccumulate(e, ops);
    FlagFollowsLast(e, ops);
  }

  lemma {:induction false} SamplesAccumulate(e: TurboEngine, ops: seq<TurboOp>)
    ensures ApplyAll(e, ops).samples == (e.samples + SumCounts(ops)) % TWO_TO_THE_64
    decreases |ops|
  {
    if ops != [] {
      var e1 := Apply(e, ops[0]);
      SamplesAccumulate(e1, ops[1..]);
      var c := if ops[0].RecordOp? then ops[0].count else 0;
      assert e1.samples == (e.samples + c) % TWO_TO_THE_64;
      ModAbsorb64(e.samples + c, SumCounts(ops[1..]));
    }
  }

  lemma {:induction false} BytesAccumulate(e: TurboEngine, ops: seq<TurboOp>)
    ensures ApplyAll(e, ops).bytes == (e.bytes + SumBytes(ops)) % TWO_TO_THE_64
    decreases |ops|
  {
    if ops != [] {
      var e1 := Apply(e, ops[0]);
      BytesAccumulate(e1, ops[1..]);
      var b := if ops[0].RecordOp? then ops[0].bytes else 0;
      assert e1.bytes == (e.bytes + b) % TWO_TO_THE_64;
      ModAbsorb64(e.bytes + b, SumBytes(ops[1..]));
    }
  }

  lemma {:induction false} FlagFollowsLast(e: TurboEngine, ops: seq<TurboOp>)
    ensures (forall i :: 0 <= i < |ops| ==> ops[i].RecordOp?) ==> ApplyAll(e, ops).running == e.running
    ensures |ops| > 0 && ops[|ops| - 1].StartOp? ==> IsRunning(ApplyAll(e, ops))
    ensures |ops| > 0 && ops[|ops| - 1].StopOp? ==> !IsRunning(ApplyAll(e, ops))
    decreases |ops|
  {
    if ops != [] {
      var e1 := Apply(e, ops[0]);
      FlagFollowsLast(e1, ops[1..]);
      if |ops| == 1 {
        assert ops[1..] == [];
      } else {
        assert ops[1..][|ops[1..]| - 1] == ops[|ops| - 1];
        if forall i :: 0 <= i < |ops| ==> ops[i].RecordOp? {
          assert forall i :: 0 <= i < |ops[1..]| ==> ops[1..][i] == ops[i + 1];
        }
      }
    }
  }
}
