/** The host-call interface offered to plugins: logging, a wall-clock
    timestamp and an event-field read, each counted in a wrapping 32-bit
    counter. The clock is a parameter (signed nanoseconds since the UNIX
    epoch); the log sink is not modelled beyond the chosen level. */
module HostCalls {
  import opened Wrappers
  import opened MachineInts
  import Utf8

  datatype LogLevel = Info | Warn | Error

  /** `From<u32> for LogLevel`: 0 and 1 name Info and Warn, every other
      value is Error. */
  function LogLevelFrom(v: uint32): (l: LogLevel)
    ensures l == Info <==> v == 0
    ensures l == Warn <==> v == 1
    ensures l == Error <==> v >= 2
  {
    if v == 0 then Info else if v == 1 then Warn else Error
  }

  /** `HostCallInterface`: only the call counter is state. */
  datatype HostCallInterface = HostCallInterface(callCount: uint32)

  function NewInterface(): (h: HostCallInterface)
    ensures h.callCount == 0
  {
    HostCallInterface(0)
  }

  /** `increment_call_count`: `fetch_add(1)` on an `AtomicU32` wraps. */
  function Increment(h: HostCallInterface): (r: HostCallInterface)
    ensures r.callCount == (h.callCount + 1) % TWO_TO_THE_32
  {
    HostCallInterface(WrappingAdd32(h.callCount, 1))
  }

  /** `log`: counts the call and emits at the given level. */
  function Log(h: HostCallInterface, level: LogLevel, message: string): (r: (HostCallInterface, LogLevel))
    ensures r.0 == Increment(h) && r.1 == level
  {
    (Increment(h), level)
  }

  /** `get_timestamp_ns`: a clock before the epoch reads as zero
      (`unwrap_or_default`), and the 128-bit nanosecond count is truncated
      to 64 bits by `as u64`. */
  function GetTimestampNs(h: HostCallInterface, nowNanos: int): (r: (HostCallInterface, uint64))
    ensures r.0 == Increment(h)
    ensures nowNanos <= 0 ==> r.1 == 0
    ensures 0 <= nowNanos < TWO_TO_THE_64 ==> r.1 == nowNanos
    ensures nowNanos >= 0 ==> (r.1 - nowNanos) % TWO_TO_THE_64 == 0
  {
    (Increment(h), if nowNanos < 0 then 0 else nowNanos % TWO_TO_THE_64)
  }

  /** `read_event_field`: currently echoes the UTF-8 bytes of the field
      name and never fails. */
  function ReadEventField(h: HostCallInterface, fieldName: string): (r: (HostCallInterface, Result<seq<uint8>, string>))
    ensures r.0 == Increment(h)
    ensures r.1.Ok? && |r.1.value| == Utf8.ByteLen(fieldName)
    ensures r.1.Ok? && r.1.value == Utf8.Encode(fieldName)
  {
    (Increment(h), Ok(Utf8.Encode(fieldName)))
  }

  /** `get_call_count`: a plain read; it is not itself counted. */
  function GetCallCount(h: HostCallInterface): (r: (HostCallInterface, uint32))
    ensures r.0 == h && r.1 == h.callCount
  {
    (h, h.callCount)
  }

  datatype Call = LogCall(level: LogLevel, message: string) | TimestampCall(nowNanos: int)
                | ReadFieldCall(fieldName: string) | CountCall

  function Apply(h: HostCallInterface, c: Call): HostCallInterface
  {
    match c
    case LogCall(level, message) => Log(h, level, message).0
    case TimestampCall(now) => GetTimestampNs(h, now).0
    case ReadFieldCall(name) => ReadEventField(h, name).0
    case CountCall => GetCallCount(h).0
  }

  function ApplyAll(h: HostCallInterface, calls: seq<Call>): HostCallInterface
    decreases |calls|
  {
    if calls == [] then h else ApplyAll(Apply(h, calls[0]), calls[1..])
  }

  /** Number of calls in `calls` that the counter sees. */
  function Counted(calls: seq<Call>): (n: nat)
    ensures n <= |calls|
  {
    if calls == [] then 0 else (if calls[0].CountCall? then 0 else 1) + Counted(calls[1..])
  }

  /** After any sequence of calls the counter reads the number of counted
      calls (every call except `get_call_count`) since it was created,
      modulo 2^32. */
  lemma {:induction false} CounterCountsCalls(h: HostCallInterface, calls: seq<Call>)
    ensures ApplyAll(h, calls).callCount == (h.callCount + Counted(calls)) % TWO_TO_THE_32
    decreases |calls|
  {
    if calls != [] {
      var h1 := Apply(h, calls[0]);
      CounterCountsCalls(h1, calls[1..]);
      var k := if calls[0].CountCall? then 0 else 1;
      assert h1.callCount == (h.callCount + k) % TWO_TO_THE_32;
      ModAbsorb32(h.callCount + k, Counted(calls[1..]));
    }
  }
}
