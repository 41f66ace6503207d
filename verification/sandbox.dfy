/** The execution sandbox: per-invocation resource accounting (a CPU-time
    budget checked cooperatively and a host-call quota) and the cheap
    header check run before a module is compiled. Time is a parameter:
    instants are nanoseconds on a monotonic clock. */
module Sandbox {
  import opened Wrappers
  import opened MachineInts

  /** `SandboxLimits`. `maxMemory` is carried but never enforced. */
  datatype Limits = Limits(maxMemory: nat, cpuTimeoutNanos: nat, maxHostCalls: uint32)

  /** `SandboxLimits::default`. */
  const DEFAULT_LIMITS: Limits := Limits(16 * 1024 * 1024, 100 * 1_000_000, 1000)

  datatype SandboxError = TimeoutExceeded | TooManyHostCalls | TooSmall | BadMagic

  /** `ExecutionContext`: the limits, the start instant if started, and the
      number of host calls made since the start. */
  datatype Context = Context(limits: Limits, startTime: Option<nat>, hostCallCount: uint32)

  /** `ExecutionContext::new`: not started, no calls recorded. */
  function NewContext(limits: Limits): (c: Context)
    ensures c.limits == limits && c.startTime.None? && c.hostCallCount == 0
  {
    Context(limits, None, 0)
  }

  /** `start`: records the start instant and resets the call count. */
  function Start(c: Context, now: nat): (r: Context)
    ensures r.limits == c.limits && r.startTime == Some(now) && r.hostCallCount == 0
  {
    c.(startTime := Some(now), hostCallCount := 0)
  }

  /** `Instant::elapsed`, which saturates at zero. */
  function Elapsed(start: nat, now: nat): nat
  {
    if now >= start then now - start else 0
  }

  /** `check_timeout`: fails only once strictly more than the budget has
      elapsed since the start; an unstarted context never times out. */
  function CheckTimeout(c: Context, now: nat): (r: Result<(), SandboxError>)
    ensures r.Err? <==> c.startTime.Some? && now > c.startTime.value + c.limits.cpuTimeoutNanos
    ensures r.Err? ==> r.error == TimeoutExceeded
  {
    match c.startTime
    case None => Ok(())
    case Some(start) =>
      if Elapsed(start, now) > c.limits.cpuTimeoutNanos then Err(TimeoutExceeded) else Ok(())
  }

  /** `record_host_call`: counts the call, then fails if the count now
      exceeds the quota. The count grows on failure too. */
  function RecordHostCall(c: Context): (r: (Context, Result<(), SandboxError>))
    requires c.hostCallCount < TWO_TO_THE_32 - 1
    ensures r.0 == c.(hostCallCount := c.hostCallCount + 1)
    ensures r.1.Err? <==> c.hostCallCount + 1 > c.limits.maxHostCalls
    ensures r.1.Err? ==> r.1.error == TooManyHostCalls
  {
    var c' := c.(hostCallCount := c.hostCallCount + 1);
    if c'.hostCallCount > c.limits.maxHostCalls then (c', Err(TooManyHostCalls)) else (c', Ok(()))
  }

  /** `n` consecutive host calls and the result of each. */
  function RecordHostCalls(c: Context, n: nat): (r: (Context, seq<Result<(), SandboxError>>))
    requires c.hostCallCount + n < TWO_TO_THE_32
    ensures |r.1| == n
    decreases n
  {
    if n == 0 then (c, [])
    else
      var (c1, res) := RecordHostCall(c);
      var (c2, rest) := RecordHostCalls(c1, n - 1);
      (c2, [res] + rest)
  }

  /** The quota admits exactly `maxHostCalls` calls after a start: call
      number i (from 1) succeeds iff i <= maxHostCalls, and every call is
      counted. */
  lemma {:induction false} QuotaAdmitsExactlyMax(c: Context, n: nat)
    requires c.hostCallCount + n < TWO_TO_THE_32
    ensures var (c', results) := RecordHostCalls(c, n);
            && c'.hostCallCount == c.hostCallCount + n
            && c'.limits == c.limits && c'.startTime == c.startTime
            && (forall i :: 0 <= i < n ==>
                  (results[i].Ok? <==> c.hostCallCount + i + 1 <= c.limits.maxHostCalls))
            && (forall i :: 0 <= i < n && results[i].Err? ==> results[i].error == TooManyHostCalls)
    decreases n
  {
    if n > 0 {
      var (c1, res) := RecordHostCall(c);
      QuotaAdmitsExactlyMax(c1, n - 1);
    }
  }

  /** With the default limits a freshly started context allows 1000 host
      calls and refuses the 1001st; the budget is 100 ms, and exactly 100 ms
      after the start the timeout check still passes. */
  lemma DefaultLimitsBehaviour(now: nat)
    ensures DEFAULT_LIMITS.maxMemory == 16_777_216
    ensures var c := Start(NewContext(DEFAULT_LIMITS), now);
            var (_, results) := RecordHostCalls(c, 1001);
            && (forall i :: 0 <= i < 1000 ==> results[i].Ok?)
            && results[1000] == Err(TooManyHostCalls)
            && CheckTimeout(c, now + 100_000_000).Ok?
            && CheckTimeout(c, now + 100_000_001) == Err(TimeoutExceeded)
  {
    var c := Start(NewContext(DEFAULT_LIMITS), now);
    QuotaAdmitsExactlyMax(c, 1001);
  }

  /** `Sandbox`: the limits shared by every context it creates. */
  datatype Sandbox = Sandbox(limits: Limits)

  /** `create_context`: a fresh context carrying a copy of the limits. */
  function CreateContext(s: Sandbox): (c: Context)
    ensures c.limits == s.limits && c.startTime.None? && c.hostCallCount == 0
  {
    NewContext(s.limits)
  }

  /** The four magic bytes `\0asm` opening every WebAssembly binary module
      (section 5.5.16 of the WebAssembly Core Specification 2.0). */
  const WASM_MAGIC: seq<uint8> := [0x00, 0x61, 0x73, 0x6D]

  /** `validate_wasm_bytes`: at least 8 bytes, then the magic number. The
      four version bytes are not inspected. */
  function ValidateWasmBytes(wasm: seq<uint8>): (r: Result<(), SandboxError>)
    ensures r.Ok? <==> |wasm| >= 8 && wasm[..4] == WASM_MAGIC
    ensures |wasm| < 8 ==> r == Err(TooSmall)
    ensures |wasm| >= 8 && wasm[..4] != WASM_MAGIC ==> r == Err(BadMagic)
  {
    if |wasm| < 8 then Err(TooSmall)
    else if wasm[0..4] != WASM_MAGIC then Err(BadMagic)
    else Ok(())
  }

  /** Only the length and the first four bytes matter: two inputs of the
      same length that agree on the magic get the same verdict, whatever
      the rest holds; the version-1 preamble alone is accepted. */
  lemma HeaderCheckIgnoresRest(a: seq<uint8>, b: seq<uint8>)
    requires |a| == |b| && |a| >= 4 && a[..4] == b[..4]
    ensures ValidateWasmBytes(a) == ValidateWasmBytes(b)
    ensures ValidateWasmBytes([0x00, 0x61, 0x73, 0x6D, 0x01, 0x00, 0x00, 0x00]).Ok?
    ensures ValidateWasmBytes([0x00, 0x61, 0x73, 0x6D, 0xFF, 0xFF, 0xFF, 0xFF]).Ok?
  {
    assert [0x00, 0x61, 0x73, 0x6D, 0x01, 0x00, 0x00, 0x00][..4] == WASM_MAGIC;
    assert [0x00, 0x61, 0x73, 0x6D, 0xFF, 0xFF, 0xFF, 0xFF][..4] == WASM_MAGIC;
  }
}
