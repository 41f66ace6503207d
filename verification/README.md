# Zenith dataplane core in Dafny

Zenith is a dataplane that moves Arrow record batches from producers to
WebAssembly filter plugins. This project models its core as pure Dafny
datatypes and functions:

- **Validation** (`core/src/validation.rs`): input validation for job names,
  paths, commands and numeric ranges, and log sanitising.
- **RingBuffer** (`core/src/ring_buffer.rs`): the bounded FIFO event queue
  shared between the producer and the consumer.
- **Engine** (`core/src/engine.rs`): the engine. It holds the queue, the
  plugin registry and the running flag. Its consumer loop pops events and
  lets every plugin vote; a plugin that errors does not veto.
- **Boundary** (`core/src/lib.rs`): the C-callable entry points, with their
  integer result codes.
- **Sandbox** (`runtime/src/sandbox/mod.rs`): per-invocation timeout and
  host-call quota, plus the WebAssembly header check.
- **HostCalls** (`runtime/src/host_calls/mod.rs`): the host functions
  offered to plugins, with their wrapping call counter.
- **FilterPlugin** (`examples/plugins/filter_plugin.rs`): the example
  filter plugin.
- **Pool** (`zenith-runtime-cpu/src/pool.rs`): the slab memory pool.
- **Turbo** (`zenith-runtime-cpu/src/turbo/mod.rs`): the turbo engine's
  element sizes and counters.
- **Schema** (`codegen/src/generators/schema.rs`): the schema code
  generator for Rust and Python.

Helper modules:

- `MachineInts` has the fixed-width integer types and explicit wrap-around.
- `Wrappers` has `Option` and `Result`.
- `Seqs` has filtering and substring search.
- `Utf8` has UTF-8 byte length, encoding and character boundaries. Rust's
  `str::len` counts bytes, and this module supplies that.

Some inputs come from outside the model: the clock, the outcome of creating
a wasmtime host, of loading a plugin, of an Arrow C Data Interface import,
of allocating a slab, and whether a guarded body panicked. Each of these is
a parameter. A plugin is an oracle `EventHeader -> Result<bool, PluginError>`.

## Model

| member | source | states |
|---|---|---|
| Validation.DefaultValidator | core/src/validation.rs:70-85 | the default deny-list holds the ten patterns of the source, `$((` included |
| Validation.RequireNonEmpty | core/src/validation.rs:96-102 | fails exactly when the value is all Unicode whitespace, with an `Empty` error naming the field |
| Validation.ValidateLength | core/src/validation.rs:105-115 | fails exactly when the UTF-8 byte length exceeds the maximum; the error carries the field, the limit and the byte length |
| Validation.ValidateJobName | core/src/validation.rs:118-134 | checks run in order: blank gives `Empty`, then more than 256 bytes gives `TooLong`; otherwise the name is accepted iff every character is alphanumeric, `-` or `_`, and a rejection lists every offending character, in input order |
| Validation.JobNameAccepted | core/src/validation.rs:118-134 | a job name is accepted iff it has 1 to 256 characters, all alphanumeric, `-` or `_` |
| Validation.InvalidJobNameCharsConcat | core/src/validation.rs:122-130 | the reported invalid characters of a concatenation are the concatenation of the reports, in input order |
| Validation.ValidatePath | core/src/validation.rs:137-157 | a path is accepted iff it is at most 4096 bytes, has no `..` and has no NUL; the first failing check picks the error; the empty path is accepted |
| Validation.TraversalIffAdjacentDots | core/src/validation.rs:141-146 | the traversal check fires iff two adjacent characters are both `.` |
| Validation.FirstForbidden | core/src/validation.rs:164-171 | finds nothing iff no pattern occurs; anything it finds is a deny-list pattern that occurs in the command |
| Validation.ValidateCommand | core/src/validation.rs:160-174 | blank gives `Empty`, then too long gives `TooLong`; otherwise the command is accepted iff no deny-list pattern is a substring; a reported pattern is on the list and occurs in the command |
| Validation.DefaultCommandVerdict | core/src/validation.rs:70-85 | under the default deny-list, in any iteration order, the verdict reduces to: non-blank, at most 65,536 bytes, none of `` ` ; \| > < `` and none of `$(`, `&&`, `..` |
| Validation.ValidateRange | core/src/validation.rs:177-189 | accepted iff min <= value <= max, both bounds inclusive; the error carries the field, the bounds and the value |
| Validation.ValidateGpuCount | core/src/validation.rs:191-194 | accepted iff count <= 1024 |
| Validation.ValidatePriority | core/src/validation.rs:196-199 | accepted iff -1000 <= priority <= 1000 |
| Validation.ValidateBufferSize | core/src/validation.rs:201-204 | accepted iff 1 <= size <= 2^30, including for sizes of 2^63 and above, which the `as i64` cast makes negative |
| Validation.SanitizeString | core/src/validation.rs:207-211 | the output holds no control characters other than newline and tab; every kept input character survives; input that is already clean is returned unchanged |
| Validation.SanitizeStringProperties | core/src/validation.rs:207-211 | sanitising is idempotent and distributes over concatenation, and a single character is kept iff it is not a control character other than newline or tab, and otherwise vanishes: so the result is exactly the kept characters in order |
| Validation.SanitizeLogMessage | core/src/validation.rs:214-221 | sanitised text of at most 10,000 bytes comes back unchanged; longer text becomes its first 10,000 bytes plus the truncation marker; it fails (a panic in the source) iff byte 10,000 is not a character boundary |
| Validation.AsciiLogMessageNeverPanics | core/src/validation.rs:214-221 | on ASCII input it never fails, and long input keeps exactly its first 10,000 sanitised characters plus the marker |
| RingBuffer.Queue.IsEmpty | core/src/ring_buffer.rs:29-31 | empty iff the length is zero |
| RingBuffer.Queue.Push | core/src/ring_buffer.rs:17-19 | succeeds iff the queue is below capacity, appending the event at the back; when full it reports `BufferFull` and changes nothing |
| RingBuffer.Queue.Pop | core/src/ring_buffer.rs:21-23 | an empty queue yields nothing and is unchanged; otherwise it yields the front event and the rest remain in order |
| RingBuffer.New | core/src/ring_buffer.rs:11-15 | a new queue is empty and has the requested capacity |
| RingBuffer.Run | core/src/ring_buffer.rs:17-23 | any mix of pushes and pops keeps the queue well formed and its capacity unchanged |
| RingBuffer.RunConservesEvents | core/src/ring_buffer.rs:17-23 | FIFO: after any mix of pushes and pops, the events popped followed by the events left equal the events before plus the pushes accepted, in order |
| RingBuffer.PushAllFillsToCapacity | core/src/ring_buffer.rs:17-19 | pushing a series succeeds for exactly the first `capacity - len` events; the rest fail with `BufferFull` |
| RingBuffer.Handle.Clone | core/src/ring_buffer.rs:34-40 | a clone shares the original's queue and does not copy it |
| RingBuffer.CloneSharesQueue | core/src/engine.rs:26-28 | an event pushed through one handle is popped through its clone (`get_ring_buffer` hands out such a clone) |
| Engine.Dispatch | core/src/engine.rs:58-75 | the consumer asks every plugin in registry order; the event is admitted iff no plugin answers `Ok(false)` |
| Engine.FailOpen | core/src/engine.rs:64-71 | an empty registry admits everything; inserting a plugin that errors never changes the verdict; inserting one that answers false always drops the event |
| Engine.New | core/src/engine.rs:17-24 | succeeds iff the wasm host is created, giving a running, not-yet-started engine with an empty queue of the requested size and no plugins |
| Engine.LoadPlugin | core/src/engine.rs:30-35 | a successful load appends the plugin to the registry; a failed one returns the error and leaves the engine unchanged |
| Engine.LoadAllAppendsInOrder | core/src/engine.rs:30-35 | after a series of loads the registry has the successful plugins appended in call order |
| Engine.Start | core/src/engine.rs:37-85 | starting launches the consumer and changes neither the queue, the plugins nor the running flag |
| Engine.Shutdown | core/src/engine.rs:87-89 | clears the running flag and nothing else |
| Engine.Step | core/src/engine.rs:58-83 | one pass of the consumer loop: halted when not running; parks when the queue is empty; otherwise pops the front event and reports the registry's verdict on it |
| Engine.StepsDrainInOrder | core/src/engine.rs:58-83 | a running consumer processes the queued events front to back, one per step, then parks |
| Engine.ShutdownStopsLoop | core/src/engine.rs:87-89 | shutdown is idempotent, and after it the consumer loop makes no progress |
| Boundary.CodesDistinct | core/src/lib.rs:19-33 | success is 0 and the five failure codes are distinct negative values |
| Boundary.Init | core/src/lib.rs:43-64 | returns a live handle iff the size is non-zero, the host is created and nothing panics; a live engine is running and started, with an empty queue of that size and no plugins |
| Boundary.Free | core/src/lib.rs:72-86 | a null handle is ignored; otherwise the engine is shut down, with queue and plugins untouched |
| Boundary.FreeStopsConsumer | core/src/lib.rs:72-86 | after free, the consumer loop of that engine halts on every step |
| Boundary.Publish | core/src/lib.rs:102-143 | null pointers give -1 before anything else; a panic gives -3; a failed conversion gives -4; a converted batch gives 0 iff the queue has room, and -2 otherwise; only success changes the engine, by enqueueing the event |
| Boundary.PublishAllFillsQueue | core/src/lib.rs:102-143 | publishing a series gives 0 for exactly as many calls as there is room, and -2 after; the queue gains the accepted events in order |
| Boundary.LoadPlugin | core/src/lib.rs:157-183 | null pointers give -1; a successful load gives 0 and appends the plugin; a rejected load gives -2; a panic gives -3 |
| Boundary.CodeRanges | core/src/lib.rs:102-183 | `INIT_FAILED` is never returned, and a rejected plugin is reported with the same code as a full queue |
| Sandbox.NewContext | runtime/src/sandbox/mod.rs:36-42 | a new context keeps its limits, has no start time and has made no host calls |
| Sandbox.Start | runtime/src/sandbox/mod.rs:44-47 | starting records the start time and resets the host-call count |
| Sandbox.CheckTimeout | runtime/src/sandbox/mod.rs:49-56 | fails with a timeout iff the context was started and the elapsed time strictly exceeds the budget |
| Sandbox.RecordHostCall | runtime/src/sandbox/mod.rs:58-64 | the count is incremented even when the call is refused; the call is refused iff the new count exceeds the maximum |
| Sandbox.QuotaAdmitsExactlyMax | runtime/src/sandbox/mod.rs:58-64 | over a series of host calls, call i is admitted iff count + i + 1 <= max; every refusal is "too many host calls"; limits and start time are untouched |
| Sandbox.DefaultLimitsBehaviour | runtime/src/sandbox/mod.rs:18-26 | under the default limits of 16 MiB, 100 ms and 1000 calls, a fresh context admits calls 1 to 1000 and refuses call 1001 |
| Sandbox.CreateContext | runtime/src/sandbox/mod.rs:79-81 | a context created by the sandbox carries the sandbox's limits and starts fresh |
| Sandbox.ValidateWasmBytes | runtime/src/sandbox/mod.rs:83-93 | accepts iff there are at least 8 bytes and they begin with `\0asm`; shorter input is "too small" before the magic is looked at |
| Sandbox.HeaderCheckIgnoresRest | runtime/src/sandbox/mod.rs:83-93 | the verdict depends only on the length and the first four bytes; the version field is not checked |
| HostCalls.LogLevelFrom | runtime/src/host_calls/mod.rs:66-74 | 0 is Info, 1 is Warn, and every other value is Error |
| HostCalls.NewInterface | runtime/src/host_calls/mod.rs:11-15 | a new interface has counted no calls |
| HostCalls.Increment | runtime/src/host_calls/mod.rs:48-50 | the counter advances by one, modulo 2^32 |
| HostCalls.Log | runtime/src/host_calls/mod.rs:18-25 | logging counts one call and emits at the requested level |
| HostCalls.GetTimestampNs | runtime/src/host_calls/mod.rs:28-34 | counts one call; a clock before the epoch gives 0; a clock at or after it gives the nanoseconds modulo 2^64 |
| HostCalls.ReadEventField | runtime/src/host_calls/mod.rs:37-41 | counts one call and always succeeds with the UTF-8 bytes of the field name |
| HostCalls.GetCallCount | runtime/src/host_calls/mod.rs:44-46 | reads the count without counting itself |
| HostCalls.CounterCountsCalls | runtime/src/host_calls/mod.rs:11-50 | after any sequence of host calls the counter equals the start value plus the number of counted calls, modulo 2^32 |
| FilterPlugin.INIT_RESULT | examples/plugins/filter_plugin.rs:28-33 | `init` takes no input and always reports success, 1 |
| FilterPlugin.ABI_VERSION | examples/plugins/filter_plugin.rs:35-39 | `version` always reports version 1 |
| FilterPlugin.TruncRemPeriod | examples/plugins/filter_plugin.rs:21-23 | Rust's truncating `%` by 100: the remainder has the sign of the dividend, and it is zero iff the dividend is a multiple of 100 |
| FilterPlugin.OnEvent | examples/plugins/filter_plugin.rs:12-27 | answers 0 or 1; blocks iff the source id is 0 or the sequence number is a multiple of 100, negative ones included |
| FilterPlugin.FilterDecision | examples/plugins/filter_plugin.rs:12-27 | seen from the engine's unsigned header, a sequence number below 2^63 is blocked iff it is a multiple of 100, and one at or above 2^63 iff it is 16 modulo 100 |
| FilterPlugin.FilterInRegistry | examples/plugins/filter_plugin.rs:12-27 | alone, the filter admits exactly what it allows; added to any registry, it admits an event iff the registry did and the filter allows it |
| Pool.CountTrue | zenith-runtime-cpu/src/pool.rs:160-163 | the number of slabs in use: zero iff none is, all iff every one is |
| Pool.New | zenith-runtime-cpu/src/pool.rs:80-96 | the new pool holds the slabs whose creation succeeded, all free, with both counters zero |
| Pool.FirstFree | zenith-runtime-cpu/src/pool.rs:103-113 | finds the lowest free slab, and finds none iff every slab is in use |
| Pool.AllocateAsWritten | zenith-runtime-cpu/src/pool.rs:99-147 | the allocator as written: it reuses the lowest free slab, otherwise grows by one; it fails iff no slab is free and the pool is at its maximum or slab creation fails, and failure changes nothing; reuse raises the high-water mark to the new count, growth leaves it untouched |
| Pool.GrowthSkipsHighWaterMark | zenith-runtime-cpu/src/pool.rs:128-143 | one allocation from an empty pool gives a count of 1 and a high-water mark of 0, which `stats()` then reports |
| Pool.Allocate | zenith-runtime-cpu/src/pool.rs:99-147 | the corrected allocator (see "## Findings"): reuses the lowest free slab, else appends a new slab in use; fails iff no slab is free and the pool is at its maximum or slab creation fails; failure changes nothing; the high-water mark never falls and covers the count |
| Pool.AllocateDiffersOnlyInMark | zenith-runtime-cpu/src/pool.rs:99-147 | the corrected allocator returns the same buffer and leaves the same slabs and counter as the allocator as written; only the high-water mark may differ |
| Pool.AllocateAsWrittenKeepsCount | zenith-runtime-cpu/src/pool.rs:99-147 | the allocator as written keeps the count equal to the slabs in use |
| Pool.AllocatePreservesValid | zenith-runtime-cpu/src/pool.rs:99-147 | the corrected allocator (see "## Findings"): allocation keeps the count equal to the slabs in use, and the high-water mark at or above it |
| Pool.Deallocate | zenith-runtime-cpu/src/pool.rs:150-157 | a known index is marked free and the count drops by one, wrapping; an unknown index is ignored |
| Pool.DeallocatePreservesValid | zenith-runtime-cpu/src/pool.rs:150-157 | freeing a slab that is in use keeps the count equal to the slabs in use, keeps the corrected invariant, and lowers the count by one |
| Pool.DoubleFreeBreaksCount | zenith-runtime-cpu/src/pool.rs:150-157 | returning a buffer whose index names a free slab (one from another pool, since a `PoolBuffer` cannot be copied) still decrements the counter, which wraps from 0 to 2^64-1 |
| Pool.Stats | zenith-runtime-cpu/src/pool.rs:160-184 | on any pool, the statistics report the capacity, the counter and the high-water mark as they stand, the slab size, and the total memory: exact when the product fits in 64 bits, congruent to it modulo 2^64 otherwise |
| Pool.StatsOfValidPool | zenith-runtime-cpu/src/pool.rs:160-184 | on a pool that keeps the corrected invariant, the reported allocation count is the number of slabs in use, and never exceeds the capacity or the high-water mark |
| Pool.RunAsWrittenKeepsCount | zenith-runtime-cpu/src/pool.rs:99-157 | with the allocator as written, if each buffer is returned at most once while live, the counter equals the number of slabs in use after any series of calls, and the pool never shrinks |
| Pool.RunKeepsCount | zenith-runtime-cpu/src/pool.rs:99-157 | the corrected allocator (see "## Findings"): any series of allocations and frees of live buffers keeps the pool's invariant, and the pool never shrinks |
| Pool.AllocateThenReturn | zenith-runtime-cpu/src/pool.rs:253-276 | allocating twice gives slabs 0 and 1; freeing slab 0 makes the next allocation reuse it |
| Schema.KnownIndex | codegen/src/generators/schema.rs:72-98 | a type name is known iff it is one of the eight listed names, and its index finds it |
| Schema.MapTypeToArrow | codegen/src/generators/schema.rs:72-84 | known names map to their Arrow data type; any other name maps to `Utf8` plus a comment naming it |
| Schema.MapTypeToPyarrow | codegen/src/generators/schema.rs:86-98 | known names map to their pyarrow constructor; any other name maps to `pa.string()` plus a comment naming it |
| Schema.MappingsInjective | codegen/src/generators/schema.rs:72-98 | both mappings are injective on every type name, unknown names included |
| Schema.ToLower | codegen/src/generators/schema.rs:37 | lower-casing keeps the length and lowers each ASCII capital |
| Schema.SplitJoinLines | codegen/src/generators/schema.rs:34-70 | output built line by line splits back into exactly those lines when no line holds a newline |
| Schema.RustOutputLines | codegen/src/generators/schema.rs:34-52 | splitting the Rust output on newlines gives back exactly the lines written: n + 7 of them, the five header lines (comment, import, blank, function head, vector opening), one `Field::new` line per field in input order, then the two closing lines |
| Schema.AbsentNullableIsFalse | codegen/src/generators/schema.rs:42-46 | a field with no `nullable` is written exactly as one with `false`, and differently from one with `true` |
| Schema.PythonOutputLines | codegen/src/generators/schema.rs:54-70 | splitting the Python output on newlines gives back exactly the lines written: n + 6 of them, the five header lines, one `pa.field` line per field in input order, then the closing line |
| Schema.PythonIgnoresNullable | codegen/src/generators/schema.rs:60-66 | two schemas that differ only in nullability generate the same Python text |
| Schema.Generate | codegen/src/generators/schema.rs:20-32 | `rust` and `python` pick their generator, and every other language is an "Unsupported language" error |
| Turbo.Size | zenith-runtime-cpu/src/turbo/mod.rs:83-93 | 4 bytes iff Float32 or Int32; 2 iff Float16 or BFloat16; 8 iff Int64; 1 iff UInt8 |
| Turbo.SizeMatchesBitWidth | zenith-runtime-cpu/src/turbo/mod.rs:83-93 | each byte size times eight is the bit width the type is named for |
| Turbo.New | zenith-runtime-cpu/src/turbo/mod.rs:126-136 | a new engine is stopped, with both counters at zero |
| Turbo.Start | zenith-runtime-cpu/src/turbo/mod.rs:138-142 | starting sets the running flag and keeps the counters |
| Turbo.Stop | zenith-runtime-cpu/src/turbo/mod.rs:144-148 | stopping clears the running flag and keeps the counters |
| Turbo.RecordSamples | zenith-runtime-cpu/src/turbo/mod.rs:169-172 | both counters grow by the amounts given, modulo 2^64, whether or not the engine is running |
| Turbo.Stats | zenith-runtime-cpu/src/turbo/mod.rs:155-167 | reports the two counters; the SIMD, cache and prefetch counters stay zero |
| Turbo.CountersAccumulate | zenith-runtime-cpu/src/turbo/mod.rs:138-172 | under any interleaving of starts, stops and records, the counters hold the recorded totals modulo 2^64, and the last start or stop sets the flag |

## Left out

- Concurrency: threads, the `Mutex` around the plugin registry, atomic memory orderings and the lock-free queue's internals are not modelled. Each operation is one atomic step on an immutable state, and queue handles share one mutable cell.
- The admin HTTP server that `Engine::start` spawns is left out. So is the consumer thread's parking timeout, which becomes the `Parked` step outcome.
- wasmtime is left out: compiling, instantiating and calling plugin code, and `wasm_host`. A plugin is an oracle on the event header. The conversion of `u32`/`u64` header fields into WebAssembly `i32`/`i64` arguments is taken to be a two's-complement reinterpretation, and any non-zero plugin answer is taken to mean allow.
- Arrow C Data Interface import, raw pointers and `catch_unwind` are abstracted. The outcomes of a conversion, a plugin load and a panic are inputs, and a pointer is modelled only as null or not null.
- Engine.New: requires a non-zero size, because the queue constructor panics on zero. Boundary.Init models that zero case, returning null.
- `Engine::get_ring_buffer` has no member of its own. It hands out a queue clone, which `RingBuffer.Handle.Clone` and `RingBuffer.CloneSharesQueue` model.
- Validation.ValidateJobName: `char::is_alphanumeric` is restricted to ASCII letters and digits. The Unicode alphabetic and numeric tables are not modelled, so non-ASCII letters are treated as invalid.
- Schema.ToLower: `str::to_lowercase` is modelled on ASCII capitals only. Other characters are left unchanged.
- `MAX_ENV_VARS`, `MAX_ARGUMENTS` and the `Display` texts of `ValidationError` are left out. No validation routine in the core uses them.
- The deny-list follows the code, which includes `$((` besides `$(`. The verdict is unaffected, because `$(` already covers it.
- Sandbox.RecordHostCall: requires the count to be below 2^32 - 1. The `u32` overflow of `+=` is a panic in debug builds and a wrap in release builds. Neither is modelled, because the quota trips long before.
- `max_memory` in the sandbox limits is carried but never enforced, as in the source.
- The sandbox clock is a natural number of nanoseconds passed in by the caller. `Instant` itself is not modelled.
- The log sink (`tracing`) and the log message text are dropped. `HostCalls.Log` keeps only the level and the count.
- `Boundary.INIT_FAILED` is declared as in the source, but no entry point returns it.
- Pool.Stats: requires the slab vector's length to fit in 64 bits, which every Rust `Vec` guarantees; no other condition on the pool is assumed.
- Pool memory itself is left out: slab alignment, the raw allocation, `as_slice`, and reading or writing buffer bytes. Slab creation success is an input.
- The turbo engine's configuration, SIMD, prefetch and metrics modules, and the floating-point `throughput` field of `TurboStats` are left out.
- Schema.Generate: reading the JSON input file, parsing it with serde and writing the output file are left out. The function takes the parsed schema and returns the text or the error.
- `ffi.rs`, the gRPC service, the scheduler crate, the language bindings and the benchmarks are outside the core and not part of this model.

## Findings

| source | as written | input that shows it | evidently intended | confidence | as-written member | corrected member |
|---|---|---|---|---|---|---|
| zenith-runtime-cpu/src/pool.rs:128-143 | when `allocate` grows the pool with a new slab, it increments the allocated count but never raises the high-water mark, unlike the reuse path | a pool with `initial_slabs = 0` and one `allocate()` call: `allocated_count() == 1` but `high_water_mark() == 0` | the high-water mark is at least the allocated count after every allocation | not executed | Pool.AllocateAsWritten, Pool.GrowthSkipsHighWaterMark | Pool.Allocate, Pool.AllocatePreservesValid, Pool.RunKeepsCount |
