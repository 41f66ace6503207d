/** The C-callable boundary of the core library: an opaque engine handle
    and integer result codes. Pointer nullness, the outcome of importing an
    Arrow batch through the C Data Interface, the outcome of loading a
    plugin and whether the guarded body panicked are inputs; a caught panic
    leaves the engine as it was. */
module Boundary {
  import opened Wrappers
  import opened MachineInts
  import RingBuffer
  import Engine

  /** `ffi_error`. */
  const SUCCESS: int32 := 0
  const NULL_POINTER: int32 := -1
  const BUFFER_FULL: int32 := -2
  const PANIC: int32 := -3
  const FFI_ERROR: int32 := -4
  const INIT_FAILED: int32 := -5

  /** The codes as a list, for stating distinctness. */
  const CODES: seq<int32> := [SUCCESS, NULL_POINTER, BUFFER_FULL, PANIC, FFI_ERROR, INIT_FAILED]

  /** Success is zero and the five failure codes are distinct negatives. */
  lemma CodesDistinct()
    ensures CODES[0] == 0
    ensures forall i :: 1 <= i < |CODES| ==> CODES[i] < 0
    ensures forall i, j :: 0 <= i < j < |CODES| ==> CODES[i] != CODES[j]
  {
  }

  /** The engine pointer handed across the boundary. */
  datatype Handle = Null | Live(engine: Engine.EngineState)
  {
    predicate Valid()
    {
      Live? ==> engine.Valid()
    }
  }

  /** `zenith_init`: a started engine with an empty queue of `bufferSize`
      slots, or null when the host cannot be created or anything panics. A
      zero size makes the queue constructor panic, so it yields null. */
  function Init(bufferSize: uint32, hostCreated: bool, panicked: bool): (h: Handle)
    ensures h.Valid()
    ensures h.Live? <==> bufferSize > 0 && hostCreated && !panicked
    ensures h.Live? ==> && h.engine.running && h.engine.started
                        && h.engine.queue.capacity == bufferSize && h.engine.queue.IsEmpty()
                        && h.engine.plugins == []
  {
    if bufferSize == 0 || panicked then Null
    else
      match Engine.New(bufferSize, hostCreated)
      case Ok(e) => Live(Engine.Start(e))
      case Err(_) => Null
  }

  /** `zenith_free`: nothing for null; otherwise the engine is shut down
      before it is dropped. The result is the engine as last seen. */
  function Free(h: Handle): (r: Option<Engine.EngineState>)
    ensures r.None? <==> h.Null?
    ensures r.Some? ==> && !r.value.running
                        && r.value.queue == h.engine.queue && r.value.plugins == h.engine.plugins
  {
    match h
    case Null => None
    case Live(e) => Some(Engine.Shutdown(e))
  }

  /** After `zenith_free` the consumer loop of the freed engine makes no
      further progress. */
  lemma FreeStopsConsumer(h: Handle, n: nat)
    requires h.Valid() && h.Live?
    ensures var (e', outs) := Engine.Steps(Free(h).value, n);
            e' == Free(h).value && forall i :: 0 <= i < n ==> outs[i] == Engine.Halted
  {
    Engine.ShutdownStopsLoop(h.engine, n);
  }

  /** Outcome of `from_ffi` followed by the struct-array and batch
      conversions. */
  datatype Conversion = Converted(batch: RingBuffer.RecordBatch) | ConversionFailed | ConversionPanicked

  /** `zenith_publish`: null pointers are refused before anything else, a
      panic is reported as such, a failed conversion as `FFI_ERROR`, and a
      converted batch is pushed, succeeding or reporting `BUFFER_FULL`. Only
      success changes the engine, by enqueueing the event at the back. */
  function Publish(h: Handle, arrayNull: bool, schemaNull: bool, conversion: Conversion,
                   sourceId: uint32, seqNo: uint64): (r: (int32, Handle))
    requires h.Valid()
    ensures r.1.Valid()
    ensures h.Null? || arrayNull || schemaNull ==> r == (NULL_POINTER, h)
    ensures h.Live? && !arrayNull && !schemaNull ==>
              && (conversion.ConversionPanicked? ==> r.0 == PANIC)
              && (conversion.ConversionFailed? ==> r.0 == FFI_ERROR)
              && (conversion.Converted? ==>
                    (r.0 == SUCCESS <==> h.engine.queue.Len() < h.engine.queue.capacity)
                    && (r.0 != SUCCESS ==> r.0 == BUFFER_FULL))
    ensures r.0 == SUCCESS ==>
              && h.Live? && conversion.Converted?
              && r.1 == Live(h.engine.(queue := h.engine.queue.(items := h.engine.queue.items +
                   [RingBuffer.Event(RingBuffer.EventHeader(sourceId, seqNo), conversion.batch)])))
    ensures r.0 != SUCCESS ==> r.1 == h
  {
    if h.Null? || arrayNull || schemaNull then (NULL_POINTER, h)
    else
      match conversion
      case ConversionPanicked => (PANIC, h)
      case ConversionFailed => (FFI_ERROR, h)
      case Converted(batch) =>
        var event := RingBuffer.Event(RingBuffer.EventHeader(sourceId, seqNo), batch);
        var (q, res) := h.engine.queue.Push(event);
        if res.Ok? then (SUCCESS, Live(h.engine.(queue := q))) else (BUFFER_FULL, h)
  }

  /** Publishes a series of converted batches through valid pointers. */
  function PublishAll(h: Handle, events: seq<RingBuffer.Event>): (r: (Handle, seq<int32>))
    requires h.Valid()
    ensures r.0.Valid() && |r.1| == |events|
    decreases |events|
  {
    if events == [] then (h, [])
    else
      var ev := events[0];
      var (code, h1) := Publish(h, false, false, Converted(ev.batch), ev.header.sourceId, ev.header.seqNo);
      var (h2, codes) := PublishAll(h1, events[1..]);
      (h2, [code] + codes)
  }

  /** Publishing onto a live engine with room for `room` more events: the
      first `room` calls return `SUCCESS`, the rest `BUFFER_FULL`, and the
      queue ends with the accepted events appended in call order. */
  lemma PublishAllFillsQueue(h: Handle, events: seq<RingBuffer.Event>)
    requires h.Valid() && h.Live?
    ensures var (h', codes) := PublishAll(h, events);
            var room := h.engine.queue.capacity - h.engine.queue.Len();
            && h'.Live? && h'.engine.plugins == h.engine.plugins && h'.engine.running == h.engine.running
            && (forall i :: 0 <= i < |events| ==> (codes[i] == SUCCESS <==> i < room))
            && (forall i :: 0 <= i < |events| && codes[i] != SUCCESS ==> codes[i] == BUFFER_FULL)
            && h'.engine.queue.items == h.engine.queue.items + events[..if |events| < room then |events| else room]
  {
    PublishAllCodes(h, events);
    PublishAllQueue(h, events);
  }

  /** The codes half: success while there is room, then a full queue. */
  lemma {:induction false} PublishAllCodes(h: Handle, events: seq<RingBuffer.Event>)
    requires h.Valid() && h.Live?
    ensures var codes := PublishAll(h, events).1;
            var room := h.engine.queue.capacity - h.engine.queue.Len();
            && (forall i :: 0 <= i < |events| ==> (codes[i] == SUCCESS <==> i < room))
            && (forall i :: 0 <= i < |events| && codes[i] != SUCCESS ==> codes[i] == BUFFER_FULL)
    decreases |events|
  {
    if events != [] {
      var ev := events[0];
      var r := Publish(h, false, false, Converted(ev.batch), ev.header.sourceId, ev.header.seqNo);
      var code, h1 := r.0, r.1;
      PublishFirst(h, events);
      PublishAllCodes(h1, events[1..]);
      var codes := PublishAll(h1, events[1..]).1;
      var room := h.engine.queue.capacity - h.engine.queue.Len();
      assert room > 0 ==> h1.engine.queue.capacity - h1.engine.queue.Len() == room - 1;
      assert room == 0 ==> h1 == h;
      forall i | 1 <= i < |events| ensures ([code] + codes)[i] == codes[i - 1] { }
    }
  }

  /** The state half: the accepted events are appended in call order, and
      nothing else about the engine changes. */
  lemma {:induction false} PublishAllQueue(h: Handle, events: seq<RingBuffer.Event>)
    requires h.Valid() && h.Live?
    ensures var h' := PublishAll(h, events).0;
            var room := h.engine.queue.capacity - h.engine.queue.Len();
            && h'.Live? && h'.engine.plugins == h.engine.plugins && h'.engine.running == h.engine.running
            && h'.engine.queue.items == h.engine.queue.items + events[..if |events| < room then |events| else room]
    decreases |events|
  {
    if events != [] {
      var ev := events[0];
      var r := Publish(h, false, false, Converted(ev.batch), ev.header.sourceId, ev.header.seqNo);
      var h1 := r.1;
      PublishFirst(h, events);
      PublishAllQueue(h1, events[1..]);
      var room := h.engine.queue.capacity - h.engine.queue.Len();
      if room > 0 {
        assert h1.engine.queue.capacity - h1.engine.queue.Len() == room - 1;
        TakeFront(events, room);
      } else {
        assert h1 == h;
      }
    }
  }

  /** Taking the first `m` elements of a non-empty sequence takes its head
      and then `m - 1` of the rest. */
  lemma TakeFront<T>(s: seq<T>, m: nat)
    requires s != [] && m > 0
    ensures s[..if |s| < m then |s| else m] == [s[0]] + s[1..][..if |s| - 1 < m - 1 then |s| - 1 else m - 1]
  {
  }

  /** The first publish of a series, unfolded. */
  lemma PublishFirst(h: Handle, events: seq<RingBuffer.Event>)
    requires h.Valid() && h.Live? && events != []
    ensures var ev := events[0];
            var (code, h1) := Publish(h, false, false, Converted(ev.batch), ev.header.sourceId, ev.header.seqNo);
            && PublishAll(h, events) == (PublishAll(h1, events[1..]).0, [code] + PublishAll(h1, events[1..]).1)
            && h1.Valid() && h1.Live? && h1.engine.plugins == h.engine.plugins
            && h1.engine.running == h.engine.running
            && h1.engine.queue.capacity == h.engine.queue.capacity
            && (code == SUCCESS <==> h.engine.queue.Len() < h.engine.queue.capacity)
            && (code != SUCCESS ==> code == BUFFER_FULL && h1 == h)
            && (code == SUCCESS ==> h1.engine.queue.items == h.engine.queue.items + [events[0]])
  {
    var ev := events[0];
    assert ev == RingBuffer.Event(RingBuffer.EventHeader(ev.header.sourceId, ev.header.seqNo), ev.batch);
  }

  /** Outcome of the engine's `load_plugin` inside the guarded body. */
  datatype LoadOutcome = LoadSucceeded(plugin: Engine.Plugin) | LoadRejected(error: Engine.LoadError) | LoadPanicked

  /** `zenith_load_plugin`: null engine or byte pointer gives
      `NULL_POINTER`; a load failure reuses `BUFFER_FULL`; a panic gives
      `PANIC`; success appends the plugin to the registry. */
  function LoadPlugin(h: Handle, bytesNull: bool, outcome: LoadOutcome): (r: (int32, Handle))
    requires h.Valid()
    ensures r.1.Valid()
    ensures h.Null? || bytesNull ==> r == (NULL_POINTER, h)
    ensures h.Live? && !bytesNull ==>
              && (outcome.LoadSucceeded? <==> r.0 == SUCCESS)
              && (outcome.LoadRejected? <==> r.0 == BUFFER_FULL)
              && (outcome.LoadPanicked? <==> r.0 == PANIC)
    ensures r.0 == SUCCESS ==> r.1 == Live(h.engine.(plugins := h.engine.plugins + [outcome.plugin]))
    ensures r.0 != SUCCESS ==> r.1 == h
  {
    if h.Null? || bytesNull then (NULL_POINTER, h)
    else
      match outcome
      case LoadPanicked => (PANIC, h)
      case LoadSucceeded(p) =>
        var (e, _) := Engine.LoadPlugin(h.engine, Ok(p));
        (SUCCESS, Live(e))
      case LoadRejected(err) =>
        var (e, _) := Engine.LoadPlugin(h.engine, Err(err));
        (BUFFER_FULL, Live(e))
  }

  /** Neither entry point ever returns `INIT_FAILED`, and a failed plugin
      load is indistinguishable by code from a full queue. */
  lemma CodeRanges(h: Handle, arrayNull: bool, schemaNull: bool, conversion: Conversion,
                   sourceId: uint32, seqNo: uint64, bytesNull: bool, outcome: LoadOutcome)
    requires h.Valid()
    ensures Publish(h, arrayNull, schemaNull, conversion, sourceId, seqNo).0 in
              {SUCCESS, NULL_POINTER, BUFFER_FULL, PANIC, FFI_ERROR}
    ensures LoadPlugin(h, bytesNull, outcome).0 in {SUCCESS, NULL_POINTER, BUFFER_FULL, PANIC}
    ensures h.Live? && !bytesNull && outcome.LoadRejected? ==> LoadPlugin(h, bytesNull, outcome).0 == BUFFER_FULL
  {
  }
}
