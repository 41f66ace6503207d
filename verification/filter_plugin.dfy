/** The example filter plugin: blocks the reserved source 0 and samples
    away every event whose sequence number is a multiple of 100. Its
    exports take and return WebAssembly `i32`/`i64` values; `FilterPlugin`
    is the same logic seen through the engine's `Plugin` oracle. */
module FilterPlugin {
  import opened Wrappers
  import opened MachineInts
  import RingBuffer
  import Engine

  const ALLOW: int32 := 1
  const BLOCK: int32 := 0

  /** The sampling period. */
  const PERIOD: int := 100

  /** Rust's `x % 100` on a signed integer truncates toward zero, so the
      remainder takes the sign of the dividend. */
  function TruncRemPeriod(a: int): (r: int)
    ensures -PERIOD < r < PERIOD
    ensures a >= 0 ==> 0 <= r && r == a % PERIOD
    ensures a < 0 ==> r <= 0 && (r == 0 || r == a % PERIOD - PERIOD)
    ensures r == 0 <==> a % PERIOD == 0
  {
    if a >= 0 then a % PERIOD else -((-a) % PERIOD)
  }

  /** `on_event`: 0 (block) for source 0 or a sequence number that is a
      multiple of 100, negative multiples included; 1 (allow) otherwise. */
  function OnEvent(sourceId: int32, seqNo: int64): (r: int32)
    ensures r == BLOCK || r == ALLOW
    ensures r == BLOCK <==> sourceId == 0 || seqNo % PERIOD == 0
  {
    if sourceId == 0 then BLOCK
    else if TruncRemPeriod(seqNo) == 0 then BLOCK
    else ALLOW
  }

  /** What `init` always returns: success. */
  const INIT_RESULT: int32 := 1

  /** What `version` returns: plugin ABI version 1. */
  const ABI_VERSION: int32 := 1

  /** The plugin as the engine sees it: the header's unsigned fields are
      passed as the signed WebAssembly parameters of the same bits, and any
      non-zero answer allows. The plugin never fails to execute. */
  function FilterPlugin(): Engine.Plugin
  {
    Engine.Plugin((h: RingBuffer.EventHeader) =>
      Ok(OnEvent(AsInt32(h.sourceId), AsInt64(h.seqNo)) != BLOCK))
  }

  /** The decision on a header, stated on the unsigned values the engine
      holds: a sequence number below 2^63 is blocked iff it is a multiple of
      100, and one at or above 2^63 (negative once reinterpreted) iff it is
      congruent to 16 modulo 100, since 2^64 is. Source ids keep their
      zero/non-zero meaning through the reinterpretation. */
  lemma FilterDecision(h: RingBuffer.EventHeader)
    ensures FilterPlugin().onEvent(h).Ok?
    ensures var blockedSeq := if h.seqNo < 0x8000_0000_0000_0000 then h.seqNo % 100 == 0
                              else h.seqNo % 100 == 16;
            FilterPlugin().onEvent(h) == Ok(!(h.sourceId == 0 || blockedSeq))
  {
    assert TWO_TO_THE_64 % 100 == 16;
    if h.seqNo >= 0x8000_0000_0000_0000 {
      var s := h.seqNo - TWO_TO_THE_64;
      assert AsInt64(h.seqNo) == s;
      assert (s % 100 == 0) <==> (h.seqNo % 100 == 16);
    }
  }

  /** With the filter as the only plugin the engine admits an event exactly
      when the filter allows it; adding the filter to any registry can only
      turn an admit into a drop, never the reverse. */
  lemma FilterInRegistry(plugins: seq<Engine.Plugin>, h: RingBuffer.EventHeader)
    ensures Engine.Admits([FilterPlugin()], h) <==> FilterPlugin().onEvent(h) == Ok(true)
    ensures Engine.Admits(plugins + [FilterPlugin()], h) <==>
              Engine.Admits(plugins, h) && FilterPlugin().onEvent(h) == Ok(true)
  {
    FilterDecision(h);
    var ps := plugins + [FilterPlugin()];
    assert ps[|plugins|] == FilterPlugin();
    assert forall i :: 0 <= i < |plugins| ==> ps[i] == plugins[i];
  }
}
