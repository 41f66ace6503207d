/** The engine: a bounded queue, an ordered plugin registry and a running
    flag, with the consumer loop's per-event admit decision. Plugin
    execution is an oracle: a loaded plugin is known only by what its
    `on_event` export answers. The consumer thread is modelled as a
    sequence of `Step`s. */
module Engine {
  import opened Wrappers
  import opened RingBuffer

  datatype PluginError = ExecutionFailed(message: string)

  /** A loaded plugin: for each event header its `on_event` either answers
      allow (`Ok(true)`), block (`Ok(false)`) or fails to execute. */
  datatype Plugin = Plugin(onEvent: EventHeader -> Result<bool, PluginError>)

  datatype LoadError = LoadFailed(message: string)

  datatype EngineError = HostCreationFailed

  /** The admit decision: drop only if some plugin explicitly blocks. */
  predicate Admits(plugins: seq<Plugin>, h: EventHeader)
  {
    forall i :: 0 <= i < |plugins| ==> plugins[i].onEvent(h) != Ok(false)
  }

  /** The plugin loop of the consumer thread: every plugin is invoked once,
      in registration order, without stopping at a block; execution errors
      are skipped (fail-open). */
  method Dispatch(plugins: seq<Plugin>, h: EventHeader) returns (allowed: bool, trace: seq<Result<bool, PluginError>>)
    ensures |trace| == |plugins|
    ensures forall i :: 0 <= i < |plugins| ==> trace[i] == plugins[i].onEvent(h)
    ensures allowed <==> Admits(plugins, h)
  {
    allowed := true;
    trace := [];
    var i := 0;
    while i < |plugins|
      invariant 0 <= i <= |plugins|
      invariant |trace| == i
      invariant forall j :: 0 <= j < i ==> trace[j] == plugins[j].onEvent(h)
      invariant allowed <==> forall j :: 0 <= j < i ==> plugins[j].onEvent(h) != Ok(false)
    {
      var res := plugins[i].onEvent(h);
      trace := trace + [res];
      match res {
        case Ok(b) =>
          if !b {
            allowed := false;
          }
        case Err(_) =>
      }
      i := i + 1;
    }
  }

  /** Fail-open: with no plugins the event is admitted, and inserting a
      plugin that fails to execute, anywhere in the registry, never changes
      the decision; inserting one that blocks always drops. */
  lemma FailOpen(plugins: seq<Plugin>, k: nat, p: Plugin, h: EventHeader)
    requires k <= |plugins|
    ensures Admits([], h)
    ensures p.onEvent(h).Err? ==> (Admits(plugins[..k] + [p] + plugins[k..], h) <==> Admits(plugins, h))
    ensures p.onEvent(h) == Ok(false) ==> !Admits(plugins[..k] + [p] + plugins[k..], h)
  {
    var ps := plugins[..k] + [p] + plugins[k..];
    assert ps[k] == p;
    if p.onEvent(h).Err? {
      if Admits(plugins, h) {
        forall i | 0 <= i < |ps| ensures ps[i].onEvent(h) != Ok(false) {
          if i < k {
            assert ps[i] == plugins[i];
          } else if i > k {
            assert ps[i] == plugins[i - 1];
          }
        }
      }
      if Admits(ps, h) {
        forall i | 0 <= i < |plugins| ensures plugins[i].onEvent(h) != Ok(false) {
          if i < k {
            assert ps[i] == plugins[i];
          } else {
            assert ps[i + 1] == plugins[i];
          }
        }
      }
    }
  }

  datatype EngineState = EngineState(queue: Queue, plugins: seq<Plugin>, running: bool, started: bool)
  {
    predicate Valid()
    {
      queue.Valid()
    }
  }

  /** `ZenithEngine::new`: an empty queue of the given capacity, no plugins,
      running. Creating the plugin host may fail. */
  function New(bufferSize: nat, hostCreated: bool): (r: Result<EngineState, EngineError>)
    requires bufferSize > 0
    ensures r.Ok? <==> hostCreated
    ensures r.Ok? ==> && r.value.Valid() && r.value.running && !r.value.started
                      && r.value.queue.capacity == bufferSize && r.value.queue.IsEmpty()
                      && r.value.plugins == []
    ensures r.Err? ==> r.error == HostCreationFailed
  {
    if hostCreated then Ok(EngineState(RingBuffer.New(bufferSize), [], true, false))
    else Err(HostCreationFailed)
  }

  /** `load_plugin`: a successfully loaded plugin is appended to the
      registry; on a load failure the error is returned before the registry
      is touched. */
  function LoadPlugin(e: EngineState, loaded: Result<Plugin, LoadError>): (r: (EngineState, Result<(), LoadError>))
    ensures loaded.Ok? ==> r.1.Ok? && r.0 == e.(plugins := e.plugins + [loaded.value])
    ensures loaded.Err? ==> r.1 == Err(loaded.error) && r.0 == e
    ensures r.0.queue == e.queue && r.0.running == e.running && r.0.started == e.started
  {
    match loaded
    case Ok(p) => (e.(plugins := e.plugins + [p]), Ok(()))
    case Err(err) => (e, Err(err))
  }

  /** The registry after a series of loads: exactly the plugins whose
      load succeeded, in load order. */
  function Loaded(loads: seq<Result<Plugin, LoadError>>): seq<Plugin>
  {
    if loads == [] then []
    else if loads[|loads| - 1].Ok? then Loaded(loads[..|loads| - 1]) + [loads[|loads| - 1].value]
    else Loaded(loads[..|loads| - 1])
  }

  function LoadAll(e: EngineState, loads: seq<Result<Plugin, LoadError>>): EngineState
  {
    if loads == [] then e
    else LoadPlugin(LoadAll(e, loads[..|loads| - 1]), loads[|loads| - 1]).0
  }

  lemma {:induction false} LoadAllAppendsInOrder(e: EngineState, loads: seq<Result<Plugin, LoadError>>)
    ensures LoadAll(e, loads).plugins == e.plugins + Loaded(loads)
    ensures LoadAll(e, loads).queue == e.queue && LoadAll(e, loads).running == e.running
  {
    if loads != [] {
      LoadAllAppendsInOrder(e, loads[..|loads| - 1]);
    }
  }

  /** `start`: spawns the consumer (and administration) threads. */
  function Start(e: EngineState): (r: EngineState)
    ensures r.started && r.queue == e.queue && r.plugins == e.plugins && r.running == e.running
  {
    e.(started := true)
  }

  /** `shutdown`: clears the running flag; nothing else changes. */
  function Shutdown(e: EngineState): (r: EngineState)
    ensures !r.running
    ensures r.queue == e.queue && r.plugins == e.plugins && r.started == e.started
  {
    e.(running := false)
  }

  datatype StepOutcome =
    | Halted                               // the loop has observed `running == false`
    | Parked                               // the queue was empty
    | Processed(event: Event, allowed: bool)

  /** One iteration of the consumer loop. */
  function Step(e: EngineState): (r: (EngineState, StepOutcome))
    requires e.Valid()
    ensures r.0.Valid()
    ensures !e.running ==> r == (e, Halted)
    ensures e.running && e.queue.IsEmpty() ==> r == (e, Parked)
    ensures e.running && !e.queue.IsEmpty() ==>
              && r.1 == Processed(e.queue.items[0], Admits(e.plugins, e.queue.items[0].header))
              && r.0 == e.(queue := e.queue.(items := e.queue.items[1..]))
  {
    if !e.running then (e, Halted)
    else
      var (q, got) := e.queue.Pop();
      match got
      case None => (e, Parked)
      case Some(ev) => (e.(queue := q), Processed(ev, Admits(e.plugins, ev.header)))
  }

  function Steps(e: EngineState, n: nat): (r: (EngineState, seq<StepOutcome>))
    requires e.Valid()
    ensures r.0.Valid() && |r.1| == n
    decreases n
  {
    if n == 0 then (e, [])
    else
      var (e1, o) := Step(e);
      var (e2, os) := Steps(e1, n - 1);
      (e2, [o] + os)
  }

  /** How many queued events `n` steps of a running consumer take. */
  function Drained(e: EngineState, n: nat): nat
  {
    if n < e.queue.Len() then n else e.queue.Len()
  }

  /** While running, the consumer takes the queued events one per step in
      FIFO order, decides each against the whole registry, and then parks;
      the registry and the flag are untouched. */
  lemma StepsDrainInOrder(e: EngineState, n: nat)
    requires e.Valid() && e.running
    ensures Steps(e, n).0.queue.items == e.queue.items[Drained(e, n)..]
    ensures Steps(e, n).0.plugins == e.plugins && Steps(e, n).0.running
    ensures forall i :: 0 <= i < Drained(e, n) ==>
              Steps(e, n).1[i] == Processed(e.queue.items[i], Admits(e.plugins, e.queue.items[i].header))
    ensures forall i :: Drained(e, n) <= i < n ==> Steps(e, n).1[i] == Parked
  {
    StepsDrainState(e, n);
    StepsDrainOutputs(e, n);
  }

  /** The state half: the queue loses its first `Drained(e, n)` events. */
  lemma {:induction false} StepsDrainState(e: EngineState, n: nat)
    requires e.Valid() && e.running
    ensures Steps(e, n).0.queue.items == e.queue.items[Drained(e, n)..]
    ensures Steps(e, n).0.plugins == e.plugins && Steps(e, n).0.running
    decreases n
  {
    if n > 0 {
      if e.queue.IsEmpty() {
        ParkedWhileEmpty(e, n);
        assert e.queue.items[0..] == e.queue.items;
      } else {
        var e1 := Step(e).0;
        StepUnfold(e, n);
        StepsDrainState(e1, n - 1);
        assert e.queue.items[1..][Drained(e, n) - 1..] == e.queue.items[Drained(e, n)..];
      }
    }
  }

  /** The output half: the drained events in order, then parking. */
  lemma {:induction false} StepsDrainOutputs(e: EngineState, n: nat)
    requires e.Valid() && e.running
    ensures forall i :: 0 <= i < Drained(e, n) ==>
              Steps(e, n).1[i] == Processed(e.queue.items[i], Admits(e.plugins, e.queue.items[i].header))
    ensures forall i :: Drained(e, n) <= i < n ==> Steps(e, n).1[i] == Parked
    decreases n
  {
    if n > 0 {
      if e.queue.IsEmpty() {
        ParkedWhileEmpty(e, n);
      } else {
        var items := e.queue.items;
        var e1 := Step(e).0;
        var os := Steps(e1, n - 1).1;
        StepUnfold(e, n);
        StepsDrainOutputs(e1, n - 1);
        var k := Drained(e, n);
        assert Drained(e1, n - 1) == k - 1;
        forall i | 0 <= i < k
          ensures Steps(e, n).1[i] == Processed(items[i], Admits(e.plugins, items[i].header))
        {
          if i > 0 {
            assert Steps(e, n).1[i] == os[i - 1];
            assert items[1..][i - 1] == items[i];
          }
        }
        forall i | k <= i < n ensures Steps(e, n).1[i] == Parked {
          assert Steps(e, n).1[i] == os[i - 1];
        }
      }
    }
  }

  /** One step of a running consumer with a queued event, unfolded. */
  lemma StepUnfold(e: EngineState, n: nat)
    requires e.Valid() && e.running && !e.queue.IsEmpty() && n > 0
    ensures Step(e).0.Valid() && Step(e).0.queue.items == e.queue.items[1..]
    ensures Step(e).0.plugins == e.plugins && Step(e).0.running
    ensures Steps(e, n) == (Steps(Step(e).0, n - 1).0,
                            [Processed(e.queue.items[0], Admits(e.plugins, e.queue.items[0].header))]
                              + Steps(Step(e).0, n - 1).1)
  {
  }

  /** A running consumer with nothing queued parks on every step and
      changes nothing. */
  lemma {:induction false} ParkedWhileEmpty(e: EngineState, n: nat)
    requires e.Valid() && e.running && e.queue.IsEmpty()
    ensures Steps(e, n).0 == e
    ensures forall i :: 0 <= i < n ==> Steps(e, n).1[i] == Parked
    decreases n
  {
    if n > 0 {
      ParkedWhileEmpty(e, n - 1);
      assert Steps(e, n) == (Steps(e, n - 1).0, [Parked] + Steps(e, n - 1).1);
    }
  }

  /** Shutdown is idempotent, and once it is observed the loop makes no
      further progress: every later step halts and changes nothing. */
  lemma {:induction false} ShutdownStopsLoop(e: EngineState, n: nat)
    requires e.Valid()
    ensures Shutdown(Shutdown(e)) == Shutdown(e)
    ensures var (e', outs) := Steps(Shutdown(e), n);
            e' == Shutdown(e) && forall i :: 0 <= i < n ==> outs[i] == Halted
  {
    if n > 0 {
      ShutdownStopsLoop(e, n - 1);
    }
  }
}
