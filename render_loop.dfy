/**
 * The render-loop state machine of main.js, as transition functions on a snapshot of the module's
 * mutable state. `Viewer.Viewer` (viewer.dfy) performs these transitions in place; the lemmas here
 * state what they promise.
 *
 * Clock readings (`Date.now()`, integer milliseconds) are parameters. `requestAnimationFrame`
 * is the counter `scheduled` of callbacks requested and not yet delivered, and `render()` is the
 * counter `renders` of draw calls issued.
 */
module RenderLoop {
  import opened Wrappers
  import Routing
  import Shaders
  import Hash

  /** `config.x` while the animation runs, and while it is stopped. */
  const ActiveMode: int := 100
  const IdleMode: int := 1000

  /** `keyCode` of the space bar, the only key with a binding. */
  const SpaceKey: int := 32

  datatype Snapshot = Snapshot(
    running: bool,                        // isRunning
    mode: int,                            // config.x
    time: int,                            // time: the last clock reading
    elapsed: real,                        // shader.uniforms.time.value
    scheduled: nat,                       // frame callbacks requested, not yet delivered
    renders: nat,                         // draw calls issued
    fragment: Option<Shaders.Source>,     // shader.fragmentShader (None: undefined)
    needsUpdate: bool,                    // shader.needsUpdate
    selected: string,                     // the name last given to selectShader.value
    locationHash: string                  // location.hash as read back
  )

  /** Seconds between two clock readings: `(to - from) / 1000`. */
  function Delta(from: int, to: int): real
  {
    (to - from) as real / 1000.0
  }

  /** `render()`. */
  function Render(s: Snapshot): Snapshot
  {
    s.(renders := s.renders + 1)
  }

  /** `step()` with clock reading `clock`. */
  function Step(s: Snapshot, clock: int): Snapshot
  {
    s.(elapsed := s.elapsed + Delta(s.time, clock), time := clock)
  }

  /** `loop()`: when running, request the next frame, step, then render; otherwise nothing. */
  function Loop(s: Snapshot, clock: int): Snapshot
  {
    if s.running then Render(Step(s.(scheduled := s.scheduled + 1), clock)) else s
  }

  /** `start()`: its own clock reading becomes the baseline of the tick it runs at once. */
  function Start(s: Snapshot, startClock: int, stepClock: int): Snapshot
  {
    Loop(s.(mode := ActiveMode, running := true, time := startClock), stepClock)
  }

  /** `stop()`. */
  function Stop(s: Snapshot): Snapshot
  {
    Render(s.(mode := IdleMode, running := false))
  }

  /** The environment delivers one requested frame callback, which runs `loop()`. */
  function Frame(s: Snapshot, clock: int): Snapshot
    requires s.scheduled > 0
  {
    Loop(s.(scheduled := s.scheduled - 1), clock)
  }

  /** The toggle shared by `onKeyUp` (space) and `onCLick`. */
  function Toggle(s: Snapshot, startClock: int, stepClock: int): Snapshot
  {
    if s.running then Stop(s) else Start(s, startClock, stepClock)
  }

  /** `onKeyUp`. */
  function KeyUp(s: Snapshot, keyCode: int, startClock: int, stepClock: int): Snapshot
  {
    if keyCode == SpaceKey then Toggle(s, startClock, stepClock) else s
  }

  /** `onMouseMove`, apart from the pointer uniform: a stopped viewer redraws. */
  function MouseMove(s: Snapshot): Snapshot
  {
    if s.running then s else Render(s)
  }

  /** `onShaderChanged` after the select control took the value `value`. */
  function ShaderChanged(s: Snapshot, options: map<string, Routing.Value>, value: string): Snapshot
  {
    var hash := Hash.HashString(value, Routing.Truthy(Routing.Lookup(options, "start")),
                                Routing.Truthy(Routing.Lookup(options, "hd")));
    Render(s.(fragment := Shaders.Fragment(value), needsUpdate := true, selected := value,
              locationHash := "#" + hash))
  }

  /** The module's state once main.js has loaded: one initial render, then `start()` if asked. */
  function Initial(options: map<string, Routing.Value>, hash: string, startClock: int, stepClock: int): Snapshot
  {
    var key := Hash.ShaderKey(options);
    var loaded := Snapshot(false, IdleMode, 0, 0.0, 0, 1, Shaders.Fragment(key), false, key, hash);
    if Routing.Truthy(Routing.Lookup(options, "start")) then Start(loaded, startClock, stepClock)
    else loaded
  }

  /** The inputs the environment delivers. */
  datatype Input =
    | KeyDownInput(keyCode: int)
    | KeyUpInput(keyCode: int, startClock: int, stepClock: int)
    | ClickInput(startClock: int, stepClock: int)
    | MouseMoveInput
    | ShaderChangedInput(value: string)
    | FrameInput(clock: int)

  /** A frame callback is delivered only when one was requested. */
  predicate Enabled(s: Snapshot, input: Input)
  {
    input.FrameInput? ==> s.scheduled > 0
  }

  /** The handler for each input; `onKeyDown` has only empty cases. */
  function Apply(s: Snapshot, options: map<string, Routing.Value>, input: Input): Snapshot
    requires Enabled(s, input)
  {
    match input
    case KeyDownInput(_) => s
    case KeyUpInput(code, c0, c1) => KeyUp(s, code, c0, c1)
    case ClickInput(c0, c1) => Toggle(s, c0, c1)
    case MouseMoveInput => MouseMove(s)
    case ShaderChangedInput(value) => ShaderChanged(s, options, value)
    case FrameInput(c) => Frame(s, c)
  }

  /** `config.x` tracks the run state, and a running viewer always has a frame requested. */
  predicate Inv(s: Snapshot)
  {
    && s.mode == (if s.running then ActiveMode else IdleMode)
    && (s.running ==> s.scheduled >= 1)
  }

  // ---------------------------------------------------------------------------------------------
  // Initial state

  /** After loading: stopped with `config.x = 1000`, time 0 and elapsed 0, unless `start` is set. */
  lemma InitialState(options: map<string, Routing.Value>, hash: string, startClock: int, stepClock: int)
    ensures var s := Initial(options, hash, startClock, stepClock);
      && Inv(s)
      && s.running == ("start" in options && (options["start"].Str? ==> options["start"].s != ""))
      && s.selected == Hash.ShaderKey(options)
      && s.fragment == Shaders.Fragment(Hash.ShaderKey(options))
      && !s.needsUpdate && s.locationHash == hash
      && (!s.running ==> s.mode == IdleMode && s.time == 0 && s.elapsed == 0.0 && s.scheduled == 0 && s.renders == 1)
      && (s.running ==> s.mode == ActiveMode && s.time == stepClock && s.elapsed == Delta(startClock, stepClock)
                        && s.scheduled == 1 && s.renders == 2)
  {
  }

  /** For options parsed from a fragment, auto-start happens exactly when `start` is defined. */
  lemma InitialStartsIffStartDefined(hash: string, startClock: int, stepClock: int)
    ensures Initial(Routing.Options(hash), hash, startClock, stepClock).running <==> "start" in Routing.Options(hash)
  {
    Routing.OptionDefinedIffTruthy(hash, "start");
  }

  // ---------------------------------------------------------------------------------------------
  // start, stop, loop, step

  /** `start()` switches to running and runs one tick against its own clock reading. */
  lemma StartEffect(s: Snapshot, startClock: int, stepClock: int)
    ensures Start(s, startClock, stepClock)
         == s.(mode := ActiveMode, running := true, time := stepClock,
               elapsed := s.elapsed + Delta(startClock, stepClock),
               scheduled := s.scheduled + 1, renders := s.renders + 1)
    ensures Start(s, startClock, startClock).elapsed == s.elapsed
  {
  }

  /** `stop()` switches to idle and renders once; elapsed time, the clock baseline and requests stay. */
  lemma StopEffect(s: Snapshot)
    ensures Stop(s) == s.(mode := IdleMode, running := false, renders := s.renders + 1)
    ensures Stop(Stop(s)) == Stop(s).(renders := s.renders + 2)
  {
  }

  /** `loop()` while running: one more request, one step, one render; otherwise nothing at all. */
  lemma LoopEffect(s: Snapshot, clock: int)
    ensures s.running ==> Loop(s, clock) == s.(scheduled := s.scheduled + 1, time := clock,
                                              elapsed := s.elapsed + Delta(s.time, clock),
                                              renders := s.renders + 1)
    ensures !s.running ==> Loop(s, clock) == s
  {
  }

  /** A frame delivered after `stop()` only retires its request. */
  lemma StaleFrame(s: Snapshot, clock: int)
    requires !s.running && s.scheduled > 0
    ensures Frame(s, clock) == s.(scheduled := s.scheduled - 1)
  {
  }

  /** start, stop, then the pending frame: the stopped state, with the request retired. */
  lemma StopThenPendingFrame(s: Snapshot, startClock: int, stepClock: int, clock: int)
    ensures var stopped := Stop(Start(s, startClock, stepClock));
      stopped.scheduled > 0 && Frame(stopped, clock) == stopped.(scheduled := stopped.scheduled - 1)
  {
  }

  /**
   * The code has no guard against a restart while a stopped tick is still pending: toggling twice
   * before the next frame leaves two frame chains running.
   */
  lemma RestartBeforeFrameDoublesChain(s: Snapshot, c0: int, c1: int, c2: int, c3: int, clock: int)
    requires Inv(s) && s.running && s.scheduled == 1
    ensures var t := Toggle(Toggle(s, c0, c1), c2, c3);
      t.running && t.scheduled == 2 && Frame(t, clock).scheduled == 2 && Frame(t, clock).running
  {
  }

  // ---------------------------------------------------------------------------------------------
  // Time integration

  /** Deltas between consecutive readings add up. */
  lemma DeltaTelescopes(a: int, b: int, c: int)
    ensures Delta(a, b) + Delta(b, c) == Delta(a, c)
  {
  }

  /** Frames delivered at the clock readings `clocks`, in order. */
  function Frames(s: Snapshot, clocks: seq<int>): Snapshot
    requires s.running && s.scheduled > 0
    decreases |clocks|
  {
    if |clocks| == 0 then s
    else
      var next := Frame(s, clocks[0]);
      assert next.running && next.scheduled == s.scheduled;
      Frames(next, clocks[1..])
  }

  /**
   * While running, frames at t1..tn advance elapsed time by exactly (tn - t0)/1000, where t0 is
   * the baseline before them; they issue one render each and keep one request outstanding.
   */
  lemma {:induction false} FramesTelescope(s: Snapshot, clocks: seq<int>)
    requires s.running && s.scheduled > 0 && |clocks| > 0
    ensures var r := Frames(s, clocks);
      && r.elapsed == s.elapsed + Delta(s.time, clocks[|clocks| - 1])
      && r.time == clocks[|clocks| - 1]
      && r.running && r.scheduled == s.scheduled && r.renders == s.renders + |clocks|
      && r.mode == s.mode
    decreases |clocks|
  {
    var next := Frame(s, clocks[0]);
    if |clocks| > 1 {
      FramesTelescope(next, clocks[1..]);
      DeltaTelescopes(s.time, clocks[0], clocks[|clocks| - 1]);
    }
  }

  /** After `start()` at t0, frames at t1..tn leave elapsed time (tn - t0)/1000 ahead of before. */
  lemma StartThenFrames(s: Snapshot, startClock: int, stepClock: int, clocks: seq<int>)
    requires |clocks| > 0
    ensures var started := Start(s, startClock, stepClock);
      started.running && started.scheduled > 0
      && Frames(started, clocks).elapsed == s.elapsed + Delta(startClock, clocks[|clocks| - 1])
  {
    var started := Start(s, startClock, stepClock);
    FramesTelescope(started, clocks);
    DeltaTelescopes(startClock, stepClock, clocks[|clocks| - 1]);
  }

  // ---------------------------------------------------------------------------------------------
  // Input handlers

  /** `onKeyDown` changes nothing; `onKeyUp` toggles on the space bar and changes nothing otherwise. */
  lemma KeyHandlers(s: Snapshot, options: map<string, Routing.Value>, keyCode: int, c0: int, c1: int)
    ensures Apply(s, options, KeyDownInput(keyCode)) == s
    ensures keyCode == SpaceKey ==> Apply(s, options, KeyUpInput(keyCode, c0, c1)) == Apply(s, options, ClickInput(c0, c1))
    ensures keyCode != SpaceKey ==> Apply(s, options, KeyUpInput(keyCode, c0, c1)) == s
  {
  }

  /** A click stops a running viewer and starts a stopped one. */
  lemma ClickToggles(s: Snapshot, options: map<string, Routing.Value>, c0: int, c1: int)
    ensures var t := Apply(s, options, ClickInput(c0, c1));
      t.running == !s.running && t.mode == (if s.running then IdleMode else ActiveMode)
      && t.renders == s.renders + 1
      && (s.running ==> t.elapsed == s.elapsed && t.scheduled == s.scheduled)
      && (!s.running ==> t.scheduled == s.scheduled + 1 && t.time == c1)
  {
  }

  /** A mouse move renders exactly when stopped, and changes nothing else. */
  lemma MouseMoveEffect(s: Snapshot, options: map<string, Routing.Value>)
    ensures Apply(s, options, MouseMoveInput).renders == s.renders + (if s.running then 0 else 1)
    ensures Apply(s, options, MouseMoveInput).(renders := s.renders) == s
  {
  }

  /**
   * A shader change swaps the fragment program, marks it for recompilation, rewrites the fragment
   * and renders once. The run state, `config.x`, elapsed time, clock baseline and frame requests
   * are untouched, and reloading the rewritten fragment selects the same shader and flags.
   */
  lemma ShaderChangedEffect(s: Snapshot, options: map<string, Routing.Value>, value: string)
    ensures var t := Apply(s, options, ShaderChangedInput(value));
      && t.fragment == Shaders.Fragment(value) && t.needsUpdate && t.selected == value
      && t.renders == s.renders + 1
      && t.running == s.running && t.mode == s.mode && t.elapsed == s.elapsed
      && t.time == s.time && t.scheduled == s.scheduled
    ensures Hash.RoundTrips(value) ==>
      var reloaded := Routing.Options(Apply(s, options, ShaderChangedInput(value)).locationHash);
      && Hash.ShaderKey(reloaded) == value
      && ("start" in reloaded <==> Routing.Truthy(Routing.Lookup(options, "start")))
      && ("hd" in reloaded <==> Routing.Truthy(Routing.Lookup(options, "hd")))
  {
    if Hash.RoundTrips(value) {
      var start := Routing.Truthy(Routing.Lookup(options, "start"));
      var hd := Routing.Truthy(Routing.Lookup(options, "hd"));
      Hash.RoundTrip(value, start, hd);
      Hash.ReloadKeepsSelection(value, start, hd);
    }
  }

  // ---------------------------------------------------------------------------------------------
  // Invariants over every input

  /** Every handler keeps `Inv`. */
  lemma ApplyKeepsInv(s: Snapshot, options: map<string, Routing.Value>, input: Input)
    requires Inv(s) && Enabled(s, input)
    ensures Inv(Apply(s, options, input))
  {
  }

  /** An input after which the viewer is stopped leaves elapsed time as it was. */
  lemma FrozenWhileStopped(s: Snapshot, options: map<string, Routing.Value>, input: Input)
    requires Enabled(s, input)
    ensures !Apply(s, options, input).running ==> Apply(s, options, input).elapsed == s.elapsed
  {
  }

  /** The clock readings an input carries, in the order the handler would take them. */
  function Readings(input: Input): seq<int>
  {
    match input
    case KeyUpInput(_, c0, c1) => [c0, c1]
    case ClickInput(c0, c1) => [c0, c1]
    case FrameInput(c) => [c]
    case _ => []
  }

  predicate NonDecreasing(xs: seq<int>)
  {
    forall i, j :: 0 <= i < j < |xs| ==> xs[i] <= xs[j]
  }

  /** With readings not earlier than the baseline, no input moves elapsed time back. */
  lemma {:induction false} ApplyMonotone(s: Snapshot, options: map<string, Routing.Value>, input: Input)
    requires Enabled(s, input) && NonDecreasing([s.time] + Readings(input))
    ensures Apply(s, options, input).elapsed >= s.elapsed
    ensures Apply(s, options, input).time == s.time || Apply(s, options, input).time in Readings(input)
  {
    var r := [s.time] + Readings(input);
    match input
    case KeyUpInput(_, c0, c1) =>
      assert r[0] <= r[1] <= r[2];
    case ClickInput(c0, c1) =>
      assert r[0] <= r[1] <= r[2];
    case FrameInput(c) =>
      assert r[0] <= r[1];
    case _ =>
  }

  /** All readings of a sequence of inputs, in order. */
  function AllReadings(inputs: seq<Input>): seq<int>
  {
    if |inputs| == 0 then [] else Readings(inputs[0]) + AllReadings(inputs[1..])
  }

  /** Every frame in the sequence is delivered only when one is pending. */
  predicate Feasible(s: Snapshot, options: map<string, Routing.Value>, inputs: seq<Input>)
    decreases |inputs|
  {
    |inputs| == 0 || (Enabled(s, inputs[0]) && Feasible(Apply(s, options, inputs[0]), options, inputs[1..]))
  }

  /** The state after handling `inputs` in order. */
  function Run(s: Snapshot, options: map<string, Routing.Value>, inputs: seq<Input>): Snapshot
    requires Feasible(s, options, inputs)
    decreases |inputs|
  {
    if |inputs| == 0 then s else Run(Apply(s, options, inputs[0]), options, inputs[1..])
  }

  /** Any sequence of inputs keeps `Inv`. */
  lemma {:induction false} RunKeepsInv(s: Snapshot, options: map<string, Routing.Value>, inputs: seq<Input>)
    requires Inv(s) && Feasible(s, options, inputs)
    ensures Inv(Run(s, options, inputs))
    decreases |inputs|
  {
    if |inputs| > 0 {
      ApplyKeepsInv(s, options, inputs[0]);
      RunKeepsInv(Apply(s, options, inputs[0]), options, inputs[1..]);
    }
  }

  /** With a clock that never goes back, elapsed time never decreases over any sequence of inputs. */
  lemma {:induction false} RunMonotone(s: Snapshot, options: map<string, Routing.Value>, inputs: seq<Input>)
    requires Feasible(s, options, inputs) && NonDecreasing([s.time] + AllReadings(inputs))
    ensures Run(s, options, inputs).elapsed >= s.elapsed
    decreases |inputs|
  {
    if |inputs| > 0 {
      var first := Readings(inputs[0]);
      var rest := AllReadings(inputs[1..]);
      var all := [s.time] + first + rest;
      assert [s.time] + AllReadings(inputs) == all;
      assert NonDecreasing([s.time] + first) by {
        forall i, j | 0 <= i < j < 1 + |first| ensures ([s.time] + first)[i] <= ([s.time] + first)[j] {
          assert ([s.time] + first)[i] == all[i] && ([s.time] + first)[j] == all[j];
        }
      }
      ApplyMonotone(s, options, inputs[0]);
      var t := Apply(s, options, inputs[0]);
      // the new baseline is one of the readings so far, so it is no later than any that follow
      var k :| 0 <= k <= |first| && all[k] == t.time;
      assert NonDecreasing([t.time] + rest) by {
        forall i, j | 0 <= i < j < 1 + |rest| ensures ([t.time] + rest)[i] <= ([t.time] + rest)[j] {
          if i == 0 {
            assert ([t.time] + rest)[j] == all[j + |first|];
          } else {
            assert ([t.time] + rest)[i] == all[i + |first|] && ([t.time] + rest)[j] == all[j + |first|];
          }
        }
      }
      RunMonotone(t, options, inputs[1..]);
    }
  }
}
