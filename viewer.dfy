/**
 * The module state of main.js and its functions, updated in place. Each method is proved to
 * perform the corresponding transition of `RenderLoop` on the snapshot `State()`.
 */
module Viewer {
  import opened Wrappers
  import Routing
  import Text
  import Shaders
  import Hash
  import RenderLoop

  class Viewer {
    /** The parsed fragment options (`routing`), fixed at load time. */
    const options: map<string, Routing.Value>

    var isRunning: bool
    /** `config.x`, the mode value that `start` and `stop` set. */
    var mode: int
    /** The last clock reading, in milliseconds. */
    var time: int
    /** `shader.uniforms.time.value`, in seconds. */
    var elapsed: real
    /** Frame callbacks requested through `requestAnimationFrame` and not yet delivered. */
    var scheduled: nat
    /** Draw calls issued by `render()`. */
    var renders: nat
    /** `shader.fragmentShader` and `shader.needsUpdate`. */
    var fragment: Option<Shaders.Source>
    var needsUpdate: bool
    /** The shader name last given to the select control (`selectShader.value`). */
    var selected: string
    /** `location.hash`, as the browser reports it. */
    var locationHash: string

    ghost function State(): RenderLoop.Snapshot
      reads this
    {
      RenderLoop.Snapshot(isRunning, mode, time, elapsed, scheduled, renders, fragment, needsUpdate,
                          selected, locationHash)
    }

    /**
     * Loading main.js with `location.hash == hash`: the options are parsed, the initial state is
     * set, one frame is rendered, the select control shows the shader, and `start()` runs when the
     * `start` option is truthy.
     */
    constructor (hash: string, startClock: int, stepClock: int)
      ensures options == Routing.Options(hash)
      ensures State() == RenderLoop.Initial(options, hash, startClock, stepClock)
    {
      var routing := Routing.Parse(hash);
      options := routing;
      var key := Hash.ShaderKey(routing);
      mode := RenderLoop.IdleMode;
      isRunning := false;
      time := 0;
      elapsed := 0.0;
      fragment := Shaders.Fragment(key);
      needsUpdate := false;
      scheduled := 0;
      renders := 1;
      selected := key;
      locationHash := hash;
      new;
      if Routing.Truthy(Routing.Lookup(options, "start")) {
        Start(startClock, stepClock);
      }
    }

    /** `start()`; `Date.now()` reads `startClock` here and `stepClock` in the tick it runs. */
    method Start(startClock: int, stepClock: int)
      modifies this
      ensures State() == RenderLoop.Start(old(State()), startClock, stepClock)
    {
      mode := RenderLoop.ActiveMode;
      isRunning := true;
      time := startClock;
      Loop(stepClock);
    }

    /** `stop()`. */
    method Stop()
      modifies this
      ensures State() == RenderLoop.Stop(old(State()))
    {
      mode := RenderLoop.IdleMode;
      isRunning := false;
      Render();
    }

    /** `loop()`. */
    method Loop(clock: int)
      modifies this
      ensures State() == RenderLoop.Loop(old(State()), clock)
    {
      if isRunning {
        scheduled := scheduled + 1;
        Step(clock);
        Render();
      }
    }

    /** `step()`, with `Date.now()` reading `clock`. */
    method Step(clock: int)
      modifies this
      ensures State() == RenderLoop.Step(old(State()), clock)
    {
      elapsed := elapsed + RenderLoop.Delta(time, clock);
      time := clock;
    }

    /** `render()`. */
    method Render()
      modifies this
      ensures State() == RenderLoop.Render(old(State()))
    {
      renders := renders + 1;
    }

    /** The browser delivers one requested frame callback. */
    method Frame(clock: int)
      requires scheduled > 0
      modifies this
      ensures State() == RenderLoop.Frame(old(State()), clock)
    {
      scheduled := scheduled - 1;
      Loop(clock);
    }

    /** `onKeyDown`: the movement keys are reserved and do nothing. */
    method OnKeyDown(keyCode: int)
      ensures State() == RenderLoop.Apply(State(), options, RenderLoop.KeyDownInput(keyCode))
    {
      match keyCode {
        case 87 =>
        case 83 =>
        case 65 =>
        case 68 =>
        case 38 =>
        case 40 =>
        case _ =>
      }
    }

    /** `onKeyUp`. */
    method OnKeyUp(keyCode: int, startClock: int, stepClock: int)
      modifies this
      ensures State() == RenderLoop.KeyUp(old(State()), keyCode, startClock, stepClock)
    {
      if keyCode == RenderLoop.SpaceKey {
        if isRunning {
          Stop();
        } else {
          Start(startClock, stepClock);
        }
      }
    }

    /** `onMouseMove`, apart from the pointer uniform. */
    method OnMouseMove()
      modifies this
      ensures State() == RenderLoop.MouseMove(old(State()))
    {
      if !isRunning {
        Render();
      }
    }

    /** `onCLick`. */
    method OnClick(startClock: int, stepClock: int)
      modifies this
      ensures State() == RenderLoop.Toggle(old(State()), startClock, stepClock)
    {
      if isRunning {
        Stop();
      } else {
        Start(startClock, stepClock);
      }
    }

    /** `onShaderChanged`, once the select control holds `value`. */
    method OnShaderChanged(value: string)
      modifies this
      ensures State() == RenderLoop.ShaderChanged(old(State()), options, value)
    {
      selected := value;
      fragment := Shaders.Fragment(value);
      needsUpdate := true;
      var hash := SetHash();
      locationHash := "#" + hash;
      Render();
    }

    /**
     * `setHash()`: the string assigned to `location.hash`, built by pushing the parts in order and
     * joining them with `/`. Reloading it selects the same shader with the same flags.
     */
    method SetHash() returns (hash: string)
      ensures hash == Hash.HashString(selected, Routing.Truthy(Routing.Lookup(options, "start")),
                                     Routing.Truthy(Routing.Lookup(options, "hd")))
      ensures Hash.RoundTrips(selected) ==> Hash.ShaderKey(Routing.Options("#" + hash)) == selected
    {
      var start := Routing.Truthy(Routing.Lookup(options, "start"));
      var hd := Routing.Truthy(Routing.Lookup(options, "hd"));
      var parts: seq<string> := [];
      parts := parts + ["shader:" + selected];
      if start {
        parts := parts + ["start"];
      }
      if hd {
        parts := parts + ["hd"];
      }
      assert parts == Hash.Parts(selected, start, hd);
      hash := Text.Join(parts, '/');
      if Hash.RoundTrips(selected) {
        Hash.ReloadKeepsSelection(selected, start, hd);
      }
    }
  }
}
