# Shader viewer render loop and URL-fragment options, in Dafny

This project models the two pieces of logic in the raytrace shader viewer:

- **The render loop of `main.js`.** It is a two-state machine: running or stopped. Its state is
  `isRunning`, the mode value `config.x` that `start`/`stop` set (100 while running, 1000 while
  stopped; main.js declares a `config` uniform but never assigns `config` to it), the last clock
  reading `time`, and the accumulated time uniform `shader.uniforms.time.value`.
  - `start()` takes a clock reading as the baseline and runs one tick at once.
  - Each tick (`loop()`) requests the next animation frame, integrates `(now - time) / 1000` into elapsed time (`step()`), and renders.
  - `stop()` freezes the state and renders once. A tick that arrives after `stop()` does nothing.
  - Space key-up and click toggle between the two states. A mouse move redraws a stopped viewer.
  - A shader change swaps the fragment program, rewrites the URL fragment (`setHash()`) and renders.
- **The option parser of `routing.js`.** It removes one leading `#` from `location.hash` and splits the rest on `/`.
  - A segment is stored as `key -> value` when the pattern `^(.+):(.+)$` matches it. Otherwise it is stored as `segment -> true`.
  - Later segments overwrite earlier ones.
  - Together with `setHash()` this gives a parser/serialiser round trip.

Files:

- `wrappers.dfy`: `Option`.
- `text.dfy`: JavaScript `split` and `join` on strings.
- `routing.dfy`: the parser.
- `shaders.dfy`: the closed shader registry.
- `hash.dfy`: the `setHash` string and the round trip.
- `render_loop.dfy`: the state machine as pure transitions on a `Snapshot` value, and the lemmas about it.
- `viewer.dfy`: the class `Viewer.Viewer`. It holds the module variables of `main.js` as fields, and its methods update them in place. Each method is proved to perform the matching `RenderLoop` transition on its `State()`.

Environment inputs are explicit parameters:

- Every `Date.now()` call is a clock parameter in integer milliseconds. `start()` reads the clock once (`startClock`), and the tick it runs reads it again (`stepClock`).
- `requestAnimationFrame` is the counter `scheduled` of frame callbacks requested but not yet delivered. `Viewer.Frame` is the browser delivering one of them.
- `render()` increments the counter `renders`.
- The value the select control holds is the parameter of `OnShaderChanged`.

Three behaviours of the code are worth noting, and the model keeps each one:

- An unknown shader name is not reported, and the previous program is not kept. `shaders.fragment[name]` is undefined, and that is assigned (`fragment == None`).
- The stale-tick guard only tests `isRunning`. A stop followed by a start before the pending frame arrives therefore revives the old tick, and two frame chains then run (`RenderLoop.RestartBeforeFrameDoublesChain`).
- A `shader` option given as a bare flag is not replaced by the default. `routing.shader || 'upstream'` is then `true`, which is looked up as the key `"true"`.

## Model

| member | source | states |
|---|---|---|
| Text.Split | routing.js:4 | splitting on `/` gives at least one piece, no piece contains `/`, and joining the pieces gives back the input |
| Text.SplitJoin | main.js:170 | splitting a `/`-join of `/`-free parts gives back exactly those parts |
| Text.Join | main.js:170 | definition: `Array.prototype.join`; specified by `Text.Split` and `Text.SplitJoin` |
| Text.SplitSeparatorFree | routing.js:4 | a separator-free prefix is glued onto the first piece of what follows |
| Routing.Lookup | main.js:52 | definition: the JavaScript property read `routing[key]`; specified by `Routing.OptionDefinedIffTruthy` and `Hash.ReloadKeepsSelection` |
| Routing.Truthy | main.js:52 | definition: JavaScript truthiness of undefined, `true` and a string; specified by `Routing.CollectTruthy` and `Routing.OptionDefinedIffTruthy` |
| Routing.StripHash | routing.js:4 | the result is the input, or the input without one leading `#`; it differs exactly when the input starts with `#` |
| Routing.Segments | routing.js:4 | the segments are `/`-free, there is at least one, and they join back to the fragment without its `#` |
| Routing.LastSplit | routing.js:8 | returns the largest index below `n` where the pattern's colon can sit, or reports that there is none |
| Routing.MatchPair | routing.js:8 | the pattern matches exactly when some colon has a character on each side and no line terminator occurs; the groups are non-empty, rebuild the segment around that colon, and the colon is the last qualifying one (greedy first group) |
| Routing.Entry | routing.js:8-13 | every entry a segment writes reads as truthy |
| Routing.Parse | routing.js:4-15 | the loop builds the dictionary of storing every segment's entry in order, and its keys are exactly the segments' keys |
| Routing.Collect | routing.js:7-15 | definition: storing each segment's entry in order into an empty dictionary; specified by `Routing.CollectKeys`, `Routing.CollectLastWins` and `Routing.CollectTruthy` |
| Routing.Options | routing.js:4-15 | definition: the exported dictionary for a given `location.hash`; specified by `Routing.Parse`, `Routing.EmptyFragment` and `Hash.RoundTrip` |
| Routing.CollectSnoc | routing.js:7-15 | one more segment writes its entry over the previous dictionary |
| Routing.CollectKeys | routing.js:7-15 | the defined keys are exactly those some segment writes; no other key is defined |
| Routing.CollectLastWins | routing.js:7-15 | a key holds the value of the last segment that writes it |
| Routing.CollectTruthy | routing.js:8-13 | every stored option is truthy, because pair values are never empty |
| Routing.OptionDefinedIffTruthy | routing.js:8-13 | a parsed option reads as truthy exactly when its key is defined |
| Routing.EmptyFragment | routing.js:4 | `""` and `"#"` both give exactly `{"" -> true}` |
| Routing.OneHashRemoved | routing.js:4 | only one leading `#` is removed, so `##x` keeps a `#` |
| Routing.EntryExamples | routing.js:8-13 | `a:b:c` gives `a:b -> c`, `shader:cube` gives `shader -> cube`, and `hd`, `start`, `x:`, `:x`, `x` are flags |
| Shaders.Fragment | shaders.js:8-15 | a fragment program exists exactly for the six registry names |
| Shaders.FragmentsDistinct | shaders.js:8-15 | different registry names select different programs |
| Hash.ShaderKey | main.js:32 | definition: `routing.shader`, or `'upstream'` when that is falsy, used as a property key; specified by `Hash.ReloadKeepsSelection` and `RenderLoop.ShaderChangedEffect` |
| Hash.Parts | main.js:166-169 | definition: the array `setHash` pushes; specified by `Hash.SegmentsOfHash` |
| Hash.HashString | main.js:165-170 | definition: the string `setHash` assigns to `location.hash`; specified by `Hash.RoundTrip` and `Viewer.Viewer.SetHash` |
| Hash.SegmentsOfHash | main.js:165-171 | the parser sees exactly the pushed parts, in push order: shader, then `start`, then `hd` |
| Hash.ShaderEntry | main.js:167 | the segment `shader:<name>` parses as `shader -> name` for a round-tripping name |
| Hash.RoundTrip | main.js:165-171 | parsing `"#" + setHash` gives exactly `shader -> name`, plus `start` iff it was set and `hd` iff it was set |
| Hash.ReloadKeepsSelection | main.js:165-171 | reloading the written fragment selects the same shader, and the same start and hd flags |
| Hash.RegistryNamesRoundTrip | shaders.js:8-15 | every registry name satisfies the round-trip condition |
| Hash.LaterColonWins | routing.js:8 | `shader:a:b` is split at its second colon |
| Hash.ColonBreaksRoundTrip | main.js:167 | a name with an inner colon does not round-trip: `a:b` reads back as `shader:a -> b` |
| RenderLoop.Delta | main.js:95 | definition: seconds between two clock readings; specified by `RenderLoop.DeltaTelescopes` |
| RenderLoop.Render | main.js:99-101 | definition: one more draw call; specified by `RenderLoop.StopEffect`, `RenderLoop.LoopEffect` and `RenderLoop.MouseMoveEffect` |
| RenderLoop.Step | main.js:93-97 | definition: add the delta, take the reading as baseline; specified by `RenderLoop.LoopEffect` and `RenderLoop.FramesTelescope` |
| RenderLoop.Loop | main.js:83-91 | definition: the tick; specified by `RenderLoop.LoopEffect` and `RenderLoop.StaleFrame` |
| RenderLoop.Start | main.js:68-74 | definition: `start()`; specified by `RenderLoop.StartEffect` and `RenderLoop.StartThenFrames` |
| RenderLoop.Stop | main.js:76-81 | definition: `stop()`; specified by `RenderLoop.StopEffect` and `RenderLoop.StopThenPendingFrame` |
| RenderLoop.Frame | main.js:86 | definition: delivery of one requested frame callback; specified by `RenderLoop.StaleFrame` and `RenderLoop.FramesTelescope` |
| RenderLoop.Toggle | main.js:146-153 | definition: the shared toggle; specified by `RenderLoop.ClickToggles` and `RenderLoop.RestartBeforeFrameDoublesChain` |
| RenderLoop.KeyUp | main.js:122-133 | definition: `onKeyUp`; specified by `RenderLoop.KeyHandlers` |
| RenderLoop.MouseMove | main.js:135-144 | definition: `onMouseMove` without the pointer; specified by `RenderLoop.MouseMoveEffect` |
| RenderLoop.ShaderChanged | main.js:155-161 | definition: `onShaderChanged`; specified by `RenderLoop.ShaderChangedEffect` |
| RenderLoop.Initial | main.js:16-54 | definition: the state after loading; specified by `RenderLoop.InitialState` and `RenderLoop.InitialStartsIffStartDefined` |
| RenderLoop.Apply | main.js:105-161 | definition: the handler for each input; specified by `RenderLoop.KeyHandlers`, `RenderLoop.ApplyKeepsInv`, `RenderLoop.FrozenWhileStopped` and `RenderLoop.ApplyMonotone` |
| RenderLoop.InitialState | main.js:16-54 | after loading: one render, and stopped with mode 1000, time 0 and elapsed 0, unless `start` is truthy; then running with mode 100, one frame requested and elapsed equal to the gap between the two clock readings |
| RenderLoop.InitialStartsIffStartDefined | main.js:52-54 | for parsed options, start-up runs `start()` exactly when `start` is defined |
| RenderLoop.StartEffect | main.js:68-74 | start sets mode 100 and running, takes the new baseline, requests one frame and renders once; at the same clock reading, the first tick adds 0 |
| RenderLoop.StopEffect | main.js:76-81 | stop sets mode 1000 and stopped, renders once and changes nothing else; stopping twice equals stopping once apart from the render count |
| RenderLoop.LoopEffect | main.js:83-91 | a running tick requests exactly one frame, steps and renders once; a stopped tick changes nothing |
| RenderLoop.StaleFrame | main.js:83-91 | a frame delivered while stopped only retires its request |
| RenderLoop.StopThenPendingFrame | main.js:76-91 | after start then stop, the pending frame leaves the stopped state as it was, apart from retiring its request |
| RenderLoop.RestartBeforeFrameDoublesChain | main.js:68-91 | toggling twice before a pending frame leaves two frame requests, and each frame keeps both |
| RenderLoop.DeltaTelescopes | main.js:93-97 | the step deltas between consecutive readings add up |
| RenderLoop.FramesTelescope | main.js:83-97 | while running, frames at t1..tn add `(tn - t0)/1000` to elapsed, render once each, keep the number of requests, and leave `tn` as the baseline |
| RenderLoop.StartThenFrames | main.js:68-97 | after `start()` at t0, frames at t1..tn add exactly `(tn - t0)/1000` to elapsed |
| RenderLoop.KeyHandlers | main.js:105-133 | key-down never changes anything; space key-up acts as a click; any other key-up changes nothing |
| RenderLoop.ClickToggles | main.js:146-153 | a click flips the run state and the mode and renders once; stopping keeps elapsed time; starting requests a frame |
| RenderLoop.MouseMoveEffect | main.js:135-144 | a mouse move renders exactly when stopped and changes nothing else |
| RenderLoop.ShaderChangedEffect | main.js:155-161 | a shader change swaps the fragment, sets needsUpdate, renders once, and leaves run state, mode, elapsed, baseline and requests untouched; the rewritten fragment reloads to the same shader and flags |
| RenderLoop.ApplyKeepsInv | main.js:68-153 | every handler keeps the invariant: mode is 100 iff running, and a running viewer has a frame requested |
| RenderLoop.FrozenWhileStopped | main.js:76-97 | an input after which the viewer is stopped leaves elapsed time unchanged |
| RenderLoop.ApplyMonotone | main.js:93-97 | with readings no earlier than the baseline, no input decreases elapsed time, and the new baseline is one of those readings |
| RenderLoop.RunKeepsInv | main.js:68-161 | every feasible sequence of inputs keeps the invariant |
| RenderLoop.RunMonotone | main.js:93-97 | with a clock that never goes back, elapsed time never decreases over any sequence of inputs |
| Viewer.Viewer.constructor | main.js:16-54 | loading parses the fragment into the options and reaches `RenderLoop.Initial` |
| Viewer.Viewer.Start | main.js:68-74 | performs the start transition in place |
| Viewer.Viewer.Stop | main.js:76-81 | performs the stop transition in place |
| Viewer.Viewer.Loop | main.js:83-91 | performs the tick transition in place |
| Viewer.Viewer.Step | main.js:93-97 | adds `(clock - time)/1000` to elapsed and takes `clock` as the baseline |
| Viewer.Viewer.Render | main.js:99-101 | counts one draw call |
| Viewer.Viewer.Frame | main.js:86 | retires one frame request and runs the tick |
| Viewer.Viewer.OnKeyDown | main.js:105-120 | performs the key-down transition, which is the identity |
| Viewer.Viewer.OnKeyUp | main.js:122-133 | toggles on space and changes nothing otherwise |
| Viewer.Viewer.OnMouseMove | main.js:135-144 | renders exactly when stopped |
| Viewer.Viewer.OnClick | main.js:146-153 | toggles |
| Viewer.Viewer.OnShaderChanged | main.js:155-161 | performs the shader-change transition in place |
| Viewer.Viewer.SetHash | main.js:165-171 | pushes the parts in order and joins them with `/`; for a round-tripping selection, parsing the result selects the same shader |

## Left out

- three.js is not modelled: the renderer, camera, scene, box mesh and compilation of the `ShaderMaterial` (main.js:21-46). A draw is only counted. `needsUpdate` is set, but its consumption at the next draw is not modelled.
- The Stats FPS meter and `console` logging (main.js:11-12, 44-46, 84, 90) are observability only.
- Browser plumbing is not modelled: `requestAnimationFrame`, `addEventListener`, and the `select-shader` element (main.js:48-50, 175-178). Scheduling is the `scheduled` counter, and the handlers are method calls.
- Writing `location.hash` is modelled as the browser reading back `"#" + value`. The browser's percent-encoding of some characters is not modelled.
- The pointer uniform and the half-resolution `size` (main.js:14-15, 136-139) are floating-point viewport arithmetic. `OnMouseMove` models only the running check and the render.
- Elapsed time is an exact `real`, not an IEEE double, so float rounding of `(now - time) / 1000` is not modelled.
- The `module.exports` snapshot (main.js:61-64) copies primitive values once and has no behaviour.
- The GLSL text of shaders.js: a program is identified only by its file name.
- The options dictionary is a plain map. Keys that a JavaScript object treats specially (`__proto__`, or inherited names such as `constructor` in `shaders.fragment[...]`) are not modelled.
- Strings are sequences of Unicode scalar values, not UTF-16 code units. The pattern's wildcard and colon behave the same on both.
- Hash.RoundTrips: it asks for no `:` anywhere in the name. That is stronger than needed, because a colon as the name's last character would also survive the round trip.
- The select control's own normalisation is not modelled. For a name with no matching option (an unknown name, or `"true"` from a bare `shader` flag), main.js:49 leaves the element reporting `""`, while `selected` keeps the name. Nothing in the model observes the difference, because `OnShaderChanged` sets `selected` before `SetHash` reads it.
- Viewer.Viewer.Frame: it requires a pending request, because the browser only delivers frames that were requested.
