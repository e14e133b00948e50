# hyprsnow in Dafny

hyprsnow draws falling snow on a transparent overlay above a Hyprland
desktop. A fixed pool of snowflakes is sized from the configured intensity.
On each frame tick every flake does one of the following:

- it falls, swaying with a sine and wrapping around the canvas edges;
- it lands on the first window (in the window manager's list order) whose top
  edge it crosses, or on the floor of the canvas;
- it rides its window horizontally while melting for four seconds;
- it starts falling again when its window closes or moves away;
- once melted, it respawns at the top, inside a monitor that is not showing a
  fullscreen application when there is one.

The painter skips every flake in the column of a fullscreen monitor.

The project has four modules:

- `Wrappers`: the `Option` type.
- `Hyprland`: the window and monitor records the overlay receives from the
  window manager, and the event it is notified with.
- `Config`: the default configuration, the mapping from a parsed
  `hyprsnow.conf` to a configuration, and the command-line overrides.
- `Snow`: the snowflake state machine and the overlay, `Snow.Waysnow`.
  - The overlay is a class. Its pool is an array that the tick updates in
    place, flake by flake.
  - Each flake's step is a method proved against a specification function.
    `FallStep` is proved against `Fall`. `UpdateFlake` is proved against
    `FlakeStepped`, which is built from `Advance`, `Rest`, `Melt` and
    `Respawned`.
  - The lemmas state what these functions promise: landing, wrap-around,
    window tracking, melting, respawn placement, and the invariant `Sane` that
    every tick keeps for every flake.

Positions and times are real numbers. The sway uses a `Sine` parameter, which
is any function bounded by [-1, 1]. Every random draw is a nondeterministic
choice from its half-open range.

## Model

| member | source | states |
|---|---|---|
| Config.Default | src/config.rs:24-36 | the defaults are intensity 3, size 2..5, speed 30..80, drift 20 and max opacity 1; they give non-empty sampling ranges and lie in the load ranges |
| Config.ClampInt | src/config.rs:68 | the clamped intensity lies in [lo, hi]: the value itself when in range, lo below it, hi above it |
| Config.ClampReal | src/config.rs:92 | the clamped opacity lies in [lo, hi]: the value itself when in range, lo below it, hi above it |
| Config.FromHyprConf | src/config.rs:65-94 | each key that is present is taken (intensity clamped to 1..10, max opacity to [0, 1]); each missing key gives that field's default; the result is always in the load ranges |
| Config.LoadConfig | src/config.rs:54-94 | a missing or unparsable file yields exactly the defaults; a parsed file yields `FromHyprConf` of it; every loaded configuration has intensity in 1..10 and max opacity in [0, 1] |
| Config.EmptyFileLoadsDefault | src/config.rs:65-94 | a file that sets none of the keys loads as the defaults |
| Config.Overridden | src/config.rs:97-119 | the configuration after the overrides, as one value: each given flag's value replaces its field, max opacity clamped into [0, 1], and every other field is kept; a configuration in the load ranges stays in them under arguments the parser accepts |
| Config.ApplyCliOverrides | src/config.rs:97-119 | the overridden configuration equals `Overridden(config, args)`: each given flag replaces its field, max opacity clamped |
| Config.OverrideFieldwise | src/config.rs:97-119 | a field changes only when its flag is given; a given flag's value is taken as is, except max opacity, which becomes the flag's value clamped into [0, 1] |
| Config.OverrideIdempotent | src/config.rs:97-119 | applying the same arguments twice is the same as applying them once |
| Config.StartupConfigInRanges | src/main.rs:11-13 | loading then overriding with parsed arguments keeps intensity in 1..10 and max opacity in [0, 1] |
| Snow.GenRange | src/snow.rs:40-46 | a draw `gen_range(lo..hi)` needs lo < hi and lies in [lo, hi) |
| Snow.GenIndex | src/snow.rs:254 | a draw `gen_range(0..len)` needs a non-empty list and is a valid index into it |
| Snow.NewFlake | src/snow.rs:38-49 | a new flake is falling, lies inside the canvas, and its radius, speed, phase, drift and opacity lie in their sampling ranges |
| Snow.ResetAtTop | src/snow.rs:51-60 | a reset flake is falling, sits one old radius above the top edge, has x in [0, width) and freshly sampled attributes |
| Snow.OpenColumns | src/snow.rs:166-174 | the spawn ranges are exactly the horizontal spans, in canvas coordinates, of the monitors that are not fullscreen |
| Snow.OpenColumnsNonEmpty | src/snow.rs:253-255 | when every non-fullscreen monitor has a positive width, every spawn range can be drawn from |
| Snow.Respawn | src/snow.rs:250-256 | a melted flake comes back reset at the top; it lies inside one of the open columns when there is one, and in [0, width) otherwise |
| Snow.RespawnInOpenMonitor | src/snow.rs:252-256 | when some monitor is not fullscreen, a respawned flake lies within the span of such a monitor |
| Snow.Waysnow.IsInFullscreenMonitor | src/snow.rs:79-95 | true exactly when some fullscreen monitor spans x (left edge inclusive, right edge exclusive) and its bottom edge is below y |
| Snow.Visible | src/snow.rs:303-307 | the flakes the painter draws: the pool's flakes that no fullscreen column hides, in pool order; it never holds more flakes than the pool, and none of them is hidden |
| Snow.VisibleIff | src/snow.rs:303-307 | a flake is drawn exactly when it is in the pool and no fullscreen column hides it |
| Snow.Waysnow.Draw | src/snow.rs:300-321 | the drawn flakes are the pool's unhidden flakes in pool order, and membership is that if-and-only-if |
| Snow.FirstCatch | src/snow.rs:191-206 | the index found is a window that catches the flake, and no earlier window catches it; none is found only when no window does |
| Snow.FirstCatchIsFirst | src/snow.rs:191-205 | when window i is the first to catch the flake, the search returns i |
| Snow.FirstCatchNone | src/snow.rs:189-208 | when no window catches the flake, the search returns nothing |
| Snow.Wrap | src/snow.rs:182-186 | the horizontal wrap: x < 0 becomes width, x > width becomes 0, otherwise x is kept; the result lies in [0, width] |
| Snow.Moved | src/snow.rs:179-186 | the move of a falling flake: y grows by speed*dt, x moves by the sway and is wrapped into [0, width]; nothing else changes |
| Snow.Settle | src/snow.rs:188-215 | the hit-test after the move: the first window in list order that catches the flake takes it, else the floor takes it once y > height - radius; only y and the state change |
| Snow.Fall | src/snow.rs:178-216 | the falling branch: move down by speed*dt and sideways by the sway, wrap, then settle; only x, y and the state change, x ends in [0, width], and a flake that lands starts with melt timer 0 |
| Snow.FallStep | src/snow.rs:178-216 | the falling branch, with its loop over the windows and early exit, computes exactly `Fall` |
| Snow.FallingMotion | src/snow.rs:179-186 | after a falling step x lies in [0, width]; x < 0 wraps to width and x > width wraps to 0; a flake still falling has moved down by speed*dt; the shape and opacity do not change |
| Snow.SettleKeepsShape | src/snow.rs:188-215 | the landing test changes only y and the state, and a flake that keeps falling stays where it was |
| Snow.SwayBounded | src/snow.rs:180 | the sideways sway is at most drift_amount*dt in either direction |
| Snow.LandsOnFirstWindow | src/snow.rs:188-205 | the first window in list order that catches the flake wins: the flake rests on its top edge, keeps x, and records its offset from the window's left edge with melt timer 0 |
| Snow.FloorLanding | src/snow.rs:208-215 | when no window catches it, a flake lands on the floor exactly when y > height - radius, snapping to height - radius with no window and offset 0 |
| Snow.LandingExample | src/snow.rs:191-202 | a window at (100, 200) of width 50 catches a flake of radius 3 at (120, 198): it lands at y 197 with offset 20 |
| Snow.FindWindow | src/snow.rs:223-224 | the window found has the flake's address; none is found only when no window has it |
| Snow.RiddenOffCanvas | src/snow.rs:238 | a flake riding a window at x 3000 with offset 5 is placed at 3005, outside a 1920-wide canvas: riding does not wrap x |
| Snow.FindFirstWindow | src/snow.rs:223-224 | the search returns the first window with the address |
| Snow.WindowClosedDetaches | src/snow.rs:239-243 | a flake whose window is gone starts falling again at once, with nothing else changed |
| Snow.WindowTracking | src/snow.rs:222-238 | a flake on a present window starts falling exactly when the window moved vertically by more than 1 or its offset is outside [0, width]; otherwise its x follows the window and it melts |
| Snow.Melt | src/snow.rs:246-250 | the melt: the timer grows by dt, the opacity follows the melt law, nothing else changes, and the flake has melted away exactly when the timer reaches 4 seconds |
| Snow.Rest | src/snow.rs:217-258 | the landed branch before respawn: a flake with no window address (on the floor) melts; with a closed or displaced window it starts falling with nothing else changed; otherwise x follows the window and it melts; only a melted-away flake, with its timer at 4 or more, is handed on for respawn |
| Snow.MeltOpacity | src/snow.rs:247-248 | the melt law max(0, 1 - t/4) * 0.9: it lies in [0, 0.9] for t >= 0 and is 0 from 4 seconds on |
| Snow.MeltOpacityRange | src/snow.rs:246-248 | melting opacity starts at 0.9, stays in [0, 0.9], never increases, and is 0 from 4 seconds on |
| Snow.MeltProgress | src/snow.rs:246-250 | melting advances the timer by dt, sets the opacity from the melt law, and finishes exactly when the timer reaches 4; position and shape do not change |
| Snow.UpdateFlake | src/snow.rs:177-258 | one flake's frame: falling flakes take `Fall`; landed flakes follow `Rest`; a melted flake is respawned |
| Snow.StepKeepsSane | src/snow.rs:176-258 | every frame with dt >= 0 keeps a flake's attributes in their configured ranges, its opacity in [0, 1), and a landed flake's melt timer in [0, 4) |
| Snow.Elapsed | src/snow.rs:152 | the elapsed time is never negative; it is now - last when time moved forward, and 0 otherwise |
| Snow.Waysnow.constructor | src/snow.rs:110-142 | the pool holds intensity*50 falling, freshly sampled flakes inside a canvas that spans the screen bounds; the clock starts at 0 with an empty event queue |
| Snow.Waysnow.Notify | src/hyprland.rs:115 | a window-manager event is appended to the channel |
| Snow.Waysnow.Tick | src/snow.rs:151-263 | the clock advances by the elapsed time; every pending event is received and the snapshot refreshed; every flake is stepped once against the new frame; the invariant `Valid` is kept |
| Snow.Waysnow.AdvanceFlakes | src/snow.rs:176-260 | each flake in the pool is replaced by its one-frame successor, and every flake stays sane |

## Left out

- Talking to Hyprland over IPC is not modelled. This covers the window, monitor
  and screen-bounds queries in `src/hyprland.rs` and the event-listener
  thread. The queries' results are parameters: a `Snapshot` and a
  `ScreenBounds`. The listener is modelled as `Waysnow.Notify` appending to
  the channel.
- Waysnow.Tick: the source re-queries windows and monitors once per received
  event. The model uses the one snapshot the last re-query returns.
- Finding, parsing and watching the configuration file are not modelled
  (`get_config_path`, the hyprlang parser, `spawn_config_watcher`). A parsed
  file is seen only through its integer and float getters, and the overlay
  keeps the configuration it was started with.
- The argument parser in `src/cli.rs` is not modelled. Its accepted range for
  intensity is the predicate `ArgsParsed`.
- `src/main.rs` is not modelled beyond the load-then-override order, and
  neither is the layer-shell setup.
- The view, subscription, style, namespace, drawing cache and circle painting
  are not modelled. Drawing is modelled as choosing which flakes get painted.
- Floating point is not modelled. Positions and times are exact reals, so
  `f32` rounding, NaN and the `f64` to `f32` casts of the loader are gone.
- `Instant` and `as_secs_f32` are modelled as real timestamps.
- The real sine is replaced by an arbitrary function bounded by [-1, 1].
- The random number generator's distribution is not modelled. Each draw is a
  nondeterministic choice in its range, so nothing is claimed about
  uniformity. These choices are also not compilable.
- Snow.Waysnow.constructor: it requires a canvas of positive width and
  height (`bounds.minX < bounds.maxX` and `bounds.minY < bounds.maxY`), and
  `Valid` keeps that. The source accepts any bounds, but with intensity >= 1
  it panics in `gen_range(0.0..width)` or `gen_range(0.0..height)`
  (src/snow.rs:40-41) when the canvas is empty, for example when the only
  monitor has zero size. That panic is not modelled.
- Snow.Waysnow.Tick: it requires every non-fullscreen monitor, in both the
  current and the new snapshot, to have a positive width. The source would
  panic in `gen_range` only when a flake actually respawns into a zero-width
  column. The constructor does not require this.
- Config.Usable: the overlay's configuration must have size_min < size_max,
  speed_min < speed_max and drift > 0. On any other configuration the source
  panics in `gen_range` on an empty range as soon as a flake is spawned
  (src/snow.rs:42-45). For example, `--size-min 6` with the default size_max
  of 5 panics, and so does `--drift 0`, although the flag's help text calls 0
  "none" (src/cli.rs:27). The constructor, `NewFlake`, `ResetAtTop` and the
  tick require `Usable`, so these panics are not modelled.
- Window rectangles are in global compositor coordinates while flakes are in
  canvas coordinates, and the code compares them without subtracting the
  canvas origin (src/snow.rs:192-197, 226). When the origin is not (0, 0), a
  flake is hit-tested against a shifted window. The model keeps this.
- The flake opacity is never scaled by `max_opacity`, as in the code.
  `max_opacity` is only loaded and clamped.
- A flake whose window closes or moves away starts falling with the opacity
  it had melted to, because only its state is reset (src/snow.rs:233, 241).
  `WindowClosedDetaches` and `WindowTracking` state this, and the model keeps
  it. Only a respawn draws a fresh opacity.
- The wrap-around in the falling step puts x in [0, width] including width, as
  the code does. A flake riding a window takes x = window x + offset without
  any wrap (src/snow.rs:238), so x can leave [0, width] entirely
  (`RiddenOffCanvas`). The model keeps both. Only the spawn draws are in
  [0, width).
