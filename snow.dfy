/**
 * The snowflake simulation: each flake falls, lands on the first window whose
 * top edge it crosses (or on the floor of the canvas), rides that window
 * horizontally, melts over four seconds and respawns at the top.
 *
 * Positions are reals; the sine used for the sway is any function bounded in
 * [-1, 1]; every random draw is a nondeterministic choice in its half-open
 * range.
 */
module Snow {
  import opened Wrappers
  import opened Hyprland
  import opened Config

  /** A full turn, the range of a flake's sway phase. */
  const Tau: real := 6.283185307179586
  /** Seconds a landed flake takes to melt. */
  const MeltDuration: real := 4.0
  /** How far below a window's top edge a flake's top may be and still be caught. */
  const LandingBand: real := 10.0
  /** How far a resting flake may be from its expected height before it falls. */
  const RestTolerance: real := 1.0
  /** The opacity a flake has at the moment it starts melting. */
  const MeltOpacityScale: real := 0.9
  /** Spawn opacity is drawn from SpawnOpacityMin..SpawnOpacityMax. */
  const SpawnOpacityMin: real := 0.7
  const SpawnOpacityMax: real := 1.0
  /** Flakes in the pool per unit of intensity. */
  const FlakesPerIntensity: nat := 50

  /** The sine used for the sway, known only to stay within [-1, 1]. */
  type Sine = f: real -> real | forall t :: -1.0 <= f(t) <= 1.0 witness (t: real) => 0.0

  datatype SnowState =
    | Falling
    | Landed(meltTimer: real, windowAddr: Option<Address>, offsetX: real)

  datatype Snowflake = Snowflake(
    x: real,
    y: real,
    radius: real,
    speed: real,
    phase: real,
    driftAmount: real,
    opacity: real,
    state: SnowState)

  // ---------------------------------------------------------------------
  // Random draws
  // ---------------------------------------------------------------------

  predicate Within(r: real, lo: real, hi: real) {
    lo <= r < hi
  }

  /** `rng.gen_range(lo..hi)` on floats: any value of the half-open range. */
  method GenRange(lo: real, hi: real) returns (r: real)
    requires lo < hi
    ensures lo <= r < hi
  {
    assert Within(lo, lo, hi);
    r :| Within(r, lo, hi);
    // Unfolds Within for the postcondition.
    assert Within(r, lo, hi);
  }

  /** `rng.gen_range(0..n)` on indices. */
  method GenIndex(n: nat) returns (k: nat)
    requires 0 < n
    ensures k < n
  {
    k :| k < n;
  }

  // ---------------------------------------------------------------------
  // Spawning
  // ---------------------------------------------------------------------

  /** Radius, speed, phase and drift lie in the ranges they are drawn from. */
  predicate HasConfiguredShape(f: Snowflake, config: SnowConfig) {
    && config.sizeMin <= f.radius < config.sizeMax
    && config.speedMin <= f.speed < config.speedMax
    && 0.0 <= f.phase < Tau
    && 0.0 <= f.driftAmount < config.drift
  }

  /** Every attribute of a freshly drawn flake lies in the range it is drawn from. */
  predicate Sampled(f: Snowflake, config: SnowConfig) {
    HasConfiguredShape(f, config) && SpawnOpacityMin <= f.opacity < SpawnOpacityMax
  }

  /** Snowflake::new: a falling flake anywhere on the canvas. */
  method NewFlake(width: real, height: real, config: SnowConfig) returns (f: Snowflake)
    requires 0.0 < width && 0.0 < height && Usable(config)
    ensures f.state == Falling
    ensures 0.0 <= f.x < width && 0.0 <= f.y < height
    ensures Sampled(f, config)
  {
    var x := GenRange(0.0, width);
    var y := GenRange(0.0, height);
    var radius := GenRange(config.sizeMin, config.sizeMax);
    var speed := GenRange(config.speedMin, config.speedMax);
    var phase := GenRange(0.0, Tau);
    var driftAmount := GenRange(0.0, config.drift);
    var opacity := GenRange(SpawnOpacityMin, SpawnOpacityMax);
    f := Snowflake(x, y, radius, speed, phase, driftAmount, opacity, Falling);
  }

  /**
   * Snowflake::reset_at_top: every attribute is redrawn and the flake falls
   * again from just above the top edge. The height is taken from the radius
   * the flake had before the new radius is drawn.
   */
  method ResetAtTop(f: Snowflake, width: real, config: SnowConfig) returns (g: Snowflake)
    requires 0.0 < width && Usable(config)
    ensures g.state == Falling
    ensures 0.0 <= g.x < width && g.y == -f.radius
    ensures Sampled(g, config)
  {
    g := f;
    var x := GenRange(0.0, width);
    g := g.(x := x);
    g := g.(y := -g.radius);
    var radius := GenRange(config.sizeMin, config.sizeMax);
    g := g.(radius := radius);
    var speed := GenRange(config.speedMin, config.speedMax);
    g := g.(speed := speed);
    var phase := GenRange(0.0, Tau);
    g := g.(phase := phase);
    var driftAmount := GenRange(0.0, config.drift);
    g := g.(driftAmount := driftAmount);
    var opacity := GenRange(SpawnOpacityMin, SpawnOpacityMax);
    g := g.(opacity := opacity);
    g := g.(state := Falling);
  }

  // ---------------------------------------------------------------------
  // Monitor columns: where flakes respawn and where they are hidden
  // ---------------------------------------------------------------------

  /** A monitor's horizontal span in canvas coordinates, as (start, end). */
  function Column(m: MonitorRect, offsetX: real): (real, real) {
    (m.x - offsetX, m.x - offsetX + m.width)
  }

  /** The columns of the monitors that are not fullscreen, in monitor order. */
  function OpenColumns(monitors: seq<MonitorRect>, offsetX: real): (r: seq<(real, real)>)
    ensures |r| <= |monitors|
    ensures forall c :: c in r ==> exists m :: m in monitors && !m.hasFullscreen && c == Column(m, offsetX)
    ensures forall m :: m in monitors && !m.hasFullscreen ==> Column(m, offsetX) in r
  {
    if monitors == [] then []
    else
      var rest := OpenColumns(monitors[1..], offsetX);
      assert forall m :: m in monitors ==> m == monitors[0] || m in monitors[1..];
      if monitors[0].hasFullscreen then rest else [Column(monitors[0], offsetX)] + rest
  }

  /** Every range is non-empty, so a draw from any of them is possible. */
  predicate NonEmptyRanges(ranges: seq<(real, real)>) {
    forall k :: 0 <= k < |ranges| ==> ranges[k].0 < ranges[k].1
  }

  lemma OpenColumnsNonEmpty(monitors: seq<MonitorRect>, offsetX: real)
    requires OpenMonitorsHaveWidth(monitors)
    ensures NonEmptyRanges(OpenColumns(monitors, offsetX))
  {
    var r := OpenColumns(monitors, offsetX);
    forall k | 0 <= k < |r|
      ensures r[k].0 < r[k].1
    {
      assert r[k] in r;
      var m :| m in monitors && !m.hasFullscreen && r[k] == Column(m, offsetX);
      var j :| 0 <= j < |monitors| && monitors[j] == m;
    }
  }

  /** x lies in one of the ranges. */
  predicate InSomeRange(x: real, ranges: seq<(real, real)>) {
    exists k :: 0 <= k < |ranges| && ranges[k].0 <= x < ranges[k].1
  }

  /**
   * A melted flake `f` has come back as `g`: reset at the top with fresh
   * attributes and, when some column is open, placed inside an open column.
   */
  predicate Respawned(f: Snowflake, g: Snowflake, width: real, config: SnowConfig, ranges: seq<(real, real)>) {
    && g.state == Falling
    && g.y == -f.radius
    && Sampled(g, config)
    && (if ranges == [] then 0.0 <= g.x < width else InSomeRange(g.x, ranges))
  }

  /** The respawn of a melted flake: reset at the top, then moved into a random open column if any. */
  method Respawn(f: Snowflake, width: real, config: SnowConfig, ranges: seq<(real, real)>) returns (g: Snowflake)
    requires 0.0 < width && Usable(config) && NonEmptyRanges(ranges)
    ensures Respawned(f, g, width, config, ranges)
  {
    g := ResetAtTop(f, width, config);
    if ranges != [] {
      var k := GenIndex(|ranges|);
      var x := GenRange(ranges[k].0, ranges[k].1);
      g := g.(x := x);
    }
  }

  /** A flake respawned from the open columns lies in the span of a monitor that is not fullscreen. */
  lemma RespawnInOpenMonitor(f: Snowflake, g: Snowflake, width: real, config: SnowConfig,
                             monitors: seq<MonitorRect>, offsetX: real)
    requires Respawned(f, g, width, config, OpenColumns(monitors, offsetX))
    requires exists j :: 0 <= j < |monitors| && !monitors[j].hasFullscreen
    ensures exists j :: (0 <= j < |monitors| && !monitors[j].hasFullscreen &&
      monitors[j].x - offsetX <= g.x < monitors[j].x - offsetX + monitors[j].width)
  {
    var ranges := OpenColumns(monitors, offsetX);
    var j0 :| 0 <= j0 < |monitors| && !monitors[j0].hasFullscreen;
    assert monitors[j0] in monitors;
    assert Column(monitors[j0], offsetX) in ranges;
    var k :| 0 <= k < |ranges| && ranges[k].0 <= g.x < ranges[k].1;
    assert ranges[k] in ranges;
    var m :| m in monitors && !m.hasFullscreen && ranges[k] == Column(m, offsetX);
    var j :| 0 <= j < |monitors| && monitors[j] == m;
  }

  /** A monitor hides a flake: it is fullscreen, spans x, and its bottom edge is below y. */
  predicate Occludes(m: MonitorRect, offsetX: real, offsetY: real, x: real, y: real) {
    && m.hasFullscreen
    && m.x - offsetX <= x < m.x - offsetX + m.width
    && y < m.y - offsetY + m.height
  }

  /** Some monitor hides the point (x, y). */
  predicate InFullscreenColumn(monitors: seq<MonitorRect>, offsetX: real, offsetY: real, x: real, y: real) {
    exists i :: 0 <= i < |monitors| && Occludes(monitors[i], offsetX, offsetY, x, y)
  }

  /** The flakes the painter draws: those no fullscreen monitor hides, in pool order. */
  function Visible(flakes: seq<Snowflake>, monitors: seq<MonitorRect>, offsetX: real, offsetY: real): (r: seq<Snowflake>)
    ensures |r| <= |flakes|
    ensures forall i :: 0 <= i < |r| ==> !InFullscreenColumn(monitors, offsetX, offsetY, r[i].x, r[i].y)
  {
    if flakes == [] then []
    else
      var f := flakes[|flakes| - 1];
      var rest := Visible(flakes[..|flakes| - 1], monitors, offsetX, offsetY);
      if InFullscreenColumn(monitors, offsetX, offsetY, f.x, f.y) then rest else rest + [f]
  }

  /** A flake is drawn exactly when it is in the pool and not hidden. */
  lemma {:induction false} VisibleIff(flakes: seq<Snowflake>, monitors: seq<MonitorRect>, offsetX: real, offsetY: real)
    ensures forall f :: f in Visible(flakes, monitors, offsetX, offsetY) <==>
      f in flakes && !InFullscreenColumn(monitors, offsetX, offsetY, f.x, f.y)
  {
    if flakes != [] {
      var init := flakes[..|flakes| - 1];
      VisibleIff(init, monitors, offsetX, offsetY);
      assert flakes == init + [flakes[|flakes| - 1]];
    }
  }

  // ---------------------------------------------------------------------
  // One frame of a falling flake
  // ---------------------------------------------------------------------

  /** What a frame knows: the advanced clock, the elapsed time, the sine, the windows and the canvas size. */
  datatype Frame = Frame(time: real, dt: real, sin: Sine, windows: seq<WindowRect>, width: real, height: real)

  /** Horizontal wraparound: past the left edge to the right edge, past the right edge to 0. */
  function Wrap(x: real, width: real): (r: real)
    ensures 0.0 <= width ==> 0.0 <= r <= width
    ensures 0.0 <= x <= width ==> r == x
  {
    if x < 0.0 then width else if x > width then 0.0 else x
  }

  /** The horizontal sway of a falling flake during the frame. */
  function Sway(f: Snowflake, fr: Frame): real {
    fr.sin(fr.time + f.phase) * f.driftAmount * fr.dt
  }

  /**
   * A window catches a flake at (x, y): x lies within its span (both ends
   * included), the flake's bottom has reached the window's top edge and its
   * top is still within the landing band below that edge.
   */
  predicate Catches(w: WindowRect, x: real, y: real, radius: real) {
    && x >= w.x
    && x <= w.x + w.width
    && y + radius >= w.y
    && y < w.y + LandingBand
  }

  /** The index of the first window that catches the flake, if any. */
  function FirstCatch(windows: seq<WindowRect>, x: real, y: real, radius: real): (r: Option<nat>)
    ensures r.Some? ==> r.value < |windows| && Catches(windows[r.value], x, y, radius)
    ensures r.Some? ==> forall j :: 0 <= j < r.value ==> !Catches(windows[j], x, y, radius)
    ensures r.None? ==> forall j :: 0 <= j < |windows| ==> !Catches(windows[j], x, y, radius)
  {
    if windows == [] then None
    else if Catches(windows[0], x, y, radius) then Some(0)
    else
      match FirstCatch(windows[1..], x, y, radius)
      case None => None
      case Some(i) => Some(i + 1)
  }

  /** FirstCatch finds the first window, in list order, that catches the flake. */
  lemma {:induction false} FirstCatchIsFirst(windows: seq<WindowRect>, x: real, y: real, radius: real, i: nat)
    requires i < |windows| && Catches(windows[i], x, y, radius)
    requires forall j :: 0 <= j < i ==> !Catches(windows[j], x, y, radius)
    ensures FirstCatch(windows, x, y, radius) == Some(i)
  {
    if i > 0 {
      FirstCatchIsFirst(windows[1..], x, y, radius, i - 1);
    }
  }

  /** FirstCatch finds nothing when no window catches the flake. */
  lemma {:induction false} FirstCatchNone(windows: seq<WindowRect>, x: real, y: real, radius: real)
    requires forall j :: 0 <= j < |windows| ==> !Catches(windows[j], x, y, radius)
    ensures FirstCatch(windows, x, y, radius) == None
  {
    if windows != [] {
      FirstCatchNone(windows[1..], x, y, radius);
    }
  }

  /** The move of a falling flake: down by speed*dt, sideways by the sway, then wrapped. */
  function Moved(f: Snowflake, fr: Frame): (m: Snowflake)
    ensures m.(x := f.x, y := f.y) == f
    ensures 0.0 <= fr.width ==> 0.0 <= m.x <= fr.width
    ensures m.y - f.y == f.speed * fr.dt
  {
    f.(x := Wrap(f.x + Sway(f, fr), fr.width), y := f.y + f.speed * fr.dt)
  }

  /**
   * The hit-test after the move: the first window that catches the moved flake
   * takes it, else the floor takes it once its top has passed height - radius.
   */
  function Settle(m: Snowflake, windows: seq<WindowRect>, height: real): (g: Snowflake)
    ensures g.(y := m.y, state := m.state) == m
  {
    match FirstCatch(windows, m.x, m.y, m.radius)
    case Some(i) =>
      var w := windows[i];
      m.(y := w.y - m.radius, state := Landed(0.0, Some(w.address), m.x - w.x))
    case None =>
      if m.y > height - m.radius then m.(y := height - m.radius, state := Landed(0.0, None, 0.0)) else m
  }

  /**
   * The falling branch of a frame: only x, y and the state change, x ends
   * within the canvas, and a falling flake that lands starts melting from zero.
   */
  function Fall(f: Snowflake, fr: Frame): (g: Snowflake)
    ensures g.(x := f.x, y := f.y, state := f.state) == f
    ensures 0.0 <= fr.width ==> 0.0 <= g.x <= fr.width
    ensures f.state == Falling && g.state.Landed? ==> g.state.meltTimer == 0.0
  {
    Settle(Moved(f, fr), fr.windows, fr.height)
  }

  /** The falling branch, as the frame loop runs it: the windows are scanned in order until one catches the flake. */
  method FallStep(f: Snowflake, fr: Frame) returns (g: Snowflake)
    ensures g == Fall(f, fr)
  {
    g := f;
    g := g.(y := g.y + g.speed * fr.dt);
    g := g.(x := g.x + fr.sin(fr.time + g.phase) * g.driftAmount * fr.dt);
    assert g.x == f.x + Sway(f, fr);
    if g.x < 0.0 {
      g := g.(x := fr.width);
    } else if g.x > fr.width {
      g := g.(x := 0.0);
    }
    assert g == Moved(f, fr);
    ghost var moved := g;
    var bottom := g.y + g.radius;
    var landed := false;
    var i := 0;
    while i < |fr.windows|
      invariant 0 <= i <= |fr.windows|
      invariant g == moved && !landed
      invariant forall j :: 0 <= j < i ==> !Catches(fr.windows[j], moved.x, moved.y, moved.radius)
    {
      var w := fr.windows[i];
      if g.x >= w.x && g.x <= w.x + w.width && bottom >= w.y && g.y < w.y + LandingBand {
        FirstCatchIsFirst(fr.windows, moved.x, moved.y, moved.radius, i);
        g := g.(y := w.y - g.radius, state := Landed(0.0, Some(w.address), g.x - w.x));
        landed := true;
        break;
      }
      i := i + 1;
    }
    if !landed {
      FirstCatchNone(fr.windows, moved.x, moved.y, moved.radius);
      if g.y > fr.height - g.radius {
        g := g.(y := fr.height - g.radius, state := Landed(0.0, None, 0.0));
      }
    }
  }

  /**
   * A falling flake moves down by speed*dt unless it lands, and after the
   * wraparound 0 <= x <= width: x < 0 becomes width, x > width becomes 0.
   * Landing keeps x; radius, speed, phase, drift and opacity never change.
   */
  lemma FallingMotion(f: Snowflake, fr: Frame)
    requires f.state == Falling && 0.0 <= fr.width
    ensures var g := Fall(f, fr); var x := f.x + Sway(f, fr);
      && 0.0 <= g.x <= fr.width
      && (x < 0.0 ==> g.x == fr.width)
      && (x > fr.width ==> g.x == 0.0)
      && (0.0 <= x <= fr.width ==> g.x == x)
      && (g.state == Falling ==> g.y == f.y + f.speed * fr.dt)
      && g.radius == f.radius && g.speed == f.speed && g.phase == f.phase
      && g.driftAmount == f.driftAmount && g.opacity == f.opacity
  {
    SettleKeepsShape(Moved(f, fr), fr.windows, fr.height);
  }

  /** Settling changes only y and the state, and leaves a flake that stays falling where it was. */
  lemma SettleKeepsShape(m: Snowflake, windows: seq<WindowRect>, height: real)
    requires m.state == Falling
    ensures var g := Settle(m, windows, height);
      && g.(y := m.y, state := m.state) == m
      && (g.state == Falling ==> g.y == m.y)
  {
  }

  /** The sway moves a flake by at most driftAmount*dt either way. */
  lemma SwayBounded(f: Snowflake, fr: Frame)
    requires 0.0 <= f.driftAmount && 0.0 <= fr.dt
    ensures -(f.driftAmount * fr.dt) <= Sway(f, fr) <= f.driftAmount * fr.dt
  {
    var s := fr.sin(fr.time + f.phase);
    var a := f.driftAmount * fr.dt;
    assert 0.0 <= a;
    assert -1.0 <= s <= 1.0;
    assert Sway(f, fr) == s * a;
    assert -a <= s * a <= a by {
      if s >= 0.0 {
        assert s * a <= 1.0 * a;
      } else {
        assert s * a >= -1.0 * a;
      }
    }
  }

  /**
   * A moved flake lands on window i when window i is the first, in list
   * order, to catch it: it rests on the window's top edge, keeps its x, and
   * records its offset from the window's left edge.
   */
  lemma LandsOnFirstWindow(m: Snowflake, windows: seq<WindowRect>, height: real, i: nat)
    requires i < |windows| && Catches(windows[i], m.x, m.y, m.radius)
    requires forall j :: 0 <= j < i ==> !Catches(windows[j], m.x, m.y, m.radius)
    ensures var g := Settle(m, windows, height); var w := windows[i];
      g == m.(y := w.y - m.radius, state := Landed(0.0, Some(w.address), m.x - w.x))
  {
    FirstCatchIsFirst(windows, m.x, m.y, m.radius, i);
  }

  /**
   * When no window catches a moved flake, it lands on the floor exactly when
   * its top has passed height - radius, snapping to rest on the floor;
   * otherwise it is still falling where it was.
   */
  lemma FloorLanding(m: Snowflake, windows: seq<WindowRect>, height: real)
    requires forall j :: 0 <= j < |windows| ==> !Catches(windows[j], m.x, m.y, m.radius)
    ensures var g := Settle(m, windows, height);
      && (m.y > height - m.radius ==> g == m.(y := height - m.radius, state := Landed(0.0, None, 0.0)))
      && (m.y <= height - m.radius ==> g == m)
  {
    FirstCatchNone(windows, m.x, m.y, m.radius);
  }

  /** The concrete landing: a window at (100, 200) of width 50 catches a flake of radius 3 at (120, 198). */
  lemma LandingExample(sin: Sine, addr: Address)
    ensures var f := Snowflake(120.0, 198.0, 3.0, 50.0, 0.0, 0.0, 0.8, Falling);
      var fr := Frame(0.0, 0.016, sin, [WindowRect(addr, 100.0, 200.0, 50.0)], 1920.0, 1080.0);
      var g := Fall(f, fr);
      g.state == Landed(0.0, Some(addr), 20.0) && g.y == 197.0 && g.x == 120.0
  {
    var f := Snowflake(120.0, 198.0, 3.0, 50.0, 0.0, 0.0, 0.8, Falling);
    var fr := Frame(0.0, 0.016, sin, [WindowRect(addr, 100.0, 200.0, 50.0)], 1920.0, 1080.0);
    assert Sway(f, fr) == 0.0;
    var m := Moved(f, fr);
    assert m == f.(y := 198.8);
    LandsOnFirstWindow(m, fr.windows, fr.height, 0);
  }

  // ---------------------------------------------------------------------
  // One frame of a landed flake
  // ---------------------------------------------------------------------

  /** The result of a frame for one flake: it stays as given, or it has melted and must respawn. */
  datatype Outcome = Stays(flake: Snowflake) | MeltedAway(flake: Snowflake)

  function Abs(r: real): real {
    if r < 0.0 then -r else r
  }

  /** The first window with the given address, as `iter().find` returns it. */
  function FindWindow(windows: seq<WindowRect>, addr: Address): (r: Option<WindowRect>)
    ensures r.Some? ==> r.value in windows && r.value.address == addr
    ensures r.None? ==> forall j :: 0 <= j < |windows| ==> windows[j].address != addr
  {
    if windows == [] then None
    else if windows[0].address == addr then Some(windows[0])
    else FindWindow(windows[1..], addr)
  }

  /** The opacity of a flake that has been melting for t seconds. */
  function MeltOpacity(t: real): (o: real)
    ensures 0.0 <= t ==> 0.0 <= o <= MeltOpacityScale
    ensures t >= MeltDuration ==> o == 0.0
  {
    var left := 1.0 - t / MeltDuration;
    (if left > 0.0 then left else 0.0) * MeltOpacityScale
  }

  /** Melting opacity starts at 0.9, never leaves [0, 0.9], only decreases, and is 0 once melted. */
  lemma MeltOpacityRange(t: real, t': real)
    requires 0.0 <= t <= t'
    ensures 0.0 <= MeltOpacity(t) <= MeltOpacityScale
    ensures MeltOpacity(t') <= MeltOpacity(t)
    ensures MeltOpacity(0.0) == MeltOpacityScale
    ensures t >= MeltDuration ==> MeltOpacity(t) == 0.0
  {
  }

  /** A resting flake melts for dt more seconds; it has melted once the timer reaches the duration. */
  function Melt(f: Snowflake, dt: real): (o: Outcome)
    requires f.state.Landed?
    ensures o.flake.state == f.state.(meltTimer := f.state.meltTimer + dt)
    ensures o.flake.(opacity := f.opacity, state := f.state) == f
    ensures o.MeltedAway? <==> f.state.meltTimer + dt >= MeltDuration
  {
    var t := f.state.meltTimer + dt;
    var g := f.(opacity := MeltOpacity(t), state := f.state.(meltTimer := t));
    if t >= MeltDuration then MeltedAway(g) else Stays(g)
  }

  /** The window no longer holds the flake: it moved vertically or the flake is off its width. */
  predicate Displaced(f: Snowflake, w: WindowRect)
    requires f.state.Landed?
  {
    Abs(f.y - (w.y - f.radius)) > RestTolerance || f.state.offsetX < 0.0 || f.state.offsetX > w.width
  }

  /**
   * The landed branch of a frame, before any respawn: a flake on the floor
   * melts; a flake on a window either starts falling with nothing else
   * changed, or stays landed on the same window and melts, keeping its y and
   * shape; only a flake that has melted away is handed on for respawn.
   */
  function Rest(f: Snowflake, fr: Frame): (o: Outcome)
    requires f.state.Landed?
    ensures f.state.windowAddr.None? ==> o == Melt(f, fr.dt)
    ensures o.flake.state.Falling? ==> o == Stays(f.(state := Falling))
    ensures o.flake.state.Landed? ==>
      && o.flake.state.windowAddr == f.state.windowAddr
      && o.flake.state.offsetX == f.state.offsetX
      && o.flake.state.meltTimer == f.state.meltTimer + fr.dt
      && o.flake.(x := f.x, opacity := f.opacity, state := f.state) == f
    ensures o.MeltedAway? ==> o.flake.state.Landed? && o.flake.state.meltTimer >= MeltDuration
  {
    match f.state.windowAddr
    case None => Melt(f, fr.dt)
    case Some(addr) =>
      match FindWindow(fr.windows, addr)
      case None => Stays(f.(state := Falling))
      case Some(w) =>
        if Displaced(f, w) then Stays(f.(state := Falling))
        else Melt(f.(x := w.x + f.state.offsetX), fr.dt)
  }

  /** A flake whose window has gone starts falling again at once, nothing else changed. */
  lemma WindowClosedDetaches(f: Snowflake, fr: Frame)
    requires f.state.Landed? && f.state.windowAddr.Some?
    requires forall j :: 0 <= j < |fr.windows| ==> fr.windows[j].address != f.state.windowAddr.value
    ensures Rest(f, fr) == Stays(f.(state := Falling))
  {
  }

  /**
   * A flake resting on window k (the first with its address) starts falling,
   * with x, y, radius and opacity unchanged and no melting, exactly when the
   * window has moved vertically by more than 1 or the offset is outside
   * [0, width]. Otherwise it rides the window: x becomes the window's x plus
   * the offset, and it melts for dt more seconds.
   */
  lemma WindowTracking(f: Snowflake, fr: Frame, k: nat)
    requires f.state.Landed? && f.state.windowAddr.Some?
    requires k < |fr.windows| && fr.windows[k].address == f.state.windowAddr.value
    requires forall j :: 0 <= j < k ==> fr.windows[j].address != f.state.windowAddr.value
    ensures var w := fr.windows[k];
      (Rest(f, fr) == Stays(f.(state := Falling))) <==>
        (Abs(f.y - (w.y - f.radius)) > 1.0 || f.state.offsetX < 0.0 || f.state.offsetX > w.width)
    ensures var w := fr.windows[k];
      !Displaced(f, w) ==> Rest(f, fr) == Melt(f.(x := w.x + f.state.offsetX), fr.dt)
  {
    FindFirstWindow(fr.windows, f.state.windowAddr.value, k);
  }

  /**
   * Riding a window does not wrap x: a flake resting 5 units into a window
   * whose left edge is at 3000 is placed at 3005, beyond a 1920-wide canvas.
   */
  lemma RiddenOffCanvas(sin: Sine, addr: Address)
    ensures var f := Snowflake(1000.0, 97.0, 3.0, 50.0, 0.0, 0.0, 0.5, Landed(1.0, Some(addr), 5.0));
      var fr := Frame(0.0, 0.016, sin, [WindowRect(addr, 3000.0, 100.0, 50.0)], 1920.0, 1080.0);
      var o := Rest(f, fr);
      o.Stays? && o.flake.x == 3005.0 && o.flake.x > fr.width
  {
    var f := Snowflake(1000.0, 97.0, 3.0, 50.0, 0.0, 0.0, 0.5, Landed(1.0, Some(addr), 5.0));
    var fr := Frame(0.0, 0.016, sin, [WindowRect(addr, 3000.0, 100.0, 50.0)], 1920.0, 1080.0);
    FindFirstWindow(fr.windows, addr, 0);
  }

  /** FindWindow returns the first window with the address. */
  lemma {:induction false} FindFirstWindow(windows: seq<WindowRect>, addr: Address, k: nat)
    requires k < |windows| && windows[k].address == addr
    requires forall j :: 0 <= j < k ==> windows[j].address != addr
    ensures FindWindow(windows, addr) == Some(windows[k])
  {
    if k > 0 {
      assert windows[0].address != addr;
      FindFirstWindow(windows[1..], addr, k - 1);
    }
  }

  /**
   * Melting: the timer advances by dt, the opacity follows the melt law and
   * stays in [0, 0.9] for dt >= 0, and the flake has melted exactly when the
   * timer reaches 4 seconds; position and shape do not change.
   */
  lemma MeltProgress(f: Snowflake, dt: real)
    requires f.state.Landed? && 0.0 <= f.state.meltTimer && 0.0 <= dt
    ensures var o := Melt(f, dt); var t := f.state.meltTimer + dt;
      && o.flake.state == Landed(t, f.state.windowAddr, f.state.offsetX)
      && o.flake.opacity == MeltOpacity(t)
      && 0.0 <= o.flake.opacity <= MeltOpacityScale
      && (o.MeltedAway? <==> t >= MeltDuration)
      && o.flake.(opacity := f.opacity, state := f.state) == f
  {
    MeltOpacityRange(f.state.meltTimer + dt, f.state.meltTimer + dt);
  }

  // ---------------------------------------------------------------------
  // One frame of any flake
  // ---------------------------------------------------------------------

  /** The frame's effect on one flake before any respawn. */
  function Advance(f: Snowflake, fr: Frame): Outcome {
    match f.state
    case Falling => Stays(Fall(f, fr))
    case Landed(_, _, _) => Rest(f, fr)
  }

  /** `g` is what one frame makes of `f`: a respawn if it melted, otherwise the advanced flake. */
  predicate FlakeStepped(f: Snowflake, g: Snowflake, fr: Frame, config: SnowConfig, ranges: seq<(real, real)>) {
    match Advance(f, fr)
    case Stays(h) => g == h
    case MeltedAway(h) => Respawned(h, g, fr.width, config, ranges)
  }

  /** One iteration of the frame loop over the pool. */
  method UpdateFlake(f: Snowflake, fr: Frame, config: SnowConfig, ranges: seq<(real, real)>) returns (g: Snowflake)
    requires 0.0 < fr.width && Usable(config) && NonEmptyRanges(ranges)
    ensures FlakeStepped(f, g, fr, config, ranges)
  {
    match f.state
    case Falling =>
      g := FallStep(f, fr);
    case Landed(_, _, _) =>
      match Rest(f, fr)
      case Stays(h) =>
        g := h;
      case MeltedAway(h) =>
        g := Respawn(h, fr.width, config, ranges);
  }

  /**
   * What holds of every flake between frames: its shape lies in the
   * configured ranges, its opacity in [0, 1), and a landed flake has been
   * melting for less than the melt duration.
   */
  predicate Sane(f: Snowflake, config: SnowConfig) {
    && HasConfiguredShape(f, config)
    && 0.0 <= f.opacity < 1.0
    && (f.state.Landed? ==> 0.0 <= f.state.meltTimer < MeltDuration)
  }

  /** A frame with dt >= 0 keeps every flake sane. */
  lemma StepKeepsSane(f: Snowflake, g: Snowflake, fr: Frame, config: SnowConfig, ranges: seq<(real, real)>)
    requires Sane(f, config) && 0.0 <= fr.dt
    requires FlakeStepped(f, g, fr, config, ranges)
    ensures Sane(g, config)
  {
    match f.state
    case Falling =>
    case Landed(t, addr, off) =>
      match addr
      case None =>
        MeltProgress(f, fr.dt);
      case Some(a) =>
        match FindWindow(fr.windows, a)
        case None =>
        case Some(w) =>
          if !Displaced(f, w) {
            MeltProgress(f.(x := w.x + off), fr.dt);
          }
  }

  // ---------------------------------------------------------------------
  // The overlay application
  // ---------------------------------------------------------------------

  /** `now.duration_since(last)`, which is zero when `now` is not later. */
  function Elapsed(last: real, now: real): (dt: real)
    ensures 0.0 <= dt
    ensures last <= now ==> last + dt == now
    ensures now < last ==> dt == 0.0
  {
    if now < last then 0.0 else now - last
  }

  /**
   * The overlay: the pool of flakes, the latest window and monitor snapshot,
   * the events not yet received, the clock, the canvas (its global origin and
   * its size) and the configuration it was started with.
   */
  class Waysnow {
    const snowflakes: array<Snowflake>
    var windows: seq<WindowRect>
    var monitors: seq<MonitorRect>
    /** The receiving end of the window-manager event channel: events sent and not yet received. */
    var pending: seq<HyprlandEvent>
    var lastTick: real
    var time: real
    const offsetX: real
    const offsetY: real
    const width: real
    const height: real
    const config: SnowConfig
    const sin: Sine

    /** The canvas is not empty, the configured ranges can be sampled, and every flake is sane. */
    ghost predicate Valid()
      reads this, snowflakes
    {
      && 0.0 < width && 0.0 < height && Usable(config)
      && forall i :: 0 <= i < snowflakes.Length ==> Sane(snowflakes[i], config)
    }

    /**
     * Application::new: a canvas covering the screen bounds and a pool of
     * intensity*50 freshly spawned, falling flakes.
     */
    constructor (config: SnowConfig, bounds: ScreenBounds, wm: Snapshot, sin: Sine, now: real)
      requires Usable(config) && bounds.minX < bounds.maxX && bounds.minY < bounds.maxY
      ensures Valid() && fresh(snowflakes)
      ensures snowflakes.Length == config.intensity * FlakesPerIntensity
      ensures forall i :: 0 <= i < snowflakes.Length ==>
        && snowflakes[i].state == Falling
        && Sampled(snowflakes[i], config)
        && 0.0 <= snowflakes[i].x < width
        && 0.0 <= snowflakes[i].y < height
      ensures windows == wm.windows && monitors == wm.monitors && pending == []
      ensures lastTick == now && time == 0.0
      ensures offsetX == bounds.minX && offsetY == bounds.minY
      ensures width == bounds.maxX - bounds.minX && height == bounds.maxY - bounds.minY
      ensures this.config == config
    {
      var w := bounds.maxX - bounds.minX;
      var h := bounds.maxY - bounds.minY;
      var count := config.intensity * FlakesPerIntensity;
      var flakes := new Snowflake[count];
      for i := 0 to count
        invariant forall j :: 0 <= j < i ==>
          && flakes[j].state == Falling
          && Sampled(flakes[j], config)
          && 0.0 <= flakes[j].x < w
          && 0.0 <= flakes[j].y < h
      {
        flakes[i] := NewFlake(w, h, config);
      }
      snowflakes := flakes;
      windows := wm.windows;
      monitors := wm.monitors;
      pending := [];
      lastTick := now;
      time := 0.0;
      offsetX := bounds.minX;
      offsetY := bounds.minY;
      width := w;
      height := h;
      this.config := config;
      this.sin := sin;
    }

    /** A window-manager event is sent on the channel. */
    method Notify(e: HyprlandEvent)
      modifies this`pending
      ensures pending == old(pending) + [e]
    {
      pending := pending + [e];
    }

    /**
     * The frame tick: advance the clock by the elapsed time, receive every
     * pending event (re-reading the snapshot for each), then advance every
     * flake once, in place, without adding or removing any.
     */
    method Tick(now: real, wm: Snapshot)
      requires Valid() && OpenMonitorsHaveWidth(monitors) && OpenMonitorsHaveWidth(wm.monitors)
      modifies this, snowflakes
      ensures Valid() && OpenMonitorsHaveWidth(monitors)
      ensures lastTick == now && time == old(time) + Elapsed(old(lastTick), now)
      ensures pending == []
      ensures old(pending) == [] ==> windows == old(windows) && monitors == old(monitors)
      ensures old(pending) != [] ==> windows == wm.windows && monitors == wm.monitors
      ensures forall i :: 0 <= i < snowflakes.Length ==>
        FlakeStepped(old(snowflakes[i]), snowflakes[i],
                     Frame(time, Elapsed(old(lastTick), now), sin, windows, width, height),
                     config, OpenColumns(monitors, offsetX))
    {
      var dt := Elapsed(lastTick, now);
      lastTick := now;
      time := time + dt;

      while pending != []
        invariant |pending| <= |old(pending)|
        invariant |pending| == |old(pending)| ==> windows == old(windows) && monitors == old(monitors)
        invariant |pending| < |old(pending)| ==> windows == wm.windows && monitors == wm.monitors
        invariant lastTick == now && time == old(time) + dt
        invariant OpenMonitorsHaveWidth(monitors)
        modifies this
        decreases |pending|
      {
        pending := pending[1..];
        windows := wm.windows;
        monitors := wm.monitors;
      }

      var ranges := OpenColumns(monitors, offsetX);
      OpenColumnsNonEmpty(monitors, offsetX);
      AdvanceFlakes(Frame(time, dt, sin, windows, width, height), ranges);
    }

    /** The loop over the pool: every flake is advanced once, in place. */
    method AdvanceFlakes(fr: Frame, ranges: seq<(real, real)>)
      requires Valid() && fr.width == width && 0.0 <= fr.dt && NonEmptyRanges(ranges)
      modifies snowflakes
      ensures Valid()
      ensures forall i :: 0 <= i < snowflakes.Length ==>
        FlakeStepped(old(snowflakes[i]), snowflakes[i], fr, config, ranges)
    {
      ghost var before := snowflakes[..];
      for i := 0 to snowflakes.Length
        invariant forall j :: 0 <= j < i ==> FlakeStepped(before[j], snowflakes[j], fr, config, ranges)
        invariant forall j :: i <= j < snowflakes.Length ==> snowflakes[j] == before[j]
      {
        var g := UpdateFlake(snowflakes[i], fr, config, ranges);
        snowflakes[i] := g;
      }
      forall j | 0 <= j < snowflakes.Length
        ensures Sane(snowflakes[j], config)
      {
        StepKeepsSane(before[j], snowflakes[j], fr, config, ranges);
      }
    }

    /** is_in_fullscreen_monitor: whether some fullscreen monitor's column hides the point. */
    method IsInFullscreenMonitor(x: real, y: real) returns (hidden: bool)
      ensures hidden <==> InFullscreenColumn(monitors, offsetX, offsetY, x, y)
    {
      for i := 0 to |monitors|
        invariant forall j :: 0 <= j < i ==> !Occludes(monitors[j], offsetX, offsetY, x, y)
      {
        var monitor := monitors[i];
        var monX := monitor.x - offsetX;
        var monY := monitor.y - offsetY;
        if monitor.hasFullscreen && x >= monX && x < monX + monitor.width && y < monY + monitor.height {
          assert Occludes(monitor, offsetX, offsetY, x, y);
          return true;
        }
      }
      return false;
    }

    /**
     * The painter's pass over the pool: every flake that no fullscreen
     * column hides, in pool order. The pool itself is left untouched.
     */
    method Draw() returns (drawn: seq<Snowflake>)
      ensures drawn == Visible(snowflakes[..], monitors, offsetX, offsetY)
      ensures forall f :: f in drawn <==>
        f in snowflakes[..] && !InFullscreenColumn(monitors, offsetX, offsetY, f.x, f.y)
    {
      drawn := [];
      for i := 0 to snowflakes.Length
        invariant drawn == Visible(snowflakes[..i], monitors, offsetX, offsetY)
      {
        var flake := snowflakes[i];
        assert snowflakes[..i + 1][..i] == snowflakes[..i];
        var hidden := IsInFullscreenMonitor(flake.x, flake.y);
        if hidden {
          continue;
        }
        drawn := drawn + [flake];
      }
      assert snowflakes[..snowflakes.Length] == snowflakes[..];
      VisibleIff(snowflakes[..], monitors, offsetX, offsetY);
    }
  }
}
