/**
 * The snow configuration: its defaults, the mapping from the values a
 * hyprlang file provides to a clamped configuration, and the command-line
 * overrides applied on top of it.
 *
 * Locating the file, parsing it and watching it for changes are outside the
 * model; a parsed file is seen only through its typed getters.
 */
module Config {
  import opened Wrappers

  /** Rust's `u8`, the type of the intensity setting. */
  type U8 = x: int | 0 <= x < 256

  datatype SnowConfig = SnowConfig(
    intensity: U8,
    sizeMin: real,
    sizeMax: real,
    speedMin: real,
    speedMax: real,
    drift: real,
    maxOpacity: real)

  /** The built-in configuration: its sampling ranges are non-empty and it lies in the load ranges. */
  function Default(): (c: SnowConfig)
    ensures Usable(c) && InLoadRanges(c)
  {
    SnowConfig(3, 2.0, 5.0, 30.0, 80.0, 20.0, 1.0)
  }

  /**
   * The ranges the simulation samples from are non-empty: `gen_range(lo..hi)`
   * panics unless lo < hi, and the drift amount is drawn from 0..drift.
   */
  predicate Usable(c: SnowConfig) {
    c.sizeMin < c.sizeMax && c.speedMin < c.speedMax && 0.0 < c.drift
  }

  /** The ranges a loaded configuration is clamped into. */
  predicate InLoadRanges(c: SnowConfig) {
    1 <= c.intensity <= 10 && 0.0 <= c.maxOpacity <= 1.0
  }

  /** `Ord::clamp` on integers. */
  function ClampInt(v: int, lo: int, hi: int): (r: int)
    requires lo <= hi
    ensures lo <= r <= hi
    ensures lo <= v <= hi ==> r == v
    ensures v < lo ==> r == lo
    ensures v > hi ==> r == hi
  {
    if v < lo then lo else if v > hi then hi else v
  }

  /** `f32::clamp`, without its NaN behaviour. */
  function ClampReal(v: real, lo: real, hi: real): (r: real)
    requires lo <= hi
    ensures lo <= r <= hi
    ensures lo <= v <= hi ==> r == v
    ensures v < lo ==> r == lo
    ensures v > hi ==> r == hi
  {
    if v < lo then lo else if v > hi then hi else v
  }

  // ---------------------------------------------------------------------
  // Loading
  // ---------------------------------------------------------------------

  const IntensityKey: string := "general:intensity"
  const SizeMinKey: string := "general:size_min"
  const SizeMaxKey: string := "general:size_max"
  const SpeedMinKey: string := "general:speed_min"
  const SpeedMaxKey: string := "general:speed_max"
  const DriftKey: string := "general:drift"
  const MaxOpacityKey: string := "general:max_opacity"

  /** A parsed hyprlang file, seen through `get_int` and `get_float`. */
  datatype HyprConf = HyprConf(ints: map<string, int>, floats: map<string, real>) {
    function GetInt(key: string): Option<int> {
      if key in ints then Some(ints[key]) else None
    }

    function GetFloat(key: string): Option<real> {
      if key in floats then Some(floats[key]) else None
    }
  }

  /** How far reading the configuration file got. */
  datatype ConfigSource = NoConfigFile | ParseFailed | Parsed(conf: HyprConf)

  /**
   * The configuration a parsed file describes: each key that is present is
   * taken (intensity clamped into 1..10, max opacity into [0, 1]); each key
   * that is missing falls back to the default value of its field.
   */
  function FromHyprConf(conf: HyprConf): (c: SnowConfig)
    ensures InLoadRanges(c)
    ensures conf.GetInt(IntensityKey).None? ==> c.intensity == Default().intensity
    ensures conf.GetFloat(SizeMinKey).None? ==> c.sizeMin == Default().sizeMin
    ensures conf.GetFloat(SizeMaxKey).None? ==> c.sizeMax == Default().sizeMax
    ensures conf.GetFloat(SpeedMinKey).None? ==> c.speedMin == Default().speedMin
    ensures conf.GetFloat(SpeedMaxKey).None? ==> c.speedMax == Default().speedMax
    ensures conf.GetFloat(DriftKey).None? ==> c.drift == Default().drift
    ensures conf.GetFloat(MaxOpacityKey).None? ==> c.maxOpacity == Default().maxOpacity
    ensures conf.GetInt(IntensityKey).Some? ==>
      c.intensity == ClampInt(conf.GetInt(IntensityKey).value, 1, 10)
    ensures conf.GetFloat(SizeMinKey).Some? ==> c.sizeMin == conf.GetFloat(SizeMinKey).value
    ensures conf.GetFloat(SizeMaxKey).Some? ==> c.sizeMax == conf.GetFloat(SizeMaxKey).value
    ensures conf.GetFloat(SpeedMinKey).Some? ==> c.speedMin == conf.GetFloat(SpeedMinKey).value
    ensures conf.GetFloat(SpeedMaxKey).Some? ==> c.speedMax == conf.GetFloat(SpeedMaxKey).value
    ensures conf.GetFloat(DriftKey).Some? ==> c.drift == conf.GetFloat(DriftKey).value
    ensures conf.GetFloat(MaxOpacityKey).Some? ==>
      c.maxOpacity == ClampReal(conf.GetFloat(MaxOpacityKey).value, 0.0, 1.0)
  {
    SnowConfig(
      intensity :=
        match conf.GetInt(IntensityKey)
        case Some(v) => ClampInt(v, 1, 10)
        case None => 3,
      sizeMin := conf.GetFloat(SizeMinKey).GetOr(2.0),
      sizeMax := conf.GetFloat(SizeMaxKey).GetOr(5.0),
      speedMin := conf.GetFloat(SpeedMinKey).GetOr(30.0),
      speedMax := conf.GetFloat(SpeedMaxKey).GetOr(80.0),
      drift := conf.GetFloat(DriftKey).GetOr(20.0),
      maxOpacity :=
        match conf.GetFloat(MaxOpacityKey)
        case Some(v) => ClampReal(v, 0.0, 1.0)
        case None => 1.0)
  }

  /** load_config: the defaults unless a file was found and parsed. */
  function LoadConfig(src: ConfigSource): (c: SnowConfig)
    ensures !src.Parsed? ==> c == Default()
    ensures src.Parsed? ==> c == FromHyprConf(src.conf)
    ensures InLoadRanges(c)
  {
    match src
    case NoConfigFile => Default()
    case ParseFailed => Default()
    case Parsed(conf) => FromHyprConf(conf)
  }

  /** A file that sets none of the keys loads as the defaults. */
  lemma EmptyFileLoadsDefault()
    ensures LoadConfig(Parsed(HyprConf(map[], map[]))) == Default()
  {
  }

  // ---------------------------------------------------------------------
  // Command-line overrides
  // ---------------------------------------------------------------------

  /** The command-line arguments; `imagePaths` is parsed but not used by the overrides. */
  datatype Args = Args(
    intensity: Option<U8>,
    sizeMin: Option<real>,
    sizeMax: Option<real>,
    speedMin: Option<real>,
    speedMax: Option<real>,
    drift: Option<real>,
    maxOpacity: Option<real>,
    imagePaths: Option<seq<string>>)

  /** The argument parser only accepts an intensity in 1..=10. */
  predicate ArgsParsed(a: Args) {
    a.intensity.Some? ==> 1 <= a.intensity.value <= 10
  }

  /**
   * The configuration after the overrides, as one value: a configuration in
   * the load ranges stays in them under arguments the parser accepts.
   */
  function Overridden(c: SnowConfig, a: Args): (r: SnowConfig)
    ensures InLoadRanges(c) && ArgsParsed(a) ==> InLoadRanges(r)
  {
    SnowConfig(
      a.intensity.GetOr(c.intensity),
      a.sizeMin.GetOr(c.sizeMin),
      a.sizeMax.GetOr(c.sizeMax),
      a.speedMin.GetOr(c.speedMin),
      a.speedMax.GetOr(c.speedMax),
      a.drift.GetOr(c.drift),
      match a.maxOpacity
      case Some(v) => ClampReal(v, 0.0, 1.0)
      case None => c.maxOpacity)
  }

  /** apply_cli_overrides: each field given on the command line replaces the configured one. */
  method ApplyCliOverrides(config: SnowConfig, args: Args) returns (c: SnowConfig)
    ensures c == Overridden(config, args)
  {
    c := config;
    if args.intensity.Some? {
      c := c.(intensity := args.intensity.value);
    }
    if args.sizeMin.Some? {
      c := c.(sizeMin := args.sizeMin.value);
    }
    if args.sizeMax.Some? {
      c := c.(sizeMax := args.sizeMax.value);
    }
    if args.speedMin.Some? {
      c := c.(speedMin := args.speedMin.value);
    }
    if args.speedMax.Some? {
      c := c.(speedMax := args.speedMax.value);
    }
    if args.drift.Some? {
      c := c.(drift := args.drift.value);
    }
    if args.maxOpacity.Some? {
      c := c.(maxOpacity := ClampReal(args.maxOpacity.value, 0.0, 1.0));
    }
  }

  /**
   * A field changes only if its flag is given; a given flag's value is taken
   * as it is, except max opacity, which is clamped into [0, 1] (so it lands
   * on the nearer bound when it is outside).
   */
  lemma OverrideFieldwise(c: SnowConfig, a: Args)
    ensures var r := Overridden(c, a);
      && (r.intensity != c.intensity ==> a.intensity.Some?)
      && (r.sizeMin != c.sizeMin ==> a.sizeMin.Some?)
      && (r.sizeMax != c.sizeMax ==> a.sizeMax.Some?)
      && (r.speedMin != c.speedMin ==> a.speedMin.Some?)
      && (r.speedMax != c.speedMax ==> a.speedMax.Some?)
      && (r.drift != c.drift ==> a.drift.Some?)
      && (r.maxOpacity != c.maxOpacity ==> a.maxOpacity.Some?)
      && (a.intensity.Some? ==> r.intensity == a.intensity.value)
      && (a.sizeMin.Some? ==> r.sizeMin == a.sizeMin.value)
      && (a.sizeMax.Some? ==> r.sizeMax == a.sizeMax.value)
      && (a.speedMin.Some? ==> r.speedMin == a.speedMin.value)
      && (a.speedMax.Some? ==> r.speedMax == a.speedMax.value)
      && (a.drift.Some? ==> r.drift == a.drift.value)
      && (a.maxOpacity.Some? ==> r.maxOpacity == ClampReal(a.maxOpacity.value, 0.0, 1.0))
  {
  }

  /** Applying the same arguments a second time changes nothing. */
  lemma OverrideIdempotent(c: SnowConfig, a: Args)
    ensures Overridden(Overridden(c, a), a) == Overridden(c, a)
  {
  }

  /**
   * The start-up configuration (load, then override) keeps intensity in 1..10
   * and max opacity in [0, 1], whatever the file and the flags say.
   */
  lemma StartupConfigInRanges(src: ConfigSource, a: Args)
    requires ArgsParsed(a)
    ensures InLoadRanges(Overridden(LoadConfig(src), a))
  {
  }
}
