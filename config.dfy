// The font configuration of src/nanoemoji/config.py: FontConfig and its
// derived properties, `validate`, the flag-over-file-over-default rule
// of `_pop_flag`, and what `load` accepts and rejects.
module Config {
  import opened Wrappers
  import opened Seqs
  import opened Text
  import opened Sorting
  import opened Orders
  import opened Geometry

  /** A value read from the TOML configuration, or given as a flag. Tables
      keep their entries in file order. */
  datatype Value =
    | Str(s: string)
    | Int(i: int)
    | Real(r: real)
    | Bool(b: bool)
    | Table(entries: seq<(string, Value)>)
    | List(items: seq<Value>)
    | Transform(t: Affine)

  datatype Axis = Axis(axisTag: string, name: Value, default: Value)

  datatype AxisPosition = AxisPosition(axisTag: string, position: Value)

  datatype MasterConfig = MasterConfig(name: string, styleName: Value, outputUfo: string,
                                       position: seq<AxisPosition>, sources: seq<string>)

  /** The font configuration. The family, the switches and the output kind
      are kept as the configuration gave them: `load` does not check them. */
  datatype FontConfig = FontConfig(
    family: Value,
    outputFile: string,
    colorFormat: string,
    upem: int,
    width: int,
    ascender: int,
    descender: int,
    linegap: int,
    transform: Affine,
    versionMajor: int,
    versionMinor: int,
    reuseTolerance: real,
    ignoreReuseError: Value,
    keepGlyphNames: Value,
    clipToViewbox: Value,
    output: Value,
    feaFile: string,
    codepointmapFile: string,
    axes: seq<Axis>,
    masters: seq<MasterConfig>,
    sourceNames: seq<string>)

  /** _COLOR_FORMATS: the colour formats a font can be built in. */
  const ColorFormats: seq<string> := [
    "glyf", "glyf_colr_0", "glyf_colr_1", "cff_colr_0", "cff_colr_1", "cff2_colr_0", "cff2_colr_1",
    "picosvg", "picosvgz", "untouchedsvg", "untouchedsvgz", "cbdt", "sbix"]

  /** FontConfig() with every default; the metrics are Noto Emoji's. */
  const Default: FontConfig := FontConfig(
    Str("An Emoji Family"), "AnEmojiFamily.ttf", "glyf_colr_1",
    1024, 1275, 950, -250, 0, Identity, 1, 0, 0.1,
    Bool(true), Bool(false), Bool(true), Str("font"), "features.fea", "codepointmap.csv", [], [], [])

  /** validate(): the metrics and version numbers must not be negative and
      the descender must not be positive. */
  function Validate(c: FontConfig): (r: Result<FontConfig>)
    ensures r.Ok? <==> 0 <= c.upem && 0 <= c.width && 0 <= c.ascender && 0 <= c.linegap &&
                       0 <= c.versionMajor && 0 <= c.versionMinor && c.descender <= 0
    ensures r.Ok? ==> r.value == c
    ensures r.Err? ==> r.error == ValueError
  {
    if c.upem < 0 || c.width < 0 || c.ascender < 0 || c.linegap < 0 then Err(ValueError)
    else if c.versionMajor < 0 || c.versionMinor < 0 then Err(ValueError)
    else if c.descender > 0 then Err(ValueError)
    else Ok(c)
  }

  /** The defaults are a valid configuration. */
  lemma DefaultIsValid()
    ensures Validate(Default) == Ok(Default)
  {
  }

  /** has_picosvgs: every colour format except the untouched-SVG ones works
      on picosvg output. */
  function HasPicosvgs(c: FontConfig): (r: bool)
    ensures r <==> !(|c.colorFormat| >= 12 && c.colorFormat[..12] == "untouchedsvg")
  {
    !StartsWith(c.colorFormat, "untouchedsvg")
  }

  // ---------------------------------------------------------------------
  // Path names

  /** Path(p).name: the last component, ignoring trailing slashes. */
  function PathName(path: string): (r: string)
    ensures '/' !in r
    decreases |path|
  {
    if |path| > 0 && path[|path| - 1] == '/' then PathName(path[..|path| - 1]) else Basename(path)
  }

  /** str.rfind('.'), or -1. */
  function LastDot(name: string): (i: int)
    ensures -1 <= i < |name|
    ensures i >= 0 ==> name[i] == '.'
    ensures forall k :: i < k < |name| ==> name[k] != '.'
    decreases |name|
  {
    if |name| == 0 then -1
    else if name[|name| - 1] == '.' then |name| - 1
    else LastDot(name[..|name| - 1])
  }

  /** Path(p).suffix: from the last dot of the name, when that dot is
      neither its first nor its last character; otherwise empty. */
  function Suffix(path: string): string
  {
    var name := PathName(path);
    var i := LastDot(name);
    if 0 < i < |name| - 1 then name[i..] else ""
  }

  /** Path(p).stem: the name without its suffix. */
  function Stem(path: string): string
  {
    var name := PathName(path);
    var i := LastDot(name);
    if 0 < i < |name| - 1 then name[..i] else name
  }

  /** A suffix is empty or a dot followed by at least one character and no
      further dot, and the stem and the suffix make up the name. */
  lemma StemAndSuffix(path: string)
    ensures var x := Suffix(path);
            x == "" || (|x| >= 2 && x[0] == '.' && forall k :: 1 <= k < |x| ==> x[k] != '.')
    ensures Stem(path) + Suffix(path) == PathName(path)
    ensures Suffix(path) != "" ==> |Stem(path)| > 0
  {
    var name := PathName(path);
    var i := LastDot(name);
    if 0 < i < |name| - 1 {
      assert Suffix(path) == name[i..] && Stem(path) == name[..i];
      DotSuffix(name, i);
    }
  }

  /** Cutting a name at its last dot, when that dot is inside it. */
  lemma DotSuffix(name: string, i: int)
    requires 0 < i < |name| - 1 && name[i] == '.'
    requires forall k :: i < k < |name| ==> name[k] != '.'
    ensures var x := name[i..]; |x| >= 2 && x[0] == '.' && forall k :: 1 <= k < |x| ==> x[k] != '.'
    ensures name[..i] + name[i..] == name
  {
    var x := name[i..];
    forall k | 1 <= k < |x| ensures x[k] != '.' {
      assert x[k] == name[i + k];
    }
  }

  /** output_format: the suffix of the output file. */
  function OutputFormat(c: FontConfig): string
  {
    Suffix(c.outputFile)
  }

  // ---------------------------------------------------------------------
  // _pop_flag

  /** The FontConfig fields that a command-line flag can set. */
  datatype Flag =
    | Family | OutputFile | ColorFormat | Upem | Width | Ascender | Descender | Linegap
    | TransformFlag | VersionMajor | VersionMinor | ReuseTolerance
    | IgnoreReuseError | KeepGlyphNames | ClipToViewbox | Output

  /** The position of each flag in the order `load` pops them. */
  function Order(f: Flag): (i: nat)
    ensures i < FlagCount
  {
    match f
    case Family => 0
    case OutputFile => 1
    case ColorFormat => 2
    case Upem => 3
    case Width => 4
    case Ascender => 5
    case Descender => 6
    case Linegap => 7
    case TransformFlag => 8
    case VersionMajor => 9
    case VersionMinor => 10
    case ReuseTolerance => 11
    case IgnoreReuseError => 12
    case KeepGlyphNames => 13
    case ClipToViewbox => 14
    case Output => 15
  }

  const FlagCount: nat := 16

  /** The flag `load` pops i-th. */
  function FlagAt(i: nat): (f: Flag)
    requires i < FlagCount
    ensures Order(f) == i
  {
    if i == 0 then Family
    else if i == 1 then OutputFile
    else if i == 2 then ColorFormat
    else if i == 3 then Upem
    else if i == 4 then Width
    else if i == 5 then Ascender
    else if i == 6 then Descender
    else if i == 7 then Linegap
    else if i == 8 then TransformFlag
    else if i == 9 then VersionMajor
    else if i == 10 then VersionMinor
    else if i == 11 then ReuseTolerance
    else if i == 12 then IgnoreReuseError
    else if i == 13 then KeepGlyphNames
    else if i == 14 then ClipToViewbox
    else Output
  }

  /** The flag's name, which is also its configuration-file key. */
  function Key(f: Flag): string
  {
    match f
    case Family => "family"
    case OutputFile => "output_file"
    case ColorFormat => "color_format"
    case Upem => "upem"
    case Width => "width"
    case Ascender => "ascender"
    case Descender => "descender"
    case Linegap => "linegap"
    case TransformFlag => "transform"
    case VersionMajor => "version_major"
    case VersionMinor => "version_minor"
    case ReuseTolerance => "reuse_tolerance"
    case IgnoreReuseError => "ignore_reuse_error"
    case KeepGlyphNames => "keep_glyph_names"
    case ClipToViewbox => "clip_to_viewbox"
    case Output => "output"
  }

  /** getattr(_DEFAULT_CONFIG, name) */
  function DefaultValue(f: Flag): Value
  {
    match f
    case Family => Default.family
    case OutputFile => Str(Default.outputFile)
    case ColorFormat => Str(Default.colorFormat)
    case Upem => Int(Default.upem)
    case Width => Int(Default.width)
    case Ascender => Int(Default.ascender)
    case Descender => Int(Default.descender)
    case Linegap => Int(Default.linegap)
    case TransformFlag => Transform(Default.transform)
    case VersionMajor => Int(Default.versionMajor)
    case VersionMinor => Int(Default.versionMinor)
    case ReuseTolerance => Real(Default.reuseTolerance)
    case IgnoreReuseError => Default.ignoreReuseError
    case KeepGlyphNames => Default.keepGlyphNames
    case ClipToViewbox => Default.clipToViewbox
    case Output => Default.output
  }

  /** The value `_pop_flag` settles on: the flag if one was given, else the
      configuration file's entry, else the default. */
  function Chosen(config: map<string, Value>, flags: map<Flag, Value>, f: Flag): Value
  {
    if f in flags then flags[f] else if Key(f) in config then config[Key(f)] else DefaultValue(f)
  }

  /** _pop_flag(config, name); `flags` holds the flags that were set. */
  method PopFlag(config: map<string, Value>, flags: map<Flag, Value>, f: Flag)
    returns (value: Value, rest: map<string, Value>)
    ensures Key(f) !in rest && rest == config - {Key(f)}
    ensures f in flags ==> value == flags[f]
    ensures f !in flags && Key(f) in config ==> value == config[Key(f)]
    ensures f !in flags && Key(f) !in config ==> value == DefaultValue(f)
  {
    var name := Key(f);
    var configValue: Option<Value> := None;
    if name in config {
      configValue := Some(config[name]);
    }
    rest := config - {name};
    var flagValue: Option<Value> := if f in flags then Some(flags[f]) else None;
    if configValue.None? && flagValue.None? {
      return DefaultValue(f), rest;
    }
    value := if flagValue.Some? then flagValue.value else configValue.value;
  }

  // ---------------------------------------------------------------------
  // Conversions

  /** Parsers for the strings that int(), float() and Affine2D.fromstring
      accept. */
  datatype Parsers = Parsers(
    parseInt: string -> Option<int>,
    parseReal: string -> Option<real>,
    parseAffine: string -> Option<Affine>)

  /** int(x) truncates a float toward zero. */
  function Truncate(r: real): (n: int)
    ensures 0.0 <= r ==> n as real <= r < n as real + 1.0
    ensures r < 0.0 ==> n as real - 1.0 < r <= n as real
  {
    if r >= 0.0 then r.Floor else -((-r).Floor)
  }

  /** int(v) */
  function AsInt(v: Value, parsers: Parsers): Result<int>
  {
    match v
    case Int(i) => Ok(i)
    case Bool(b) => Ok(if b then 1 else 0)
    case Real(r) => Ok(Truncate(r))
    case Str(s) => if parsers.parseInt(s).Some? then Ok(parsers.parseInt(s).value) else Err(ValueError)
    case _ => Err(TypeError)
  }

  /** float(v) */
  function AsReal(v: Value, parsers: Parsers): Result<real>
  {
    match v
    case Int(i) => Ok(i as real)
    case Bool(b) => Ok(if b then 1.0 else 0.0)
    case Real(r) => Ok(r)
    case Str(s) => if parsers.parseReal(s).Some? then Ok(parsers.parseReal(s).value) else Err(ValueError)
    case _ => Err(TypeError)
  }

  /** The transform: an Affine2D is taken as it is, a string is parsed,
      anything else fails the assertion. */
  function AsTransform(v: Value, parsers: Parsers): Result<Affine>
  {
    match v
    case Transform(t) => Ok(t)
    case Str(s) => if parsers.parseAffine(s).Some? then Ok(parsers.parseAffine(s).value) else Err(ValueError)
    case _ => Err(AssertionError)
  }

  function AsStr(v: Value): Result<string>
  {
    if v.Str? then Ok(v.s) else Err(TypeError)
  }

  /** Python's truth value of a setting: false, zero, the empty string and
      the empty table or list are false; an Affine2D is a six-element tuple
      and so true. */
  function Truthy(v: Value): (r: bool)
    ensures v.Bool? ==> r == v.b
    ensures v.Str? ==> (r <==> v.s != "")
    ensures v.Transform? ==> r
  {
    match v
    case Str(s) => s != ""
    case Int(i) => i != 0
    case Real(x) => x != 0.0
    case Bool(b) => b
    case Table(entries) => |entries| > 0
    case List(items) => |items| > 0
    case Transform(_) => true
  }

  // ---------------------------------------------------------------------
  // The flags

  /** The sixteen settings `load` takes through `_pop_flag`, converted. */
  datatype Settings = Settings(
    family: Value, outputFile: Value, colorFormat: string,
    upem: int, width: int, ascender: int, descender: int, linegap: int,
    transform: Affine, versionMajor: int, versionMinor: int, reuseTolerance: real,
    ignoreReuseError: Value, keepGlyphNames: Value, clipToViewbox: Value, output: Value)

  function SettingsOf(c: FontConfig): Settings
  {
    Settings(c.family, Str(c.outputFile), c.colorFormat, c.upem, c.width, c.ascender, c.descender,
             c.linegap, c.transform, c.versionMajor, c.versionMinor, c.reuseTolerance,
             c.ignoreReuseError, c.keepGlyphNames, c.clipToViewbox, c.output)
  }

  /** A setting as a value. */
  function Field(s: Settings, f: Flag): Value
  {
    match f
    case Family => s.family
    case OutputFile => s.outputFile
    case ColorFormat => Str(s.colorFormat)
    case Upem => Int(s.upem)
    case Width => Int(s.width)
    case Ascender => Int(s.ascender)
    case Descender => Int(s.descender)
    case Linegap => Int(s.linegap)
    case TransformFlag => Transform(s.transform)
    case VersionMajor => Int(s.versionMajor)
    case VersionMinor => Int(s.versionMinor)
    case ReuseTolerance => Real(s.reuseTolerance)
    case IgnoreReuseError => s.ignoreReuseError
    case KeepGlyphNames => s.keepGlyphNames
    case ClipToViewbox => s.clipToViewbox
    case Output => s.output
  }

  /** The flags whose popped value `load` stores as it is. */
  predicate Unchecked(f: Flag)
  {
    f in {Family, OutputFile, IgnoreReuseError, KeepGlyphNames, ClipToViewbox, Output}
  }

  predicate IntFlag(f: Flag)
  {
    f in {Upem, Width, Ascender, Descender, Linegap, VersionMajor, VersionMinor}
  }

  /** The conversion `load` applies to a popped value: int() for the
      metrics and version numbers, float() for the tolerance, the Affine2D
      check for the transform, and nothing for the names, the switches and
      the output kind. The colour format must be a string. A value that
      already has the field's type passes unchanged. */
  function Convert(f: Flag, v: Value, parsers: Parsers): (r: Result<Value>)
    ensures Unchecked(f) ==> r == Ok(v)
    ensures f == ColorFormat ==> (r.Ok? <==> v.Str?) && (r.Ok? ==> r == Ok(v))
    ensures f == TransformFlag ==> (r.Ok? ==> r.value.Transform?) && (v.Transform? ==> r == Ok(v))
    ensures f == ReuseTolerance ==> (r.Ok? ==> r.value.Real?) && (v.Real? ==> r == Ok(v))
    ensures IntFlag(f) ==> (r.Ok? ==> r.value.Int?) && (v.Int? ==> r == Ok(v))
  {
    match f
    case Family | OutputFile | IgnoreReuseError | KeepGlyphNames | ClipToViewbox | Output => Ok(v)
    case ColorFormat =>
      var s :- AsStr(v);
      Ok(Str(s))
    case TransformFlag =>
      var t :- AsTransform(v, parsers);
      Ok(Transform(t))
    case ReuseTolerance =>
      var x :- AsReal(v, parsers);
      Ok(Real(x))
    case Upem | Width | Ascender | Descender | Linegap | VersionMajor | VersionMinor =>
      var i :- AsInt(v, parsers);
      Ok(Int(i))
  }

  /** Every setting's chosen value converts. */
  ghost predicate Converts(config: map<string, Value>, flags: map<Flag, Value>, parsers: Parsers)
  {
    forall f: Flag :: Convert(f, Chosen(config, flags, f), parsers).Ok?
  }

  /** `s` holds every setting's chosen value, converted. */
  ghost predicate SettlesTo(config: map<string, Value>, flags: map<Flag, Value>, parsers: Parsers, s: Settings)
  {
    forall f: Flag :: Convert(f, Chosen(config, flags, f), parsers) == Ok(Field(s, f))
  }

  /** With no configuration entries and no flags, `load` settles on the
      defaults. */
  lemma SettleDefaults(parsers: Parsers)
    ensures Converts(map[], map[], parsers)
    ensures SettlesTo(map[], map[], parsers, SettingsOf(Default))
  {
    forall f: Flag ensures Convert(f, Chosen(map[], map[], f), parsers) == Ok(Field(SettingsOf(Default), f)) {
      match f
      case Family =>
      case OutputFile =>
      case ColorFormat =>
      case Upem =>
      case Width =>
      case Ascender =>
      case Descender =>
      case Linegap =>
      case TransformFlag =>
      case VersionMajor =>
      case VersionMinor =>
      case ReuseTolerance =>
      case IgnoreReuseError =>
      case KeepGlyphNames =>
      case ClipToViewbox =>
      case Output =>
    }
  }

  /** Once every flag is given, the configuration file's entries do not
      matter. */
  lemma FlagsWin(c1: map<string, Value>, c2: map<string, Value>, flags: map<Flag, Value>, parsers: Parsers, s: Settings)
    requires forall f: Flag :: f in flags
    ensures Converts(c1, flags, parsers) <==> Converts(c2, flags, parsers)
    ensures SettlesTo(c1, flags, parsers, s) <==> SettlesTo(c2, flags, parsers, s)
  {
    assert forall f: Flag :: Chosen(c1, flags, f) == Chosen(c2, flags, f);
  }

  /** The configuration keys of the first k flags `load` pops. */
  function KeysUpTo(k: nat): set<string>
    requires k <= FlagCount
  {
    set i | 0 <= i < k :: Key(FlagAt(i))
  }

  const FlagKeys: set<string> := KeysUpTo(FlagCount)

  /** `config` is what is left of `original` after the first k pops. */
  ghost predicate PoppedUpTo(config: map<string, Value>, original: map<string, Value>, k: nat)
    requires k <= FlagCount
  {
    config == original - KeysUpTo(k)
  }

  lemma KeysDistinct(f: Flag, g: Flag)
    requires f != g
    ensures Key(f) != Key(g)
  {
  }

  lemma FlagOrders()
    ensures Order(Family) == 0
    ensures Order(OutputFile) == 1
    ensures Order(ColorFormat) == 2
    ensures Order(Upem) == 3
    ensures Order(Width) == 4
    ensures Order(Ascender) == 5
    ensures Order(Descender) == 6
    ensures Order(Linegap) == 7
    ensures Order(TransformFlag) == 8
    ensures Order(VersionMajor) == 9
    ensures Order(VersionMinor) == 10
    ensures Order(ReuseTolerance) == 11
    ensures Order(IgnoreReuseError) == 12
    ensures Order(KeepGlyphNames) == 13
    ensures Order(ClipToViewbox) == 14
    ensures Order(Output) == 15
  {
  }

  lemma FlagAtOrder(f: Flag)
    ensures FlagAt(Order(f)) == f
  {
  }

  /** `int(_pop_flag(config, name))` and its like, for the k-th flag: a pop
      from what the earlier pops left, then the conversion. */
  method PopConverted(config: map<string, Value>, flags: map<Flag, Value>, parsers: Parsers, f: Flag,
                      ghost original: map<string, Value>, ghost k: nat)
    returns (r: Result<Value>, rest: map<string, Value>)
    requires k == Order(f) && PoppedUpTo(config, original, k)
    ensures r == Convert(f, Chosen(original, flags, f), parsers)
    ensures PoppedUpTo(rest, original, k + 1)
  {
    var v;
    v, rest := PopFlag(config, flags, f);
    assert Key(f) !in KeysUpTo(k) by {
      forall i | 0 <= i < k ensures Key(FlagAt(i)) != Key(f) {
        KeysDistinct(FlagAt(i), f);
      }
    }
    assert v == Chosen(original, flags, f);
    FlagAtOrder(f);
    assert KeysUpTo(k + 1) == KeysUpTo(k) + {Key(f)};
    r := Convert(f, v, parsers);
  }

  /** The family, output file and colour format: the first two as they
      are, the colour format only if it is a string. */
  method PopNames(config: map<string, Value>, flags: map<Flag, Value>, parsers: Parsers,
              ghost original: map<string, Value>)
    returns (r: Result<(Value, Value, string)>, rest: map<string, Value>)
    requires PoppedUpTo(config, original, 0)
    ensures r.Ok? <==> Chosen(original, flags, ColorFormat).Str?
    ensures r.Ok? ==> && r.value.0 == Chosen(original, flags, Family)
                      && r.value.1 == Chosen(original, flags, OutputFile)
                      && Str(r.value.2) == Chosen(original, flags, ColorFormat)
    ensures r.Ok? ==> PoppedUpTo(rest, original, 3)
  {
    FlagOrders();
    rest := config;
    var family, outputFile, x: Result<Value>;
    family, rest := PopConverted(rest, flags, parsers, Family, original, 0);
    outputFile, rest := PopConverted(rest, flags, parsers, OutputFile, original, 1);
    x, rest := PopConverted(rest, flags, parsers, ColorFormat, original, 2);
    if x.Err? {
      return Err(x.error), rest;
    }
    r := Ok((family.value, outputFile.value, x.value.s));
  }

  /** The units per em and the advance width. */
  method PopSize(config: map<string, Value>, flags: map<Flag, Value>, parsers: Parsers,
              ghost original: map<string, Value>)
    returns (r: Result<(int, int)>, rest: map<string, Value>)
    requires PoppedUpTo(config, original, 3)
    ensures r.Ok? <==> Convert(Upem, Chosen(original, flags, Upem), parsers).Ok? &&
                        Convert(Width, Chosen(original, flags, Width), parsers).Ok?
    ensures r.Ok? ==> Convert(Upem, Chosen(original, flags, Upem), parsers) == Ok(Int(r.value.0)) &&
                      Convert(Width, Chosen(original, flags, Width), parsers) == Ok(Int(r.value.1))
    ensures r.Ok? ==> PoppedUpTo(rest, original, 5)
  {
    FlagOrders();
    rest := config;
    var x: Result<Value>;
    x, rest := PopConverted(rest, flags, parsers, Upem, original, 3);
    if x.Err? {
      return Err(x.error), rest;
    }
    var upem := x.value.i;
    x, rest := PopConverted(rest, flags, parsers, Width, original, 4);
    if x.Err? {
      return Err(x.error), rest;
    }
    var width := x.value.i;
    r := Ok((upem, width));
  }

  /** The ascender, descender and line gap. */
  method PopVerticalMetrics(config: map<string, Value>, flags: map<Flag, Value>, parsers: Parsers,
              ghost original: map<string, Value>)
    returns (r: Result<(int, int, int)>, rest: map<string, Value>)
    requires PoppedUpTo(config, original, 5)
    ensures r.Ok? <==> Convert(Ascender, Chosen(original, flags, Ascender), parsers).Ok? &&
                        Convert(Descender, Chosen(original, flags, Descender), parsers).Ok? &&
                        Convert(Linegap, Chosen(original, flags, Linegap), parsers).Ok?
    ensures r.Ok? ==> Convert(Ascender, Chosen(original, flags, Ascender), parsers) == Ok(Int(r.value.0)) &&
                      Convert(Descender, Chosen(original, flags, Descender), parsers) == Ok(Int(r.value.1)) &&
                      Convert(Linegap, Chosen(original, flags, Linegap), parsers) == Ok(Int(r.value.2))
    ensures r.Ok? ==> PoppedUpTo(rest, original, 8)
  {
    FlagOrders();
    rest := config;
    var x: Result<Value>;
    x, rest := PopConverted(rest, flags, parsers, Ascender, original, 5);
    if x.Err? {
      return Err(x.error), rest;
    }
    var ascender := x.value.i;
    x, rest := PopConverted(rest, flags, parsers, Descender, original, 6);
    if x.Err? {
      return Err(x.error), rest;
    }
    var descender := x.value.i;
    x, rest := PopConverted(rest, flags, parsers, Linegap, original, 7);
    if x.Err? {
      return Err(x.error), rest;
    }
    var linegap := x.value.i;
    r := Ok((ascender, descender, linegap));
  }

  /** The transform and the font version. */
  method PopTransform(config: map<string, Value>, flags: map<Flag, Value>, parsers: Parsers,
              ghost original: map<string, Value>)
    returns (r: Result<(Affine, int, int)>, rest: map<string, Value>)
    requires PoppedUpTo(config, original, 8)
    ensures r.Ok? <==> Convert(TransformFlag, Chosen(original, flags, TransformFlag), parsers).Ok? &&
                        Convert(VersionMajor, Chosen(original, flags, VersionMajor), parsers).Ok? &&
                        Convert(VersionMinor, Chosen(original, flags, VersionMinor), parsers).Ok?
    ensures r.Ok? ==> Convert(TransformFlag, Chosen(original, flags, TransformFlag), parsers) == Ok(Transform(r.value.0)) &&
                      Convert(VersionMajor, Chosen(original, flags, VersionMajor), parsers) == Ok(Int(r.value.1)) &&
                      Convert(VersionMinor, Chosen(original, flags, VersionMinor), parsers) == Ok(Int(r.value.2))
    ensures r.Ok? ==> PoppedUpTo(rest, original, 11)
  {
    FlagOrders();
    rest := config;
    var x: Result<Value>;
    x, rest := PopConverted(rest, flags, parsers, TransformFlag, original, 8);
    if x.Err? {
      return Err(x.error), rest;
    }
    var affine := x.value.t;
    x, rest := PopConverted(rest, flags, parsers, VersionMajor, original, 9);
    if x.Err? {
      return Err(x.error), rest;
    }
    var versionMajor := x.value.i;
    x, rest := PopConverted(rest, flags, parsers, VersionMinor, original, 10);
    if x.Err? {
      return Err(x.error), rest;
    }
    var versionMinor := x.value.i;
    r := Ok((affine, versionMajor, versionMinor));
  }

  /** The reuse tolerance, through float(), and the switch for reuse
      errors as it is. */
  method PopReuse(config: map<string, Value>, flags: map<Flag, Value>, parsers: Parsers,
              ghost original: map<string, Value>)
    returns (r: Result<(real, Value)>, rest: map<string, Value>)
    requires PoppedUpTo(config, original, 11)
    ensures r.Ok? <==> AsReal(Chosen(original, flags, ReuseTolerance), parsers).Ok?
    ensures r.Ok? ==> && AsReal(Chosen(original, flags, ReuseTolerance), parsers) == Ok(r.value.0)
                      && r.value.1 == Chosen(original, flags, IgnoreReuseError)
    ensures r.Ok? ==> PoppedUpTo(rest, original, 13)
  {
    FlagOrders();
    rest := config;
    var x, ignoreReuseError: Result<Value>;
    x, rest := PopConverted(rest, flags, parsers, ReuseTolerance, original, 11);
    if x.Err? {
      return Err(x.error), rest;
    }
    ignoreReuseError, rest := PopConverted(rest, flags, parsers, IgnoreReuseError, original, 12);
    r := Ok((x.value.r, ignoreReuseError.value));
  }

  /** The remaining two switches and the output kind, all as they are. */
  method PopSwitches(config: map<string, Value>, flags: map<Flag, Value>, parsers: Parsers,
              ghost original: map<string, Value>)
    returns (switches: (Value, Value, Value), rest: map<string, Value>)
    requires PoppedUpTo(config, original, 13)
    ensures && switches.0 == Chosen(original, flags, KeepGlyphNames)
            && switches.1 == Chosen(original, flags, ClipToViewbox)
            && switches.2 == Chosen(original, flags, Output)
    ensures PoppedUpTo(rest, original, 16)
  {
    FlagOrders();
    rest := config;
    var keepGlyphNames, clipToViewbox, output: Result<Value>;
    keepGlyphNames, rest := PopConverted(rest, flags, parsers, KeepGlyphNames, original, 13);
    clipToViewbox, rest := PopConverted(rest, flags, parsers, ClipToViewbox, original, 14);
    output, rest := PopConverted(rest, flags, parsers, Output, original, 15);
    switches := (keepGlyphNames.value, clipToViewbox.value, output.value);
  }

  /** The sixteen `_pop_flag` calls of `load`, in order. */
  method PopFlags(config: map<string, Value>, flags: map<Flag, Value>, parsers: Parsers)
    returns (r: Result<Settings>, rest: map<string, Value>)
    ensures r.Ok? <==> Converts(config, flags, parsers)
    ensures r.Ok? ==> SettlesTo(config, flags, parsers, r.value)
    ensures r.Ok? ==> rest == config - FlagKeys
  {
    assert KeysUpTo(0) == {};
    FlagOrders();
    rest := config;
    assert PoppedUpTo(rest, config, 0);
    var names, size, vertical, transform, reuse, switches;
    names, rest := PopNames(rest, flags, parsers, config);
    if names.Err? {
      return Err(names.error), rest;
    }
    size, rest := PopSize(rest, flags, parsers, config);
    if size.Err? {
      return Err(size.error), rest;
    }
    vertical, rest := PopVerticalMetrics(rest, flags, parsers, config);
    if vertical.Err? {
      return Err(vertical.error), rest;
    }
    transform, rest := PopTransform(rest, flags, parsers, config);
    if transform.Err? {
      return Err(transform.error), rest;
    }
    reuse, rest := PopReuse(rest, flags, parsers, config);
    if reuse.Err? {
      return Err(reuse.error), rest;
    }
    switches, rest := PopSwitches(rest, flags, parsers, config);
    var (family, outputFile, colorFormat) := names.value;
    var (upem, width) := size.value;
    var (ascender, descender, linegap) := vertical.value;
    var (affine, versionMajor, versionMinor) := transform.value;
    var (reuseTolerance, ignoreReuseError) := reuse.value;
    var (keepGlyphNames, clipToViewbox, output) := switches;
    var s := Settings(family, outputFile, colorFormat, upem, width, ascender, descender, linegap,
                      affine, versionMajor, versionMinor, reuseTolerance,
                      ignoreReuseError, keepGlyphNames, clipToViewbox, output);
    forall f: Flag ensures Convert(f, Chosen(config, flags, f), parsers) == Ok(Field(s, f)) {
      match f
      case Family =>
      case OutputFile =>
      case ColorFormat =>
      case Upem =>
      case Width =>
      case Ascender =>
      case Descender =>
      case Linegap =>
      case TransformFlag =>
      case VersionMajor =>
      case VersionMinor =>
      case ReuseTolerance =>
      case IgnoreReuseError =>
      case KeepGlyphNames =>
      case ClipToViewbox =>
      case Output =>
    }
    r := Ok(s);
  }

  // ---------------------------------------------------------------------
  // Tables

  /** A table as a mapping; TOML keys are unique, so no entry is lost. */
  function ToMap(entries: seq<(string, Value)>): (m: map<string, Value>)
    ensures forall k :: 0 <= k < |entries| ==> entries[k].0 in m
    ensures forall key :: key in m ==> exists k :: 0 <= k < |entries| && entries[k].0 == key
    decreases |entries|
  {
    if |entries| == 0 then map[]
    else ToMap(entries[..|entries| - 1])[entries[|entries| - 1].0 := entries[|entries| - 1].1]
  }

  /** mapping.pop(key): the value and what is left, or KeyError. */
  function Pop(m: map<string, Value>, key: string): (r: Result<(Value, map<string, Value>)>)
    ensures r.Ok? <==> key in m
    ensures r.Ok? ==> r.value == (m[key], m - {key})
    ensures r.Err? ==> r.error == KeyError
  {
    if key in m then Ok((m[key], m - {key})) else Err(KeyError)
  }

  /** One [axis.<tag>] table, once it is known to be a table: its name
      and default, and nothing else. */
  function AxisFrom(tag: string, m: map<string, Value>): (r: Result<Axis>)
    ensures r.Ok? ==> r.value.axisTag == tag && m.Keys == {"name", "default"}
    ensures r.Ok? ==> r.value.name == m["name"] && r.value.default == m["default"]
    ensures "name" in m && "default" in m ==> (r.Ok? <==> m.Keys == {"name", "default"})
    ensures r.Err? ==> r.error in {KeyError, ValueError}
  {
    var p1 :- Pop(m, "name");
    var p2 :- Pop(p1.1, "default");
    assert p2.1.Keys == m.Keys - {"name", "default"};
    if p2.1.Keys != {} then Err(ValueError)
    else Ok(Axis(tag, p1.0, p2.0))
  }

  /** One [axis.<tag>] entry of the configuration. */
  function LoadAxis(tag: string, v: Value): (r: Result<Axis>)
    ensures r.Ok? ==> r.value.axisTag == tag && v.Table? && ToMap(v.entries).Keys == {"name", "default"}
    ensures r.Ok? ==> r.value.name == ToMap(v.entries)["name"] && r.value.default == ToMap(v.entries)["default"]
    ensures v.Table? && "name" in ToMap(v.entries) && "default" in ToMap(v.entries) ==>
              (r.Ok? <==> ToMap(v.entries).Keys == {"name", "default"})
    ensures r.Err? ==> r.error in {AttributeError, TypeError, KeyError, ValueError}
  {
    var m :- AsDict(v);
    AxisFrom(tag, m)
  }

  /** Axis positions in the order sorted(AxisPosition(...)) gives; the tags
      of one table are distinct, so the tag decides. */
  function PositionLe(p: AxisPosition, q: AxisPosition): bool
  {
    StrLe(p.axisTag, q.axisTag)
  }

  lemma PositionOrder()
    ensures TotalPreorder(PositionLe)
  {
    StrOrder();
  }

  function Positions(entries: seq<(string, Value)>): (r: seq<AxisPosition>)
    ensures |r| == |entries|
    ensures forall k :: 0 <= k < |entries| ==> r[k] == AxisPosition(entries[k].0, entries[k].1)
  {
    seq(|entries|, k requires 0 <= k < |entries| => AxisPosition(entries[k].0, entries[k].1))
  }

  function SortPositions(ps: seq<AxisPosition>): (r: seq<AxisPosition>)
    ensures SortedBy(r, PositionLe) && multiset(r) == multiset(ps)
  {
    PositionOrder();
    SortSorted(ps, PositionLe);
    SortPerm(ps, PositionLe);
    Sort(ps, PositionLe)
  }

  // ---------------------------------------------------------------------
  // Sources

  predicate IsAbsolute(path: string)
  {
    |path| > 0 && path[0] == '/'
  }

  /** What `load` asks of the file system: the matches of a glob pattern
      under a directory, and Path.resolve() of a path. */
  datatype FileSystem = FileSystem(
    glob: (string, string) -> seq<string>,
    resolve: string -> string)

  /** No field of s.split(c) holds c. */
  lemma {:induction false} SplitFields(s: string, c: char)
    ensures forall k :: 0 <= k < |Split(s, c)| ==> c !in Split(s, c)[k]
    decreases |s|
  {
    if |s| > 0 {
      SplitFields(s[1..], c);
      var rest := Split(s[1..], c);
      if s[0] != c {
        assert c !in [s[0]] + rest[0];
        assert forall k :: 1 <= k < |rest| ==> rest[1..][k - 1] == rest[k];
      }
    }
  }

  /** The fields that are path components: all but "" and ".". */
  function Kept(fields: seq<string>): (r: seq<string>)
    ensures forall k :: 0 <= k < |r| ==> r[k] != "" && r[k] != "." && r[k] in fields
    decreases |fields|
  {
    if |fields| == 0 then []
    else (if fields[0] == "" || fields[0] == "." then [] else [fields[0]]) + Kept(fields[1..])
  }

  lemma {:induction false} KeptAll(fields: seq<string>)
    requires forall k :: 0 <= k < |fields| ==> fields[k] != "" && fields[k] != "."
    ensures Kept(fields) == fields
    decreases |fields|
  {
    if |fields| > 0 {
      KeptAll(fields[1..]);
    }
  }

  /** The components of a path after its root: the text between slashes,
      with empty components and "." dropped. */
  function Components(path: string): (r: seq<string>)
    ensures forall k :: 0 <= k < |r| ==> r[k] != "" && r[k] != "." && '/' !in r[k]
  {
    SplitFields(path, '/');
    Kept(Split(path, '/'))
  }

  /** str(Path(p)): a leading slash is the root, repeated slashes and "."
      components go, and an empty relative path is ".". */
  function Normalize(path: string): (r: string)
    ensures IsAbsolute(r) <==> IsAbsolute(path)
    ensures r != ""
  {
    var comps := Components(path);
    if IsAbsolute(path) then "/" + Join(comps, "/")
    else if |comps| == 0 then "."
    else
      assert Join(comps, "/")[0] == comps[0][0];
      Join(comps, "/")
  }

  /** A path that is already a Path's string is its own normal form, so
      two spellings of one path make one Path. */
  lemma NormalizeIdempotent(path: string)
    ensures Components(Normalize(path)) == Components(path)
    ensures Normalize(Normalize(path)) == Normalize(path)
  {
    var comps := Components(path);
    var r := Normalize(path);
    if |comps| > 0 {
      SplitJoin(comps, '/');
      KeptAll(comps);
    }
    if IsAbsolute(path) {
      assert r[1..] == Join(comps, "/");
      assert Split(r, '/') == [""] + Split(Join(comps, "/"), '/');
      assert ([""] + Split(Join(comps, "/"), '/'))[1..] == Split(Join(comps, "/"), '/');
    } else if |comps| == 0 {
      assert r == "." && r[1..] == "";
    }
  }

  /** Path comparison: resolved Paths compare component by component. */
  function PathLe(p: string, q: string): bool
  {
    StrsLe(Split(p, '/'), Split(q, '/'))
  }

  lemma PathOrder()
    ensures TotalPreorder(PathLe)
  {
    StrsOrder();
  }

  /** "a/x" comes before "a-b" as a path, although as a string '-' sorts
      before '/'. */
  lemma PathOrderNotStringOrder()
    ensures PathLe("a/x", "a-b") && !PathLe("a-b", "a/x")
    ensures StrLe("a-b", "a/x") && !StrLe("a/x", "a-b")
  {
    assert Split("a/x", '/') == ["a", "x"] by {
      SplitAfterField("a", '/', "x");
      SplitNoSeparator("x", '/');
      assert "a/x" == "a" + "/" + "x";
    }
    assert Split("a-b", '/') == ["a-b"] by {
      SplitNoSeparator("a-b", '/');
    }
    assert StrLt("a", "a-b") && !StrLt("a-b", "a");
  }

  /** _resolve_src(relative_base, src). An absolute source is itself, or the
      matches of its pattern from the root; a relative one needs a base and
      is joined to it, or matched under it. */
  function ResolveSrc(base: Option<string>, src: string, fs: FileSystem): (r: Result<seq<string>>)
    ensures r.Err? <==> !IsAbsolute(src) && base.None?
    ensures r.Err? ==> r.error == ValueError
    ensures r.Ok? && '*' !in src ==> |r.value| == 1
    ensures IsAbsolute(src) && '*' !in src ==> r == Ok([src])
    ensures !IsAbsolute(src) && base.Some? && '*' !in src ==> r == Ok([base.value + "/" + src])
  {
    if IsAbsolute(src) then
      if '*' in src then Ok(fs.glob("/", Join(Components(src), "/"))) else Ok([src])
    else if base.None? then Err(ValueError)
    else if '*' in src then Ok(fs.glob(base.value, src))
    else Ok([base.value + "/" + src])
  }

  /** Iterating a TOML value: a list gives its items, a string its
      characters, a table its keys; anything else is not iterable. */
  function Iterate(v: Value): (r: Result<seq<Value>>)
    ensures v.List? ==> r == Ok(v.items)
    ensures r.Err? <==> !(v.List? || v.Str? || v.Table?)
  {
    match v
    case List(items) => Ok(items)
    case Str(s) => Ok(seq(|s|, k requires 0 <= k < |s| => Str([s[k]])))
    case Table(entries) => Ok(seq(|entries|, k requires 0 <= k < |entries| => Str(entries[k].0)))
    case _ => Err(TypeError)
  }

  /** Each entry once, first occurrence kept. */
  function Distinct(s: seq<string>): (r: seq<string>)
    ensures NoRepeats(r)
    ensures forall x :: x in r <==> x in s
    decreases |s|
  {
    if |s| == 0 then []
    else
      var front := Distinct(s[..|s| - 1]);
      assert forall x :: x in s <==> x in s[..|s| - 1] || x == s[|s| - 1] by {
        assert s == s[..|s| - 1] + [s[|s| - 1]];
      }
      if s[|s| - 1] in front then front else front + [s[|s| - 1]]
  }

  lemma {:induction false} CountOnce(d: seq<string>, x: string)
    requires NoRepeats(d)
    ensures multiset(d)[x] <= 1
    decreases |d|
  {
    if |d| > 0 {
      var front := d[..|d| - 1];
      assert d == front + [d[|d| - 1]];
      CountOnce(front, x);
      if d[|d| - 1] == x {
        assert x !in front;
      }
    }
  }

  /** A permutation of a sequence without repeats has none either. */
  lemma PermutationNoRepeats(r: seq<string>, d: seq<string>)
    requires multiset(r) == multiset(d) && NoRepeats(d)
    ensures NoRepeats(r)
  {
    forall i, j | 0 <= i < j < |r| ensures r[i] != r[j] {
      if r[i] == r[j] {
        var x := r[i];
        assert r == r[..i] + [x] + r[i + 1..j] + [x] + r[j + 1..];
        assert multiset(r)[x] >= 2;
        CountOnce(d, x);
      }
    }
  }

  /** tuple(sorted(set(names))) for strings. */
  function SortedNames(names: seq<string>): (r: seq<string>)
    ensures SortedBy(r, StrLe) && NoRepeats(r)
    ensures forall x :: x in r <==> x in names
  {
    var d := Distinct(names);
    StrOrder();
    SortSorted(d, StrLe);
    SortPerm(d, StrLe);
    var r := Sort(d, StrLe);
    assert forall x :: x in r <==> x in multiset(r);
    assert forall x :: x in d <==> x in multiset(d);
    PermutationNoRepeats(r, d);
    r
  }

  /** sorted(paths) for Paths: a stable sort in path order. */
  function SortedSources(paths: seq<string>): (r: seq<string>)
    ensures SortedBy(r, PathLe) && multiset(r) == multiset(paths)
  {
    PathOrder();
    SortSorted(paths, PathLe);
    SortPerm(paths, PathLe);
    Sort(paths, PathLe)
  }

  /** One "srcs" entry: Path(src) needs a string, then _resolve_src. */
  function SourceOf(item: Value, base: Option<string>, fs: FileSystem): (r: Result<seq<string>>)
    ensures !item.Str? ==> r == Err(TypeError)
    ensures item.Str? ==> r == ResolveSrc(base, item.s, fs)
  {
    var src :- AsStr(item);
    ResolveSrc(base, src, fs)
  }

  /** What goes into a master's set `srcs`: every "srcs" entry resolved in
      turn, the first failure stopping the loop, then the additional
      sources. */
  function Requested(items: seq<Value>, base: Option<string>, fs: FileSystem,
                     additional: Option<seq<string>>): (r: Result<seq<string>>)
    ensures r.Ok? <==> forall k :: 0 <= k < |items| ==> SourceOf(items[k], base, fs).Ok?
  {
    var rs := seq(|items|, k requires 0 <= k < |items| => SourceOf(items[k], base, fs));
    assert forall k :: 0 <= k < |items| ==> rs[k] == SourceOf(items[k], base, fs);
    CollectOk(rs);
    var resolved :- Collect(rs);
    Ok(Flatten(resolved) + (if additional.Some? then additional.value else []))
  }

  /** The set holds the paths of every entry and the additional sources,
      and nothing else. */
  lemma RequestedMembers(items: seq<Value>, base: Option<string>, fs: FileSystem,
                         additional: Option<seq<string>>)
    requires Requested(items, base, fs, additional).Ok?
    ensures var r := Requested(items, base, fs, additional).value;
            && (forall k :: 0 <= k < |items| ==> forall x :: x in SourceOf(items[k], base, fs).value ==> x in r)
            && (additional.Some? ==> forall x :: x in additional.value ==> x in r)
            && (forall x :: x in r ==>
                  (additional.Some? && x in additional.value) ||
                  exists k :: 0 <= k < |items| && x in SourceOf(items[k], base, fs).value)
  {
    var rs := seq(|items|, k requires 0 <= k < |items| => SourceOf(items[k], base, fs));
    assert forall k :: 0 <= k < |items| ==> rs[k] == SourceOf(items[k], base, fs);
    CollectOk(rs);
    FlattenMembers(Collect(rs).value);
  }

  function Normals(paths: seq<string>): (r: seq<string>)
    ensures |r| == |paths| && forall k :: 0 <= k < |paths| ==> r[k] == Normalize(paths[k])
  {
    seq(|paths|, k requires 0 <= k < |paths| => Normalize(paths[k]))
  }

  function Resolved(paths: seq<string>, resolve: string -> string): (r: seq<string>)
    ensures |r| == |paths| && forall k :: 0 <= k < |paths| ==> r[k] == resolve(paths[k])
  {
    seq(|paths|, k requires 0 <= k < |paths| => resolve(paths[k]))
  }

  /** Different paths resolve to different paths. */
  ghost predicate Injective(resolve: string -> string)
  {
    forall a, b :: resolve(a) == resolve(b) ==> a == b
  }

  /** The Paths of a set of sources, each resolved, in path order. */
  function ResolvedSources(requested: seq<string>, resolve: string -> string): (r: seq<string>)
    ensures SortedBy(r, PathLe)
  {
    SortedSources(Resolved(Distinct(Normals(requested)), resolve))
  }

  lemma NormalsMembers(requested: seq<string>)
    ensures forall y :: y in Distinct(Normals(requested)) <==> exists p :: p in requested && y == Normalize(p)
  {
    var ns := Normals(requested);
    forall y ensures y in ns <==> exists p :: p in requested && y == Normalize(p) {
      if y in ns {
        var j :| 0 <= j < |requested| && ns[j] == y;
        assert requested[j] in requested;
      }
      if exists p :: p in requested && y == Normalize(p) {
        var p :| p in requested && y == Normalize(p);
        var j :| 0 <= j < |requested| && requested[j] == p;
        assert ns[j] == y;
      }
    }
  }

  lemma ResolvedMembers(paths: seq<string>, resolve: string -> string)
    ensures forall x :: x in Resolved(paths, resolve) <==> exists y :: y in paths && x == resolve(y)
  {
    var rs := Resolved(paths, resolve);
    forall x ensures x in rs <==> exists y :: y in paths && x == resolve(y) {
      if x in rs {
        var i :| 0 <= i < |paths| && rs[i] == x;
        assert paths[i] in paths;
      }
      if exists y :: y in paths && x == resolve(y) {
        var y :| y in paths && x == resolve(y);
        var i :| 0 <= i < |paths| && paths[i] == y;
        assert rs[i] == x;
      }
    }
  }

  lemma ResolvedNoRepeats(paths: seq<string>, resolve: string -> string)
    requires NoRepeats(paths) && Injective(resolve)
    ensures NoRepeats(Resolved(paths, resolve))
  {
    var rs := Resolved(paths, resolve);
    forall i, j | 0 <= i < j < |rs| ensures rs[i] != rs[j] {
      assert rs[i] == resolve(paths[i]) && rs[j] == resolve(paths[j]);
    }
  }

  lemma SortedSourcesMembers(paths: seq<string>)
    ensures forall x :: x in SortedSources(paths) <==> x in paths
  {
    var r := SortedSources(paths);
    assert forall x :: x in r <==> x in multiset(r);
    assert forall x :: x in paths <==> x in multiset(paths);
  }

  /** Every source's Path appears resolved, and nothing else; when
      resolving keeps paths apart, each Path appears once. */
  lemma ResolvedSourcesMembers(requested: seq<string>, resolve: string -> string)
    ensures forall x :: x in ResolvedSources(requested, resolve) <==>
              exists p :: p in requested && x == resolve(Normalize(p))
    ensures Injective(resolve) ==> NoRepeats(ResolvedSources(requested, resolve))
  {
    var paths := Distinct(Normals(requested));
    var resolved := Resolved(paths, resolve);
    NormalsMembers(requested);
    ResolvedMembers(paths, resolve);
    SortedSourcesMembers(resolved);
    forall x | x in resolved ensures exists p :: p in requested && x == resolve(Normalize(p)) {
      var y :| y in paths && x == resolve(y);
      var p :| p in requested && y == Normalize(p);
    }
    forall x | exists p :: p in requested && x == resolve(Normalize(p)) ensures x in resolved {
      var p :| p in requested && x == resolve(Normalize(p));
      assert Normalize(p) in paths;
    }
    if Injective(resolve) {
      ResolvedNoRepeats(paths, resolve);
      PermutationNoRepeats(SortedSources(resolved), resolved);
    }
  }

  /** A master's sources: srcs = tuple(sorted(p.resolve() for p in srcs)),
      where `srcs` is a set of Paths, so spellings of one path count
      once. */
  function MasterSources(items: seq<Value>, base: Option<string>, fs: FileSystem,
                         additional: Option<seq<string>>): (r: Result<seq<string>>)
    ensures r.Ok? <==> Requested(items, base, fs, additional).Ok?
    ensures r.Ok? ==> r.value == ResolvedSources(Requested(items, base, fs, additional).value, fs.resolve)
  {
    var requested :- Requested(items, base, fs, additional);
    Ok(ResolvedSources(requested, fs.resolve))
  }

  /** Two sources that resolve to one path share a file name, which the
      unique-name check of `load` rejects. */
  lemma RepeatIsRepeatedName(sources: seq<string>)
    requires !NoRepeats(sources)
    ensures RepeatedName(sources)
  {
    var i, j :| 0 <= i < j < |sources| && sources[i] == sources[j];
    assert PathName(sources[i]) == PathName(sources[j]);
  }

  /** "<output stem>.<master name>.ufo" */
  function UfoName(outputFile: string, masterName: string): (r: string)
    ensures r == Stem(outputFile) + "." + masterName + ".ufo"
  {
    var parts := [Stem(outputFile), masterName, "ufo"];
    assert parts[1..] == [masterName, "ufo"] && parts[1..][1..] == ["ufo"];
    assert Join(parts[1..], ".") == masterName + "." + "ufo";
    assert Stem(outputFile) + "." + (masterName + "." + "ufo") == Stem(outputFile) + "." + masterName + ".ufo";
    Join(parts, ".")
  }

  /** The "srcs" entry of a master, when there is one. */
  function PopSrcs(m: map<string, Value>): (r: Result<(seq<Value>, map<string, Value>)>)
    ensures r.Ok? ==> r.value.1 == m - {"srcs"}
  {
    if "srcs" in m then
      var items :- Iterate(m["srcs"]);
      Ok((items, m - {"srcs"}))
    else Ok(([], m))
  }

  const MasterKeys: set<string> := {"position", "srcs", "style_name"}

  /** The "position" table of a master, as sorted axis positions, and the
      rest of the master. */
  function PopPositions(m: map<string, Value>): (r: Result<(seq<AxisPosition>, map<string, Value>)>)
    ensures r.Ok? ==> "position" in m && m["position"].Table? && r.value.1 == m - {"position"}
    ensures r.Ok? ==> SortedBy(r.value.0, PositionLe) &&
                      multiset(r.value.0) == multiset(Positions(m["position"].entries))
    ensures "position" in m && m["position"].Table? ==> r.Ok?
  {
    var p :- Pop(m, "position");
    if !p.0.Table? then Err(AttributeError)
    else Ok((SortPositions(Positions(p.0.entries)), p.1))
  }

  /** The sources of a master, from its optional "srcs" entry and the
      additional sources, and the rest of the master. */
  function PopSources(m: map<string, Value>, base: Option<string>, fs: FileSystem,
                      additional: Option<seq<string>>): (r: Result<(seq<string>, map<string, Value>)>)
    ensures r.Ok? ==> r.value.1 == m - {"srcs"} && SortedBy(r.value.0, PathLe)
    ensures r.Ok? && "srcs" in m ==>
              Iterate(m["srcs"]).Ok? && MasterSources(Iterate(m["srcs"]).value, base, fs, additional) == Ok(r.value.0)
    ensures r.Ok? && "srcs" !in m ==> MasterSources([], base, fs, additional) == Ok(r.value.0)
    ensures "srcs" !in m && additional.None? ==> r == Ok(([], m))
    ensures "srcs" in m && Iterate(m["srcs"]).Err? ==> r == Err(TypeError)
  {
    var p :- PopSrcs(m);
    var sources :- MasterSources(p.0, base, fs, additional);
    Ok((sources, p.1))
  }

  /** With no "srcs" entry, a master's sources are the additional ones,
      resolved and in path order. */
  lemma AdditionalSourcesOnly(m: map<string, Value>, base: Option<string>, fs: FileSystem, additional: seq<string>)
    requires "srcs" !in m
    ensures PopSources(m, base, fs, Some(additional)).Ok?
    ensures forall x :: x in PopSources(m, base, fs, Some(additional)).value.0 <==>
              exists p :: p in additional && x == fs.resolve(Normalize(p))
  {
    var none: seq<Value> := [];
    var rs := seq(|none|, k requires 0 <= k < |none| => SourceOf(none[k], base, fs));
    assert rs == [];
    var nothing: seq<seq<string>> := [];
    assert Collect(rs) == Ok(nothing);
    assert Flatten(nothing) == [];
    assert Flatten(nothing) + additional == additional;
    assert Requested(none, base, fs, Some(additional)) == Ok(additional);
    ResolvedSourcesMembers(additional, fs.resolve);
  }

  /** A table used as a dict: pop() on a list is a TypeError, on anything
      else that is not a table an AttributeError. */
  function AsDict(v: Value): (r: Result<map<string, Value>>)
    ensures r.Ok? <==> v.Table?
    ensures r.Ok? ==> r.value == ToMap(v.entries)
    ensures v.List? ==> r == Err(TypeError)
  {
    match v
    case Table(entries) => Ok(ToMap(entries))
    case List(_) => Err(TypeError)
    case _ => Err(AttributeError)
  }

  /** One [master.<name>] table, once it is known to be a table: a
      position table, optional sources and a style name, and nothing else;
      the output file must be a string for Path(output_file).stem. */
  function MasterFrom(name: string, m: map<string, Value>, outputFile: Value, base: Option<string>,
                      fs: FileSystem, additional: Option<seq<string>>): (r: Result<MasterConfig>)
    ensures r.Ok? ==> "position" in m && "style_name" in m && m.Keys <= MasterKeys
    ensures !(m.Keys <= MasterKeys) ==> r.Err?
    ensures !outputFile.Str? ==> r.Err?
    ensures r.Ok? ==> outputFile.Str? && r.value.name == name && r.value.outputUfo == UfoName(outputFile.s, name)
    ensures r.Ok? ==> m["position"].Table? && SortedBy(r.value.position, PositionLe) &&
                      multiset(r.value.position) == multiset(Positions(m["position"].entries))
    ensures r.Ok? ==> r.value.styleName == m["style_name"]
    ensures r.Ok? ==> SortedBy(r.value.sources, PathLe)
  {
    var p1 :- PopPositions(m);
    var p2 :- PopSources(p1.1, base, fs, additional);
    var p3 :- Pop(p2.1, "style_name");
    if !outputFile.Str? then Err(TypeError)
    else
      assert p3.1.Keys == m.Keys - MasterKeys;
      if p3.1.Keys != {} then Err(ValueError)
      else Ok(MasterConfig(name, p3.0, UfoName(outputFile.s, name), p1.0, p2.0))
  }

  /** One [master.<name>] entry of the configuration. */
  function LoadMaster(name: string, v: Value, outputFile: Value, base: Option<string>,
                      fs: FileSystem, additional: Option<seq<string>>): (r: Result<MasterConfig>)
    ensures r.Ok? ==> v.Table? && "position" in ToMap(v.entries) && "style_name" in ToMap(v.entries)
    ensures r.Ok? ==> ToMap(v.entries).Keys <= MasterKeys
    ensures v.Table? && !(ToMap(v.entries).Keys <= MasterKeys) ==> r.Err?
    ensures v.List? ==> r == Err(TypeError)
    ensures !outputFile.Str? ==> r.Err?
    ensures r.Ok? ==> outputFile.Str? && r.value.name == name && r.value.outputUfo == UfoName(outputFile.s, name)
    ensures r.Ok? ==> var position := ToMap(v.entries)["position"];
                      position.Table? && SortedBy(r.value.position, PositionLe) &&
                      multiset(r.value.position) == multiset(Positions(position.entries))
    ensures r.Ok? ==> r.value.styleName == ToMap(v.entries)["style_name"]
    ensures r.Ok? ==> SortedBy(r.value.sources, PathLe)
  {
    var m :- AsDict(v);
    MasterFrom(name, m, outputFile, base, fs, additional)
  }

  /** A loaded master's sources are those of its "srcs" entry and the
      additional sources. */
  lemma LoadMasterSources(name: string, v: Value, outputFile: Value, base: Option<string>,
                          fs: FileSystem, additional: Option<seq<string>>)
    requires LoadMaster(name, v, outputFile, base, fs, additional).Ok?
    ensures var sources := PopSources(ToMap(v.entries) - {"position"}, base, fs, additional);
            sources.Ok? && LoadMaster(name, v, outputFile, base, fs, additional).value.sources == sources.value.0
  {
    var m := ToMap(v.entries);
    assert LoadMaster(name, v, outputFile, base, fs, additional) == MasterFrom(name, m, outputFile, base, fs, additional);
    var p1 := PopPositions(m);
    assert p1.Ok? && p1.value.1 == m - {"position"};
  }

  // ---------------------------------------------------------------------
  // Source names

  /** The file names of a master's sources, in order. */
  function NamesOf(sources: seq<string>): (r: seq<string>)
    ensures |r| == |sources| && forall k :: 0 <= k < |r| ==> r[k] == PathName(sources[k])
  {
    seq(|sources|, k requires 0 <= k < |sources| => PathName(sources[k]))
  }

  /** {s.name for s in sources} */
  function NameSet(sources: seq<string>): set<string>
  {
    set k | 0 <= k < |sources| :: PathName(sources[k])
  }

  function Elems(s: seq<string>): set<string>
  {
    set x | x in s
  }

  /** Whether two of a master's sources share a file name. */
  predicate RepeatedName(sources: seq<string>)
  {
    exists i, j :: 0 <= i < j < |sources| && PathName(sources[i]) == PathName(sources[j])
  }

  /** The source-name check of one master as written: a mismatch reaches a
      message built from an undefined name, so NameError is raised. */
  function MergeNamesAsWritten(names: seq<string>, sources: seq<string>): (r: Result<seq<string>>)
    ensures r.Err? <==> |names| > 0 && Elems(names) != NameSet(sources)
    ensures r.Err? ==> r.error == NameError
  {
    if |names| == 0 then Ok(SortedNames(NamesOf(sources)))
    else if Elems(names) != NameSet(sources) then Err(NameError)
    else Ok(names)
  }

  /** The source-name check of one master as intended: the names so far are
      taken from the first master with sources, and a later master naming
      a different set is a ValueError. */
  function MergeNames(names: seq<string>, sources: seq<string>): (r: Result<seq<string>>)
    ensures r.Err? <==> |names| > 0 && Elems(names) != NameSet(sources)
    ensures r.Err? ==> r.error == ValueError
  {
    if |names| == 0 then Ok(SortedNames(NamesOf(sources)))
    else if Elems(names) != NameSet(sources) then Err(ValueError)
    else Ok(names)
  }

  /** A first master with the source a.svg and a second whose glob matches
      nothing: the check as written fails with NameError where a ValueError
      is meant. */
  lemma MismatchIsNameError()
    ensures MergeNamesAsWritten(["a.svg"], []) == Err(NameError)
    ensures MergeNames(["a.svg"], []) == Err(ValueError)
  {
    assert "a.svg" in Elems(["a.svg"]);
    assert NameSet([]) == {};
  }

  /** What the source-name checks leave after a prefix of the masters: while
      every master so far has no sources the names are empty; afterwards
      they are the sorted file names of the first master with sources,
      which every later master has too. */
  ghost predicate Agree(ms: seq<MasterConfig>, names: seq<string>)
  {
    && SortedBy(names, StrLe) && NoRepeats(names)
    && (forall k :: 0 <= k < |ms| ==> NameSet(ms[k].sources) == {} || NameSet(ms[k].sources) == Elems(names))
    && (names == [] ==> forall k :: 0 <= k < |ms| ==> NameSet(ms[k].sources) == {})
    && (forall k, j :: 0 <= k < j < |ms| && NameSet(ms[k].sources) != {} ==>
          NameSet(ms[j].sources) == NameSet(ms[k].sources))
  }

  lemma NameSetOfNames(sources: seq<string>)
    ensures Elems(SortedNames(NamesOf(sources))) == NameSet(sources)
  {
    var r := SortedNames(NamesOf(sources));
    forall x ensures x in Elems(r) <==> x in NameSet(sources) {
      if x in NameSet(sources) {
        var k :| 0 <= k < |sources| && PathName(sources[k]) == x;
        assert NamesOf(sources)[k] == x;
      }
    }
  }

  /** A master that passes the check keeps the masters in agreement. */
  lemma AgreeStep(ms: seq<MasterConfig>, names: seq<string>, m: MasterConfig)
    requires Agree(ms, names) && MergeNames(names, m.sources).Ok?
    ensures Agree(ms + [m], MergeNames(names, m.sources).value)
  {
    var next := MergeNames(names, m.sources).value;
    var all := ms + [m];
    if |names| == 0 {
      NameSetOfNames(m.sources);
      assert Elems(next) == NameSet(m.sources);
      if next == [] {
        assert NameSet(m.sources) == {};
      }
    } else {
      assert names != [];
      assert Elems(names) == NameSet(m.sources);
    }
    assert forall k :: 0 <= k < |ms| ==> all[k] == ms[k];
  }

  // ---------------------------------------------------------------------
  // load

  /** The top-level keys `load` understands. */
  function KnownKeys(): set<string>
  {
    FlagKeys + {"axis", "master"}
  }

  /** The axis loop of `load`: each [axis.<tag>] table in file order. */
  method LoadAxes(entries: seq<(string, Value)>) returns (r: Result<seq<Axis>>)
    ensures r.Ok? ==> |r.value| == |entries| &&
                      forall k :: 0 <= k < |entries| ==> LoadAxis(entries[k].0, entries[k].1) == Ok(r.value[k])
    ensures (forall k :: 0 <= k < |entries| ==> LoadAxis(entries[k].0, entries[k].1).Ok?) ==> r.Ok?
  {
    var axes: seq<Axis> := [];
    var i := 0;
    while i < |entries|
      invariant 0 <= i <= |entries| && |axes| == i
      invariant forall k :: 0 <= k < i ==> LoadAxis(entries[k].0, entries[k].1) == Ok(axes[k])
    {
      var axis := LoadAxis(entries[i].0, entries[i].1);
      if axis.Err? {
        return Err(axis.error);
      }
      assert forall k :: 0 <= k < i ==> (axes + [axis.value])[k] == axes[k];
      axes := axes + [axis.value];
      i := i + 1;
    }
    return Ok(axes);
  }

  /** One pass of the master loop: the master's table, the unique-name
      check and the cross-master name check. */
  method NextMaster(entry: (string, Value), outputFile: Value, base: Option<string>,
                    fs: FileSystem, additional: Option<seq<string>>,
                    sourceNames: seq<string>)
    returns (r: Result<(MasterConfig, seq<string>)>)
    ensures r.Ok? <==> && LoadMaster(entry.0, entry.1, outputFile, base, fs, additional).Ok?
                       && !RepeatedName(LoadMaster(entry.0, entry.1, outputFile, base, fs, additional).value.sources)
                       && MergeNames(sourceNames, LoadMaster(entry.0, entry.1, outputFile, base, fs, additional).value.sources).Ok?
    ensures r.Ok? ==> && LoadMaster(entry.0, entry.1, outputFile, base, fs, additional) == Ok(r.value.0)
                      && MergeNames(sourceNames, r.value.0.sources) == Ok(r.value.1)
  {
    var master := LoadMaster(entry.0, entry.1, outputFile, base, fs, additional);
    if master.Err? {
      return Err(master.error);
    }
    if RepeatedName(master.value.sources) {
      return Err(ValueError);
    }
    var merged := MergeNames(sourceNames, master.value.sources);
    if merged.Err? {
      return Err(merged.error);
    }
    return Ok((master.value, merged.value));
  }

  /** How `load` turns one [master.<name>] entry into a master. */
  function Loader(outputFile: Value, base: Option<string>, fs: FileSystem,
                  additional: Option<seq<string>>): ((string, Value)) -> Result<MasterConfig>
  {
    (e: (string, Value)) => LoadMaster(e.0, e.1, outputFile, base, fs, additional)
  }

  /** Each master was loaded by `load` from the entry at its position and
      has no repeated file name. */
  ghost predicate MastersLoad(entries: seq<(string, Value)>, masters: seq<MasterConfig>,
                              load: ((string, Value)) -> Result<MasterConfig>)
    decreases |entries|
  {
    && |entries| == |masters|
    && (|entries| > 0 ==>
          && MastersLoad(entries[..|entries| - 1], masters[..|masters| - 1], load)
          && load(entries[|entries| - 1]) == Ok(masters[|masters| - 1])
          && !RepeatedName(masters[|masters| - 1].sources))
  }

  lemma MastersLoadSnoc(entries: seq<(string, Value)>, j: nat, masters: seq<MasterConfig>, master: MasterConfig,
                        load: ((string, Value)) -> Result<MasterConfig>)
    requires j < |entries| && MastersLoad(entries[..j], masters, load)
    requires load(entries[j]) == Ok(master) && !RepeatedName(master.sources)
    ensures MastersLoad(entries[..j + 1], masters + [master], load)
  {
    var front := entries[..j + 1];
    var loaded := masters + [master];
    assert front[..j] == entries[..j] && front[j] == entries[j];
    assert loaded[..|masters|] == masters && loaded[|masters|] == master;
  }

  lemma {:induction false} MastersLoadAt(entries: seq<(string, Value)>, masters: seq<MasterConfig>, k: nat,
                                         load: ((string, Value)) -> Result<MasterConfig>)
    requires MastersLoad(entries, masters, load) && k < |entries|
    ensures |masters| == |entries|
    ensures load(entries[k]) == Ok(masters[k])
    ensures !RepeatedName(masters[k].sources)
    decreases |entries|
  {
    if k < |entries| - 1 {
      var front, firsts := entries[..|entries| - 1], masters[..|masters| - 1];
      MastersLoadAt(front, firsts, k, load);
      assert front[k] == entries[k] && firsts[k] == masters[k];
    }
  }

  lemma MastersLoadAll(entries: seq<(string, Value)>, masters: seq<MasterConfig>,
                       outputFile: Value, base: Option<string>,
                       fs: FileSystem, additional: Option<seq<string>>)
    requires MastersLoad(entries, masters, Loader(outputFile, base, fs, additional))
    ensures |masters| == |entries|
    ensures forall k :: 0 <= k < |entries| ==>
              && LoadMaster(entries[k].0, entries[k].1, outputFile, base, fs, additional) == Ok(masters[k])
              && !RepeatedName(masters[k].sources)
  {
    var load := Loader(outputFile, base, fs, additional);
    forall k | 0 <= k < |entries|
      ensures LoadMaster(entries[k].0, entries[k].1, outputFile, base, fs, additional) == Ok(masters[k])
      ensures !RepeatedName(masters[k].sources)
    {
      MastersLoadAt(entries, masters, k, load);
    }
  }

  /** One pass of the master loop, with what it keeps of the masters
      loaded so far. */
  method MasterStep(entries: seq<(string, Value)>, j: nat, masters: seq<MasterConfig>, sourceNames: seq<string>,
                    outputFile: Value, base: Option<string>, fs: FileSystem,
                    additional: Option<seq<string>>)
    returns (r: Result<(seq<MasterConfig>, seq<string>)>)
    requires j < |entries| && MastersLoad(entries[..j], masters, Loader(outputFile, base, fs, additional))
    requires Agree(masters, sourceNames)
    ensures r.Ok? ==> && MastersLoad(entries[..j + 1], r.value.0, Loader(outputFile, base, fs, additional))
                      && Agree(r.value.0, r.value.1)
  {
    var next := NextMaster(entries[j], outputFile, base, fs, additional, sourceNames);
    if next.Err? {
      return Err(next.error);
    }
    var (master, merged) := next.value;
    AgreeStep(masters, sourceNames, master);
    var load := Loader(outputFile, base, fs, additional);
    assert load(entries[j]) == Ok(master);
    MastersLoadSnoc(entries, j, masters, master, load);
    return Ok((masters + [master], merged));
  }

  /** The master loop of `load`: each [master.<name>] table in file order,
      a master whose sources repeat a file name rejected, and the source
      names checked across masters. */
  method LoadMasters(entries: seq<(string, Value)>, outputFile: Value, base: Option<string>,
                     fs: FileSystem, additional: Option<seq<string>>)
    returns (r: Result<(seq<MasterConfig>, seq<string>)>)
    ensures r.Ok? ==> |r.value.0| == |entries|
    ensures r.Ok? ==> forall k :: 0 <= k < |entries| ==>
              && LoadMaster(entries[k].0, entries[k].1, outputFile, base, fs, additional) == Ok(r.value.0[k])
              && !RepeatedName(r.value.0[k].sources)
    ensures r.Ok? ==> Agree(r.value.0, r.value.1)
    ensures |entries| == 0 ==> r.Ok?
  {
    var masters: seq<MasterConfig> := [];
    var sourceNames: seq<string> := [];
    var j := 0;
    while j < |entries|
      invariant 0 <= j <= |entries| && |masters| == j
      invariant MastersLoad(entries[..j], masters, Loader(outputFile, base, fs, additional))
      invariant Agree(masters, sourceNames)
    {
      var next := MasterStep(entries, j, masters, sourceNames, outputFile, base, fs, additional);
      if next.Err? {
        return Err(next.error);
      }
      masters, sourceNames := next.value.0, next.value.1;
      j := j + 1;
    }
    assert entries[..j] == entries;
    MastersLoadAll(entries, masters, outputFile, base, fs, additional);
    return Ok((masters, sourceNames));
  }

  /** The [axis] section of `load`: popped from what is left of the
      configuration, then each axis table in file order. */
  method AxisSection(rest: map<string, Value>) returns (r: Result<(seq<Axis>, map<string, Value>)>)
    ensures "axis" !in rest ==> r == Err(KeyError)
    ensures "axis" in rest && !rest["axis"].Table? ==> r == Err(AttributeError)
    ensures r.Ok? ==> "axis" in rest && rest["axis"].Table? && r.value.1 == rest - {"axis"}
    ensures r.Ok? ==> var entries := rest["axis"].entries;
              && |r.value.0| == |entries|
              && forall k :: 0 <= k < |entries| ==> LoadAxis(entries[k].0, entries[k].1) == Ok(r.value.0[k])
  {
    var section := Pop(rest, "axis");
    if section.Err? {
      return Err(KeyError);
    }
    var table := section.value.0;
    if !table.Table? {
      return Err(AttributeError);
    }
    var axes :- LoadAxes(table.entries);
    return Ok((axes, section.value.1));
  }

  /** The [master] section of `load`: popped from what is left of the
      configuration, then each master table in file order; there must be
      at least one. */
  method MasterSection(rest: map<string, Value>, outputFile: Value, base: Option<string>,
                       fs: FileSystem, additional: Option<seq<string>>)
    returns (r: Result<(seq<MasterConfig>, seq<string>, map<string, Value>)>)
    ensures "master" !in rest ==> r == Err(KeyError)
    ensures "master" in rest && !rest["master"].Table? ==> r == Err(AttributeError)
    ensures "master" in rest && rest["master"].Table? && |rest["master"].entries| == 0 ==> r == Err(ValueError)
    ensures r.Ok? ==> "master" in rest && rest["master"].Table? && r.value.2 == rest - {"master"}
    ensures r.Ok? ==> outputFile.Str?
    ensures r.Ok? ==> var entries := rest["master"].entries;
              && |r.value.0| == |entries| > 0
              && (forall k :: 0 <= k < |entries| ==>
                    && LoadMaster(entries[k].0, entries[k].1, outputFile, base, fs, additional) == Ok(r.value.0[k])
                    && !RepeatedName(r.value.0[k].sources))
              && Agree(r.value.0, r.value.1)
  {
    var section := Pop(rest, "master");
    if section.Err? {
      return Err(KeyError);
    }
    var table := section.value.0;
    if !table.Table? {
      return Err(AttributeError);
    }
    var loaded :- LoadMasters(table.entries, outputFile, base, fs, additional);
    if |loaded.0| == 0 {
      return Err(ValueError);
    }
    assert LoadMaster(table.entries[0].0, table.entries[0].1, outputFile, base, fs, additional).Ok?;
    return Ok((loaded.0, loaded.1, section.value.1));
  }

  /** load(config_file, additional_srcs), given the parsed configuration
      file, the flags that were set and the directory of the file (None
      for the built-in default configuration). */
  method Load(config: map<string, Value>, flags: map<Flag, Value>, parsers: Parsers,
              base: Option<string>, fs: FileSystem,
              additional: Option<seq<string>>) returns (r: Result<FontConfig>)
    ensures !Converts(config, flags, parsers) ==> r.Err?
    ensures r.Ok? ==> SettlesTo(config, flags, parsers, SettingsOf(r.value))
    ensures r.Ok? ==> Validate(r.value) == Ok(r.value)
    ensures r.Ok? ==> config.Keys <= KnownKeys()
    ensures r.Ok? ==> "axis" in config && config["axis"].Table? && |r.value.axes| == |config["axis"].entries|
    ensures r.Ok? ==> forall k :: 0 <= k < |r.value.axes| ==>
              LoadAxis(config["axis"].entries[k].0, config["axis"].entries[k].1) == Ok(r.value.axes[k])
    ensures r.Ok? ==> "master" in config && config["master"].Table? &&
                      |r.value.masters| == |config["master"].entries| > 0
    ensures r.Ok? ==> forall k :: 0 <= k < |r.value.masters| ==>
              && LoadMaster(config["master"].entries[k].0, config["master"].entries[k].1,
                            Str(r.value.outputFile), base, fs, additional) == Ok(r.value.masters[k])
              && !RepeatedName(r.value.masters[k].sources)
    ensures r.Ok? ==> Agree(r.value.masters, r.value.sourceNames)
    ensures r.Ok? ==> r.value.feaFile == Default.feaFile && r.value.codepointmapFile == Default.codepointmapFile
  {
    var settled, rest := PopFlags(config, flags, parsers);
    if settled.Err? {
      return Err(settled.error);
    }
    var s := settled.value;
    var afterFlags := rest;

    var axes :- AxisSection(rest);
    var masters :- MasterSection(axes.1, s.outputFile, base, fs, additional);
    rest := masters.2;
    var outputFile := s.outputFile.s;
    if rest != map[] {
      return Err(ValueError);
    }
    forall key | key in config ensures key in KnownKeys() {
      if key !in FlagKeys && key != "axis" && key != "master" {
        assert key in rest;
      }
    }
    r := Validate(FontConfig(
      s.family, outputFile, s.colorFormat, s.upem, s.width, s.ascender, s.descender,
      s.linegap, s.transform, s.versionMajor, s.versionMinor, s.reuseTolerance,
      s.ignoreReuseError, s.keepGlyphNames, s.clipToViewbox, s.output,
      Default.feaFile, Default.codepointmapFile, axes.0, masters.0, masters.1));
  }
}
