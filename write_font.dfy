// Building the colour font's UFO (src/nanoemoji/write_font.py): the table
// of colour format generators, the choice of compiler, free glyph names,
// blank glyphs for code points that only occur inside sequences, the glyph
// ids of the colour glyphs and the input check.  ufo2ft's compilers, the
// generators' own work on the UFO and TTFont and all file I/O are not part
// of this model; what happens is recorded as a step.
module WriteFont {
  import opened Wrappers
  import opened Seqs
  import opened Text
  import opened Sorting
  import opened Orders
  import opened GlyphNames
  import opened Ufo
  import ColorGlyphs
  import Config

  // ---------------------------------------------------------------------
  // The colour format generators.

  /** What a generator's apply_ufo does: nothing, glyf outlines, a COLR
      table of the given version, or raise NotImplementedError. */
  datatype UfoStep = NoUfoStep | GlyfUfo | ColrUfo(version: nat) | NotImplementedUfo

  /** What a generator's apply_ttfont does: nothing, an SVG table (from
      picosvgs or the untouched files, compressed or not), or raise
      NotImplementedError. */
  datatype TtfontStep = NoTtfontStep | SvgTtfont(picosvg: bool, compressed: bool) | NotImplementedTtfont

  datatype ColorGenerator = ColorGenerator(applyUfo: UfoStep, applyTtfont: TtfontStep, fontExt: string)

  /** _COLOR_FORMAT_GENERATORS[fmt], None for a format without one.  The
      table covers exactly the configurable colour formats, and only the
      CFF based ones are written as ".otf". */
  function Generator(fmt: string): (r: Option<ColorGenerator>)
    ensures r.Some? <==> fmt in Config.ColorFormats
    ensures r.Some? ==> r.value.fontExt in {".ttf", ".otf"}
    ensures r.Some? ==> (r.value.applyUfo == NotImplementedUfo <==> r.value.applyTtfont == NotImplementedTtfont)
  {
    if fmt == "glyf" then Some(ColorGenerator(GlyfUfo, NoTtfontStep, ".ttf"))
    else if fmt == "glyf_colr_0" then Some(ColorGenerator(ColrUfo(0), NoTtfontStep, ".ttf"))
    else if fmt == "glyf_colr_1" then Some(ColorGenerator(ColrUfo(1), NoTtfontStep, ".ttf"))
    else if fmt == "cff_colr_0" then Some(ColorGenerator(ColrUfo(0), NoTtfontStep, ".otf"))
    else if fmt == "cff_colr_1" then Some(ColorGenerator(ColrUfo(1), NoTtfontStep, ".otf"))
    else if fmt == "cff2_colr_0" then Some(ColorGenerator(ColrUfo(0), NoTtfontStep, ".otf"))
    else if fmt == "cff2_colr_1" then Some(ColorGenerator(ColrUfo(1), NoTtfontStep, ".otf"))
    else if fmt == "picosvg" then Some(ColorGenerator(NoUfoStep, SvgTtfont(true, false), ".ttf"))
    else if fmt == "picosvgz" then Some(ColorGenerator(NoUfoStep, SvgTtfont(true, true), ".ttf"))
    else if fmt == "untouchedsvg" then Some(ColorGenerator(NoUfoStep, SvgTtfont(false, false), ".ttf"))
    else if fmt == "untouchedsvgz" then Some(ColorGenerator(NoUfoStep, SvgTtfont(false, true), ".ttf"))
    else if fmt == "cbdt" || fmt == "sbix" then Some(ColorGenerator(NotImplementedUfo, NotImplementedTtfont, ".ttf"))
    else None
  }

  /** Only the CFF based formats ("cff_…" and "cff2_…") are written as
      ".otf". */
  lemma GeneratorExtension(fmt: string)
    requires Generator(fmt).Some?
    ensures Generator(fmt).value.fontExt == ".otf" <==> StartsWith(fmt, "cff")
  {
    assert StartsWith(fmt, "cff") <==> |fmt| >= 3 && fmt[0] == 'c' && fmt[1] == 'f' && fmt[2] == 'f' by {
      if |fmt| >= 3 {
        assert fmt[..3] == [fmt[0], fmt[1], fmt[2]];
      }
    }
  }

  /** The SVG formats are those whose generator writes an SVG table, and the
      picosvg ones are those that use the picosvgs. */
  lemma SvgGenerators(fmt: string)
    requires Generator(fmt).Some?
    ensures Generator(fmt).value.applyTtfont.SvgTtfont? <==> StartsWith(fmt, "picosvg") || StartsWith(fmt, "untouchedsvg")
    ensures Generator(fmt).value.applyTtfont.SvgTtfont? ==>
              (Generator(fmt).value.applyTtfont.picosvg <==> Config.HasPicosvgs(Config.Default.(colorFormat := fmt)))
    ensures Generator(fmt).value.applyTtfont.SvgTtfont? ==>
              (Generator(fmt).value.applyTtfont.compressed <==> fmt[|fmt| - 1] == 'z')
  {
    assert StartsWith(fmt, "picosvg") ==> fmt[0] == 'p' by {
      if StartsWith(fmt, "picosvg") {
        assert fmt[..7][0] == 'p';
      }
    }
    assert StartsWith(fmt, "untouchedsvg") ==> fmt[0] == 'u' by {
      if StartsWith(fmt, "untouchedsvg") {
        assert fmt[..12][0] == 'u';
      }
    }
  }

  /** The binary ufo2ft compiles. */
  datatype Compiled = CompiledTtf | CompiledOtf(cffVersion: nat)

  /** _make_ttfont: a ".ufo" output has no binary; ".ttf" is compiled as
      TrueType and ".otf" as CFF, version 2 exactly for the "cff2_" formats;
      any other extension is a ValueError.  The format's generator is then
      looked up (KeyError) and its apply_ttfont step applies. */
  function MakeTtfont(config: Config.FontConfig): (r: Result<Option<(Compiled, TtfontStep)>>)
  {
    var ext := Config.OutputFormat(config);
    if ext == ".ufo" then Ok(None)
    else if ext != ".ttf" && ext != ".otf" then Err(ValueError)
    else
      var compiled := if ext == ".ttf" then CompiledTtf
                      else CompiledOtf(if StartsWith(config.colorFormat, "cff2_") then 2 else 1);
      var gen := Generator(config.colorFormat);
      if gen.None? then Err(KeyError)
      else if gen.value.applyTtfont == NotImplementedTtfont then Err(NotImplementedError)
      else Ok(Some((compiled, gen.value.applyTtfont)))
  }

  /** What _make_ttfont returns, case by case. */
  lemma MakeTtfontCases(config: Config.FontConfig)
    ensures var ext := Config.OutputFormat(config);
            && (ext == ".ufo" ==> MakeTtfont(config) == Ok(None))
            && (ext !in {".ufo", ".ttf", ".otf"} ==> MakeTtfont(config) == Err(ValueError))
            && (ext in {".ttf", ".otf"} ==>
                  (MakeTtfont(config).Ok? <==> config.colorFormat in Config.ColorFormats && config.colorFormat !in {"cbdt", "sbix"}))
            && (ext in {".ttf", ".otf"} && config.colorFormat !in Config.ColorFormats ==> MakeTtfont(config) == Err(KeyError))
  {
  }

  /** The compiler matches the extension, and the CFF version is 2 exactly
      for the "cff2_" formats. */
  lemma CompilerChoice(config: Config.FontConfig)
    requires MakeTtfont(config).Ok? && MakeTtfont(config).value.Some?
    ensures var compiled := MakeTtfont(config).value.value.0;
            && (compiled.CompiledTtf? <==> Config.OutputFormat(config) == ".ttf")
            && (compiled.CompiledOtf? <==> Config.OutputFormat(config) == ".otf")
            && (compiled.CompiledOtf? ==> (compiled.cffVersion == 2 <==> StartsWith(config.colorFormat, "cff2_")))
            && (compiled.CompiledOtf? ==> compiled.cffVersion in {1, 2})
    ensures MakeTtfont(config).value.value.1 == Generator(config.colorFormat).value.applyTtfont
  {
  }

  // ---------------------------------------------------------------------
  // _next_name

  ghost predicate Injective(nameFn: nat -> string)
  {
    forall i, j :: nameFn(i) == nameFn(j) ==> i == j
  }

  /** The names nameFn gives to 0 .. n-1. */
  ghost function Image(nameFn: nat -> string, n: nat): set<string>
  {
    if n == 0 then {} else Image(nameFn, n - 1) + {nameFn(n - 1)}
  }

  lemma {:induction false} ImageSize(nameFn: nat -> string, n: nat)
    requires Injective(nameFn)
    ensures |Image(nameFn, n)| == n
    ensures forall x :: x in Image(nameFn, n) <==> exists j :: 0 <= j < n && x == nameFn(j)
  {
    if n > 0 {
      ImageSize(nameFn, n - 1);
    }
  }

  /** An injective name function can only find the first i names taken when
      the font has at least i glyphs: the search ends. */
  lemma NamesBound(glyphs: set<string>, nameFn: nat -> string, i: nat)
    requires Injective(nameFn) && forall j :: 0 <= j < i ==> nameFn(j) in glyphs
    ensures i <= |glyphs|
  {
    ImageSize(nameFn, i);
    assert Image(nameFn, i) <= glyphs;
    SubsetSize(Image(nameFn, i), glyphs);
  }

  lemma {:induction false} SubsetSize<T>(a: set<T>, b: set<T>)
    requires a <= b
    ensures |a| <= |b|
    decreases |a|
  {
    if a != {} {
      var x :| x in a;
      SubsetSize(a - {x}, b - {x});
    }
  }

  /** i is the least index whose name the font does not have. */
  ghost predicate FirstFree(glyphs: set<string>, nameFn: nat -> string, i: nat)
  {
    nameFn(i) !in glyphs && forall j :: 0 <= j < i ==> nameFn(j) in glyphs
  }

  /** The first free index at or after i, when every index before i is
      taken. */
  ghost function FreeFrom(glyphs: set<string>, nameFn: nat -> string, i: nat): (r: nat)
    requires Injective(nameFn) && forall j :: 0 <= j < i ==> nameFn(j) in glyphs
    ensures i <= r <= |glyphs| && FirstFree(glyphs, nameFn, r)
    decreases |glyphs| - i
  {
    NamesBound(glyphs, nameFn, i);
    if nameFn(i) !in glyphs then i
    else
      NamesBound(glyphs, nameFn, i + 1);
      FreeFrom(glyphs, nameFn, i + 1)
  }

  ghost function FirstFreeIndex(glyphs: set<string>, nameFn: nat -> string): nat
    requires Injective(nameFn)
  {
    FreeFrom(glyphs, nameFn, 0)
  }

  /** There is only one least free index. */
  lemma FirstFreeUnique(glyphs: set<string>, nameFn: nat -> string, i: nat, k: nat)
    requires FirstFree(glyphs, nameFn, i) && FirstFree(glyphs, nameFn, k)
    ensures i == k
  {
  }

  /** _next_name: name_fn(i) for the least i whose name the font does not
      have; the name is free and every earlier one is taken. */
  method NextName(ufo: Font, nameFn: nat -> string) returns (name: string)
    requires Injective(nameFn)
    ensures name == nameFn(FirstFreeIndex(ufo.glyphs.Keys, nameFn))
    ensures name !in ufo.glyphs
  {
    var i := 0;
    while nameFn(i) in ufo.glyphs
      invariant forall j :: 0 <= j < i ==> nameFn(j) in ufo.glyphs
      invariant FreeFrom(ufo.glyphs.Keys, nameFn, i) == FirstFreeIndex(ufo.glyphs.Keys, nameFn)
      decreases |ufo.glyphs.Keys| - i
    {
      NamesBound(ufo.glyphs.Keys, nameFn, i + 1);
      i := i + 1;
    }
    name := nameFn(i);
  }

  /** The names _init_glyph tries: the prefix followed by i in decimal. */
  function Numbered(prefix: string): nat -> string
  {
    (i: nat) => prefix + Decimal(i)
  }

  /** Different numbers give different names, so _next_name finds one. */
  lemma NumberedInjective(prefix: string)
    ensures Injective(Numbered(prefix))
  {
    forall i: nat, j: nat | Numbered(prefix)(i) == Numbered(prefix)(j) ensures i == j {
      assert Decimal(i) == Numbered(prefix)(i)[|prefix|..];
      assert Decimal(j) == Numbered(prefix)(j)[|prefix|..];
      DecimalInjective(i, j);
    }
  }

  /** _init_glyph's naming: the colour glyph's name and ".", then the first
      number whose name is free. */
  method InitGlyphName(ufo: Font, glyphName: string) returns (name: string)
    ensures exists i :: FirstFree(ufo.glyphs.Keys, Numbered(glyphName + "."), i) && name == glyphName + "." + Decimal(i)
  {
    NumberedInjective(glyphName + ".");
    name := NextName(ufo, Numbered(glyphName + "."));
  }

  // ---------------------------------------------------------------------
  // Blank glyphs for code points used only inside sequences.

  /** (filename, codepoints, picosvg) */
  datatype InputGlyph = InputGlyph(filename: string, codepoints: seq<Codepoint>, svg: seq<ColorGlyphs.Shape>)

  function CodepointSet(cps: seq<Codepoint>): (r: set<Codepoint>)
    ensures forall cp :: cp in r <==> cp in cps
  {
    set cp | cp in cps
  }

  /** all_codepoints after the loop has seen the given inputs. */
  function AllCodepoints(inputs: seq<InputGlyph>): set<Codepoint>
  {
    if |inputs| == 0 then {}
    else AllCodepoints(inputs[..|inputs| - 1]) + CodepointSet(inputs[|inputs| - 1].codepoints)
  }

  /** direct_mapped_codepoints after the loop has seen the given inputs. */
  function DirectMapped(inputs: seq<InputGlyph>): set<Codepoint>
  {
    if |inputs| == 0 then {}
    else
      var cps := inputs[|inputs| - 1].codepoints;
      DirectMapped(inputs[..|inputs| - 1]) + (if |cps| == 1 then CodepointSet(cps) else {})
  }

  function NeedBlanks(inputs: seq<InputGlyph>): set<Codepoint>
  {
    AllCodepoints(inputs) - DirectMapped(inputs)
  }

  lemma {:induction false} CodepointsMembers(inputs: seq<InputGlyph>, cp: Codepoint)
    ensures cp in AllCodepoints(inputs) <==> exists k :: 0 <= k < |inputs| && cp in inputs[k].codepoints
    ensures cp in DirectMapped(inputs) <==> exists k :: 0 <= k < |inputs| && inputs[k].codepoints == [cp]
  {
    if |inputs| > 0 {
      var front := inputs[..|inputs| - 1];
      CodepointsMembers(front, cp);
      assert forall k :: 0 <= k < |front| ==> front[k] == inputs[k];
      var last := inputs[|inputs| - 1].codepoints;
      assert |last| == 1 && cp in last <==> last == [cp] by {
        if last == [cp] {
          assert last[0] == cp;
        }
      }
    }
  }

  /** A code point gets a blank glyph exactly when some input uses it and no
      input is that code point alone. */
  lemma NeedBlanksExactly(inputs: seq<InputGlyph>, cp: Codepoint)
    ensures cp in NeedBlanks(inputs) <==>
              (exists k :: 0 <= k < |inputs| && cp in inputs[k].codepoints) &&
              (forall k :: 0 <= k < |inputs| ==> inputs[k].codepoints != [cp])
  {
    CodepointsMembers(inputs, cp);
  }

  /** glyph_name(codepoint) for one code point. */
  function BlankName(cp: Codepoint, digest: string -> string): string
    requires IsDigest(digest)
  {
    GlyphNameOf(Single(cp), digest).value
  }

  /** The name each blank gets. */
  function BlankNames(digest: string -> string): (nameOf: Codepoint -> string)
    requires IsDigest(digest)
    ensures forall cp :: nameOf(cp) == BlankName(cp, digest)
  {
    (cp: Codepoint) => BlankName(cp, digest)
  }

  /** The blanks can all be added: no blank's name is taken, and no two
      code points that need one share a name. */
  ghost predicate BlanksFit(glyphs: map<string, GlyphEntry>, need: set<Codepoint>, nameOf: Codepoint -> string)
  {
    && (forall cp :: cp in need ==> nameOf(cp) !in glyphs)
    && (forall a, b :: a in need && b in need && nameOf(a) == nameOf(b) ==> a == b)
  }

  /** A glyph named n is the blank of a code point that needs one: unicode
      set to that code point, nothing drawn, no advance. */
  ghost predicate IsBlank(e: GlyphEntry, n: string, need: set<Codepoint>, nameOf: Codepoint -> string)
  {
    e.unicode.Some? && e.unicode.value < 0x11_0000 && e.width == 0 &&
    var cp: Codepoint := e.unicode.value;
    cp in need && n == nameOf(cp)
  }

  /** The state of the blank loop: `done` are the code points handled so
      far (the rest of `need` is `remaining`), `names` their blanks, each
      added to the glyphs that were there at the start. */
  ghost predicate BlankState(glyphs: map<string, GlyphEntry>, glyphs0: map<string, GlyphEntry>,
                             need: set<Codepoint>, remaining: set<Codepoint>,
                             names: seq<string>, done: seq<Codepoint>, nameOf: Codepoint -> string)
  {
    && remaining <= need && |names| == |done|
    && (forall k :: 0 <= k < |done| ==> done[k] in need && done[k] !in remaining && names[k] == nameOf(done[k]))
    && (forall cp :: cp in need && cp !in remaining ==> cp in done)
    && BlanksFit(glyphs0, need - remaining, nameOf)
    && (forall n :: n in glyphs <==> n in glyphs0 || n in names)
    && (forall n :: n in glyphs0 ==> glyphs[n] == glyphs0[n])
    && (forall k :: 0 <= k < |done| ==> names[k] !in glyphs0 && glyphs[names[k]] == GlyphEntry(Some(done[k]), 0))
    && NoRepeats(names)
  }

  lemma BlankStart(glyphs0: map<string, GlyphEntry>, need: set<Codepoint>, nameOf: Codepoint -> string)
    ensures BlankState(glyphs0, glyphs0, need, need, [], [], nameOf)
  {
    assert need - need == {};
  }

  /** A blank whose name is taken, by an old glyph or by an earlier blank,
      shows that the blanks do not fit. */
  lemma BlankTaken(glyphs: map<string, GlyphEntry>, glyphs0: map<string, GlyphEntry>,
                   need: set<Codepoint>, remaining: set<Codepoint>,
                   names: seq<string>, done: seq<Codepoint>, cp: Codepoint, nameOf: Codepoint -> string)
    requires BlankState(glyphs, glyphs0, need, remaining, names, done, nameOf)
    requires cp in remaining && nameOf(cp) in glyphs
    ensures !BlanksFit(glyphs0, need, nameOf)
  {
    if nameOf(cp) !in glyphs0 {
      var k :| 0 <= k < |names| && names[k] == nameOf(cp);
      assert done[k] != cp;
    }
  }

  /** Adding the blank of a code point whose name is free keeps the state. */
  lemma BlankStep(glyphs: map<string, GlyphEntry>, glyphs0: map<string, GlyphEntry>,
                  need: set<Codepoint>, remaining: set<Codepoint>,
                  names: seq<string>, done: seq<Codepoint>, cp: Codepoint, nameOf: Codepoint -> string)
    requires BlankState(glyphs, glyphs0, need, remaining, names, done, nameOf)
    requires cp in remaining && nameOf(cp) !in glyphs
    ensures BlankState(glyphs[nameOf(cp) := GlyphEntry(Some(cp), 0)], glyphs0, need, remaining - {cp},
                       names + [nameOf(cp)], done + [cp], nameOf)
  {
    forall a | a in need - remaining ensures nameOf(a) != nameOf(cp) {
      var k :| 0 <= k < |done| && done[k] == a;
      assert names[k] == nameOf(a);
    }
  }

  /** What the state says about the glyphs, and once nothing remains, that
      every blank is there. */
  lemma BlankFacts(glyphs: map<string, GlyphEntry>, glyphs0: map<string, GlyphEntry>,
                   need: set<Codepoint>, remaining: set<Codepoint>,
                   names: seq<string>, done: seq<Codepoint>, nameOf: Codepoint -> string)
    requires BlankState(glyphs, glyphs0, need, remaining, names, done, nameOf)
    ensures forall n :: n in glyphs0 ==> n in glyphs && glyphs[n] == glyphs0[n]
    ensures forall n :: n in glyphs && n !in glyphs0 ==> IsBlank(glyphs[n], n, need, nameOf)
    ensures forall n :: n in glyphs <==> n in glyphs0 || n in names
    ensures NoRepeats(names) && forall n :: n in names ==> n !in glyphs0
    ensures remaining == {} ==> BlanksFit(glyphs0, need, nameOf)
    ensures remaining == {} ==> forall cp :: cp in need ==> nameOf(cp) in glyphs && glyphs[nameOf(cp)] == GlyphEntry(Some(cp), 0)
  {
    forall n | n in glyphs && n !in glyphs0 ensures IsBlank(glyphs[n], n, need, nameOf) {
      var k :| 0 <= k < |names| && names[k] == n;
      assert glyphs[n] == GlyphEntry(Some(done[k]), 0);
    }
    if remaining == {} {
      assert need - remaining == need;
      forall cp | cp in need ensures nameOf(cp) in glyphs && glyphs[nameOf(cp)] == GlyphEntry(Some(cp), 0) {
        var k :| 0 <= k < |done| && done[k] == cp;
      }
    }
  }

  /** The code points the inputs use, and those some single code point
      input maps directly. */
  method UsedCodepoints(inputs: seq<InputGlyph>) returns (all: set<Codepoint>, direct: set<Codepoint>)
    ensures all == AllCodepoints(inputs) && direct == DirectMapped(inputs)
  {
    all, direct := {}, {};
    for i := 0 to |inputs|
      invariant all == AllCodepoints(inputs[..i]) && direct == DirectMapped(inputs[..i])
    {
      assert inputs[..i + 1][..i] == inputs[..i];
      var cps := inputs[i].codepoints;
      if |cps| == 1 {
        direct := direct + CodepointSet(cps);
      }
      all := all + CodepointSet(cps);
    }
    assert inputs[..|inputs|] == inputs;
  }

  /** The loop of _ensure_codepoints_will_have_glyphs: one blank glyph per
      code point of `need`, taken in any order, until a name is taken. */
  method AddBlanks(ufo: Font, need: set<Codepoint>, nameOf: Codepoint -> string)
    returns (r: Outcome, names: seq<string>)
    modifies ufo
    ensures r.Pass? <==> BlanksFit(old(ufo.glyphs), need, nameOf)
    ensures r.Fail? ==> r.error == KeyError
    ensures forall n :: n in old(ufo.glyphs) ==> n in ufo.glyphs && ufo.glyphs[n] == old(ufo.glyphs)[n]
    ensures forall n :: n in ufo.glyphs && n !in old(ufo.glyphs) ==> IsBlank(ufo.glyphs[n], n, need, nameOf)
    ensures forall n :: n in ufo.glyphs <==> n in old(ufo.glyphs) || n in names
    ensures NoRepeats(names) && forall n :: n in names ==> n !in old(ufo.glyphs)
    ensures r.Pass? ==> forall cp :: cp in need ==>
              nameOf(cp) in ufo.glyphs && ufo.glyphs[nameOf(cp)] == GlyphEntry(Some(cp), 0)
    ensures ufo.glyphOrder == old(ufo.glyphOrder) && ufo.layers == old(ufo.layers) && ufo.unitsPerEm == old(ufo.unitsPerEm)
  {
    var remaining := need;
    names := [];
    ghost var done: seq<Codepoint> := [];
    BlankStart(ufo.glyphs, need, nameOf);
    while remaining != {}
      invariant BlankState(ufo.glyphs, old(ufo.glyphs), need, remaining, names, done, nameOf)
      invariant ufo.glyphOrder == old(ufo.glyphOrder) && ufo.layers == old(ufo.layers) && ufo.unitsPerEm == old(ufo.unitsPerEm)
      decreases |remaining|
    {
      var cp :| cp in remaining;
      var name := nameOf(cp);
      ghost var before := ufo.glyphs;
      var added := ufo.NewGlyph(name, Some(cp), 0);
      if added.Fail? {
        BlankTaken(ufo.glyphs, old(ufo.glyphs), need, remaining, names, done, cp, nameOf);
        BlankFacts(ufo.glyphs, old(ufo.glyphs), need, remaining, names, done, nameOf);
        return added, names;
      }
      BlankStep(before, old(ufo.glyphs), need, remaining, names, done, cp, nameOf);
      names := names + [name];
      done := done + [cp];
      remaining := remaining - {cp};
    }
    BlankFacts(ufo.glyphs, old(ufo.glyphs), need, remaining, names, done, nameOf);
    r := Pass;
  }

  /** _ensure_codepoints_will_have_glyphs: a blank glyph, named by
      glyph_name and mapped to its code point, for every code point that
      NeedBlanks finds (in any order); newGlyph raises KeyError when a name
      is taken.  The new names are appended to the glyph order, sorted. */
  method EnsureCodepointsWillHaveGlyphs(ufo: Font, inputs: seq<InputGlyph>, digest: string -> string)
    returns (r: Outcome)
    requires IsDigest(digest)
    modifies ufo
    ensures r.Pass? <==> BlanksFit(old(ufo.glyphs), NeedBlanks(inputs), BlankNames(digest))
    ensures r.Fail? ==> r.error == KeyError && ufo.glyphOrder == old(ufo.glyphOrder)
    ensures forall n :: n in old(ufo.glyphs) ==> n in ufo.glyphs && ufo.glyphs[n] == old(ufo.glyphs)[n]
    ensures forall n :: n in ufo.glyphs && n !in old(ufo.glyphs) ==> IsBlank(ufo.glyphs[n], n, NeedBlanks(inputs), BlankNames(digest))
    ensures r.Pass? ==> forall cp :: cp in NeedBlanks(inputs) ==>
              BlankName(cp, digest) in ufo.glyphs && ufo.glyphs[BlankName(cp, digest)] == GlyphEntry(Some(cp), 0)
    ensures r.Pass? ==>
              var base := |old(ufo.glyphOrder)|;
              && base <= |ufo.glyphOrder| && ufo.glyphOrder[..base] == old(ufo.glyphOrder)
              && SortedBy(ufo.glyphOrder[base..], StrLe) && NoRepeats(ufo.glyphOrder[base..])
              && forall n :: n in ufo.glyphOrder[base..] <==> n in ufo.glyphs && n !in old(ufo.glyphs)
    ensures old(ufo.Valid()) && r.Pass? ==> ufo.Valid()
    ensures ufo.layers == old(ufo.layers) && ufo.unitsPerEm == old(ufo.unitsPerEm)
  {
    var all, direct := UsedCodepoints(inputs);
    var names;
    r, names := AddBlanks(ufo, all - direct, BlankNames(digest));
    if r.Fail? {
      return;
    }
    var sorted := Sort(names, StrLe);
    StrOrder();
    SortSorted(names, StrLe);
    SortPerm(names, StrLe);
    SortMembers(names, StrLe);
    Config.PermutationNoRepeats(sorted, names);
    ghost var base := ufo.glyphOrder;
    ufo.glyphOrder := ufo.glyphOrder + sorted;
    assert ufo.glyphOrder[..|base|] == base && ufo.glyphOrder[|base|..] == sorted;
    if old(ufo.Valid()) {
      assert ufo.Valid() by {
        forall i, j | 0 <= i < j < |ufo.glyphOrder| ensures ufo.glyphOrder[i] != ufo.glyphOrder[j] {
          if j >= |base| && i < |base| {
            assert ufo.glyphOrder[i] in base;
          }
        }
      }
    }
  }

  // ---------------------------------------------------------------------
  // The colour glyphs and their glyph ids.

  /** The first position of x in s, which has it. */
  function FirstIndex(s: seq<string>, x: string): (k: nat)
    requires x in s
    ensures k < |s| && s[k] == x && forall j :: 0 <= j < k ==> s[j] != x
  {
    if s[0] == x then 0 else 1 + FirstIndex(s[1..], x)
  }

  /** list.index: the first position of x; ValueError when it is absent. */
  function IndexOf(s: seq<string>, x: string): (r: Result<nat>)
    ensures r.Ok? <==> x in s
    ensures r.Ok? ==> r.value < |s| && s[r.value] == x && forall j :: 0 <= j < r.value ==> s[j] != x
    ensures r.Err? ==> r.error == ValueError
  {
    if x in s then Ok(FirstIndex(s, x)) else Err(ValueError)
  }

  /** In a sequence without repeats, every element is found where it is. */
  lemma IndexOfNoRepeats(s: seq<string>, k: nat)
    requires NoRepeats(s) && k < |s|
    ensures IndexOf(s, s[k]) == Ok(k)
  {
  }

  function GlyphNamesOf<P>(glyphs: seq<ColorGlyphs.ColorGlyph<P>>): (r: seq<string>)
    ensures |r| == |glyphs| && forall k :: 0 <= k < |glyphs| ==> r[k] == glyphs[k].glyphName
  {
    seq(|glyphs|, k requires 0 <= k < |glyphs| => glyphs[k].glyphName)
  }

  /** glyph_name as a function of the code points alone. */
  function GlyphNamer(digest: string -> string): (nameOf: seq<Codepoint> -> Result<string>)
    requires IsDigest(digest)
    ensures forall cps :: nameOf(cps) == GlyphName(cps, digest)
  {
    (cps: seq<Codepoint>) => GlyphName(cps, digest)
  }

  /** ColorGlyph.create succeeds for each of the first n inputs in turn:
      each has code points, a name no glyph had at the start and no
      other of them has, and, when the format uses picosvgs, layers. */
  ghost predicate Creatable<P>(config: Config.FontConfig, glyphs0: map<string, GlyphEntry>,
                                   inputs: seq<InputGlyph>, n: nat, nameOf: seq<Codepoint> -> Result<string>,
                                   env: ColorGlyphs.Env<P>)
    requires n <= |inputs|
  {
    && (forall i :: 0 <= i < n ==>
          nameOf(inputs[i].codepoints).Ok? && nameOf(inputs[i].codepoints).value !in glyphs0)
    && (forall i, j :: 0 <= i < j < n ==> nameOf(inputs[i].codepoints) != nameOf(inputs[j].codepoints))
    && (Config.HasPicosvgs(config) ==> forall i :: 0 <= i < n ==>
          ColorGlyphs.Layers(inputs[i].svg, config.reuseTolerance, Config.Truthy(config.ignoreReuseError), env).Ok?)
  }

  /** The colour glyph made from an input with glyph id gid. */
  ghost predicate MadeFrom<P>(config: Config.FontConfig, g: ColorGlyphs.ColorGlyph<P>, input: InputGlyph,
                                  gid: nat, nameOf: seq<Codepoint> -> Result<string>, env: ColorGlyphs.Env<P>)
  {
    && nameOf(input.codepoints).Ok?
    && g == ColorGlyphs.ColorGlyph(input.filename, nameOf(input.codepoints).value, gid,
                                   input.codepoints, g.paintedLayers, input.svg)
    && (Config.HasPicosvgs(config) ==>
          var layers := ColorGlyphs.Layers(input.svg, config.reuseTolerance, Config.Truthy(config.ignoreReuseError), env);
          layers.Ok? && g.paintedLayers == Some(layers.value))
    && (!Config.HasPicosvgs(config) ==> g.paintedLayers.None?)
  }

  /** Each colour glyph is made from the input at its position, with glyph
      id base plus that position. */
  ghost predicate AllMadeFrom<P>(config: Config.FontConfig, gs: seq<ColorGlyphs.ColorGlyph<P>>, inputs: seq<InputGlyph>,
                                 base: nat, nameOf: seq<Codepoint> -> Result<string>, env: ColorGlyphs.Env<P>)
  {
    |gs| == |inputs| && forall k :: 0 <= k < |inputs| ==> MadeFrom(config, gs[k], inputs[k], base + k, nameOf, env)
  }

  /** The colour glyphs' names end the glyph order, and each glyph's id is
      the index of its name there. */
  predicate Placed<P>(order: seq<string>, gs: seq<ColorGlyphs.ColorGlyph<P>>)
  {
    && |gs| <= |order|
    && order[|order| - |gs|..] == GlyphNamesOf(gs)
    && forall i :: 0 <= i < |gs| ==>
         gs[i].glyphId == |order| - |gs| + i && IndexOf(order, gs[i].glyphName) == Ok(gs[i].glyphId)
  }

  /** The state of the create loop after n inputs. */
  ghost predicate CreateState<P>(config: Config.FontConfig, glyphs: map<string, GlyphEntry>,
                                     glyphs0: map<string, GlyphEntry>, inputs: seq<InputGlyph>, n: nat,
                                     made: seq<ColorGlyphs.ColorGlyph<P>>, base: nat, upem: int,
                                     nameOf: seq<Codepoint> -> Result<string>, env: ColorGlyphs.Env<P>)
  {
    && n <= |inputs| && |made| == n
    && Creatable(config, glyphs0, inputs, n, nameOf, env)
    && (forall k :: 0 <= k < n ==> MadeFrom(config, made[k], inputs[k], base + k, nameOf, env))
    && (forall x :: x in glyphs <==> x in glyphs0 || x in GlyphNamesOf(made))
    && (forall x :: x in glyphs0 ==> glyphs[x] == glyphs0[x])
    && (forall k :: 0 <= k < n ==> glyphs[made[k].glyphName] == ColorGlyphs.BaseGlyph(made[k].codepoints, upem))
  }

  lemma CreateStart<P>(config: Config.FontConfig, glyphs0: map<string, GlyphEntry>, inputs: seq<InputGlyph>,
                           base: nat, upem: int, nameOf: seq<Codepoint> -> Result<string>, env: ColorGlyphs.Env<P>)
    ensures CreateState(config, glyphs0, glyphs0, inputs, 0, [], base, upem, nameOf, env)
  {
  }

  lemma CreatableExtend<P>(config: Config.FontConfig, glyphs0: map<string, GlyphEntry>,
                           inputs: seq<InputGlyph>, n: nat, nameOf: seq<Codepoint> -> Result<string>, env: ColorGlyphs.Env<P>)
    requires n < |inputs| && Creatable(config, glyphs0, inputs, n, nameOf, env)
    requires nameOf(inputs[n].codepoints).Ok? && nameOf(inputs[n].codepoints).value !in glyphs0
    requires forall i :: 0 <= i < n ==> nameOf(inputs[i].codepoints) != nameOf(inputs[n].codepoints)
    requires Config.HasPicosvgs(config) ==>
               ColorGlyphs.Layers(inputs[n].svg, config.reuseTolerance, Config.Truthy(config.ignoreReuseError), env).Ok?
    ensures Creatable(config, glyphs0, inputs, n + 1, nameOf, env)
  {
    forall i, j | 0 <= i < j < n + 1
      ensures nameOf(inputs[i].codepoints) != nameOf(inputs[j].codepoints)
    {
      if j < n {
        assert nameOf(inputs[i].codepoints) != nameOf(inputs[j].codepoints);
      }
    }
  }

  /** A create that succeeds moves the state on by one input. */
  lemma CreateStep<P>(config: Config.FontConfig, before: map<string, GlyphEntry>, glyphs0: map<string, GlyphEntry>,
                          inputs: seq<InputGlyph>, n: nat, made: seq<ColorGlyphs.ColorGlyph<P>>, base: nat, upem: int,
                          nameOf: seq<Codepoint> -> Result<string>, env: ColorGlyphs.Env<P>, g: ColorGlyphs.ColorGlyph<P>)
    requires n < |inputs|
    requires CreateState(config, before, glyphs0, inputs, n, made, base, upem, nameOf, env)
    requires MadeFrom(config, g, inputs[n], base + n, nameOf, env)
    requires g.glyphName !in before
    requires Config.HasPicosvgs(config) ==>
               ColorGlyphs.Layers(inputs[n].svg, config.reuseTolerance, Config.Truthy(config.ignoreReuseError), env).Ok?
    ensures CreateState(config, before[g.glyphName := ColorGlyphs.BaseGlyph(g.codepoints, upem)], glyphs0,
                        inputs, n + 1, made + [g], base, upem, nameOf, env)
  {
    var names := GlyphNamesOf(made);
    var after := before[g.glyphName := ColorGlyphs.BaseGlyph(g.codepoints, upem)];
    var made' := made + [g];
    assert GlyphNamesOf(made') == names + [g.glyphName];
    forall i | 0 <= i < n ensures nameOf(inputs[i].codepoints) != nameOf(inputs[n].codepoints) {
      assert names[i] == made[i].glyphName;
    }
    var name := nameOf(inputs[n].codepoints);
    assert name.Ok? && name.value == g.glyphName && g.glyphName !in glyphs0;
    CreatableExtend(config, glyphs0, inputs, n, nameOf, env);
    forall k | 0 <= k < n + 1 ensures MadeFrom(config, made'[k], inputs[k], base + k, nameOf, env) {
      if k < n {
        assert made'[k] == made[k];
      }
    }
    forall k | 0 <= k < n + 1 ensures after[made'[k].glyphName] == ColorGlyphs.BaseGlyph(made'[k].codepoints, upem) {
      if k < n {
        assert made'[k] == made[k] && names[k] == made[k].glyphName && made[k].glyphName in before;
      }
    }
  }

  /** A create that fails shows that the inputs are not all creatable. */
  lemma CreateFails<P>(config: Config.FontConfig, before: map<string, GlyphEntry>, glyphs0: map<string, GlyphEntry>,
                           inputs: seq<InputGlyph>, n: nat, made: seq<ColorGlyphs.ColorGlyph<P>>, base: nat, upem: int,
                           nameOf: seq<Codepoint> -> Result<string>, env: ColorGlyphs.Env<P>)
    requires n < |inputs|
    requires CreateState(config, before, glyphs0, inputs, n, made, base, upem, nameOf, env)
    requires
      || nameOf(inputs[n].codepoints).Err?
      || nameOf(inputs[n].codepoints).value in before
      || (Config.HasPicosvgs(config) &&
            ColorGlyphs.Layers(inputs[n].svg, config.reuseTolerance, Config.Truthy(config.ignoreReuseError), env).Err?)
    ensures !Creatable(config, glyphs0, inputs, |inputs|, nameOf, env)
  {
    if nameOf(inputs[n].codepoints).Ok? {
      var name := nameOf(inputs[n].codepoints).value;
      if name in before && name !in glyphs0 {
        var k :| 0 <= k < n && GlyphNamesOf(made)[k] == name;
        assert nameOf(inputs[k].codepoints) == nameOf(inputs[n].codepoints);
      }
    }
  }

  /** The colour glyphs made so far have the ids base, base + 1, ..., and
      distinct names that no glyph had before and the font now has. */
  lemma CreateStateFacts<P>(config: Config.FontConfig, glyphs: map<string, GlyphEntry>,
                            glyphs0: map<string, GlyphEntry>, inputs: seq<InputGlyph>, n: nat,
                            made: seq<ColorGlyphs.ColorGlyph<P>>, base: nat, upem: int,
                            nameOf: seq<Codepoint> -> Result<string>, env: ColorGlyphs.Env<P>)
    requires CreateState(config, glyphs, glyphs0, inputs, n, made, base, upem, nameOf, env)
    ensures forall k :: 0 <= k < |made| ==> made[k].glyphId == base + k
    ensures NoRepeats(GlyphNamesOf(made))
    ensures forall x :: x in GlyphNamesOf(made) ==> x !in glyphs0 && x in glyphs
  {
    var names := GlyphNamesOf(made);
    forall k | 0 <= k < |made| ensures made[k].glyphId == base + k && names[k] == nameOf(inputs[k].codepoints).value {
      assert MadeFrom(config, made[k], inputs[k], base + k, nameOf, env);
    }
    forall i, j | 0 <= i < j < |names| ensures names[i] != names[j] {
      assert nameOf(inputs[i].codepoints) != nameOf(inputs[j].codepoints);
    }
  }

  /** The comprehension of _generate_color_font: ColorGlyph.create for each
      input in turn, with glyph id base + its index, stopping at the first
      error.  It succeeds exactly when the inputs are Creatable; the glyph
      order is not touched. */
  method CreateColorGlyphs<P(==)>(config: Config.FontConfig, ufo: Font, inputs: seq<InputGlyph>, base: nat,
                                  digest: string -> string, env: ColorGlyphs.Env<P>)
    returns (r: Result<seq<ColorGlyphs.ColorGlyph<P>>>)
    requires IsDigest(digest)
    modifies ufo
    ensures r.Ok? <==> Creatable(config, old(ufo.glyphs), inputs, |inputs|, GlyphNamer(digest), env)
    ensures r.Ok? ==> AllMadeFrom(config, r.value, inputs, base, GlyphNamer(digest), env)
    ensures r.Ok? ==> forall k :: 0 <= k < |r.value| ==>
              r.value[k].glyphName in ufo.glyphs && ufo.glyphs[r.value[k].glyphName] == ColorGlyphs.BaseGlyph(r.value[k].codepoints, ufo.unitsPerEm)
    ensures r.Ok? ==> forall k :: 0 <= k < |r.value| ==> r.value[k].glyphId == base + k
    ensures r.Ok? ==> NoRepeats(GlyphNamesOf(r.value))
    ensures r.Ok? ==> forall x :: x in GlyphNamesOf(r.value) ==> x !in old(ufo.glyphs) && x in ufo.glyphs
    ensures ufo.glyphOrder == old(ufo.glyphOrder) && ufo.layers == old(ufo.layers) && ufo.unitsPerEm == old(ufo.unitsPerEm)
    ensures forall x :: x in old(ufo.glyphs) ==> x in ufo.glyphs && ufo.glyphs[x] == old(ufo.glyphs)[x]
  {
    var made: seq<ColorGlyphs.ColorGlyph<P>> := [];
    CreateStart(config, ufo.glyphs, inputs, base, ufo.unitsPerEm, GlyphNamer(digest), env);
    for i := 0 to |inputs|
      invariant CreateState(config, ufo.glyphs, old(ufo.glyphs), inputs, i, made, base, ufo.unitsPerEm, GlyphNamer(digest), env)
      invariant ufo.glyphOrder == old(ufo.glyphOrder) && ufo.layers == old(ufo.layers) && ufo.unitsPerEm == old(ufo.unitsPerEm)
    {
      ghost var before := ufo.glyphs;
      var g := ColorGlyphs.Create(config, ufo, inputs[i].filename, base + i, inputs[i].codepoints, inputs[i].svg, digest, env);
      if g.Err? {
        CreateFails(config, before, old(ufo.glyphs), inputs, i, made, base, ufo.unitsPerEm, GlyphNamer(digest), env);
        return Err(g.error);
      }
      CreateStep(config, before, old(ufo.glyphs), inputs, i, made, base, ufo.unitsPerEm, GlyphNamer(digest), env, g.value);
      made := made + [g.value];
    }
    CreateStateFacts(config, ufo.glyphs, old(ufo.glyphs), inputs, |inputs|, made, base, ufo.unitsPerEm, GlyphNamer(digest), env);
    r := Ok(made);
  }

  /** The glyphs of a new UFO: .notdef and .space. */
  function NewGlyphs(config: Config.FontConfig): (r: map<string, GlyphEntry>)
    ensures r.Keys == {".notdef", ".space"} && r[".space"].unicode == Some(0x20) && r[".space"].width == config.width
  {
    map[".notdef" := GlyphEntry(None, 0), ".space" := GlyphEntry(Some(0x20), config.width)]
  }

  /** _ufo: a fresh font with the configured upem, a ".notdef" and a
      ".space" of the configured width mapped to U+0020, in that order. */
  method NewUfo(config: Config.FontConfig) returns (ufo: Font)
    ensures fresh(ufo) && ufo.Valid()
    ensures ufo.glyphs == NewGlyphs(config)
    ensures ufo.glyphOrder == [".notdef", ".space"]
    ensures ufo.unitsPerEm == config.upem && ufo.layers == ["public.default"]
  {
    ufo := new Font();
    ufo.unitsPerEm := config.upem;
    var notdef := ufo.NewGlyph(".notdef", None, 0);
    var space := ufo.NewGlyph(".space", Some(0x20), config.width);
    ufo.glyphOrder := [".notdef", ".space"];
  }

  /** What _generate_color_font leaves to the file writing that follows:
      the colour glyphs, the generator's apply_ufo step and the binary to
      compile, if any. */
  datatype Generated<P> = Generated(colorGlyphs: seq<ColorGlyphs.ColorGlyph<P>>, ufoStep: UfoStep,
                                    ttfont: Option<(Compiled, TtfontStep)>)

  /** The glyph order update of _generate_color_font: append the colour
      glyphs' names, whose ids follow the glyph order so far, and check that
      each id is then its name's index. */
  method AppendColorGlyphs<P>(ufo: Font, colorGlyphs: seq<ColorGlyphs.ColorGlyph<P>>, ghost glyphs0: map<string, GlyphEntry>)
    requires ufo.Valid() && forall x :: x in ufo.glyphOrder ==> x in glyphs0
    requires NoRepeats(GlyphNamesOf(colorGlyphs))
    requires forall x :: x in GlyphNamesOf(colorGlyphs) ==> x !in glyphs0 && x in ufo.glyphs
    requires forall k :: 0 <= k < |colorGlyphs| ==> colorGlyphs[k].glyphId == |ufo.glyphOrder| + k
    modifies ufo
    ensures ufo.Valid() && ufo.glyphOrder == old(ufo.glyphOrder) + GlyphNamesOf(colorGlyphs)
    ensures Placed(ufo.glyphOrder, colorGlyphs)
    ensures ufo.glyphs == old(ufo.glyphs) && ufo.layers == old(ufo.layers) && ufo.unitsPerEm == old(ufo.unitsPerEm)
  {
    var order := ufo.glyphOrder + GlyphNamesOf(colorGlyphs);
    // the source's assertion that each glyph id is its name's index
    PlacedAppend(ufo.glyphOrder, glyphs0, ufo.glyphs, colorGlyphs);
    ufo.glyphOrder := order;
  }

  /** Appending the colour glyphs' fresh, distinct names to a glyph order
      places each glyph at its id and keeps the order valid. */
  lemma PlacedAppend<P>(order0: seq<string>, glyphs0: map<string, GlyphEntry>, glyphs: map<string, GlyphEntry>,
                        gs: seq<ColorGlyphs.ColorGlyph<P>>)
    requires NoRepeats(order0) && forall x :: x in order0 ==> x in glyphs0 && x in glyphs
    requires NoRepeats(GlyphNamesOf(gs))
    requires forall x :: x in GlyphNamesOf(gs) ==> x !in glyphs0 && x in glyphs
    requires forall k :: 0 <= k < |gs| ==> gs[k].glyphId == |order0| + k
    ensures var order := order0 + GlyphNamesOf(gs);
            && NoRepeats(order) && (forall x :: x in order ==> x in glyphs)
            && Placed(order, gs)
  {
    var names := GlyphNamesOf(gs);
    var order := order0 + names;
    AppendFresh(order0, glyphs0, names);
    GlyphIdsAreIndexes(order, |order0|, gs);
    assert order[|order| - |gs|..] == names;
    forall x | x in order ensures x in glyphs {
      if x !in order0 {
        assert x in names;
      }
    }
  }

  /** A new UFO with the blank glyphs added: its glyph order still starts
      with .notdef and .space and names only glyphs it has. */
  method UfoWithBlanks(config: Config.FontConfig, inputs: seq<InputGlyph>, digest: string -> string)
    returns (ufo: Font, r: Outcome)
    requires IsDigest(digest)
    ensures fresh(ufo)
    ensures r.Fail? ==> r.error == KeyError
    ensures r.Pass? <==> BlanksFit(NewGlyphs(config), NeedBlanks(inputs), BlankNames(digest))
    ensures r.Pass? ==> ufo.Valid() && ufo.unitsPerEm == config.upem
    ensures r.Pass? ==> 2 <= |ufo.glyphOrder| && ufo.glyphOrder[..2] == [".notdef", ".space"]
  {
    ufo := NewUfo(config);
    r := EnsureCodepointsWillHaveGlyphs(ufo, inputs, digest);
  }

  /** The UFO part of _generate_color_font: make the UFO, add the blanks
      and the colour glyphs, and append the colour glyphs' names to the
      glyph order. */
  method BuildColorUfo<P(==)>(config: Config.FontConfig, inputs: seq<InputGlyph>, digest: string -> string,
                              env: ColorGlyphs.Env<P>)
    returns (ufo: Font, r: Result<seq<ColorGlyphs.ColorGlyph<P>>>)
    requires IsDigest(digest)
    ensures fresh(ufo)
    ensures r.Ok? ==> ufo.Valid() && ufo.unitsPerEm == config.upem && |inputs| <= |ufo.glyphOrder|
    ensures r.Ok? ==> 2 <= |ufo.glyphOrder| && ufo.glyphOrder[..2] == [".notdef", ".space"]
    ensures r.Ok? ==> Placed(ufo.glyphOrder, r.value)
    ensures r.Ok? ==> AllMadeFrom(config, r.value, inputs, |ufo.glyphOrder| - |inputs|, GlyphNamer(digest), env)
  {
    var blanks;
    ufo, blanks := UfoWithBlanks(config, inputs, digest);
    if blanks.Fail? {
      return ufo, Err(blanks.error);
    }
    ghost var order0 := ufo.glyphOrder;
    ghost var glyphs0 := ufo.glyphs;
    var made := CreateColorGlyphs(config, ufo, inputs, |ufo.glyphOrder|, digest, env);
    if made.Err? {
      return ufo, Err(made.error);
    }
    AppendColorGlyphs(ufo, made.value, glyphs0);
    assert ufo.glyphOrder[..|order0|] == order0;
    r := made;
  }

  /** _generate_color_font: make the UFO with its colour glyphs, look up the
      format's generator and choose the binary. */
  method GenerateColorFont<P(==)>(config: Config.FontConfig, inputs: seq<InputGlyph>, digest: string -> string,
                                  env: ColorGlyphs.Env<P>)
    returns (ufo: Font, r: Result<Generated<P>>)
    requires IsDigest(digest)
    ensures fresh(ufo)
    ensures r.Ok? ==> ufo.Valid() && ufo.unitsPerEm == config.upem && |inputs| <= |ufo.glyphOrder|
    ensures r.Ok? ==> 2 <= |ufo.glyphOrder| && ufo.glyphOrder[..2] == [".notdef", ".space"]
    ensures r.Ok? ==> Placed(ufo.glyphOrder, r.value.colorGlyphs)
    ensures r.Ok? ==> AllMadeFrom(config, r.value.colorGlyphs, inputs, |ufo.glyphOrder| - |inputs|, GlyphNamer(digest), env)
    ensures r.Ok? ==> Generator(config.colorFormat).Some? && r.value.ufoStep == Generator(config.colorFormat).value.applyUfo
    ensures r.Ok? ==> MakeTtfont(config) == Ok(r.value.ttfont)
  {
    var made;
    ufo, made := BuildColorUfo(config, inputs, digest, env);
    if made.Err? {
      return ufo, Err(made.error);
    }
    var gen := Generator(config.colorFormat);
    if gen.None? {
      return ufo, Err(KeyError);
    }
    if gen.value.applyUfo == NotImplementedUfo {
      return ufo, Err(NotImplementedError);
    }
    var ttfont := MakeTtfont(config);
    if ttfont.Err? {
      return ufo, Err(ttfont.error);
    }
    r := Ok(Generated(made.value, gen.value.applyUfo, ttfont.value));
  }

  /** Appending fresh, distinct names to a glyph order without repeats
      keeps it so. */
  lemma AppendFresh(order0: seq<string>, glyphs0: map<string, GlyphEntry>, names: seq<string>)
    requires NoRepeats(order0) && forall x :: x in order0 ==> x in glyphs0
    requires NoRepeats(names) && forall x :: x in names ==> x !in glyphs0
    ensures NoRepeats(order0 + names)
  {
    var order := order0 + names;
    forall i, j | 0 <= i < j < |order| ensures order[i] != order[j] {
      if i < |order0| <= j {
        assert order[i] in order0 && order[j] == names[j - |order0|];
      } else if |order0| <= i {
        assert order[i] == names[i - |order0|] && order[j] == names[j - |order0|];
      }
    }
  }

  /** In a glyph order without repeats that has each glyph's name at its
      id, each id is the index of that name. */
  lemma GlyphIdsAreIndexes<P>(order: seq<string>, base: nat, gs: seq<ColorGlyphs.ColorGlyph<P>>)
    requires NoRepeats(order) && |order| == base + |gs|
    requires forall i :: 0 <= i < |gs| ==> gs[i].glyphId == base + i
    requires forall i :: 0 <= i < |gs| ==> order[base + i] == gs[i].glyphName
    ensures forall i :: 0 <= i < |gs| ==> IndexOf(order, gs[i].glyphName) == Ok(gs[i].glyphId)
  {
    forall i | 0 <= i < |gs| ensures IndexOf(order, gs[i].glyphName) == Ok(gs[i].glyphId) {
      IndexOfNoRepeats(order, base + i);
    }
  }

  // _inputs: pair each SVG file with its code points and its parse.

  /** The input for one file: its code point sequence is looked up by file
      name, and a missing or empty one is a ValueError; an SVG that does not
      parse is an OSError (IOError). */
  function InputFor(codepoints: map<string, seq<Codepoint>>, parse: string -> Option<seq<ColorGlyphs.Shape>>,
                    svgFile: string): (r: Result<InputGlyph>)
    ensures r.Ok? <==> Config.PathName(svgFile) in codepoints && |codepoints[Config.PathName(svgFile)]| > 0
                       && parse(svgFile).Some?
    ensures r.Ok? ==> r.value == InputGlyph(svgFile, codepoints[Config.PathName(svgFile)], parse(svgFile).value)
    ensures r.Err? && (Config.PathName(svgFile) !in codepoints || codepoints[Config.PathName(svgFile)] == [])
            ==> r.error == ValueError
    ensures r.Err? && Config.PathName(svgFile) in codepoints && codepoints[Config.PathName(svgFile)] != []
            ==> r.error == OSError
  {
    var name := Config.PathName(svgFile);
    if name !in codepoints || |codepoints[name]| == 0 then Err(ValueError)
    else
      match parse(svgFile)
      case None => Err(OSError)
      case Some(svg) => Ok(InputGlyph(svgFile, codepoints[name], svg))
  }

  function InputsFor(codepoints: map<string, seq<Codepoint>>, parse: string -> Option<seq<ColorGlyphs.Shape>>,
                     svgFiles: seq<string>): (r: seq<Result<InputGlyph>>)
    ensures |r| == |svgFiles| && forall k :: 0 <= k < |r| ==> r[k] == InputFor(codepoints, parse, svgFiles[k])
  {
    seq(|svgFiles|, k requires 0 <= k < |svgFiles| => InputFor(codepoints, parse, svgFiles[k]))
  }

  /** The loop of _inputs, run to the end: the error of the first file that
      fails, else one input per file in file order. */
  method Inputs(codepoints: map<string, seq<Codepoint>>, parse: string -> Option<seq<ColorGlyphs.Shape>>,
                svgFiles: seq<string>) returns (r: Result<seq<InputGlyph>>)
    ensures r == Collect(InputsFor(codepoints, parse, svgFiles))
  {
    ghost var all := InputsFor(codepoints, parse, svgFiles);
    var inputs := [];
    for i := 0 to |svgFiles|
      invariant Collect(all[..i]) == Ok(inputs)
    {
      var input := InputFor(codepoints, parse, svgFiles[i]);
      assert input == all[i];
      CollectSnoc(all, i);
      if input.Err? {
        CollectStopsAtError(all, i + 1);
        return Err(input.error);
      }
      inputs := inputs + [input.value];
    }
    assert all[..|svgFiles|] == all;
    r := Ok(inputs);
  }

  /** Every file gets an input exactly when each has a non-empty code point
      sequence and parses; the inputs then follow the files. A file without
      code points stops the run with a ValueError. */
  lemma InputsResult(codepoints: map<string, seq<Codepoint>>, parse: string -> Option<seq<ColorGlyphs.Shape>>,
                     svgFiles: seq<string>)
    ensures var r := Collect(InputsFor(codepoints, parse, svgFiles));
            && (r.Ok? <==> forall k :: 0 <= k < |svgFiles| ==>
                  Config.PathName(svgFiles[k]) in codepoints && |codepoints[Config.PathName(svgFiles[k])]| > 0
                  && parse(svgFiles[k]).Some?)
            && (r.Ok? ==> |r.value| == |svgFiles| && forall k :: 0 <= k < |svgFiles| ==>
                  r.value[k].filename == svgFiles[k] && r.value[k].codepoints == codepoints[Config.PathName(svgFiles[k])])
  {
    var rs := InputsFor(codepoints, parse, svgFiles);
    CollectOk(rs);
    var r := Collect(rs);
    if r.Ok? {
      forall k | 0 <= k < |svgFiles|
        ensures r.value[k].filename == svgFiles[k] && r.value[k].codepoints == codepoints[Config.PathName(svgFiles[k])]
      {
        assert rs[k].Ok? && r.value[k] == rs[k].value;
      }
    } else {
      var k :| 0 <= k < |rs| && !rs[k].Ok?;
      assert rs[k] == InputFor(codepoints, parse, svgFiles[k]);
    }
  }

  /** When the first file has no code point sequence, _inputs raises
      ValueError before parsing anything. */
  lemma InputsMissingCodepoints(codepoints: map<string, seq<Codepoint>>, parse: string -> Option<seq<ColorGlyphs.Shape>>,
                                svgFiles: seq<string>)
    requires |svgFiles| > 0 && Config.PathName(svgFiles[0]) !in codepoints
    ensures Collect(InputsFor(codepoints, parse, svgFiles)) == Err(ValueError)
  {
    var rs := InputsFor(codepoints, parse, svgFiles);
    assert rs[..1] == [InputFor(codepoints, parse, svgFiles[0])];
    assert rs[..1][..0] == [];
    CollectStopsAtError(rs, 1);
  }
}
