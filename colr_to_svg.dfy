// The lookups of the COLR-to-SVG converter (src/nanoemoji/colr_to_svg.py):
// palette colours, the region a glyph occupies, which glyphs a COLR table
// colours, the transform attribute of a painted element and the choice of
// converter by table version.
module ColrToSvg {
  import opened Wrappers
  import opened Geometry
  import Svg

  // _color

  const ForegroundColorIndex: nat := 0xFFFF

  /** A CPAL palette entry, each channel a byte. */
  datatype CpalColor = CpalColor(red: nat, green: nat, blue: nat, alpha: nat)

  /** colors.Color: integer channels and a fractional alpha. */
  datatype Color = Color(red: nat, green: nat, blue: nat, alpha: real)

  /** Color.fromstring("black") */
  const Black: Color := Color(0, 0, 0, 1.0)

  /** The colour's alpha: the requested alpha times the CPAL alpha, as a
      fraction of 255. */
  function ScaledAlpha(alpha: real, cpalAlpha: nat): real
  {
    alpha * (cpalAlpha as real) / 255.0
  }

  lemma ScaledAlphaRange(alpha: real, cpalAlpha: nat)
    requires 0.0 <= alpha <= 1.0 && cpalAlpha <= 255
    ensures 0.0 <= ScaledAlpha(alpha, cpalAlpha) <= 1.0
    ensures alpha == 1.0 && cpalAlpha == 255 ==> ScaledAlpha(alpha, cpalAlpha) == 1.0
  {
    var x := cpalAlpha as real;
    MulNonNegative(alpha, x);
    MulNonNegative(1.0 - alpha, x);
    assert (1.0 - alpha) * x == x - alpha * x;
    assert 0.0 <= alpha * x <= x <= 255.0;
  }

  lemma MulNonNegative(a: real, b: real)
    requires 0.0 <= a && 0.0 <= b
    ensures 0.0 <= a * b
  {
  }

  /** _color: the first palette is looked up before anything else (IndexError
      when the font has none); the foreground index is black whatever the
      palette holds; an index past the palette is an IndexError; otherwise
      the channels are copied and the CPAL alpha is scaled by `alpha`. */
  function PaletteColor(palettes: seq<seq<CpalColor>>, paletteIndex: nat, alpha: real): (r: Result<Color>)
    ensures r.Err? <==> |palettes| == 0 || (paletteIndex != ForegroundColorIndex && paletteIndex >= |palettes[0]|)
    ensures r.Err? ==> r.error == IndexError
    ensures |palettes| > 0 && paletteIndex == ForegroundColorIndex ==> r == Ok(Black)
    ensures |palettes| > 0 && paletteIndex != ForegroundColorIndex && paletteIndex < |palettes[0]| ==>
              var c := palettes[0][paletteIndex];
              r == Ok(Color(c.red, c.green, c.blue, ScaledAlpha(alpha, c.alpha)))
  {
    if |palettes| == 0 then Err(IndexError)
    else
      var palette := palettes[0];
      if paletteIndex == ForegroundColorIndex then Ok(Black)
      else if paletteIndex >= |palette| then Err(IndexError)
      else
        var c := palette[paletteIndex];
        Ok(Color(c.red, c.green, c.blue, ScaledAlpha(alpha, c.alpha)))
  }

  /** A CPAL colour whose channels are bytes. */
  predicate IsByteColor(c: CpalColor)
  {
    c.red < 256 && c.green < 256 && c.blue < 256 && c.alpha < 256
  }

  /** With byte channels and an alpha in [0, 1], the colour's channels stay
      bytes and its alpha stays in [0, 1]; at alpha 1 a fully opaque entry
      is fully opaque. */
  lemma ColorInRange(palettes: seq<seq<CpalColor>>, paletteIndex: nat, alpha: real)
    requires |palettes| > 0 && forall k :: 0 <= k < |palettes[0]| ==> IsByteColor(palettes[0][k])
    requires 0.0 <= alpha <= 1.0
    ensures var r := PaletteColor(palettes, paletteIndex, alpha);
            r.Ok? ==> r.value.red < 256 && r.value.green < 256 && r.value.blue < 256 && 0.0 <= r.value.alpha <= 1.0
    ensures var r := PaletteColor(palettes, paletteIndex, 1.0);
            r.Ok? && paletteIndex < |palettes[0]| && palettes[0][paletteIndex].alpha == 255 ==> r.value.alpha == 1.0
  {
    if paletteIndex != ForegroundColorIndex && paletteIndex < |palettes[0]| {
      var c := palettes[0][paletteIndex];
      ScaledAlphaRange(alpha, c.alpha);
      ScaledAlphaRange(1.0, c.alpha);
    }
  }

  /** The foreground colour does not depend on the palette. */
  lemma ForegroundIgnoresPalette(p: seq<seq<CpalColor>>, q: seq<seq<CpalColor>>, alpha: real, beta: real)
    requires |p| > 0 && |q| > 0
    ensures PaletteColor(p, ForegroundColorIndex, alpha) == PaletteColor(q, ForegroundColorIndex, beta) == Ok(Black)
  {
  }

  // glyph_region

  /** picosvg's Rect(x, y, w, h). */
  datatype Rect = Rect(x: int, y: int, w: int, h: int)

  /** The tables glyph_region reads: hmtx advances, the glyf xMax of each
      glyph (None for an empty glyph, which has no bounds) and the OS/2
      typographic ascender and descender. */
  datatype Metrics = Metrics(advance: map<string, int>, xMax: map<string, Option<int>>, typoAscender: int, typoDescender: int)

  /** glyph_region: the hmtx advance, or the glyf xMax when that advance is
      0, as the width of Rect(0, -ascender, width, ascender - descender); a
      glyph missing from a table it needs is a KeyError, and reading xMax
      of an empty glyph an AttributeError. */
  function GlyphRegion(m: Metrics, glyphName: string): (r: Result<Rect>)
    ensures r.Ok? <==> glyphName in m.advance && (m.advance[glyphName] == 0 ==> glyphName in m.xMax && m.xMax[glyphName].Some?)
    ensures r.Err? ==> r.error == (if glyphName in m.advance && glyphName in m.xMax then AttributeError else KeyError)
    ensures r.Ok? ==>
              var width := if m.advance[glyphName] != 0 then m.advance[glyphName] else m.xMax[glyphName].value;
              r.value == Rect(0, -m.typoAscender, width, m.typoAscender - m.typoDescender)
  {
    if glyphName !in m.advance then Err(KeyError)
    else
      var width := m.advance[glyphName];
      if width == 0 && glyphName !in m.xMax then Err(KeyError)
      else if width == 0 && m.xMax[glyphName].None? then Err(AttributeError)
      else
        var width := if width == 0 then m.xMax[glyphName].value else width;
        Ok(Rect(0, -m.typoAscender, width, m.typoAscender - m.typoDescender))
  }

  /** The ascender and descender that map_font_space_to_viewbox reads back
      from a region: -y and -(h - ascender). */
  function RegionAscender(region: Rect): int { -region.y }
  function RegionDescender(region: Rect): int { -(region.h - RegionAscender(region)) }

  /** Reading a glyph's region back gives the OS/2 ascender and descender,
      so map_font_space_to_viewbox's assertions hold exactly when the
      ascender is not negative and the descender not positive. */
  lemma RegionRoundTrip(m: Metrics, glyphName: string)
    requires GlyphRegion(m, glyphName).Ok?
    ensures var region := GlyphRegion(m, glyphName).value;
            && RegionAscender(region) == m.typoAscender
            && RegionDescender(region) == m.typoDescender
            && (region.y <= 0 <==> m.typoAscender >= 0)
  {
  }

  // colr_glyphs

  /** The parts of a COLR table colr_glyphs reads: the version, the base
      glyphs of the version 0 ColorLayers (in key order) and those of the
      version 1 BaseGlyphPaintRecords. */
  datatype Colr = Colr(version: nat, colorLayers: seq<string>, basePaintGlyphs: seq<string>)

  function GlyphIds(names: seq<string>, glyphId: string -> nat): (r: seq<nat>)
    ensures |r| == |names| && forall k :: 0 <= k < |names| ==> r[k] == glyphId(names[k])
  {
    seq(|names|, k requires 0 <= k < |names| => glyphId(names[k]))
  }

  /** colr_glyphs: a version 0 table yields the ids of its ColorLayers keys;
      any other version must be 1 and have no ColorLayers (an
      AssertionError otherwise) and yields the ids of its paint records'
      base glyphs. */
  function ColrGlyphs(colr: Colr, glyphId: string -> nat): (r: Result<seq<nat>>)
    ensures r.Ok? <==> colr.version == 0 || (colr.version == 1 && colr.colorLayers == [])
    ensures r.Err? ==> r.error == AssertionError
    ensures r.Ok? ==>
              var names := if colr.version == 0 then colr.colorLayers else colr.basePaintGlyphs;
              |r.value| == |names| && forall k :: 0 <= k < |names| ==> r.value[k] == glyphId(names[k])
  {
    if colr.version == 0 then Ok(GlyphIds(colr.colorLayers, glyphId))
    else if colr.version != 1 || colr.colorLayers != [] then Err(AssertionError)
    else Ok(GlyphIds(colr.basePaintGlyphs, glyphId))
  }

  /** A version 0 table's paint records are not consulted, nor a version 1
      table's layers (which must be empty). */
  lemma ColrGlyphsIgnore(colr: Colr, other: seq<string>, glyphId: string -> nat)
    ensures colr.version == 0 ==> ColrGlyphs(colr, glyphId) == ColrGlyphs(colr.(basePaintGlyphs := other), glyphId)
    ensures colr.version != 0 ==> ColrGlyphs(colr.(colorLayers := []), glyphId).Ok? == (colr.version == 1)
  {
  }

  // _apply_transform

  /** What _apply_transform needs from picosvg: Affine2D.inverse,
      Affine2D.compose_ltr and the "matrix(...)" text of _svg_matrix. */
  datatype AffineOps = AffineOps(inverse: Affine -> Affine, composeLtr: seq<Affine> -> Affine, svgMatrix: Affine -> string)

  /** The transform attribute written for a non-identity transform: the
      transform moved into the view box's user space. */
  function TransformAttribute(transform: Affine, fontToVbox: Affine, ops: AffineOps): string
  {
    ops.svgMatrix(ops.composeLtr([ops.inverse(fontToVbox), transform, fontToVbox]))
  }

  /** _apply_transform: the identity sets nothing; any other transform sets
      the element's transform attribute and nothing else. Either way the
      user space for gradients is reset to the identity. */
  method ApplyTransform(transform: Affine, fontToVbox: Affine, el: Svg.Element, ops: AffineOps) returns (r: Affine)
    modifies el
    ensures r == Identity
    ensures transform == Identity ==> el.attrib == old(el.attrib)
    ensures transform != Identity ==> el.attrib == old(el.attrib)["transform" := TransformAttribute(transform, fontToVbox, ops)]
  {
    if transform == Identity {
      return Identity;
    }
    var svgTransform := ops.composeLtr([ops.inverse(fontToVbox), transform, fontToVbox]);
    el.attrib := el.attrib["transform" := ops.svgMatrix(svgTransform)];
    r := Identity;
  }

  // colr_to_svg

  datatype Converter = ColrV0ToSvgs | ColrV1ToSvgs

  /** The checks of colr_to_svg: exactly one palette (an AssertionError
      otherwise), then the converter for version 0 or 1; any other version
      is a NotImplementedError. */
  function ChooseConverter(paletteCount: nat, colrVersion: nat): (r: Result<Converter>)
    ensures r.Ok? <==> paletteCount == 1 && colrVersion <= 1
    ensures r.Ok? ==> (r.value == ColrV0ToSvgs <==> colrVersion == 0)
    ensures paletteCount != 1 ==> r == Err(AssertionError)
    ensures paletteCount == 1 && colrVersion > 1 ==> r == Err(NotImplementedError)
  {
    if paletteCount != 1 then Err(AssertionError)
    else if colrVersion == 0 then Ok(ColrV0ToSvgs)
    else if colrVersion == 1 then Ok(ColrV1ToSvgs)
    else Err(NotImplementedError)
  }

  /** The converter colr_to_svg picks covers the same glyphs colr_glyphs
      lists: version 0 converts the ColorLayers keys, version 1 the paint
      records, and a version 1 table with layers fails in colr_glyphs. */
  lemma ConverterMatchesGlyphs(colr: Colr, glyphId: string -> nat)
    requires ChooseConverter(1, colr.version).Ok?
    ensures ChooseConverter(1, colr.version).value == ColrV0ToSvgs ==>
              ColrGlyphs(colr, glyphId) == Ok(GlyphIds(colr.colorLayers, glyphId))
    ensures ChooseConverter(1, colr.version).value == ColrV1ToSvgs ==>
              (ColrGlyphs(colr, glyphId).Ok? <==> colr.colorLayers == []) &&
              (colr.colorLayers == [] ==> ColrGlyphs(colr, glyphId) == Ok(GlyphIds(colr.basePaintGlyphs, glyphId)))
  {
  }
}
