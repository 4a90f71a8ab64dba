// The part of a ufoLib2 Font that the modelled code reads and changes: the
// glyphs of the default layer (unicode and advance width), the glyph
// order and the names of the layers. ufoLib2 itself is not part of this
// model; its `newGlyph` and `newLayer` are stated here by what they do to
// this state.
module Ufo {
  import opened Wrappers
  import opened Seqs

  /** A glyph as far as the modelled code sets it up: its unicode, if any,
      and its advance width. */
  datatype GlyphEntry = GlyphEntry(unicode: Option<nat>, width: int)

  class Font {
    /** The glyphs of the default layer, by name. */
    var glyphs: map<string, GlyphEntry>
    /** lib["public.glyphOrder"], which adding a glyph does not touch. */
    var glyphOrder: seq<string>
    /** The names of the font's layers, in creation order. */
    var layers: seq<string>
    /** info.unitsPerEm.  ufoLib2 leaves it unset (None) in a new font;
        the model starts it at 1000 as a placeholder, which every modelled
        caller overwrites (`_ufo` sets the configured upem) before it is
        read. */
    var unitsPerEm: int

    /** The glyph order names each glyph at most once, and only glyphs the
        font has. */
    ghost predicate Valid()
      reads this
    {
      NoRepeats(glyphOrder) && forall n :: n in glyphOrder ==> n in glyphs
    }

    /** ufoLib2.Font(): no glyphs, an empty glyph order and the default
        layer; unitsPerEm holds the placeholder 1000 until it is set. */
    constructor ()
      ensures Valid() && glyphs == map[] && glyphOrder == [] && layers == ["public.default"]
      ensures unitsPerEm == 1000
    {
      glyphs := map[];
      glyphOrder := [];
      layers := ["public.default"];
      unitsPerEm := 1000;
    }

    /** newGlyph(name), followed by setting its unicode and width; a name
        already taken raises KeyError. */
    method NewGlyph(name: string, unicode: Option<nat>, width: int) returns (r: Outcome)
      modifies this
      ensures r.Pass? <==> name !in old(glyphs)
      ensures r.Fail? ==> r.error == KeyError && glyphs == old(glyphs)
      ensures r.Pass? ==> glyphs == old(glyphs)[name := GlyphEntry(unicode, width)]
      ensures glyphOrder == old(glyphOrder) && layers == old(layers) && unitsPerEm == old(unitsPerEm)
      ensures old(Valid()) ==> Valid()
    {
      if name in glyphs {
        return Fail(KeyError);
      }
      glyphs := glyphs[name := GlyphEntry(unicode, width)];
      r := Pass;
    }

    /** newLayer(name); a name already taken raises KeyError. */
    method NewLayer(name: string) returns (r: Outcome)
      modifies this
      ensures r.Pass? <==> name !in old(layers)
      ensures r.Fail? ==> r.error == KeyError
      ensures layers == old(layers) + (if r.Pass? then [name] else [])
      ensures glyphs == old(glyphs) && glyphOrder == old(glyphOrder) && unitsPerEm == old(unitsPerEm)
      ensures old(Valid()) ==> Valid()
    {
      if name in layers {
        return Fail(KeyError);
      }
      layers := layers + [name];
      r := Pass;
    }
  }
}
