// src/nanoemoji/glyph_reuse.py: the cache that decides whether a path can
// be drawn as an affine transform of a glyph already made.
module GlyphReuse {
  import opened Wrappers
  import opened Text
  import opened Geometry
  import opened Fixed

  /** The picosvg helpers the cache calls: `normalize(path, tolerance).d`
      and `affine_between(path_from, path_to, tolerance)`. */
  datatype Ops = Ops(normalize: (string, real) -> string,
                     affineBetween: (string, string, real) -> Option<Affine>)

  /** ReuseResult(glyph_name, transform) */
  datatype ReuseResult = ReuseResult(glyphName: string, transform: Affine)

  /** The reuse tolerance that switches reuse off. */
  const Disabled: real := -1.0

  /** The key a path is stored and looked up under: its normalized form, or
      the path itself when reuse is off. */
  function PathKey(path: string, reuseTolerance: real, ops: Ops): string
  {
    if reuseTolerance != Disabled then ops.normalize(path, reuseTolerance / 10.0) else path
  }

  /** try_reuse(path) on the cache's state. */
  function Reuse(known: set<string>, reusable: map<string, (string, string)>, reuseTolerance: real,
                 ops: Ops, path: string): (r: Result<Option<ReuseResult>>)
    ensures r.Err? <==> path in known || !StartsWith(path, "M")
    ensures r.Err? ==> r.error == AssertionError
    ensures r.Ok? ==>
              (r.value.Some? <==>
                 && reuseTolerance != Disabled
                 && PathKey(path, reuseTolerance, ops) in reusable
                 && var glyphPath := reusable[PathKey(path, reuseTolerance, ops)].1;
                    var affine := ops.affineBetween(glyphPath, path, reuseTolerance);
                    affine.Some? && FixedSafe(affine.value.Coefficients()))
    ensures r.Ok? && r.value.Some? ==>
              var entry := reusable[PathKey(path, reuseTolerance, ops)];
              && r.value.value.glyphName == entry.0
              && ops.affineBetween(entry.1, path, reuseTolerance) == Some(r.value.value.transform)
  {
    if path in known || !StartsWith(path, "M") then Err(AssertionError)
    else if reuseTolerance == Disabled then Ok(None)
    else
      var key := PathKey(path, reuseTolerance, ops);
      if key !in reusable then Ok(None)
      else
        var (glyphName, glyphPath) := reusable[key];
        match ops.affineBetween(glyphPath, path, reuseTolerance)
        case None => Ok(None)
        case Some(affine) =>
          if !FixedSafe(affine.Coefficients()) then Ok(None)
          else Ok(Some(ReuseResult(glyphName, affine)))
  }

  /** What the cache keeps true: every stored path is a path, stored under
      its own key, by a glyph name the cache knows. */
  ghost predicate Consistent(known: set<string>, reusable: map<string, (string, string)>,
                             reuseTolerance: real, ops: Ops)
  {
    forall key :: key in reusable ==>
      && reusable[key].0 in known
      && StartsWith(reusable[key].1, "M")
      && key == PathKey(reusable[key].1, reuseTolerance, ops)
  }

  /** add_glyph(glyph_name, glyph_path) on the cache's state. */
  function Add(known: set<string>, reusable: map<string, (string, string)>, reuseTolerance: real,
               ops: Ops, glyphName: string, glyphPath: string): (r: Result<(set<string>, map<string, (string, string)>)>)
    ensures r.Err? <==> !StartsWith(glyphPath, "M")
    ensures r.Err? ==> r.error == AssertionError
    ensures r.Ok? ==> r.value.0 == known + {glyphName}
    ensures r.Ok? ==> PathKey(glyphPath, reuseTolerance, ops) in r.value.1 &&
                      r.value.1[PathKey(glyphPath, reuseTolerance, ops)] == (glyphName, glyphPath)
    ensures r.Ok? ==> forall key :: key != PathKey(glyphPath, reuseTolerance, ops) ==>
                        (key in r.value.1 <==> key in reusable) && (key in reusable ==> r.value.1[key] == reusable[key])
  {
    if !StartsWith(glyphPath, "M") then Err(AssertionError)
    else Ok((known + {glyphName}, reusable[PathKey(glyphPath, reuseTolerance, ops) := (glyphName, glyphPath)]))
  }

  /** Adding a glyph keeps the cache consistent. */
  lemma AddConsistent(known: set<string>, reusable: map<string, (string, string)>, reuseTolerance: real,
                      ops: Ops, glyphName: string, glyphPath: string)
    requires Consistent(known, reusable, reuseTolerance, ops)
    requires Add(known, reusable, reuseTolerance, ops, glyphName, glyphPath).Ok?
    ensures var (known', reusable') := Add(known, reusable, reuseTolerance, ops, glyphName, glyphPath).value;
            Consistent(known', reusable', reuseTolerance, ops)
  {
  }

  /** In a consistent cache the glyph a path is drawn from is a known
      glyph, and never the path's own name. */
  lemma ReusedIsKnown(known: set<string>, reusable: map<string, (string, string)>, reuseTolerance: real,
                      ops: Ops, path: string)
    requires Consistent(known, reusable, reuseTolerance, ops)
    requires Reuse(known, reusable, reuseTolerance, ops, path).Ok?
    requires Reuse(known, reusable, reuseTolerance, ops, path).value.Some?
    ensures Reuse(known, reusable, reuseTolerance, ops, path).value.value.glyphName in known
    ensures Reuse(known, reusable, reuseTolerance, ops, path).value.value.glyphName != path
  {
  }

  /** With reuse off nothing is ever reused, whatever was added. */
  lemma DisabledNeverReuses(known: set<string>, reusable: map<string, (string, string)>, ops: Ops, path: string)
    ensures var r := Reuse(known, reusable, Disabled, ops, path);
            r.Err? || r.value.None?
  {
  }

  /** A path added as a glyph is found again for any other path that
      normalizes the same way, when affine_between lands in Fixed range. */
  lemma ReuseAfterAdd(known: set<string>, reusable: map<string, (string, string)>, reuseTolerance: real,
                      ops: Ops, glyphName: string, glyphPath: string, path: string, affine: Affine)
    requires reuseTolerance != Disabled
    requires StartsWith(glyphPath, "M") && StartsWith(path, "M") && path !in known && path != glyphName
    requires PathKey(path, reuseTolerance, ops) == PathKey(glyphPath, reuseTolerance, ops)
    requires ops.affineBetween(glyphPath, path, reuseTolerance) == Some(affine)
    requires FixedSafe(affine.Coefficients())
    ensures var (known', reusable') := Add(known, reusable, reuseTolerance, ops, glyphName, glyphPath).value;
            Reuse(known', reusable', reuseTolerance, ops, path) == Ok(Some(ReuseResult(glyphName, affine)))
  {
    var (known', reusable') := Add(known, reusable, reuseTolerance, ops, glyphName, glyphPath).value;
    assert path !in known';
  }

  /** An affine out of Fixed range is not offered. */
  lemma OverflowNotReused(known: set<string>, reusable: map<string, (string, string)>, reuseTolerance: real,
                          ops: Ops, path: string)
    requires reuseTolerance != Disabled && path !in known && StartsWith(path, "M")
    requires PathKey(path, reuseTolerance, ops) in reusable
    requires var affine := ops.affineBetween(reusable[PathKey(path, reuseTolerance, ops)].1, path, reuseTolerance);
             affine.Some? && !FixedSafe(affine.value.Coefficients())
    ensures Reuse(known, reusable, reuseTolerance, ops, path) == Ok(None)
  {
  }

  /** GlyphReuseCache */
  class GlyphReuseCache {
    const reuseTolerance: real
    /** normalize works on unit vectors, ten times finer than the viewbox. */
    const normalizeTolerance: real
    const ops: Ops
    var knownGlyphs: set<string>
    var reusablePaths: map<string, (string, string)>

    ghost predicate Valid()
      reads this
    {
      && normalizeTolerance == reuseTolerance / 10.0
      && Consistent(knownGlyphs, reusablePaths, reuseTolerance, ops)
    }

    constructor (reuseTolerance: real, ops: Ops)
      ensures Valid()
      ensures this.reuseTolerance == reuseTolerance && this.ops == ops
      ensures knownGlyphs == {} && reusablePaths == map[]
    {
      this.reuseTolerance := reuseTolerance;
      this.normalizeTolerance := reuseTolerance / 10.0;
      this.ops := ops;
      knownGlyphs := {};
      reusablePaths := map[];
    }

    /** try_reuse(path) */
    method TryReuse(path: string) returns (r: Result<Option<ReuseResult>>)
      requires Valid()
      ensures r == Reuse(knownGlyphs, reusablePaths, reuseTolerance, ops, path)
    {
      if path in knownGlyphs || !StartsWith(path, "M") {
        return Err(AssertionError);
      }
      if reuseTolerance == Disabled {
        return Ok(None);
      }
      var normPath := ops.normalize(path, normalizeTolerance);
      if normPath !in reusablePaths {
        return Ok(None);
      }
      var (glyphName, glyphPath) := reusablePaths[normPath];
      var affine := ops.affineBetween(glyphPath, path, reuseTolerance);
      if affine.None? {
        return Ok(None);
      }
      if !FixedSafe(affine.value.Coefficients()) {
        return Ok(None);
      }
      return Ok(Some(ReuseResult(glyphName, affine.value)));
    }

    /** add_glyph(glyph_name, glyph_path) */
    method AddGlyph(glyphName: string, glyphPath: string) returns (r: Outcome)
      requires Valid()
      modifies this
      ensures Valid()
      ensures var added := Add(old(knownGlyphs), old(reusablePaths), reuseTolerance, ops, glyphName, glyphPath);
              if added.Ok? then r == Pass && knownGlyphs == added.value.0 && reusablePaths == added.value.1
              else r == Fail(added.error) && knownGlyphs == old(knownGlyphs) && reusablePaths == old(reusablePaths)
    {
      if !StartsWith(glyphPath, "M") {
        return Fail(AssertionError);
      }
      var normPath;
      if reuseTolerance != Disabled {
        normPath := ops.normalize(glyphPath, normalizeTolerance);
      } else {
        normPath := glyphPath;
      }
      AddConsistent(knownGlyphs, reusablePaths, reuseTolerance, ops, glyphName, glyphPath);
      reusablePaths := reusablePaths[normPath := (glyphName, glyphPath)];
      knownGlyphs := knownGlyphs + {glyphName};
      r := Pass;
    }

    /** is_known_glyph(glyph_name) */
    predicate IsKnownGlyph(glyphName: string)
      reads this
    {
      glyphName in knownGlyphs
    }
  }
}
