// Copying colour tables from a donor font into a target font that uses the
// same glyph names (src/nanoemoji/glue_together.py).  A font is an object
// whose glyph order and tables are updated in place; glyf entries, hmtx
// metrics and whole tables are opaque values, and fontTools' getGlyphName
// and the set of PaintGlyph glyph names are parameters.
module GlueTogether {
  import opened Wrappers
  import opened SvgDocs
  import opened Seqs

  class Font<G(==), M(==), T> {
    var glyphOrder: seq<string>
    var glyf: map<string, G>
    var hmtx: map<string, M>
    /** Whole tables by tag ("CPAL", "COLR", "SVG "). */
    var tables: map<string, T>
    /** docList of the SVG table. */
    var svgDocs: seq<SvgDoc>

    constructor (glyphOrder: seq<string>, glyf: map<string, G>, hmtx: map<string, M>, tables: map<string, T>, svgDocs: seq<SvgDoc>)
      ensures this.glyphOrder == glyphOrder && this.glyf == glyf && this.hmtx == hmtx
      ensures this.tables == tables && this.svgDocs == svgDocs
    {
      this.glyphOrder := glyphOrder;
      this.glyf := glyf;
      this.hmtx := hmtx;
      this.tables := tables;
      this.svgDocs := svgDocs;
    }
  }

  /** _svg_glyphs: (gid, glyph name) for every gid of every document. */
  function SvgGlyphs(docs: seq<SvgDoc>, glyphName: int -> string): (r: seq<(int, string)>)
    ensures |r| == |DocGids(docs)|
    ensures forall k :: 0 <= k < |r| ==> r[k] == (DocGids(docs)[k], glyphName(DocGids(docs)[k]))
  {
    var gids := DocGids(docs);
    seq(|gids|, k requires 0 <= k < |gids| => (gids[k], glyphName(gids[k])))
  }

  function Names(pairs: seq<(int, string)>): (r: seq<string>)
    ensures |r| == |pairs| && forall k :: 0 <= k < |pairs| ==> r[k] == pairs[k].1
  {
    seq(|pairs|, k requires 0 <= k < |pairs| => pairs[k].1)
  }

  /** The glyphs of `s` that are (inside) or are not (outside) in `names`, in order. */
  function Keep(s: seq<string>, names: set<string>, inside: bool): seq<string>
  {
    if |s| == 0 then [] else (if (s[0] in names) == inside then [s[0]] else []) + Keep(s[1..], names, inside)
  }

  lemma {:induction false} KeepMembers(s: seq<string>, names: set<string>, inside: bool)
    ensures forall x :: x in Keep(s, names, inside) <==> x in s && (x in names <==> inside)
  {
    if |s| > 0 {
      KeepMembers(s[1..], names, inside);
      assert s == [s[0]] + s[1..];
    }
  }

  lemma {:induction false} KeepAppend(a: seq<string>, b: seq<string>, names: set<string>, inside: bool)
    ensures Keep(a + b, names, inside) == Keep(a, names, inside) + Keep(b, names, inside)
  {
    if |a| > 0 {
      assert (a + b)[1..] == a[1..] + b;
      KeepAppend(a[1..], b, names, inside);
    } else {
      assert a + b == b;
    }
  }

  /** The inner while loop: append fillers, taken from the front, until
      the order is n long; popping an empty filler list raises IndexError.
      Gives the new order and the fillers left. */
  function Pad(order: seq<string>, filler: seq<string>, n: int): (r: Result<(seq<string>, seq<string>)>)
    ensures r.Err? <==> n - |order| > |filler|
    ensures r.Err? ==> r.error == IndexError
    ensures r.Ok? ==> r.value.0 + r.value.1 == order + filler &&
                      |r.value.0| == (if |order| < n then n else |order|)
    decreases n - |order|
  {
    if |order| >= n then Ok((order, filler))
    else if |filler| == 0 then Err(IndexError)
    else
      var r := Pad(order + [filler[0]], filler[1..], n);
      assert (order + [filler[0]]) + filler[1..] == order + filler;
      r
  }

  /** The splice of _copy_svg from some point on: each SVG glyph is
      appended once the order has reached its gid, and the fillers left at
      the end follow. */
  function Splice(pairs: seq<(int, string)>, filler: seq<string>, order: seq<string>): Result<seq<string>>
    decreases |pairs|
  {
    if |pairs| == 0 then Ok(order + filler)
    else
      var padded :- Pad(order, filler, pairs[0].0);
      Splice(pairs[1..], padded.1, padded.0 + [pairs[0].1])
  }

  /** The new glyph order _copy_svg gives the target. */
  function NewGlyphOrder(targetOrder: seq<string>, svgGlyphs: seq<(int, string)>): Result<seq<string>>
  {
    Splice(svgGlyphs, Keep(targetOrder, set k | 0 <= k < |svgGlyphs| :: svgGlyphs[k].1, false), [])
  }

  /** The splice loop of _copy_svg, on the target's glyph order and the
      donor's (gid, glyph name) pairs. */
  method SpliceGlyphOrder(targetOrder: seq<string>, svgGlyphs: seq<(int, string)>) returns (r: Result<seq<string>>)
    ensures r == NewGlyphOrder(targetOrder, svgGlyphs)
  {
    var svgNames := set k | 0 <= k < |svgGlyphs| :: svgGlyphs[k].1;
    var filler := Keep(targetOrder, svgNames, false);
    var order: seq<string> := [];
    var i := 0;
    while i < |svgGlyphs|
      invariant 0 <= i <= |svgGlyphs|
      invariant Splice(svgGlyphs[i..], filler, order) == NewGlyphOrder(targetOrder, svgGlyphs)
    {
      var gid := svgGlyphs[i].0;
      ghost var start := Pad(order, filler, gid);
      while |order| < gid
        invariant Pad(order, filler, gid) == start
        decreases gid - |order|
      {
        if |filler| == 0 {
          return Err(IndexError);
        }
        order := order + [filler[0]];
        filler := filler[1..];
      }
      assert svgGlyphs[i..][1..] == svgGlyphs[i + 1..];
      order := order + [svgGlyphs[i].1];
      i := i + 1;
    }
    r := Ok(order + filler);
  }

  /** _copy_svg: the target takes the new glyph order and the donor's SVG
      table.  A donor without an SVG table raises KeyError at the first
      `font["SVG "]` lookup, before the target changes. */
  method CopySvg<G, M, T>(target: Font<G, M, T>, donor: Font<G, M, T>, donorGlyphName: int -> string)
    returns (r: Outcome)
    requires target != donor
    modifies target
    ensures "SVG " !in donor.tables ==> r == Fail(KeyError) && unchanged(target)
    ensures "SVG " in donor.tables ==>
            var order := NewGlyphOrder(old(target.glyphOrder), SvgGlyphs(donor.svgDocs, donorGlyphName));
            if order.Err? then r == Fail(order.error) && unchanged(target)
            else
              r == Pass && target.glyphOrder == order.value &&
              target.tables == old(target.tables)["SVG " := donor.tables["SVG "]] &&
              target.glyf == old(target.glyf) && target.hmtx == old(target.hmtx) && target.svgDocs == donor.svgDocs
  {
    if "SVG " !in donor.tables {
      return Fail(KeyError);
    }
    var order := SpliceGlyphOrder(target.glyphOrder, SvgGlyphs(donor.svgDocs, donorGlyphName));
    if order.Err? {
      return Fail(order.error);
    }
    target.glyphOrder := order.value;
    target.tables := target.tables["SVG " := donor.tables["SVG "]];
    target.svgDocs := donor.svgDocs;
    r := Pass;
  }

  /** The splice keeps the fillers: the glyphs outside `names` are the
      fillers, in order. */
  lemma {:induction false} SpliceOutside(pairs: seq<(int, string)>, filler: seq<string>, order: seq<string>, names: set<string>)
    requires Splice(pairs, filler, order).Ok?
    requires forall k :: 0 <= k < |pairs| ==> pairs[k].1 in names
    requires forall k :: 0 <= k < |filler| ==> filler[k] !in names
    ensures Keep(Splice(pairs, filler, order).value, names, false) == Keep(order, names, false) + filler
    decreases |pairs|
  {
    KeepOutside(filler, names);
    KeepAppend(order, filler, names, false);
    if |pairs| > 0 {
      var padded := Pad(order, filler, pairs[0].0).value;
      var o, f := padded.0, padded.1;
      var name := pairs[0].1;
      PadSuffix(o, f, order, filler);
      assert forall k :: 0 <= k < |pairs| - 1 ==> pairs[1..][k] == pairs[k + 1];
      SpliceOutside(pairs[1..], f, o + [name], names);
      assert Keep(o + [name], names, false) == Keep(o, names, false) by {
        KeepSingle(name, names, false);
        KeepAppend(o, [name], names, false);
        assert Keep(o, names, false) + [] == Keep(o, names, false);
      }
      assert Keep(o, names, false) + f == Keep(order, names, false) + filler by {
        KeepOutside(f, names);
        KeepAppend(o, f, names, false);
      }
    }
  }

  /** The splice places the SVG glyphs: the glyphs inside `names` are the
      SVG glyphs, in order. */
  lemma {:induction false} SpliceInside(pairs: seq<(int, string)>, filler: seq<string>, order: seq<string>, names: set<string>)
    requires Splice(pairs, filler, order).Ok?
    requires forall k :: 0 <= k < |pairs| ==> pairs[k].1 in names
    requires forall k :: 0 <= k < |filler| ==> filler[k] !in names
    ensures Keep(Splice(pairs, filler, order).value, names, true) == Keep(order, names, true) + Names(pairs)
    decreases |pairs|
  {
    KeepOutside(filler, names);
    KeepAppend(order, filler, names, true);
    if |pairs| > 0 {
      var padded := Pad(order, filler, pairs[0].0).value;
      var o, f := padded.0, padded.1;
      var name := pairs[0].1;
      PadSuffix(o, f, order, filler);
      assert forall k :: 0 <= k < |pairs| - 1 ==> pairs[1..][k] == pairs[k + 1];
      var rest := Names(pairs[1..]);
      SpliceInside(pairs[1..], f, o + [name], names);
      assert Keep(o + [name], names, true) == Keep(o, names, true) + [name] by {
        KeepSingle(name, names, true);
        KeepAppend(o, [name], names, true);
      }
      assert Keep(o, names, true) == Keep(order, names, true) by {
        KeepOutside(f, names);
        KeepAppend(o, f, names, true);
        assert Keep(o, names, true) + [] == Keep(o, names, true);
        assert Keep(order, names, true) + [] == Keep(order, names, true);
      }
      assert Names(pairs) == [name] + rest;
      AppendAssociative(Keep(order, names, true), [name], rest);
    } else {
      assert Keep(order, names, true) + [] == Keep(order, names, true);
    }
  }


  lemma KeepSingle(x: string, names: set<string>, inside: bool)
    ensures Keep([x], names, inside) == if (x in names) == inside then [x] else []
  {
    assert [x][1..] == [];
  }

  /** What is left of the fillers after padding is a suffix of them. */
  lemma PadSuffix(o: seq<string>, f: seq<string>, order: seq<string>, filler: seq<string>)
    requires o + f == order + filler && |o| >= |order|
    ensures f == filler[|o| - |order|..]
  {
    forall k | 0 <= k < |f| ensures f[k] == filler[|o| - |order| + k] {
      assert (o + f)[|o| + k] == (order + filler)[|o| + k];
    }
  }

  lemma {:induction false} KeepOutside(s: seq<string>, names: set<string>)
    requires forall k :: 0 <= k < |s| ==> s[k] !in names
    ensures Keep(s, names, false) == s && Keep(s, names, true) == []
  {
    if |s| > 0 {
      KeepOutside(s[1..], names);
    }
  }

  /** _copy_svg's new order holds every non-SVG target glyph once, in
      their old relative order, and the donor's SVG glyphs in docList order. */
  lemma NewOrderContents(targetOrder: seq<string>, svgGlyphs: seq<(int, string)>)
    requires NewGlyphOrder(targetOrder, svgGlyphs).Ok?
    ensures var names := set k | 0 <= k < |svgGlyphs| :: svgGlyphs[k].1;
            var order := NewGlyphOrder(targetOrder, svgGlyphs).value;
            Keep(order, names, false) == Keep(targetOrder, names, false) &&
            Keep(order, names, true) == Names(svgGlyphs)
  {
    var names := set k | 0 <= k < |svgGlyphs| :: svgGlyphs[k].1;
    var filler := Keep(targetOrder, names, false);
    KeepMembers(targetOrder, names, false);
    assert forall k :: 0 <= k < |filler| ==> filler[k] in filler;
    SpliceOutside(svgGlyphs, filler, [], names);
    SpliceInside(svgGlyphs, filler, [], names);
  }

  predicate StrictlyIncreasingGids(pairs: seq<(int, string)>)
  {
    forall i, j :: 0 <= i < j < |pairs| ==> pairs[i].0 < pairs[j].0
  }

  /** With strictly increasing gids that the order has not yet passed, the
      splice succeeds iff there are enough fillers, and then each SVG glyph
      lands at the index equal to its gid. */
  lemma {:induction false} SpliceKeepsGids(pairs: seq<(int, string)>, filler: seq<string>, order: seq<string>)
    requires StrictlyIncreasingGids(pairs)
    requires |pairs| > 0 ==> |order| <= pairs[0].0
    ensures var r := Splice(pairs, filler, order);
            (r.Ok? <==> |pairs| == 0 || pairs[|pairs| - 1].0 + 1 - |order| - |pairs| <= |filler|) &&
            (r.Ok? ==> |r.value| == |order| + |filler| + |pairs| && r.value[..|order|] == order &&
                       forall k :: 0 <= k < |pairs| ==> r.value[pairs[k].0] == pairs[k].1)
    decreases |pairs|
  {
    if |pairs| > 0 {
      GidsSpread(pairs);
      var pad := Pad(order, filler, pairs[0].0);
      if pad.Ok? {
        var o, f := pad.value.0, pad.value.1;
        var o' := o + [pairs[0].1];
        assert |o'| == pairs[0].0 + 1;
        assert |f| == |order| + |filler| - |o|;
        SpliceKeepsGids(pairs[1..], f, o');
        var r := Splice(pairs, filler, order);
        if r.Ok? {
          assert r == Splice(pairs[1..], f, o');
          assert r.value[..|o'|] == o';
          assert o[..|order|] == order by {
            assert (o + f)[..|order|] == (order + filler)[..|order|];
          }
          assert r.value[..|order|] == o'[..|order|];
          forall k | 0 <= k < |pairs| ensures r.value[pairs[k].0] == pairs[k].1 {
            if k == 0 {
              assert r.value[pairs[0].0] == r.value[..|o'|][pairs[0].0];
            } else {
              assert pairs[1..][k - 1] == pairs[k];
            }
          }
        }
      }
    }
  }

  /** Strictly increasing gids are at least one apart. */
  lemma {:induction false} GidsSpread(pairs: seq<(int, string)>)
    requires |pairs| > 0 && StrictlyIncreasingGids(pairs)
    ensures pairs[|pairs| - 1].0 >= pairs[0].0 + |pairs| - 1
  {
    if |pairs| > 1 {
      var front := pairs[..|pairs| - 1];
      assert StrictlyIncreasingGids(front);
      GidsSpread(front);
      assert pairs[|pairs| - 2] == front[|front| - 1];
    }
  }

  /** The glyph loop of _copy_colr: copy each glyph's outline and advance,
      stopping at the first glyph that cannot be copied. */
  method CopyColrGlyphs<G, M, T>(target: Font<G, M, T>, donor: Font<G, M, T>, glyphs: seq<string>) returns (r: Outcome)
    requires target != donor
    requires forall i, j :: 0 <= i < j < |glyphs| ==> glyphs[i] != glyphs[j]
    modifies target
    ensures r.Pass? <==> GlyphsCopyable(old(target.hmtx), donor, glyphs)
    ensures r.Fail? ==> FirstProblem(old(target.hmtx), donor, glyphs) == Some(r.error)
    ensures r.Pass? ==>
              target.glyf == CopyEntries(old(target.glyf), donor.glyf, glyphs) &&
              target.hmtx == CopyEntries(old(target.hmtx), donor.hmtx, glyphs)
    ensures target.tables == old(target.tables) && target.glyphOrder == old(target.glyphOrder)
    ensures target.svgDocs == old(target.svgDocs)
  {
    var i := 0;
    while i < |glyphs|
      invariant 0 <= i <= |glyphs|
      invariant GlyphsCopyable(old(target.hmtx), donor, glyphs[..i])
      invariant target.glyf == CopyEntries(old(target.glyf), donor.glyf, glyphs[..i])
      invariant target.hmtx == CopyEntries(old(target.hmtx), donor.hmtx, glyphs[..i])
      invariant target.tables == old(target.tables) && target.glyphOrder == old(target.glyphOrder)
      invariant target.svgDocs == old(target.svgDocs)
    {
      var g := glyphs[i];
      assert g !in glyphs[..i];
      assert glyphs[..i + 1][..i] == glyphs[..i];
      CopyEntriesOther(old(target.hmtx), donor.hmtx, glyphs[..i], g);
      GlyphsCopyableStep(old(target.hmtx), donor, glyphs, i);
      if g !in donor.glyf {
        return Fail(KeyError);
      }
      target.glyf := target.glyf[g := donor.glyf[g]];
      if g in target.hmtx {
        if g !in donor.hmtx {
          return Fail(KeyError);
        }
        if target.hmtx[g] != donor.hmtx[g] {
          return Fail(AssertionError);
        }
        assert target.hmtx[g := donor.hmtx[g]] == target.hmtx;
      } else {
        if g !in donor.hmtx {
          return Fail(KeyError);
        }
        target.hmtx := target.hmtx[g := donor.hmtx[g]];
      }
      i := i + 1;
    }
    assert glyphs[..i] == glyphs;
    r := Pass;
  }

  /** _copy_colr, with the PaintGlyph glyph names of the donor in the order
      Python iterates their set.  Collecting those names reads the donor's
      COLR table first, so a donor without one raises KeyError before any
      glyph is touched.  Each glyph's outline is copied; a glyph
      the target already has metrics for must have the donor's metrics
      (AssertionError otherwise); a new glyph takes the donor's metrics; a
      lookup of something the donor lacks raises KeyError.  Last, the
      target takes the donor's CPAL (KeyError when it has none) and COLR
      tables. */
  method CopyColr<G, M, T>(target: Font<G, M, T>, donor: Font<G, M, T>, glyphs: seq<string>) returns (r: Outcome)
    requires target != donor
    requires forall i, j :: 0 <= i < j < |glyphs| ==> glyphs[i] != glyphs[j]
    modifies target
    ensures r.Pass? <==> ColrCopyable(old(target.hmtx), donor, glyphs)
    ensures r.Fail? ==> r.error == ColrError(old(target.hmtx), donor, glyphs)
    ensures "COLR" !in donor.tables ==> r == Fail(KeyError) && unchanged(target)
    ensures r.Pass? ==>
              target.glyf == CopyEntries(old(target.glyf), donor.glyf, glyphs) &&
              target.hmtx == CopyEntries(old(target.hmtx), donor.hmtx, glyphs) &&
              target.tables == old(target.tables)["CPAL" := donor.tables["CPAL"]]["COLR" := donor.tables["COLR"]] &&
              target.glyphOrder == old(target.glyphOrder) && target.svgDocs == old(target.svgDocs)
  {
    if "COLR" !in donor.tables {
      return Fail(KeyError);
    }
    r := CopyColrGlyphs(target, donor, glyphs);
    if r.Fail? {
      return;
    }
    NoProblem(old(target.hmtx), donor, glyphs);
    if "CPAL" !in donor.tables {
      return Fail(KeyError);
    }
    target.tables := target.tables["CPAL" := donor.tables["CPAL"]];
    target.tables := target.tables["COLR" := donor.tables["COLR"]];
    r := Pass;
  }

  /** The entries of `m` after copying the listed keys over from `src`,
      first to last (keys `src` lacks are skipped). */
  function CopyEntries<V>(m: map<string, V>, src: map<string, V>, keys: seq<string>): map<string, V>
  {
    if |keys| == 0 then m
    else
      var prev := CopyEntries(m, src, keys[..|keys| - 1]);
      var k := keys[|keys| - 1];
      if k in src then prev[k := src[k]] else prev
  }

  /** A key not copied keeps its old entry, or its absence. */
  lemma {:induction false} CopyEntriesOther<V>(m: map<string, V>, src: map<string, V>, keys: seq<string>, g: string)
    requires g !in keys
    ensures (g in CopyEntries(m, src, keys) <==> g in m)
    ensures g in m ==> CopyEntries(m, src, keys)[g] == m[g]
  {
    if |keys| > 0 {
      CopyEntriesOther(m, src, keys[..|keys| - 1], g);
    }
  }

  /** Copying is overwriting with the source's entries for the listed keys. */
  lemma {:induction false} CopyEntriesOverwrite<V>(m: map<string, V>, src: map<string, V>, keys: seq<string>)
    ensures CopyEntries(m, src, keys) == m + (map k | k in keys && k in src :: src[k])
  {
    if |keys| > 0 {
      var front := keys[..|keys| - 1];
      CopyEntriesOverwrite(m, src, front);
      assert forall k :: k in keys <==> k in front || k == keys[|keys| - 1];
    }
  }

  /** The problem, if any, with copying one glyph. */
  function GlyphProblem<G, M, T>(hmtx: map<string, M>, donor: Font<G, M, T>, g: string): Option<ErrorKind>
    reads donor
  {
    if g !in donor.glyf || g !in donor.hmtx then Some(KeyError)
    else if g in hmtx && hmtx[g] != donor.hmtx[g] then Some(AssertionError)
    else None
  }

  /** The first problem among the glyphs, in order. */
  function FirstProblem<G, M, T>(hmtx: map<string, M>, donor: Font<G, M, T>, glyphs: seq<string>): Option<ErrorKind>
    reads donor
  {
    if |glyphs| == 0 then None
    else
      var p := GlyphProblem(hmtx, donor, glyphs[0]);
      if p.Some? then p else FirstProblem(hmtx, donor, glyphs[1..])
  }

  predicate GlyphsCopyable<G, M, T>(hmtx: map<string, M>, donor: Font<G, M, T>, glyphs: seq<string>)
    reads donor
  {
    forall k :: 0 <= k < |glyphs| ==> GlyphProblem(hmtx, donor, glyphs[k]).None?
  }

  predicate ColrCopyable<G, M, T>(hmtx: map<string, M>, donor: Font<G, M, T>, glyphs: seq<string>)
    reads donor
  {
    GlyphsCopyable(hmtx, donor, glyphs) && "CPAL" in donor.tables && "COLR" in donor.tables
  }

  /** The exception _copy_colr raises: KeyError for a donor without COLR,
      else the first glyph's problem, else KeyError for the missing CPAL. */
  function ColrError<G, M, T>(hmtx: map<string, M>, donor: Font<G, M, T>, glyphs: seq<string>): ErrorKind
    reads donor
  {
    var p := FirstProblem(hmtx, donor, glyphs);
    if "COLR" in donor.tables && p.Some? then p.value else KeyError
  }

  /** When the first i glyphs copy cleanly, the first problem overall is
      that of glyph i, if it has one, and otherwise one further on. */
  lemma {:induction false} GlyphsCopyableStep<G, M, T>(hmtx: map<string, M>, donor: Font<G, M, T>, glyphs: seq<string>, i: nat)
    requires i < |glyphs| && GlyphsCopyable(hmtx, donor, glyphs[..i])
    ensures GlyphProblem(hmtx, donor, glyphs[i]).Some? ==>
              FirstProblem(hmtx, donor, glyphs) == GlyphProblem(hmtx, donor, glyphs[i])
    ensures GlyphProblem(hmtx, donor, glyphs[i]).None? ==> GlyphsCopyable(hmtx, donor, glyphs[..i + 1])
    ensures GlyphsCopyable(hmtx, donor, glyphs) ==> FirstProblem(hmtx, donor, glyphs).None?
  {
    if i > 0 {
      assert GlyphProblem(hmtx, donor, glyphs[0]).None? by {
        assert glyphs[..i][0] == glyphs[0];
      }
      assert glyphs[1..][..i - 1] == glyphs[..i][1..];
      GlyphsCopyableStep(hmtx, donor, glyphs[1..], i - 1);
      assert glyphs[1..][i - 1] == glyphs[i];
      if GlyphProblem(hmtx, donor, glyphs[i]).None? {
        assert forall k :: 0 <= k < i + 1 ==> glyphs[..i + 1][k] == glyphs[k];
      }
    } else {
      assert glyphs[..1] == [glyphs[0]];
      if GlyphsCopyable(hmtx, donor, glyphs) {
        NoProblem(hmtx, donor, glyphs);
      }
    }
  }

  lemma {:induction false} NoProblem<G, M, T>(hmtx: map<string, M>, donor: Font<G, M, T>, glyphs: seq<string>)
    requires GlyphsCopyable(hmtx, donor, glyphs)
    ensures FirstProblem(hmtx, donor, glyphs).None?
  {
    if |glyphs| > 0 {
      assert forall k :: 0 <= k < |glyphs| - 1 ==> glyphs[1..][k] == glyphs[k + 1];
      NoProblem(hmtx, donor, glyphs[1..]);
    }
  }
}
