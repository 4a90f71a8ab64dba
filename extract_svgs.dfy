// Splitting the documents of an OpenType SVG table into one SVG per glyph
// (src/nanoemoji/extract_svgs.py). A document is abstracted as the list of
// the root element's children, each with its namespace and its id.
module ExtractSvgs {
  import opened Wrappers
  import opened Text

  /** A child of the root <svg> element: whether it is in the SVG
      namespace, its id attribute if any, and the rest of its markup. */
  datatype Child = Child(isSvg: bool, id: Option<string>, markup: string)

  /** A parsed document; its children are changed in place. */
  class SvgDoc {
    var children: seq<Child>

    constructor (children: seq<Child>)
      ensures this.children == children
    {
      this.children := children;
    }

    /** Remove every root child that svg:*[@id='glyph<gid>'] selects; each
        has the root as its parent. */
    method RemoveGlyphRoots(gid: nat)
      modifies this
      ensures children == RemoveRoots(old(children), gid)
    {
      var kept := [];
      for i := 0 to |children|
        invariant kept == RemoveRoots(children[..i], gid)
      {
        assert children[..i + 1][..i] == children[..i];
        if !IsGlyphRoot(children[i], gid) {
          kept := kept + [children[i]];
        }
      }
      assert children[..|children|] == children;
      children := kept;
    }
  }

  /** The id of the root element of glyph gid: "glyph<gid>". */
  function GlyphElementId(gid: nat): (r: string)
    ensures |r| > 5 && r[..5] == "glyph" && r[5..] == Decimal(gid)
  {
    "glyph" + Decimal(gid)
  }

  lemma GlyphElementIdsDiffer(g: nat, h: nat)
    ensures GlyphElementId(g) == GlyphElementId(h) <==> g == h
  {
    if GlyphElementId(g) == GlyphElementId(h) {
      assert GlyphElementId(g)[5..] == GlyphElementId(h)[5..];
      DecimalInjective(g, h);
    }
  }

  predicate IsGlyphRoot(c: Child, gid: nat)
  {
    c.isSvg && c.id == Some(GlyphElementId(gid))
  }

  /** The children that the removal for one glyph keeps, in order. */
  function RemoveRoots(children: seq<Child>, gid: nat): seq<Child>
  {
    if |children| == 0 then []
    else
      var n := |children| - 1;
      RemoveRoots(children[..n], gid) + (if IsGlyphRoot(children[n], gid) then [] else [children[n]])
  }

  /** Whether a child is the root element of one of the given glyphs. */
  predicate IsRootOfAny(c: Child, gids: seq<nat>)
  {
    exists g :: g in gids && IsGlyphRoot(c, g)
  }

  /** The children, in order, that are not the root of any of the glyphs. */
  function Kept(children: seq<Child>, gids: seq<nat>): seq<Child>
  {
    if |children| == 0 then []
    else
      var n := |children| - 1;
      Kept(children[..n], gids) + (if IsRootOfAny(children[n], gids) then [] else [children[n]])
  }

  /** A child is kept exactly when it is no root of any of the glyphs. */
  lemma {:induction false} KeptMembers(children: seq<Child>, gids: seq<nat>, c: Child)
    ensures c in Kept(children, gids) <==> c in children && !IsRootOfAny(c, gids)
  {
    if |children| > 0 {
      var n := |children| - 1;
      KeptMembers(children[..n], gids, c);
      assert children == children[..n] + [children[n]];
    }
  }

  /** Removing one more glyph's roots from what is kept. */
  lemma {:induction false} RemoveRootsKept(children: seq<Child>, gids: seq<nat>, gid: nat)
    ensures RemoveRoots(Kept(children, gids), gid) == Kept(children, gids + [gid])
  {
    if |children| > 0 {
      var n := |children| - 1;
      var front := children[..n];
      var c := children[n];
      RemoveRootsKept(front, gids, gid);
      RemoveRootsAppend(Kept(front, gids), if IsRootOfAny(c, gids) then [] else [c], gid);
      assert IsRootOfAny(c, gids + [gid]) <==> IsRootOfAny(c, gids) || IsGlyphRoot(c, gid) by {
        if IsGlyphRoot(c, gid) {
          assert gid in gids + [gid];
        }
        if IsRootOfAny(c, gids) {
          var g :| g in gids && IsGlyphRoot(c, g);
          assert g in gids + [gid];
        }
      }
    }
  }

  lemma {:induction false} RemoveRootsAppend(a: seq<Child>, b: seq<Child>, gid: nat)
    requires |b| <= 1
    ensures RemoveRoots(a + b, gid) == RemoveRoots(a, gid) + RemoveRoots(b, gid)
  {
    if |b| == 1 {
      assert (a + b)[..|a + b| - 1] == a;
      assert b[..0] == [];
    } else {
      assert a + b == a;
    }
  }

  lemma {:induction false} KeptNothing(children: seq<Child>)
    ensures Kept(children, []) == children
  {
    if |children| > 0 {
      KeptNothing(children[..|children| - 1]);
      assert children[..|children| - 1] + [children[|children| - 1]] == children;
    }
  }

  /** _remove_glyph_elements: the roots of the given glyphs are removed from
      a deep copy; the document passed in is not changed. */
  method RemoveGlyphElements(svg: SvgDoc, gidsToRemove: seq<nat>) returns (out: SvgDoc)
    ensures fresh(out)
    ensures out.children == Kept(svg.children, gidsToRemove)
  {
    ghost var original := svg.children;
    out := new SvgDoc(svg.children);
    KeptNothing(original);
    for i := 0 to |gidsToRemove|
      invariant out.children == Kept(original, gidsToRemove[..i])
    {
      out.RemoveGlyphRoots(gidsToRemove[i]);
      RemoveOneMore(original, gidsToRemove, i);
    }
    assert gidsToRemove[..|gidsToRemove|] == gidsToRemove;
  }

  lemma RemoveOneMore(children: seq<Child>, gids: seq<nat>, i: nat)
    requires i < |gids|
    ensures RemoveRoots(Kept(children, gids[..i]), gids[i]) == Kept(children, gids[..i + 1])
  {
    RemoveRootsKept(children, gids[..i], gids[i]);
    assert gids[..i] + [gids[i]] == gids[..i + 1];
  }

  /** Removing the roots of some glyphs keeps every child that is not such
      a root, in order, and only those: the removal does not depend on the
      order of the glyphs, and a child with any other id is untouched. */
  lemma KeptIsFilter(children: seq<Child>, gids: seq<nat>, other: seq<nat>, c: Child)
    requires forall g :: g in gids <==> g in other
    ensures Kept(children, gids) == Kept(children, other)
    ensures c in children && (c.id.None? || !c.isSvg || forall g :: g in gids ==> c.id.value != GlyphElementId(g))
            ==> c in Kept(children, gids)
  {
    KeptSameSet(children, gids, other);
    KeptMembers(children, gids, c);
  }

  lemma {:induction false} KeptSameSet(children: seq<Child>, gids: seq<nat>, other: seq<nat>)
    requires forall g :: g in gids <==> g in other
    ensures Kept(children, gids) == Kept(children, other)
  {
    if |children| > 0 {
      KeptSameSet(children[..|children| - 1], gids, other);
      var c := children[|children| - 1];
      assert IsRootOfAny(c, gids) <==> IsRootOfAny(c, other);
    }
  }

  // svg_glyphs

  /** range(lo, lo + n) without g: the set gids - {gid}. */
  function RangeExcept(lo: nat, n: nat, g: nat): (r: seq<nat>)
    requires lo <= g < lo + n
    ensures forall h :: h in r <==> lo <= h < lo + n && h != g
  {
    var below: seq<nat> := seq(g - lo, j requires 0 <= j < g - lo => lo + j);
    var above: seq<nat> := seq(lo + n - g - 1, j requires 0 <= j < lo + n - g - 1 => g + 1 + j);
    var r := below + above;
    assert forall h :: lo <= h < lo + n && h != g ==> h in r by {
      forall h | lo <= h < lo + n && h != g ensures h in r {
        if h < g {
          assert r[h - lo] == h;
        } else {
          assert r[(g - lo) + (h - g - 1)] == h;
        }
      }
    }
    r
  }

  /** An SVG table entry: the document's text and its gid range. */
  datatype SvgDocEntry = SvgDocEntry(raw: string, minGid: nat, maxGid: nat)

  /** How many gids a document covers; an inverted range covers none. */
  function GidCount(e: SvgDocEntry): nat
  {
    if e.maxGid >= e.minGid then e.maxGid - e.minGid + 1 else 0
  }

  /** The children of the SVG yielded for the j-th gid of a document: the
      whole document when it covers one gid, else the document without the
      roots of its other gids. */
  function GlyphChildren(e: SvgDocEntry, j: nat, parse: string -> seq<Child>): seq<Child>
    requires j < GidCount(e)
  {
    if GidCount(e) > 1 then Kept(parse(e.raw), RangeExcept(e.minGid, GidCount(e), e.minGid + j))
    else parse(e.raw)
  }

  function DocGlyphs(e: SvgDocEntry, parse: string -> seq<Child>): (r: seq<(nat, seq<Child>)>)
    ensures |r| == GidCount(e)
    ensures forall j :: 0 <= j < |r| ==> r[j] == (e.minGid + j, GlyphChildren(e, j, parse))
  {
    seq(GidCount(e), j requires 0 <= j < GidCount(e) => (e.minGid + j, GlyphChildren(e, j, parse)))
  }

  /** What svg_glyphs yields, document by document, the gids of each in
      increasing order. */
  function AllGlyphs(docList: seq<SvgDocEntry>, parse: string -> seq<Child>): seq<(nat, seq<Child>)>
  {
    if |docList| == 0 then []
    else
      var n := |docList| - 1;
      AllGlyphs(docList[..n], parse) + DocGlyphs(docList[n], parse)
  }

  /** Whether the yielded documents carry the expected gids and children. */
  ghost predicate Yields(r: seq<(nat, SvgDoc)>, expected: seq<(nat, seq<Child>)>)
    reads set k | 0 <= k < |r| :: r[k].1
  {
    |r| == |expected| && forall k :: 0 <= k < |r| ==> r[k].0 == expected[k].0 && r[k].1.children == expected[k].1
  }

  lemma YieldsAppend(r: seq<(nat, SvgDoc)>, expected: seq<(nat, seq<Child>)>,
                     more: seq<(nat, SvgDoc)>, expectedMore: seq<(nat, seq<Child>)>)
    requires Yields(r, expected) && Yields(more, expectedMore)
    ensures Yields(r + more, expected + expectedMore)
  {
    var all, ex := r + more, expected + expectedMore;
    forall k | 0 <= k < |all| ensures all[k].0 == ex[k].0 && all[k].1.children == ex[k].1 {
      if k >= |r| {
        assert all[k] == more[k - |r|] && ex[k] == expectedMore[k - |r|];
      }
    }
  }

  /** The SVG yielded for the j-th gid of a document: the document itself
      when it has one gid, else a copy without the other gids' roots. */
  method GlyphSvg(svg: SvgDoc, e: SvgDocEntry, j: nat, parse: string -> seq<Child>) returns (svgForGid: SvgDoc)
    requires j < GidCount(e) && svg.children == parse(e.raw)
    ensures svgForGid.children == GlyphChildren(e, j, parse)
    ensures GidCount(e) == 1 ==> svgForGid == svg
  {
    var count := GidCount(e);
    svgForGid := svg;
    if count > 1 {
      svgForGid := RemoveGlyphElements(svg, RangeExcept(e.minGid, count, e.minGid + j));
    }
  }

  lemma DocGlyphsPrefix(e: SvgDocEntry, parse: string -> seq<Child>, j: nat)
    requires j < GidCount(e)
    ensures DocGlyphs(e, parse)[..j + 1] == DocGlyphs(e, parse)[..j] + [(e.minGid + j, GlyphChildren(e, j, parse))]
  {
    var d := DocGlyphs(e, parse);
    assert d[..j + 1] == d[..j] + [d[j]];
  }

  /** The inner loop of svg_glyphs: one SVG per gid of a document; with a
      single gid that is the parsed document itself. */
  method DocSvgs(e: SvgDocEntry, parse: string -> seq<Child>) returns (r: seq<(nat, SvgDoc)>)
    ensures Yields(r, DocGlyphs(e, parse))
  {
    var count := GidCount(e);
    var svg := new SvgDoc(parse(e.raw));
    r := [];
    for j := 0 to count
      invariant svg.children == parse(e.raw)
      invariant Yields(r, DocGlyphs(e, parse)[..j])
    {
      var gid := e.minGid + j;
      var svgForGid := GlyphSvg(svg, e, j, parse);
      DocGlyphsPrefix(e, parse, j);
      YieldsAppend(r, DocGlyphs(e, parse)[..j], [(gid, svgForGid)], [(gid, GlyphChildren(e, j, parse))]);
      r := r + [(gid, svgForGid)];
    }
    assert DocGlyphs(e, parse)[..count] == DocGlyphs(e, parse);
  }

  /** svg_glyphs: for each gid of each document, that gid and its SVG. */
  method SvgGlyphs(docList: seq<SvgDocEntry>, parse: string -> seq<Child>) returns (r: seq<(nat, SvgDoc)>)
    ensures Yields(r, AllGlyphs(docList, parse))
  {
    r := [];
    for i := 0 to |docList|
      invariant Yields(r, AllGlyphs(docList[..i], parse))
    {
      assert docList[..i + 1][..i] == docList[..i];
      var glyphs := DocSvgs(docList[i], parse);
      YieldsAppend(r, AllGlyphs(docList[..i], parse), glyphs, DocGlyphs(docList[i], parse));
      r := r + glyphs;
    }
    assert docList[..|docList|] == docList;
  }

  /** Some entry carries the gid. */
  predicate HasGid<T>(r: seq<(nat, T)>, gid: nat)
  {
    exists k :: 0 <= k < |r| && r[k].0 == gid
  }

  /** Some document's range holds the gid. */
  predicate Covers(docList: seq<SvgDocEntry>, gid: nat)
  {
    exists i :: 0 <= i < |docList| && docList[i].minGid <= gid <= docList[i].maxGid
  }

  lemma HasGidAppend<T>(a: seq<(nat, T)>, b: seq<(nat, T)>, gid: nat)
    ensures HasGid(a + b, gid) <==> HasGid(a, gid) || HasGid(b, gid)
  {
    if HasGid(a + b, gid) {
      var k :| 0 <= k < |a + b| && (a + b)[k].0 == gid;
      if k >= |a| {
        assert b[k - |a|].0 == gid;
      }
    }
    if HasGid(b, gid) {
      var k :| 0 <= k < |b| && b[k].0 == gid;
      assert (a + b)[|a| + k].0 == gid;
    }
    if HasGid(a, gid) {
      var k :| 0 <= k < |a| && a[k].0 == gid;
      assert (a + b)[k].0 == gid;
    }
  }

  lemma DocGlyphsGids(e: SvgDocEntry, parse: string -> seq<Child>, gid: nat)
    ensures HasGid(DocGlyphs(e, parse), gid) <==> e.minGid <= gid <= e.maxGid
  {
    if e.minGid <= gid <= e.maxGid {
      assert DocGlyphs(e, parse)[gid - e.minGid].0 == gid;
    }
  }

  lemma CoversSnoc(docList: seq<SvgDocEntry>, gid: nat)
    requires |docList| > 0
    ensures var n := |docList| - 1;
            Covers(docList, gid) <==> Covers(docList[..n], gid) || docList[n].minGid <= gid <= docList[n].maxGid
  {
    var n := |docList| - 1;
    if Covers(docList[..n], gid) {
      var i :| 0 <= i < n && docList[..n][i].minGid <= gid <= docList[..n][i].maxGid;
      assert docList[i] == docList[..n][i];
    }
    if Covers(docList, gid) {
      var i :| 0 <= i < |docList| && docList[i].minGid <= gid <= docList[i].maxGid;
      if i < n {
        assert docList[..n][i] == docList[i];
      }
    }
  }

  /** Every gid of every document's range is yielded, and only those. */
  lemma {:induction false} AllGlyphsGids(docList: seq<SvgDocEntry>, parse: string -> seq<Child>, gid: nat)
    ensures HasGid(AllGlyphs(docList, parse), gid) <==> Covers(docList, gid)
  {
    if |docList| > 0 {
      var n := |docList| - 1;
      AllGlyphsGids(docList[..n], parse, gid);
      HasGidAppend(AllGlyphs(docList[..n], parse), DocGlyphs(docList[n], parse), gid);
      DocGlyphsGids(docList[n], parse, gid);
      CoversSnoc(docList, gid);
    }
  }

  /** A document with a single gid is yielded as it was parsed. */
  lemma SingleGidUnchanged(e: SvgDocEntry, parse: string -> seq<Child>)
    requires e.minGid == e.maxGid
    ensures DocGlyphs(e, parse) == [(e.minGid, parse(e.raw))]
  {
  }

  /** In a document covering several gids, the SVG for gid g keeps g's own
      root elements and everything that is not a glyph root of the range,
      and drops the roots of every other gid of the range. */
  lemma MultiGidSplit(e: SvgDocEntry, j: nat, parse: string -> seq<Child>, c: Child)
    requires 1 < GidCount(e) && j < GidCount(e)
    ensures var g := e.minGid + j;
            && (c in parse(e.raw) && IsGlyphRoot(c, g) ==> c in GlyphChildren(e, j, parse))
            && (forall h :: e.minGid <= h <= e.maxGid && h != g && IsGlyphRoot(c, h) ==> c !in GlyphChildren(e, j, parse))
            && (c in parse(e.raw) && (forall h :: e.minGid <= h <= e.maxGid ==> !IsGlyphRoot(c, h)) ==> c in GlyphChildren(e, j, parse))
  {
    var g := e.minGid + j;
    var others := RangeExcept(e.minGid, GidCount(e), g);
    KeptMembers(parse(e.raw), others, c);
    if c in parse(e.raw) && IsGlyphRoot(c, g) {
      if IsRootOfAny(c, others) {
        var h :| h in others && IsGlyphRoot(c, h);
        GlyphElementIdsDiffer(g, h);
      }
    }
    forall h | e.minGid <= h <= e.maxGid && h != g && IsGlyphRoot(c, h) ensures c !in GlyphChildren(e, j, parse) {
      assert h in others;
    }
  }
}
