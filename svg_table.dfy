// make_svg_table (src/nanoemoji/svg.py): one SVG document per reuse group,
// each holding the gradients its glyphs use.
module SvgTable {
  import opened Orders
  import opened Seqs
  import opened SvgDocs
  import opened GlueTogether
  import opened Svg

  /** `{c.glyph_name: c for c in color_glyphs}`: the names of the colour
      glyphs, each mapped to its last glyph of that name. */
  function ByName<P, R>(cgs: seq<ColorGlyph<P, R>>): (r: map<string, ColorGlyph<P, R>>)
    ensures forall x :: x in r <==> exists k :: 0 <= k < |cgs| && cgs[k].glyphName == x
    decreases |cgs|
  {
    if |cgs| == 0 then map[]
    else
      var init, last := cgs[..|cgs| - 1], cgs[|cgs| - 1];
      assert forall k :: 0 <= k < |init| ==> init[k] == cgs[k];
      ByName(init)[last.glyphName := last]
  }

  /** A later glyph of the same name wins. */
  lemma {:induction false} ByNameLatest<P, R>(cgs: seq<ColorGlyph<P, R>>, k: int)
    requires 0 <= k < |cgs| && forall l :: k < l < |cgs| ==> cgs[l].glyphName != cgs[k].glyphName
    ensures cgs[k].glyphName in ByName(cgs) && ByName(cgs)[cgs[k].glyphName] == cgs[k]
    decreases |cgs|
  {
    var init := cgs[..|cgs| - 1];
    if k < |cgs| - 1 {
      assert init[k] == cgs[k];
      forall l | k < l < |init| ensures init[l].glyphName != init[k].glyphName {
        assert init[l] == cgs[l];
      }
      ByNameLatest(init, k);
    }
  }

  /** Every grouped name is a key of the table by name. */
  lemma GroupNamesKnown<P, R>(cgs: seq<ColorGlyph<P, R>>, groups: seq<seq<string>>)
    requires Covers(cgs, groups)
    ensures forall x :: x in Flatten(groups) ==> x in ByName(cgs)
  {
    forall x | x in Flatten(groups) ensures x in ByName(cgs) {
      var i := RunOf(groups, x);
    }
  }

  /** Sorted groups with no name in two of them list each name once. */
  lemma GroupsNoRepeats(groups: seq<seq<string>>)
    requires Disjoint(groups) && forall t :: t in groups ==> StrictlySorted(t, StrLt)
    ensures NoRepeats(Flatten(groups))
  {
    StrOrder();
    forall i | 0 <= i < |groups| ensures NoRepeats(groups[i]) {
      var t := groups[i];
      assert StrictlySorted(t, StrLt);
      forall a, b | 0 <= a < b < |t| ensures t[a] != t[b] {
        assert StrLt(t[a], t[b]);
      }
    }
    FlattenNoRepeats(groups);
  }

  /** The colour glyphs of a group, in group order. */
  function GroupGlyphs<P, R>(glyphs: map<string, ColorGlyph<P, R>>, group: seq<string>): (r: seq<ColorGlyph<P, R>>)
    requires forall x :: x in group ==> x in glyphs
    ensures |r| == |group| && forall k :: 0 <= k < |group| ==> r[k] == glyphs[group[k]]
  {
    seq(|group|, k requires 0 <= k < |group| => glyphs[group[k]])
  }

  // ---------------------------------------------------------------------
  // The gradients of one document

  /** _add_unique_gradients for each glyph of a document in turn. */
  function GlyphsGradients<P, R>(updates: map<UpdateKey, string>, defs: seq<Gradient>, glyphs: seq<ColorGlyph<P, R>>)
    : (map<UpdateKey, string>, seq<Gradient>)
    decreases |glyphs|
  {
    if |glyphs| == 0 then (updates, defs)
    else
      var (u, d) := AddGradients(updates, defs, glyphs[0].glyphName, glyphs[0].gradients);
      GlyphsGradients(u, d, glyphs[1..])
  }

  /** The defs of a document that starts with an empty id_updates. */
  function DocGradients<P, R>(glyphs: seq<ColorGlyph<P, R>>): seq<Gradient>
  {
    GlyphsGradients(map[], [], glyphs).1
  }

  /** The inner loop of make_svg_table: the gradients of a group's glyphs. */
  method AddGroupGradients<P, R>(idUpdates: IdUpdates, svgDefs: Defs, glyphs: seq<ColorGlyph<P, R>>)
    modifies idUpdates, svgDefs
    ensures (idUpdates.updates, svgDefs.gradients) == GlyphsGradients(old(idUpdates.updates), old(svgDefs.gradients), glyphs)
  {
    for j := 0 to |glyphs|
      invariant GlyphsGradients(old(idUpdates.updates), old(svgDefs.gradients), glyphs) ==
                GlyphsGradients(idUpdates.updates, svgDefs.gradients, glyphs[j..])
    {
      assert glyphs[j..][1..] == glyphs[j + 1..];
      AddUniqueGradients(idUpdates, svgDefs, glyphs[j]);
    }
  }

  /** Each XML id_updates knows names a def of this document with that id. */
  ghost predicate Resolves(updates: map<UpdateKey, string>, defs: seq<Gradient>)
  {
    forall x :: XmlKey(x) in updates ==> exists i :: 0 <= i < |defs| && defs[i] == Gradient(updates[XmlKey(x)], x)
  }

  lemma AddGradientResolves(updates: map<UpdateKey, string>, defs: seq<Gradient>, glyphName: string, g: Gradient)
    requires Resolves(updates, defs)
    ensures var (u, d) := AddGradient(updates, defs, glyphName, g);
            Resolves(u, d) && d[..|defs|] == defs
  {
    var (u, d) := AddGradient(updates, defs, glyphName, g);
    forall x | XmlKey(x) in u ensures exists i :: 0 <= i < |d| && d[i] == Gradient(u[XmlKey(x)], x) {
      if XmlKey(x) in updates && !(XmlKey(g.xml) !in updates && x == g.xml) {
        var i :| 0 <= i < |defs| && defs[i] == Gradient(updates[XmlKey(x)], x);
        assert d[i] == defs[i];
      } else {
        assert d[|d| - 1] == Gradient(u[XmlKey(x)], x);
      }
    }
  }

  lemma {:induction false} AddGradientsResolves(updates: map<UpdateKey, string>, defs: seq<Gradient>, glyphName: string, gs: seq<Gradient>)
    requires Resolves(updates, defs)
    ensures var (u, d) := AddGradients(updates, defs, glyphName, gs);
            Resolves(u, d) && |defs| <= |d| && d[..|defs|] == defs
    decreases |gs|
  {
    if |gs| > 0 {
      var (u1, d1) := AddGradient(updates, defs, glyphName, gs[0]);
      AddGradientResolves(updates, defs, glyphName, gs[0]);
      AddGradientsResolves(u1, d1, glyphName, gs[1..]);
      var (u, d) := AddGradients(u1, d1, glyphName, gs[1..]);
      assert d[..|defs|] == d[..|d1|][..|defs|];
    }
  }

  /** A document's defs only grow, keep each XML once and hold a def for
      every XML id_updates knows. */
  lemma {:induction false} GlyphsGradientsGrow<P, R>(updates: map<UpdateKey, string>, defs: seq<Gradient>, glyphs: seq<ColorGlyph<P, R>>)
    requires DefsInv(updates, defs) && Resolves(updates, defs)
    ensures var (u, d) := GlyphsGradients(updates, defs, glyphs);
            DefsInv(u, d) && Resolves(u, d) && |defs| <= |d| && d[..|defs|] == defs
    decreases |glyphs|
  {
    if |glyphs| > 0 {
      var (u1, d1) := AddGradients(updates, defs, glyphs[0].glyphName, glyphs[0].gradients);
      AddGradientsSpec(updates, defs, glyphs[0].glyphName, glyphs[0].gradients);
      AddGradientsResolves(updates, defs, glyphs[0].glyphName, glyphs[0].gradients);
      GlyphsGradientsGrow(u1, d1, glyphs[1..]);
      var (u, d) := GlyphsGradients(u1, d1, glyphs[1..]);
      assert d[..|defs|] == d[..|d1|][..|defs|];
    }
  }

  /** Doing a document's glyphs in two steps. */
  lemma {:induction false} GlyphsGradientsSplit<P, R>(updates: map<UpdateKey, string>, defs: seq<Gradient>, glyphs: seq<ColorGlyph<P, R>>, k: nat)
    requires k <= |glyphs|
    ensures var (u, d) := GlyphsGradients(updates, defs, glyphs[..k]);
            GlyphsGradients(updates, defs, glyphs) == GlyphsGradients(u, d, glyphs[k..])
    decreases k
  {
    if k == 0 {
      assert glyphs[..0] == [] && glyphs[0..] == glyphs;
    } else {
      var (u1, d1) := AddGradients(updates, defs, glyphs[0].glyphName, glyphs[0].gradients);
      GlyphsGradientsSplit(u1, d1, glyphs[1..], k - 1);
      assert glyphs[1..][k - 1..] == glyphs[k..];
      assert glyphs[..k][1..] == glyphs[1..][..k - 1];
    }
  }

  /** One more glyph. */
  lemma GlyphsGradientsSnoc<P, R>(updates: map<UpdateKey, string>, defs: seq<Gradient>, glyphs: seq<ColorGlyph<P, R>>, k: nat)
    requires k < |glyphs|
    ensures var (u, d) := GlyphsGradients(updates, defs, glyphs[..k]);
            GlyphsGradients(updates, defs, glyphs[..k + 1]) == AddGradients(u, d, glyphs[k].glyphName, glyphs[k].gradients)
  {
    GlyphsGradientsSplit(updates, defs, glyphs[..k + 1], k);
    assert glyphs[..k + 1][..k] == glyphs[..k];
    assert glyphs[..k + 1][k..] == [glyphs[k]] && [glyphs[k]][1..] == [];
  }

  /** The state after the first `k` glyphs of a document: its defs begin
      the document's defs. */
  lemma DocPrefix<P, R>(glyphs: seq<ColorGlyph<P, R>>, k: nat)
    requires k <= |glyphs|
    ensures var (u, d) := GlyphsGradients(map[], [], glyphs[..k]);
            DefsInv(u, d) && Resolves(u, d) && |d| <= |DocGradients(glyphs)| && DocGradients(glyphs)[..|d|] == d
  {
    GlyphsGradientsSplit(map[], [], glyphs, k);
    GlyphsGradientsGrow(map[], [], glyphs[..k]);
    var (u, d) := GlyphsGradients(map[], [], glyphs[..k]);
    GlyphsGradientsGrow(u, d, glyphs[k..]);
  }

  /** When _add_glyph writes glyph `k` of a document, each gradient id of
      that glyph (not reused later by the same glyph) resolves to a def of
      the same document with that gradient's XML. */
  lemma DocRefsResolve<P, R>(glyphs: seq<ColorGlyph<P, R>>, k: int)
    requires 0 <= k < |glyphs|
    ensures var (u, d) := GlyphsGradients(map[], [], glyphs[..k + 1]);
            var gs := glyphs[k].gradients;
            forall l :: LastWithId(gs, l) ==>
              IdKey(gs[l].id) in u && Gradient(u[IdKey(gs[l].id)], gs[l].xml) in DocGradients(glyphs)
  {
    var gs, name := glyphs[k].gradients, glyphs[k].glyphName;
    var (u0, d0) := GlyphsGradients(map[], [], glyphs[..k]);
    GlyphsGradientsSnoc(map[], [], glyphs, k);
    DocPrefix(glyphs, k + 1);
    AddGradientsIds(u0, d0, name, gs);
    var (u1, d1) := GlyphsGradients(map[], [], glyphs[..k + 1]);
    IdsResolveIn(u1, d1, DocGradients(glyphs), gs);
  }

  /** An id that shares its XML's new id names a def of any document whose
      defs begin with these. */
  lemma IdsResolveIn(u: map<UpdateKey, string>, d: seq<Gradient>, all: seq<Gradient>, gs: seq<Gradient>)
    requires Resolves(u, d) && |d| <= |all| && all[..|d|] == d
    requires forall l :: LastWithId(gs, l) ==>
               IdKey(gs[l].id) in u && XmlKey(gs[l].xml) in u && u[IdKey(gs[l].id)] == u[XmlKey(gs[l].xml)]
    ensures forall l :: LastWithId(gs, l) ==>
              IdKey(gs[l].id) in u && Gradient(u[IdKey(gs[l].id)], gs[l].xml) in all
  {
    forall l | LastWithId(gs, l)
      ensures IdKey(gs[l].id) in u && Gradient(u[IdKey(gs[l].id)], gs[l].xml) in all
    {
      var i :| 0 <= i < |d| && d[i] == Gradient(u[XmlKey(gs[l].xml)], gs[l].xml);
      assert all[i] == d[i];
    }
  }

  // ---------------------------------------------------------------------
  // One id_updates for the whole table, as svg.py:160 has it

  /** The defs of each document when id_updates is shared by all documents. */
  function TableGradientsAsWritten<P, R>(updates: map<UpdateKey, string>, docs: seq<seq<ColorGlyph<P, R>>>): (r: seq<seq<Gradient>>)
    ensures |r| == |docs|
    decreases |docs|
  {
    if |docs| == 0 then []
    else
      var (u, d) := GlyphsGradients(updates, [], docs[0]);
      [d] + TableGradientsAsWritten(u, docs[1..])
  }

  function GlyphA(): ColorGlyph<int, int>
  {
    ColorGlyph("a", 1, [], [Gradient("g", "x")])
  }

  function GlyphB(): ColorGlyph<int, int>
  {
    ColorGlyph("b", 2, [], [Gradient("g", "x")])
  }

  /** Two glyphs in different documents with the same gradient: with one
      id_updates the second document gets no def, yet its glyph's id is
      rewritten to the first document's gradient; with an id_updates per
      document it gets its own copy. */
  lemma SharedUpdatesLoseGradient()
    ensures TableGradientsAsWritten(map[], [[GlyphA()], [GlyphB()]]) == [[Gradient("a::g", "x")], []]
    ensures var u := GlyphsGradients(map[], [], [GlyphA()]).0;
            GlyphsGradients(u, [], [GlyphB()]).0[IdKey("g")] == "a::g"
    ensures DocGradients([GlyphB()]) == [Gradient("b::g", "x")]
  {
    var ga := Gradient("g", "x");
    var none: map<UpdateKey, string> := map[];
    assert NewGradientId("a", "g") == "a::g" && NewGradientId("b", "g") == "b::g";
    var ua := map[IdKey("g") := "a::g", XmlKey("x") := "a::g"];
    assert none[IdKey("g") := "a::g"][XmlKey("x") := "a::g"] == ua;
    assert AddGradient(none, [], "a", ga).0 == ua && AddGradient(none, [], "a", ga).1 == [Gradient("a::g", "x")];
    assert [GlyphA()][1..] == [] && [GlyphB()][1..] == [] && [ga][1..] == [];
    assert AddGradients(none, [], "a", [ga]) == AddGradients(ua, [Gradient("a::g", "x")], "a", []);
    assert GlyphsGradients(none, [], [GlyphA()]) == (ua, [Gradient("a::g", "x")]);
    assert ua[IdKey("g") := ua[XmlKey("x")]] == ua;
    assert AddGradient(ua, [], "b", ga).0 == ua && AddGradient(ua, [], "b", ga).1 == [];
    assert AddGradients(ua, [], "b", [ga]) == AddGradients(ua, [], "b", []);
    assert GlyphsGradients(ua, [], [GlyphB()]) == (ua, []);
    var docs := [[GlyphA()], [GlyphB()]];
    assert docs[1..] == [[GlyphB()]] && docs[1..][1..] == [];
    var ub := map[IdKey("g") := "b::g", XmlKey("x") := "b::g"];
    assert none[IdKey("g") := "b::g"][XmlKey("x") := "b::g"] == ub;
    assert AddGradient(none, [], "b", ga).0 == ub && AddGradient(none, [], "b", ga).1 == [Gradient("b::g", "x")];
    assert AddGradients(none, [], "b", [ga]) == AddGradients(ub, [Gradient("b::g", "x")], "b", []);
  }

  // ---------------------------------------------------------------------
  // The document list

  /** Document `i` covers the ids of group `i`, which start at the group's
      offset in the new glyph order. */
  ghost predicate DocSpan(doc: SvgDoc, base: int, groups: seq<seq<string>>, i: int)
    requires 0 <= i < |groups|
  {
    doc.minGid == base + |Flatten(groups[..i])| && doc.maxGid == doc.minGid + |groups[i]| - 1
  }

  /** A document's text is `render` of its group's glyphs and of the defs
      built for them. */
  ghost predicate DocText<P, R>(doc: SvgDoc, glyphs: map<string, ColorGlyph<P, R>>, group: seq<string>,
                                render: (seq<ColorGlyph<P, R>>, seq<Gradient>) -> string)
  {
    (forall x :: x in group ==> x in glyphs) &&
    var members := GroupGlyphs(glyphs, group);
    doc.doc == render(members, DocGradients(members))
  }

  ghost predicate DocsFor<P, R>(docs: seq<SvgDoc>, glyphs: map<string, ColorGlyph<P, R>>, base: int, groups: seq<seq<string>>,
                                render: (seq<ColorGlyph<P, R>>, seq<Gradient>) -> string)
  {
    |docs| <= |groups| &&
    (forall i :: 0 <= i < |docs| ==> DocSpan(docs[i], base, groups, i)) &&
    (forall i :: 0 <= i < |docs| ==> DocText(docs[i], glyphs, groups[i], render))
  }

  /** Gids `minGid` to `maxGid` of document `i` are the glyphs of group `i`,
      in order, at their positions in `order`, and each of those glyphs has
      that gid in `numbered`. */
  ghost predicate SpansOrder<P, R>(docs: seq<SvgDoc>, groups: seq<seq<string>>, order: seq<string>,
                                   numbered: map<string, ColorGlyph<P, R>>)
    requires |docs| == |groups|
  {
    forall i, k :: 0 <= i < |docs| && 0 <= k < |groups[i]| ==>
      0 <= docs[i].minGid + k < |order| && order[docs[i].minGid + k] == groups[i][k] &&
      groups[i][k] in numbered && numbered[groups[i][k]].glyphId == docs[i].minGid + k
  }

  /** The documents span the new glyph order and the renumbered glyphs. */
  lemma DocsMatchOrder<P, R>(glyphs: map<string, ColorGlyph<P, R>>, prefix: seq<string>, groups: seq<seq<string>>, docs: seq<SvgDoc>)
    requires (forall x :: x in Flatten(groups) ==> x in glyphs) && NoRepeats(Flatten(groups))
    requires |docs| == |groups| && forall i :: 0 <= i < |docs| ==> |groups[i]| > 0 && DocSpan(docs[i], |prefix|, groups, i)
    ensures forall i :: 0 <= i < |docs| ==> docs[i].minGid <= docs[i].maxGid
    ensures SpansOrder(docs, groups, prefix + Flatten(groups), Renumber(glyphs, Flatten(groups), |prefix|))
  {
    var flat := Flatten(groups);
    var order, numbered := prefix + flat, Renumber(glyphs, flat, |prefix|);
    forall i, k | 0 <= i < |docs| && 0 <= k < |groups[i]|
      ensures 0 <= docs[i].minGid + k < |order| && order[docs[i].minGid + k] == groups[i][k] &&
              groups[i][k] in numbered && numbered[groups[i][k]].glyphId == docs[i].minGid + k
    {
      DocGid(glyphs, prefix, groups, docs[i], i, k);
    }
    assert SpansOrder(docs, groups, order, numbered);
    forall i | 0 <= i < |docs| ensures docs[i].minGid <= docs[i].maxGid {
      assert DocSpan(docs[i], |prefix|, groups, i);
    }
  }

  /** Glyph `k` of the document of group `i`. */
  lemma DocGid<P, R>(glyphs: map<string, ColorGlyph<P, R>>, prefix: seq<string>, groups: seq<seq<string>>, doc: SvgDoc, i: int, k: int)
    requires (forall x :: x in Flatten(groups) ==> x in glyphs) && NoRepeats(Flatten(groups))
    requires 0 <= i < |groups| && 0 <= k < |groups[i]| && DocSpan(doc, |prefix|, groups, i)
    ensures var order, numbered := prefix + Flatten(groups), Renumber(glyphs, Flatten(groups), |prefix|);
            0 <= doc.minGid + k < |order| && order[doc.minGid + k] == groups[i][k] &&
            groups[i][k] in numbered && numbered[groups[i][k]].glyphId == doc.minGid + k
  {
    var flat := Flatten(groups);
    GidsAreOrderPositions(glyphs, prefix, groups);
    GroupOffset(groups, i, k);
    var j := |Flatten(groups[..i])| + k;
    assert 0 <= j < |flat| && flat[j] == groups[i][k];
    assert doc.minGid + k == |prefix| + j;
  }

  lemma DocsForSnoc<P, R>(docs: seq<SvgDoc>, doc: SvgDoc, glyphs: map<string, ColorGlyph<P, R>>, base: int,
                          groups: seq<seq<string>>, render: (seq<ColorGlyph<P, R>>, seq<Gradient>) -> string)
    requires DocsFor(docs, glyphs, base, groups, render) && |docs| < |groups|
    requires DocSpan(doc, base, groups, |docs|) && DocText(doc, glyphs, groups[|docs|], render)
    ensures DocsFor(docs + [doc], glyphs, base, groups, render)
  {
    var docs' := docs + [doc];
    assert forall i :: 0 <= i < |docs| ==> docs'[i] == docs[i];
  }

  /** The ids of group `i` after renumbering, one by one. */
  lemma GroupIds<P, R>(glyphs: map<string, ColorGlyph<P, R>>, base: int, groups: seq<seq<string>>, i: int)
    requires (forall x :: x in Flatten(groups) ==> x in glyphs) && NoRepeats(Flatten(groups))
    requires 0 <= i < |groups|
    ensures var numbered := Renumber(glyphs, Flatten(groups), base);
            (forall x :: x in groups[i] ==> x in numbered) &&
            forall k :: 0 <= k < |groups[i]| ==> numbered[groups[i][k]].glyphId == base + |Flatten(groups[..i])| + k
  {
    GroupSpan(glyphs, base, groups, i);
    var numbered := Renumber(glyphs, Flatten(groups), base);
    var gids := GroupGids(numbered, groups[i]);
    forall k | 0 <= k < |groups[i]| ensures numbered[groups[i][k]].glyphId == base + |Flatten(groups[..i])| + k {
      assert gids[k] == numbered[groups[i][k]].glyphId;
    }
  }

  /** One document of make_svg_table: the group's gradients into fresh
      defs with a fresh id_updates, and the group's (min gid, max gid). */
  method GroupDoc<P, R>(colorGlyphs: ColorGlyphTable<P, R>, groups: seq<seq<string>>, i: int, ghost base: int,
                        render: (seq<ColorGlyph<P, R>>, seq<Gradient>) -> string)
    returns (doc: SvgDoc)
    requires 0 <= i < |groups| && |groups[i]| > 0
    requires forall x :: x in groups[i] ==> x in colorGlyphs.glyphs
    requires forall k :: 0 <= k < |groups[i]| ==> colorGlyphs.glyphs[groups[i][k]].glyphId == base + |Flatten(groups[..i])| + k
    ensures DocSpan(doc, base, groups, i) && DocText(doc, colorGlyphs.glyphs, groups[i], render)
  {
    var group := groups[i];
    var idUpdates := new IdUpdates();
    var svgDefs := new Defs();
    var members := GroupGlyphs(colorGlyphs.glyphs, group);
    AddGroupGradients(idUpdates, svgDefs, members);
    var gids := GroupGids(colorGlyphs.glyphs, group);
    ghost var lo := base + |Flatten(groups[..i])|;
    assert gids == Range(lo, lo + |group| - 1);
    RangeBounds(lo, lo + |group| - 1);
    doc := SvgDoc(render(members, svgDefs.gradients), MinOf(gids), MaxOf(gids));
  }

  /** The loop of make_svg_table over the renumbered groups. */
  method GroupDocs<P, R>(colorGlyphs: ColorGlyphTable<P, R>, groups: seq<seq<string>>, ghost glyphs: map<string, ColorGlyph<P, R>>,
                         ghost base: int, render: (seq<ColorGlyph<P, R>>, seq<Gradient>) -> string)
    returns (docList: seq<SvgDoc>)
    requires (forall x :: x in Flatten(groups) ==> x in glyphs) && NoRepeats(Flatten(groups))
    requires forall t :: t in groups ==> |t| > 0
    requires colorGlyphs.glyphs == Renumber(glyphs, Flatten(groups), base)
    ensures |docList| == |groups| && DocsFor(docList, colorGlyphs.glyphs, base, groups, render)
  {
    docList := [];
    for i := 0 to |groups|
      invariant |docList| == i
      invariant DocsFor(docList, colorGlyphs.glyphs, base, groups, render)
    {
      GroupIds(glyphs, base, groups, i);
      assert groups[i] in groups;
      var doc := GroupDoc(colorGlyphs, groups, i, base, render);
      DocsForSnoc(docList, doc, colorGlyphs.glyphs, base, groups, render);
      docList := docList + [doc];
    }
  }

  /** make_svg_table, with an id_updates per document: group the colour
      glyphs, renumber them so that each group has consecutive ids, and give
      each group one document. */
  method MakeSvgTable<G(==), M(==), T, P(==, !new), R(==, !new)>(font: Font<G, M, T>, cgs: seq<ColorGlyph<P, R>>,
                                                              render: (seq<ColorGlyph<P, R>>, seq<Gradient>) -> string)
    returns (ghost groups: seq<seq<string>>)
    modifies font
    ensures Covers(cgs, groups) && Disjoint(groups) && KeysTogether(cgs, groups) && OnlyChained(cgs, groups)
    ensures forall t :: t in groups ==> |t| > 0
    ensures NoRepeats(Flatten(groups)) && forall x :: x in Flatten(groups) ==> x in ByName(cgs)
    ensures font.glyphOrder == DropLast(old(font.glyphOrder), |ByName(cgs)|) + Flatten(groups)
    ensures |font.svgDocs| == |groups|
    ensures var base := |DropLast(old(font.glyphOrder), |ByName(cgs)|)|;
            DocsFor(font.svgDocs, Renumber(ByName(cgs), Flatten(groups), base), base, groups, render)
    ensures font.glyf == old(font.glyf) && font.hmtx == old(font.hmtx) && font.tables == old(font.tables)
  {
    var reuseGroups := GlyphGroups(cgs);
    groups := reuseGroups;
    GroupNamesKnown(cgs, reuseGroups);
    GroupsNoRepeats(reuseGroups);
    WriteGroups(font, ByName(cgs), reuseGroups, render);
  }

  /** The part of make_svg_table after grouping: renumber the colour glyphs
      group by group and write one document per group. */
  method WriteGroups<G(==), M(==), T, P, R>(font: Font<G, M, T>, glyphs: map<string, ColorGlyph<P, R>>, groups: seq<seq<string>>,
                                            render: (seq<ColorGlyph<P, R>>, seq<Gradient>) -> string)
    requires NoRepeats(Flatten(groups)) && forall x :: x in Flatten(groups) ==> x in glyphs
    requires forall t :: t in groups ==> |t| > 0
    modifies font
    ensures font.glyphOrder == DropLast(old(font.glyphOrder), |glyphs|) + Flatten(groups)
    ensures |font.svgDocs| == |groups|
    ensures var base := |DropLast(old(font.glyphOrder), |glyphs|)|;
            DocsFor(font.svgDocs, Renumber(glyphs, Flatten(groups), base), base, groups, render)
    ensures font.glyf == old(font.glyf) && font.hmtx == old(font.hmtx) && font.tables == old(font.tables)
  {
    var colorGlyphs := new ColorGlyphTable(glyphs);
    ghost var order0 := font.glyphOrder;
    UpdateGlyphOrder(colorGlyphs, font, groups);
    ghost var base := |DropLast(order0, |glyphs|)|;
    var docList := GroupDocs(colorGlyphs, groups, glyphs, base, render);
    font.svgDocs := docList;
  }
}
