// Building the OpenType SVG table (src/nanoemoji/svg.py).  Colour glyphs
// that share a shape are put into one SVG document, and the glyphs of one
// document must have consecutive glyph ids.
module Svg {
  import opened Wrappers
  import opened Orders
  import opened Text
  import opened Seqs
  import opened DisjointSets
  import opened SvgDocs
  import opened GlueTogether

  /** A layer as the SVG builder sees it: its paint, the `d` of its path
      and the transforms of the places it is reused. */
  datatype PaintedLayer<P, R> = PaintedLayer(paint: P, pathD: string, reuses: seq<R>)

  /** One gradient under the picosvg's defs: its id and its XML without the id. */
  datatype Gradient = Gradient(id: string, xml: string)

  datatype ColorGlyph<P, R> = ColorGlyph(glyphName: string, glyphId: int,
                                         layers: seq<PaintedLayer<P, R>>, gradients: seq<Gradient>)

  /** The inter-glyph reuse key (paint, path d, reuses). */
  type Key<P, R> = (P, string, seq<R>)

  function ReuseKey<P, R>(layer: PaintedLayer<P, R>): Key<P, R>
  {
    (layer.paint, layer.pathD, layer.reuses)
  }

  // ---------------------------------------------------------------------
  // _glyph_groups

  /** Glyph `name` has a layer whose reuse key is `key`. */
  ghost predicate HasKey<P(!new), R(!new)>(cgs: seq<ColorGlyph<P, R>>, name: string, key: Key<P, R>)
  {
    exists j, n :: 0 <= j < |cgs| && 0 <= n < |cgs[j].layers| && cgs[j].glyphName == name && ReuseKey(cgs[j].layers[n]) == key
  }

  /** Two glyphs share a reuse key. */
  ghost predicate Edge<P(!new), R(!new)>(cgs: seq<ColorGlyph<P, R>>, a: string, b: string)
  {
    exists key :: HasKey(cgs, a, key) && HasKey(cgs, b, key)
  }

  ghost predicate Chain<P(!new), R(!new)>(cgs: seq<ColorGlyph<P, R>>, path: seq<string>)
  {
    forall i :: 0 <= i < |path| - 1 ==> Edge(cgs, path[i], path[i + 1])
  }

  /** `a` reaches `b` through a chain of glyphs each sharing a key with the next. */
  ghost predicate Linked<P(!new), R(!new)>(cgs: seq<ColorGlyph<P, R>>, a: string, b: string)
  {
    exists path :: |path| > 0 && path[0] == a && path[|path| - 1] == b && Chain(cgs, path)
  }

  lemma LinkedRefl<P(!new), R(!new)>(cgs: seq<ColorGlyph<P, R>>, a: string)
    ensures Linked(cgs, a, a)
  {
    assert Chain(cgs, [a]);
  }

  lemma LinkedEdge<P(!new), R(!new)>(cgs: seq<ColorGlyph<P, R>>, a: string, b: string)
    requires Edge(cgs, a, b)
    ensures Linked(cgs, a, b) && Linked(cgs, b, a)
  {
    assert Chain(cgs, [a, b]);
    assert Chain(cgs, [b, a]);
  }

  lemma LinkedSym<P(!new), R(!new)>(cgs: seq<ColorGlyph<P, R>>, a: string, b: string)
    requires Linked(cgs, a, b)
    ensures Linked(cgs, b, a)
  {
    var path :| |path| > 0 && path[0] == a && path[|path| - 1] == b && Chain(cgs, path);
    var n := |path|;
    var back := seq(n, i requires 0 <= i < n => path[n - 1 - i]);
    forall i | 0 <= i < n - 1 ensures Edge(cgs, back[i], back[i + 1]) {
      assert Edge(cgs, path[n - 2 - i], path[n - 1 - i]);
    }
    assert Chain(cgs, back);
  }

  lemma LinkedTrans<P(!new), R(!new)>(cgs: seq<ColorGlyph<P, R>>, a: string, b: string, c: string)
    requires Linked(cgs, a, b) && Linked(cgs, b, c)
    ensures Linked(cgs, a, c)
  {
    var p :| |p| > 0 && p[0] == a && p[|p| - 1] == b && Chain(cgs, p);
    var q :| |q| > 0 && q[0] == b && q[|q| - 1] == c && Chain(cgs, q);
    var path := p + q[1..];
    forall i | 0 <= i < |path| - 1 ensures Edge(cgs, path[i], path[i + 1]) {
      if i < |p| - 1 {
        assert path[i] == p[i] && path[i + 1] == p[i + 1];
      } else {
        assert path[i] == q[i - |p| + 1] && path[i + 1] == q[i - |p| + 2];
      }
    }
    assert Chain(cgs, path);
  }

  /** Every name in the sets is a colour glyph's name. */
  ghost predicate OnlyNames<P, R>(cgs: seq<ColorGlyph<P, R>>, d: set<string>)
  {
    forall a :: a in d ==> exists j :: 0 <= j < |cgs| && cgs[j].glyphName == a
  }

  /** The glyphs before `k` have been added. */
  ghost predicate Named<P, R>(cgs: seq<ColorGlyph<P, R>>, k: int, d: set<string>)
  {
    forall j :: 0 <= j < |cgs| && j < k ==> cgs[j].glyphName in d
  }

  /** Each recorded key maps to a glyph that has it. */
  ghost predicate SeenFrom<P(!new), R(!new)>(cgs: seq<ColorGlyph<P, R>>, seen: map<Key<P, R>, string>, d: set<string>)
  {
    forall key :: key in seen ==> seen[key] in d && HasKey(cgs, seen[key], key)
  }

  /** Layers before (k, m) are recorded: each key is in `seen`, under a
      glyph in the same set as the layer's own glyph. */
  ghost predicate Joined<P(!new), R(!new)>(cgs: seq<ColorGlyph<P, R>>, k: int, m: int,
                                          p: map<string, string>, lv: map<string, nat>, seen: map<Key<P, R>, string>)
    requires Forest(p, lv)
  {
    forall j, n :: 0 <= j < |cgs| && 0 <= n < |cgs[j].layers| && (j < k || (j == k && n < m)) ==>
      var key := ReuseKey(cgs[j].layers[n]);
      key in seen && cgs[j].glyphName in p && seen[key] in p &&
      RootOf(p, lv, cgs[j].glyphName) == RootOf(p, lv, seen[key])
  }

  /** Elements of one set are linked. */
  ghost predicate SetsLinked<P(!new), R(!new)>(cgs: seq<ColorGlyph<P, R>>, p: map<string, string>, lv: map<string, nat>)
    requires Forest(p, lv)
  {
    forall a, b {:trigger RootOf(p, lv, a), RootOf(p, lv, b)} :: a in p && b in p && RootOf(p, lv, a) == RootOf(p, lv, b) ==> Linked(cgs, a, b)
  }

  /** The state of the union-find loop once the glyphs before `k`, and the
      first `m` layers of glyph `k`, have been seen. */
  ghost predicate GroupingInv<P(!new), R(!new)>(cgs: seq<ColorGlyph<P, R>>, k: int, m: int,
                                               p: map<string, string>, lv: map<string, nat>, seen: map<Key<P, R>, string>)
    requires Forest(p, lv)
  {
    Named(cgs, k, p.Keys) && OnlyNames(cgs, p.Keys) && SeenFrom(cgs, seen, p.Keys) &&
    Joined(cgs, k, m, p, lv, seen) && SetsLinked(cgs, p, lv)
  }

  lemma AfterMakeSet<P(!new), R(!new)>(cgs: seq<ColorGlyph<P, R>>, k: int,
                                       p0: map<string, string>, lv0: map<string, nat>,
                                       p: map<string, string>, lv: map<string, nat>, seen: map<Key<P, R>, string>)
    requires 0 <= k < |cgs| && Forest(p0, lv0) && Forest(p, lv)
    requires p.Keys == p0.Keys + {cgs[k].glyphName}
    requires forall a {:trigger RootOf(p, lv, a)} :: a in p ==> RootOf(p, lv, a) == RootIn(p0, lv0, a)
    requires GroupingInv(cgs, k, 0, p0, lv0, seen)
    ensures GroupingInv(cgs, k, 0, p, lv, seen) && cgs[k].glyphName in p
  {
    var name := cgs[k].glyphName;
    forall a, b | a in p && b in p && RootOf(p, lv, a) == RootOf(p, lv, b) ensures Linked(cgs, a, b) {
      if a in p0 && b in p0 {
        assert RootOf(p0, lv0, a) == RootOf(p0, lv0, b);
      } else if a == b {
        LinkedRefl(cgs, a);
      }
    }
    forall j, n | 0 <= j < |cgs| && 0 <= n < |cgs[j].layers| && j < k
      ensures RootOf(p, lv, cgs[j].glyphName) == RootOf(p, lv, seen[ReuseKey(cgs[j].layers[n])])
    {
      assert RootOf(p0, lv0, cgs[j].glyphName) == RootOf(p0, lv0, seen[ReuseKey(cgs[j].layers[n])]);
    }
    assert OnlyNames(cgs, p.Keys) by {
      forall a | a in p ensures exists j :: 0 <= j < |cgs| && cgs[j].glyphName == a {
        if a == name {
          assert cgs[k].glyphName == a;
        }
      }
    }
  }

  lemma AfterRecord<P(!new), R(!new)>(cgs: seq<ColorGlyph<P, R>>, k: int, m: int,
                                      p: map<string, string>, lv: map<string, nat>, seen: map<Key<P, R>, string>)
    requires 0 <= k < |cgs| && 0 <= m < |cgs[k].layers| && Forest(p, lv)
    requires GroupingInv(cgs, k, m, p, lv, seen) && cgs[k].glyphName in p
    requires ReuseKey(cgs[k].layers[m]) !in seen
    ensures GroupingInv(cgs, k, m + 1, p, lv, seen[ReuseKey(cgs[k].layers[m]) := cgs[k].glyphName])
  {
    var key, name := ReuseKey(cgs[k].layers[m]), cgs[k].glyphName;
    assert HasKey(cgs, name, key);
    SeenAfterRecord(cgs, seen, key, name, p.Keys);
    JoinedAfterRecord(cgs, k, m, p, lv, seen);
  }

  lemma SeenAfterRecord<P(!new), R(!new)>(cgs: seq<ColorGlyph<P, R>>, seen: map<Key<P, R>, string>,
                                          key: Key<P, R>, name: string, d: set<string>)
    requires SeenFrom(cgs, seen, d) && name in d && HasKey(cgs, name, key)
    ensures SeenFrom(cgs, seen[key := name], d)
  {
    var seen' := seen[key := name];
    forall x | x in seen' ensures seen'[x] in d && HasKey(cgs, seen'[x], x) {
      if x != key {
        assert seen'[x] == seen[x];
      }
    }
  }

  lemma JoinedAfterRecord<P(!new), R(!new)>(cgs: seq<ColorGlyph<P, R>>, k: int, m: int,
                                            p: map<string, string>, lv: map<string, nat>, seen: map<Key<P, R>, string>)
    requires 0 <= k < |cgs| && 0 <= m < |cgs[k].layers| && Forest(p, lv)
    requires Joined(cgs, k, m, p, lv, seen) && cgs[k].glyphName in p
    requires ReuseKey(cgs[k].layers[m]) !in seen
    ensures Joined(cgs, k, m + 1, p, lv, seen[ReuseKey(cgs[k].layers[m]) := cgs[k].glyphName])
  {
    var key, name := ReuseKey(cgs[k].layers[m]), cgs[k].glyphName;
    var seen' := seen[key := name];
    forall j, n | 0 <= j < |cgs| && 0 <= n < |cgs[j].layers| && (j < k || (j == k && n < m + 1))
      ensures var x := ReuseKey(cgs[j].layers[n]);
              x in seen' && cgs[j].glyphName in p && seen'[x] in p && RootOf(p, lv, cgs[j].glyphName) == RootOf(p, lv, seen'[x])
    {
      var x := ReuseKey(cgs[j].layers[n]);
      if j == k && n == m {
        assert x == key && seen'[x] == name;
      } else {
        assert x in seen;
        assert seen'[x] == seen[x];
      }
    }
  }

  lemma SetAbsorb<T>(d: set<T>, x: T, y: T)
    requires x in d && y in d
    ensures d + {x, y} == d
  {
  }

  /** A union keeps together what was together. */
  lemma MergeKeeps(p0: map<string, string>, lv0: map<string, nat>, p: map<string, string>, lv: map<string, nat>,
                   x: string, y: string, a: string, b: string)
    requires Forest(p0, lv0) && Forest(p, lv) && MergedFrom(p0, lv0, p, lv, x, y)
    requires a in p0 && b in p0 && RootOf(p0, lv0, a) == RootOf(p0, lv0, b)
    ensures a in p && b in p && RootOf(p, lv, a) == RootOf(p, lv, b)
  {
  }

  /** After joining x and y, which are linked, the sets stay linked. */
  lemma UnionLinked<P(!new), R(!new)>(cgs: seq<ColorGlyph<P, R>>, p0: map<string, string>, lv0: map<string, nat>,
                                      p: map<string, string>, lv: map<string, nat>, x: string, y: string)
    requires Forest(p0, lv0) && Forest(p, lv) && MergedFrom(p0, lv0, p, lv, x, y)
    requires x in p0 && y in p0 && Linked(cgs, x, y) && SetsLinked(cgs, p0, lv0)
    ensures SetsLinked(cgs, p, lv)
  {
    LinkedSym(cgs, x, y);
    forall a, b | a in p && b in p && RootOf(p, lv, a) == RootOf(p, lv, b) ensures Linked(cgs, a, b) {
      var ra, rb := RootOf(p0, lv0, a), RootOf(p0, lv0, b);
      var rx, ry := RootOf(p0, lv0, x), RootOf(p0, lv0, y);
      assert ra == rb || (ra == rx && rb == ry) || (ra == ry && rb == rx);
      if ra == rb {
        assert Linked(cgs, a, b);
      } else if ra == rx && rb == ry {
        assert Linked(cgs, a, x) && Linked(cgs, y, b);
        LinkedTrans(cgs, a, x, y);
        LinkedTrans(cgs, a, y, b);
      } else {
        assert Linked(cgs, a, y) && Linked(cgs, x, b);
        LinkedTrans(cgs, a, y, x);
        LinkedTrans(cgs, a, x, b);
      }
    }
  }

  lemma UnionJoined<P(!new), R(!new)>(cgs: seq<ColorGlyph<P, R>>, k: int, m: int,
                                      p0: map<string, string>, lv0: map<string, nat>,
                                      p: map<string, string>, lv: map<string, nat>, seen: map<Key<P, R>, string>, x: string, y: string)
    requires 0 <= k < |cgs| && 0 <= m < |cgs[k].layers| && Forest(p0, lv0) && Forest(p, lv)
    requires Joined(cgs, k, m, p0, lv0, seen) && MergedFrom(p0, lv0, p, lv, x, y)
    requires x == cgs[k].glyphName && ReuseKey(cgs[k].layers[m]) in seen && y == seen[ReuseKey(cgs[k].layers[m])]
    requires x in p0 && y in p0 && RootOf(p, lv, x) == RootOf(p, lv, y)
    ensures Joined(cgs, k, m + 1, p, lv, seen)
  {
    forall j, n | 0 <= j < |cgs| && 0 <= n < |cgs[j].layers| && (j < k || (j == k && n < m))
      ensures cgs[j].glyphName in p && seen[ReuseKey(cgs[j].layers[n])] in p
      ensures RootOf(p, lv, cgs[j].glyphName) == RootOf(p, lv, seen[ReuseKey(cgs[j].layers[n])])
    {
      MergeKeeps(p0, lv0, p, lv, x, y, cgs[j].glyphName, seen[ReuseKey(cgs[j].layers[n])]);
    }
  }

  lemma AfterUnion<P(!new), R(!new)>(cgs: seq<ColorGlyph<P, R>>, k: int, m: int,
                                     p0: map<string, string>, lv0: map<string, nat>,
                                     p: map<string, string>, lv: map<string, nat>, seen: map<Key<P, R>, string>)
    requires 0 <= k < |cgs| && 0 <= m < |cgs[k].layers| && Forest(p0, lv0) && Forest(p, lv)
    requires GroupingInv(cgs, k, m, p0, lv0, seen) && cgs[k].glyphName in p0
    requires ReuseKey(cgs[k].layers[m]) in seen
    requires MergedFrom(p0, lv0, p, lv, cgs[k].glyphName, seen[ReuseKey(cgs[k].layers[m])])
    requires RootOf(p, lv, cgs[k].glyphName) == RootOf(p, lv, seen[ReuseKey(cgs[k].layers[m])])
    ensures GroupingInv(cgs, k, m + 1, p, lv, seen)
  {
    var key, x := ReuseKey(cgs[k].layers[m]), cgs[k].glyphName;
    var y := seen[key];
    assert p.Keys == p0.Keys by {
      assert p.Keys == p0.Keys + {x, y};
      SetAbsorb(p0.Keys, x, y);
    }
    assert Linked(cgs, x, y) by {
      assert HasKey(cgs, x, key);
      LinkedEdge(cgs, x, y);
    }
    UnionJoined(cgs, k, m, p0, lv0, p, lv, seen, x, y);
    UnionLinked(cgs, p0, lv0, p, lv, x, y);
  }

  lemma JoinedNext<P(!new), R(!new)>(cgs: seq<ColorGlyph<P, R>>, k: int,
                                     p: map<string, string>, lv: map<string, nat>, seen: map<Key<P, R>, string>)
    requires 0 <= k < |cgs| && Forest(p, lv)
    requires GroupingInv(cgs, k, |cgs[k].layers|, p, lv, seen) && cgs[k].glyphName in p
    ensures GroupingInv(cgs, k + 1, 0, p, lv, seen)
  {
  }

  /** Every colour glyph is in some group and every group member is a colour glyph. */
  ghost predicate Covers<P, R>(cgs: seq<ColorGlyph<P, R>>, groups: seq<seq<string>>)
  {
    (forall k :: 0 <= k < |cgs| ==> exists i :: 0 <= i < |groups| && cgs[k].glyphName in groups[i]) &&
    (forall i, x :: 0 <= i < |groups| && x in groups[i] ==> exists k :: 0 <= k < |cgs| && cgs[k].glyphName == x)
  }

  /** No name is in two groups. */
  predicate Disjoint(groups: seq<seq<string>>)
  {
    forall i, j, x :: 0 <= i < |groups| && 0 <= j < |groups| && x in groups[i] && x in groups[j] ==> i == j
  }

  ghost predicate SameGroup(groups: seq<seq<string>>, a: string, b: string)
  {
    exists i :: 0 <= i < |groups| && a in groups[i] && b in groups[i]
  }

  /** Glyphs with a layer of the same reuse key are in one group. */
  ghost predicate KeysTogether<P(!new), R(!new)>(cgs: seq<ColorGlyph<P, R>>, groups: seq<seq<string>>)
  {
    forall k, l, m, n ::
      (0 <= k < |cgs| && 0 <= l < |cgs| && 0 <= m < |cgs[k].layers| && 0 <= n < |cgs[l].layers| &&
       ReuseKey(cgs[k].layers[m]) == ReuseKey(cgs[l].layers[n])) ==>
        SameGroup(groups, cgs[k].glyphName, cgs[l].glyphName)
  }

  /** Glyphs of one group are joined by a chain of shared reuse keys. */
  ghost predicate OnlyChained<P(!new), R(!new)>(cgs: seq<ColorGlyph<P, R>>, groups: seq<seq<string>>)
  {
    forall i, a, b :: 0 <= i < |groups| && a in groups[i] && b in groups[i] ==> Linked(cgs, a, b)
  }

  /** The sorted tuples of the final union-find state. */
  ghost predicate FromClasses(p: map<string, string>, lv: map<string, nat>, groups: seq<seq<string>>)
    requires Forest(p, lv)
  {
    SeqImages(groups) == Classes(p, lv) &&
    (forall t :: t in groups ==> StrictlySorted(t, StrLt)) &&
    StrictlySorted(groups, LexLt(StrLt))
  }

  /** Every class has a member, so no group is empty. */
  lemma GroupsNonEmpty(p: map<string, string>, lv: map<string, nat>, groups: seq<seq<string>>)
    requires Forest(p, lv) && FromClasses(p, lv, groups)
    ensures forall t :: t in groups ==> |t| > 0
  {
    forall t | t in groups ensures |t| > 0 {
      ClassesPartition(p, lv, "", "");
      assert Elements(t) in SeqImages(groups);
      assert Elements(t) != {};
    }
  }

  lemma GroupOf(p: map<string, string>, lv: map<string, nat>, groups: seq<seq<string>>, a: string, b: string)
    requires Forest(p, lv) && FromClasses(p, lv, groups)
    requires a in p && b in p && RootOf(p, lv, a) == RootOf(p, lv, b)
    ensures SameGroup(groups, a, b)
  {
    ClassesPartition(p, lv, a, b);
    var c :| c in Classes(p, lv) && a in c && b in c;
    var u :| u in groups && Elements(u) == c;
    var i :| 0 <= i < |groups| && groups[i] == u;
    assert a in groups[i] && b in groups[i];
  }

  lemma InGroup(p: map<string, string>, lv: map<string, nat>, groups: seq<seq<string>>, i: int, a: string, b: string)
    requires Forest(p, lv) && FromClasses(p, lv, groups)
    requires 0 <= i < |groups| && a in groups[i] && b in groups[i]
    ensures a in p && b in p && RootOf(p, lv, a) == RootOf(p, lv, b)
  {
    assert Elements(groups[i]) in SeqImages(groups);
    ClassesPartition(p, lv, a, b);
  }

  /** Two groups that share a name are the same group. */
  lemma OneGroup(p: map<string, string>, lv: map<string, nat>, groups: seq<seq<string>>, i: int, j: int, x: string)
    requires Forest(p, lv) && FromClasses(p, lv, groups)
    requires 0 <= i < |groups| && 0 <= j < |groups| && x in groups[i] && x in groups[j]
    ensures groups[i] == groups[j]
  {
    StrOrder();
    var ci, cj := Elements(groups[i]), Elements(groups[j]);
    assert ci in SeqImages(groups) && cj in SeqImages(groups);
    ClassesPartition(p, lv, x, x);
    assert ci == cj;
    assert forall y :: y in groups[i] <==> y in groups[j] by {
      forall y ensures y in groups[i] <==> y in groups[j] {
        assert y in groups[i] <==> y in ci;
        assert y in groups[j] <==> y in cj;
      }
    }
    StrictlySortedUnique(groups[i], groups[j], StrLt);
  }

  lemma GroupsDisjoint(p: map<string, string>, lv: map<string, nat>, groups: seq<seq<string>>)
    requires Forest(p, lv) && FromClasses(p, lv, groups)
    ensures Disjoint(groups)
  {
    forall i, j, x | 0 <= i < |groups| && 0 <= j < |groups| && x in groups[i] && x in groups[j] ensures i == j {
      OneGroup(p, lv, groups, i, j, x);
      StrOrder();
      LexLtOrder(StrLt);
    }
  }

  /** Read the properties of the groups off the final union-find state. */
  lemma GroupsFromClasses<P(!new), R(!new)>(cgs: seq<ColorGlyph<P, R>>, p: map<string, string>, lv: map<string, nat>,
                                            seen: map<Key<P, R>, string>, groups: seq<seq<string>>)
    requires Forest(p, lv) && GroupingInv(cgs, |cgs|, 0, p, lv, seen) && FromClasses(p, lv, groups)
    ensures Covers(cgs, groups) && Disjoint(groups) && KeysTogether(cgs, groups) && OnlyChained(cgs, groups)
    ensures forall t :: t in groups ==> |t| > 0
  {
    GroupsNonEmpty(p, lv, groups);
    GroupsDisjoint(p, lv, groups);
    forall k | 0 <= k < |cgs| ensures exists i :: 0 <= i < |groups| && cgs[k].glyphName in groups[i] {
      var a := cgs[k].glyphName;
      GroupOf(p, lv, groups, a, a);
      var i :| 0 <= i < |groups| && a in groups[i] && a in groups[i];
    }
    forall i, x | 0 <= i < |groups| && x in groups[i] ensures exists k :: 0 <= k < |cgs| && cgs[k].glyphName == x {
      InGroup(p, lv, groups, i, x, x);
    }
    forall k, l, m, n | 0 <= k < |cgs| && 0 <= l < |cgs| && 0 <= m < |cgs[k].layers| && 0 <= n < |cgs[l].layers| &&
      ReuseKey(cgs[k].layers[m]) == ReuseKey(cgs[l].layers[n])
      ensures SameGroup(groups, cgs[k].glyphName, cgs[l].glyphName)
    {
      var key := ReuseKey(cgs[k].layers[m]);
      assert RootOf(p, lv, cgs[k].glyphName) == RootOf(p, lv, seen[key]) == RootOf(p, lv, cgs[l].glyphName);
      GroupOf(p, lv, groups, cgs[k].glyphName, cgs[l].glyphName);
    }
    forall i, a, b | 0 <= i < |groups| && a in groups[i] && b in groups[i] ensures Linked(cgs, a, b) {
      InGroup(p, lv, groups, i, a, b);
    }
  }

  /** The inner loop of _glyph_groups: the layers of glyph `k`. */
  method JoinLayers<P(==, !new), R(==, !new)>(cgs: seq<ColorGlyph<P, R>>, k: int,
                                              reuseGroups: DisjointSet<string>, seen: map<Key<P, R>, string>)
    returns (glyphs: map<Key<P, R>, string>)
    requires 0 <= k < |cgs| && reuseGroups.Valid() && cgs[k].glyphName in reuseGroups.parent
    requires GroupingInv(cgs, k, 0, reuseGroups.parent, reuseGroups.level, seen)
    modifies reuseGroups
    ensures reuseGroups.Valid() && cgs[k].glyphName in reuseGroups.parent
    ensures GroupingInv(cgs, k + 1, 0, reuseGroups.parent, reuseGroups.level, glyphs)
  {
    glyphs := seen;
    var name := cgs[k].glyphName;
    var layers := cgs[k].layers;
    for m := 0 to |layers|
      invariant reuseGroups.Valid() && name in reuseGroups.parent
      invariant GroupingInv(cgs, k, m, reuseGroups.parent, reuseGroups.level, glyphs)
    {
      var key := ReuseKey(layers[m]);
      if key !in glyphs {
        AfterRecord(cgs, k, m, reuseGroups.parent, reuseGroups.level, glyphs);
        glyphs := glyphs[key := name];
      } else {
        ghost var p1, lv1 := reuseGroups.parent, reuseGroups.level;
        reuseGroups.Union(name, glyphs[key]);
        AfterUnion(cgs, k, m, p1, lv1, reuseGroups.parent, reuseGroups.level, glyphs);
      }
    }
    JoinedNext(cgs, k, reuseGroups.parent, reuseGroups.level, glyphs);
  }

  /** _glyph_groups: union-find over glyph names, joining each glyph with the
      first glyph seen with the same reuse key; the sets in sorted order. */
  method GlyphGroups<P(==, !new), R(==, !new)>(cgs: seq<ColorGlyph<P, R>>) returns (groups: seq<seq<string>>)
    ensures Covers(cgs, groups) && Disjoint(groups)
    ensures KeysTogether(cgs, groups) && OnlyChained(cgs, groups)
    ensures forall t :: t in groups ==> |t| > 0 && StrictlySorted(t, StrLt)
    ensures StrictlySorted(groups, LexLt(StrLt))
  {
    var glyphs: map<Key<P, R>, string> := map[];
    var reuseGroups := new DisjointSet<string>();
    for k := 0 to |cgs|
      invariant fresh(reuseGroups) && reuseGroups.Valid()
      invariant GroupingInv(cgs, k, 0, reuseGroups.parent, reuseGroups.level, glyphs)
    {
      var name := cgs[k].glyphName;
      ghost var p0, k0, lv0 := reuseGroups.parent, reuseGroups.rank, reuseGroups.level;
      reuseGroups.MakeSet(name);
      MakeSetStep(p0, k0, lv0, name);
      AfterMakeSet(cgs, k, p0, lv0, reuseGroups.parent, reuseGroups.level, glyphs);
      glyphs := JoinLayers(cgs, k, reuseGroups, glyphs);
    }
    StrOrder();
    groups := reuseGroups.Sorted(StrLt);
    assert FromClasses(reuseGroups.parent, reuseGroups.level, groups);
    GroupsFromClasses(cgs, reuseGroups.parent, reuseGroups.level, glyphs, groups);
  }

  // ---------------------------------------------------------------------
  // _update_glyph_order

  /** `order[: -n]` as svg.py:132 writes it: with n == 0 the slice is
      `order[:0]`, which keeps nothing. */
  function DropLastAsWritten(order: seq<string>, n: nat): seq<string>
  {
    if n == 0 || n >= |order| then [] else order[..|order| - n]
  }

  /** The glyph order without its last `n` glyphs, the colour glyphs. */
  function DropLast(order: seq<string>, n: nat): (r: seq<string>)
    ensures |r| == if n >= |order| then 0 else |order| - n
    ensures r == order[..|r|]
  {
    if n >= |order| then [] else order[..|order| - n]
  }

  /** The slice does what was meant whenever there is a colour glyph... */
  lemma DropLastAsWrittenAgrees(order: seq<string>, n: nat)
    requires n > 0
    ensures DropLastAsWritten(order, n) == DropLast(order, n)
  {
  }

  /** ...and with none it drops the whole glyph order, .notdef included. */
  lemma NoColorGlyphsDropsEverything()
    ensures DropLastAsWritten([".notdef"], 0) == []
    ensures DropLast([".notdef"], 0) == [".notdef"]
  {
  }

  /** The colour glyphs by name, as make_svg_table builds them. */
  class ColorGlyphTable<P, R> {
    var glyphs: map<string, ColorGlyph<P, R>>

    constructor (glyphs: map<string, ColorGlyph<P, R>>)
      ensures this.glyphs == glyphs
    {
      this.glyphs := glyphs;
    }
  }

  /** `glyphs` after giving `names`, in order, the glyph ids from `gid` up. */
  function Renumber<P, R>(glyphs: map<string, ColorGlyph<P, R>>, names: seq<string>, gid: int): map<string, ColorGlyph<P, R>>
    requires forall x :: x in names ==> x in glyphs
    decreases |names|
  {
    if |names| == 0 then glyphs
    else Renumber(glyphs[names[0] := glyphs[names[0]].(glyphId := gid)], names[1..], gid + 1)
  }

  lemma RenumberFront<P, R>(glyphs: map<string, ColorGlyph<P, R>>, name: string, rest: seq<string>, gid: int)
    requires name in glyphs && forall x :: x in rest ==> x in glyphs
    ensures Renumber(glyphs, [name] + rest, gid) == Renumber(glyphs[name := glyphs[name].(glyphId := gid)], rest, gid + 1)
  {
    assert ([name] + rest)[1..] == rest;
  }

  /** Renumbering gives the i-th name the id gid + i and leaves every
      other field and every other glyph alone. */
  lemma {:induction false} RenumberIds<P, R>(glyphs: map<string, ColorGlyph<P, R>>, names: seq<string>, gid: int)
    requires (forall x :: x in names ==> x in glyphs) && NoRepeats(names)
    ensures Renumber(glyphs, names, gid).Keys == glyphs.Keys
    ensures forall i :: 0 <= i < |names| ==> Renumber(glyphs, names, gid)[names[i]] == glyphs[names[i]].(glyphId := gid + i)
    ensures forall x :: x in glyphs && x !in names ==> Renumber(glyphs, names, gid)[x] == glyphs[x]
    decreases |names|
  {
    if |names| > 0 {
      var g1 := glyphs[names[0] := glyphs[names[0]].(glyphId := gid)];
      var rest := names[1..];
      assert NoRepeats(rest) by {
        forall i, j | 0 <= i < j < |rest| ensures rest[i] != rest[j] {
          assert rest[i] == names[i + 1] && rest[j] == names[j + 1];
        }
      }
      RenumberIds(g1, rest, gid + 1);
      forall i | 0 <= i < |names| ensures Renumber(glyphs, names, gid)[names[i]] == glyphs[names[i]].(glyphId := gid + i) {
        if i > 0 {
          assert names[i] == rest[i - 1] && names[i] != names[0];
        } else {
          assert names[0] !in rest by {
            forall j | 0 <= j < |rest| ensures rest[j] != names[0] {
              assert rest[j] == names[j + 1];
            }
          }
        }
      }
      forall x | x in glyphs && x !in names ensures Renumber(glyphs, names, gid)[x] == glyphs[x] {
        assert x != names[0] && x !in rest;
      }
    }
  }

  lemma {:induction false} RenumberAppend<P, R>(glyphs: map<string, ColorGlyph<P, R>>, a: seq<string>, b: seq<string>, gid: int)
    requires forall x :: x in a + b ==> x in glyphs
    ensures forall x :: x in b ==> x in Renumber(glyphs, a, gid)
    ensures Renumber(glyphs, a + b, gid) == Renumber(Renumber(glyphs, a, gid), b, gid + |a|)
    decreases |a|
  {
    if |a| == 0 {
      assert a + b == b;
    } else {
      assert a + b == [a[0]] + (a[1..] + b);
      RenumberFront(glyphs, a[0], a[1..] + b, gid);
      RenumberAppend(glyphs[a[0] := glyphs[a[0]].(glyphId := gid)], a[1..], b, gid + 1);
    }
  }

  /** The inner loop of _update_glyph_order: one group's glyphs. */
  method NumberGroup<P, R>(colorGlyphs: ColorGlyphTable<P, R>, group: seq<string>, gid0: int)
    requires forall x :: x in group ==> x in colorGlyphs.glyphs
    modifies colorGlyphs
    ensures colorGlyphs.glyphs == Renumber(old(colorGlyphs.glyphs), group, gid0)
  {
    var gid := gid0;
    for j := 0 to |group|
      invariant gid == gid0 + j
      invariant forall x :: x in group[j..] ==> x in colorGlyphs.glyphs
      invariant Renumber(old(colorGlyphs.glyphs), group, gid0) == Renumber(colorGlyphs.glyphs, group[j..], gid)
    {
      var name := group[j];
      assert group[j..] == [name] + group[j + 1..];
      RenumberFront(colorGlyphs.glyphs, name, group[j + 1..], gid);
      colorGlyphs.glyphs := colorGlyphs.glyphs[name := colorGlyphs.glyphs[name].(glyphId := gid)];
      gid := gid + 1;
    }
  }

  /** _update_glyph_order: keep the glyphs before the colour glyphs, then
      append the reuse groups in order, numbering their glyphs as they go. */
  method UpdateGlyphOrder<G(==), M(==), T, P, R>(colorGlyphs: ColorGlyphTable<P, R>, font: Font<G, M, T>, groups: seq<seq<string>>)
    requires forall x :: x in Flatten(groups) ==> x in colorGlyphs.glyphs
    modifies colorGlyphs, font
    ensures font.glyphOrder == DropLast(old(font.glyphOrder), |old(colorGlyphs.glyphs)|) + Flatten(groups)
    ensures colorGlyphs.glyphs == Renumber(old(colorGlyphs.glyphs), Flatten(groups), |DropLast(old(font.glyphOrder), |old(colorGlyphs.glyphs)|)|)
    ensures font.glyf == old(font.glyf) && font.hmtx == old(font.hmtx)
    ensures font.tables == old(font.tables) && font.svgDocs == old(font.svgDocs)
  {
    var glyphOrder := DropLast(font.glyphOrder, |colorGlyphs.glyphs|);
    var gid := |glyphOrder|;
    ghost var prefix, base, g0 := glyphOrder, gid, colorGlyphs.glyphs;
    for i := 0 to |groups|
      invariant unchanged(font)
      invariant glyphOrder == prefix + Flatten(groups[..i])
      invariant gid == base + |Flatten(groups[..i])|
      invariant forall x :: x in Flatten(groups[i..]) ==> x in colorGlyphs.glyphs
      invariant Renumber(g0, Flatten(groups), base) == Renumber(colorGlyphs.glyphs, Flatten(groups[i..]), gid)
    {
      var group := groups[i];
      FlattenSnoc(groups, i);
      RenumberAppend(colorGlyphs.glyphs, group, Flatten(groups[i + 1..]), gid);
      NumberGroup(colorGlyphs, group, gid);
      gid := gid + |group|;
      glyphOrder := glyphOrder + group;
    }
    assert groups[..|groups|] == groups;
    font.glyphOrder := glyphOrder;
  }

  /** After _update_glyph_order the glyph id of each grouped colour glyph
      is its position in the new glyph order. */
  lemma GidsAreOrderPositions<P, R>(glyphs: map<string, ColorGlyph<P, R>>, prefix: seq<string>, groups: seq<seq<string>>)
    requires (forall x :: x in Flatten(groups) ==> x in glyphs) && NoRepeats(Flatten(groups))
    ensures var flat := Flatten(groups);
            var order, numbered := prefix + flat, Renumber(glyphs, flat, |prefix|);
            forall i :: 0 <= i < |flat| ==> flat[i] in numbered && numbered[flat[i]].glyphId == |prefix| + i && order[|prefix| + i] == flat[i]
  {
    RenumberIds(glyphs, Flatten(groups), |prefix|);
  }

  // ---------------------------------------------------------------------
  // The document list

  /** The glyph ids of a group's glyphs, in group order. */
  function GroupGids<P, R>(glyphs: map<string, ColorGlyph<P, R>>, group: seq<string>): (r: seq<int>)
    requires forall x :: x in group ==> x in glyphs
    ensures |r| == |group| && forall k :: 0 <= k < |group| ==> r[k] == glyphs[group[k]].glyphId
  {
    seq(|group|, k requires 0 <= k < |group| => glyphs[group[k]].glyphId)
  }

  /** min(s) */
  function MinOf(s: seq<int>): (r: int)
    requires |s| > 0
    ensures r in s && forall x :: x in s ==> r <= x
  {
    if |s| == 1 then s[0]
    else
      var m := MinOf(s[1..]);
      assert forall x :: x in s ==> x == s[0] || x in s[1..];
      if s[0] <= m then s[0] else m
  }

  /** max(s) */
  function MaxOf(s: seq<int>): (r: int)
    requires |s| > 0
    ensures r in s && forall x :: x in s ==> x <= r
  {
    if |s| == 1 then s[0]
    else
      var m := MaxOf(s[1..]);
      assert forall x :: x in s ==> x == s[0] || x in s[1..];
      if s[0] >= m then s[0] else m
  }

  /** The positions of group `i`'s glyphs in the flattened groups. */
  lemma GroupOffset(groups: seq<seq<string>>, i: int, k: int)
    requires 0 <= i < |groups| && 0 <= k < |groups[i]|
    ensures var off := |Flatten(groups[..i])|;
            off + k < |Flatten(groups)| && Flatten(groups)[off + k] == groups[i][k]
  {
    assert groups == groups[..i] + groups[i..];
    FlattenAppend(groups[..i], groups[i..]);
    FlattenSnoc(groups, i);
  }

  /** The ids _update_glyph_order gives a group run consecutively from the
      group's offset in the new glyph order. */
  lemma GroupSpan<P, R>(glyphs: map<string, ColorGlyph<P, R>>, base: int, groups: seq<seq<string>>, i: int)
    requires (forall x :: x in Flatten(groups) ==> x in glyphs) && NoRepeats(Flatten(groups))
    requires 0 <= i < |groups|
    ensures forall x :: x in groups[i] ==> x in Renumber(glyphs, Flatten(groups), base)
    ensures var lo := base + |Flatten(groups[..i])|;
            GroupGids(Renumber(glyphs, Flatten(groups), base), groups[i]) == Range(lo, lo + |groups[i]| - 1)
  {
    var flat, off := Flatten(groups), |Flatten(groups[..i])|;
    RenumberIds(glyphs, flat, base);
    var numbered := Renumber(glyphs, flat, base);
    forall x | x in groups[i] ensures x in numbered {
      var k :| 0 <= k < |groups[i]| && groups[i][k] == x;
      GroupOffset(groups, i, k);
    }
    var gids := GroupGids(numbered, groups[i]);
    var lo := base + off;
    forall k | 0 <= k < |groups[i]| ensures gids[k] == lo + k {
      GroupOffset(groups, i, k);
    }
    assert gids == Range(lo, lo + |groups[i]| - 1);
  }

  /** A document's (min gid, max gid) for a run of consecutive ids. */
  lemma RangeBounds(lo: int, hi: int)
    requires lo <= hi
    ensures MinOf(Range(lo, hi)) == lo && MaxOf(Range(lo, hi)) == hi
  {
    var r := Range(lo, hi);
    RangeMembers(lo, hi);
    assert r[0] == lo && r[|r| - 1] == hi;
    assert lo in r && hi in r;
    assert MaxOf(r) <= hi && MaxOf(r) >= hi;
  }

  // ---------------------------------------------------------------------
  // _add_unique_gradients

  /** id_updates is keyed by old ids (str) and by gradient XML (bytes); the
      two kinds of key never collide. */
  datatype UpdateKey = IdKey(id: string) | XmlKey(xml: string)

  class IdUpdates {
    var updates: map<UpdateKey, string>

    constructor ()
      ensures updates == map[]
    {
      updates := map[];
    }
  }

  /** The children of one document's defs. */
  class Defs {
    var gradients: seq<Gradient>

    constructor ()
      ensures gradients == []
    {
      gradients := [];
    }
  }

  /** "<glyph_name>::<old id>" */
  function NewGradientId(glyphName: string, id: string): string
  {
    glyphName + "::" + id
  }

  /** One gradient: reuse the id of an identical gradient seen before, or
      rename it and append it to defs. */
  function AddGradient(updates: map<UpdateKey, string>, defs: seq<Gradient>, glyphName: string, g: Gradient)
    : (map<UpdateKey, string>, seq<Gradient>)
  {
    if XmlKey(g.xml) in updates then (updates[IdKey(g.id) := updates[XmlKey(g.xml)]], defs)
    else
      var newId := NewGradientId(glyphName, g.id);
      (updates[IdKey(g.id) := newId][XmlKey(g.xml) := newId], defs + [Gradient(newId, g.xml)])
  }

  function AddGradients(updates: map<UpdateKey, string>, defs: seq<Gradient>, glyphName: string, gs: seq<Gradient>)
    : (map<UpdateKey, string>, seq<Gradient>)
    decreases |gs|
  {
    if |gs| == 0 then (updates, defs)
    else
      var (u, d) := AddGradient(updates, defs, glyphName, gs[0]);
      AddGradients(u, d, glyphName, gs[1..])
  }

  /** _add_unique_gradients */
  method AddUniqueGradients<P, R>(idUpdates: IdUpdates, svgDefs: Defs, colorGlyph: ColorGlyph<P, R>)
    modifies idUpdates, svgDefs
    ensures (idUpdates.updates, svgDefs.gradients) ==
            AddGradients(old(idUpdates.updates), old(svgDefs.gradients), colorGlyph.glyphName, colorGlyph.gradients)
  {
    var gradients := colorGlyph.gradients;
    for i := 0 to |gradients|
      invariant AddGradients(old(idUpdates.updates), old(svgDefs.gradients), colorGlyph.glyphName, gradients) ==
                AddGradients(idUpdates.updates, svgDefs.gradients, colorGlyph.glyphName, gradients[i..])
    {
      var gradient := gradients[i];
      assert gradients[i..][1..] == gradients[i + 1..];
      var newId := NewGradientId(colorGlyph.glyphName, gradient.id);
      if XmlKey(gradient.xml) in idUpdates.updates {
        idUpdates.updates := idUpdates.updates[IdKey(gradient.id) := idUpdates.updates[XmlKey(gradient.xml)]];
      } else {
        idUpdates.updates := idUpdates.updates[IdKey(gradient.id) := newId];
        idUpdates.updates := idUpdates.updates[XmlKey(gradient.xml) := newId];
        svgDefs.gradients := svgDefs.gradients + [Gradient(newId, gradient.xml)];
      }
    }
  }

  /** The defs of a document hold each XML once, under the id it was given. */
  ghost predicate DefsInv(updates: map<UpdateKey, string>, defs: seq<Gradient>)
  {
    (forall i, j :: 0 <= i < j < |defs| ==> defs[i].xml != defs[j].xml) &&
    (forall i :: 0 <= i < |defs| ==> XmlKey(defs[i].xml) in updates && updates[XmlKey(defs[i].xml)] == defs[i].id)
  }

  /** Gradients identical apart from their id share one new id and are
      appended once; appended gradients are renamed "<glyph_name>::<old id>";
      the ids known before keep their XML's new id. */
  lemma {:induction false} AddGradientsSpec(updates: map<UpdateKey, string>, defs: seq<Gradient>, glyphName: string, gs: seq<Gradient>)
    requires DefsInv(updates, defs)
    ensures var (u, d) := AddGradients(updates, defs, glyphName, gs);
      DefsInv(u, d) && |d| >= |defs| && d[..|defs|] == defs &&
      (forall i :: |defs| <= i < |d| ==> exists k :: 0 <= k < |gs| && d[i] == Gradient(NewGradientId(glyphName, gs[k].id), gs[k].xml)) &&
      (forall k :: 0 <= k < |gs| ==> XmlKey(gs[k].xml) in u) &&
      (forall x :: XmlKey(x) in updates ==> XmlKey(x) in u && u[XmlKey(x)] == updates[XmlKey(x)])
    decreases |gs|
  {
    if |gs| > 0 {
      var g := gs[0];
      var (u1, d1) := AddGradient(updates, defs, glyphName, g);
      assert DefsInv(u1, d1) by {
        if XmlKey(g.xml) !in updates {
          forall i | 0 <= i < |defs| ensures defs[i].xml != g.xml {
            assert XmlKey(defs[i].xml) in updates;
          }
        }
      }
      AddGradientsSpec(u1, d1, glyphName, gs[1..]);
      var (u, d) := AddGradients(u1, d1, glyphName, gs[1..]);
      assert d[..|d1|] == d1;
      assert d[..|defs|] == defs by {
        assert d1[..|defs|] == defs;
      }
      forall i | |defs| <= i < |d| ensures exists k :: 0 <= k < |gs| && d[i] == Gradient(NewGradientId(glyphName, gs[k].id), gs[k].xml) {
        if i < |d1| {
          assert d[i] == d1[i] && d1[i] == Gradient(NewGradientId(glyphName, g.id), g.xml);
        } else {
          var k :| 0 <= k < |gs[1..]| && d[i] == Gradient(NewGradientId(glyphName, gs[1..][k].id), gs[1..][k].xml);
          assert gs[1..][k] == gs[k + 1];
        }
      }
      forall k | 0 <= k < |gs| ensures XmlKey(gs[k].xml) in u {
        if k > 0 {
          assert gs[k] == gs[1..][k - 1];
        }
      }
    }
  }

  /** Adding gradients in two steps. */
  lemma {:induction false} AddGradientsSplit(updates: map<UpdateKey, string>, defs: seq<Gradient>, glyphName: string, gs: seq<Gradient>, k: nat)
    requires k <= |gs|
    ensures var (u, d) := AddGradients(updates, defs, glyphName, gs[..k]);
            AddGradients(updates, defs, glyphName, gs) == AddGradients(u, d, glyphName, gs[k..])
    decreases k
  {
    if k == 0 {
      assert gs[..0] == [] && gs[0..] == gs;
    } else {
      var (u1, d1) := AddGradient(updates, defs, glyphName, gs[0]);
      AddGradientsSplit(u1, d1, glyphName, gs[1..], k - 1);
      assert gs[1..][k - 1..] == gs[k..];
      assert gs[..k][1..] == gs[1..][..k - 1];
    }
  }

  /** The first gradient's old id resolves to its XML's new id when no later
      gradient reuses that id. */
  lemma FirstIdResolves(updates: map<UpdateKey, string>, defs: seq<Gradient>, glyphName: string, gs: seq<Gradient>)
    requires |gs| > 0 && forall l :: 0 < l < |gs| ==> gs[l].id != gs[0].id
    ensures var (u, d) := AddGradients(updates, defs, glyphName, gs);
            IdKey(gs[0].id) in u && XmlKey(gs[0].xml) in u && u[IdKey(gs[0].id)] == u[XmlKey(gs[0].xml)]
  {
    var g := gs[0];
    var (u1, d1) := AddGradient(updates, defs, glyphName, g);
    assert IdKey(g.id) in u1 && XmlKey(g.xml) in u1 && u1[IdKey(g.id)] == u1[XmlKey(g.xml)];
    forall l | 0 <= l < |gs[1..]| ensures gs[1..][l].id != g.id {
      assert gs[1..][l] == gs[l + 1];
    }
    AddGradientsKeeps(u1, d1, glyphName, gs[1..]);
  }

  /** Gradient `k` of `gs` is the last one with its id. */
  predicate LastWithId(gs: seq<Gradient>, k: int)
  {
    0 <= k < |gs| && forall l :: k < l < |gs| ==> gs[l].id != gs[k].id
  }

  /** Each old id resolves to the new id of its gradient's XML, unless a
      later gradient of the glyph reuses the old id. */
  lemma AddGradientsIds(updates: map<UpdateKey, string>, defs: seq<Gradient>, glyphName: string, gs: seq<Gradient>)
    ensures var (u, d) := AddGradients(updates, defs, glyphName, gs);
      forall k :: LastWithId(gs, k) ==>
        IdKey(gs[k].id) in u && XmlKey(gs[k].xml) in u && u[IdKey(gs[k].id)] == u[XmlKey(gs[k].xml)]
  {
    forall k | LastWithId(gs, k)
      ensures var (u, d) := AddGradients(updates, defs, glyphName, gs);
              IdKey(gs[k].id) in u && XmlKey(gs[k].xml) in u && u[IdKey(gs[k].id)] == u[XmlKey(gs[k].xml)]
    {
      AddGradientsSplit(updates, defs, glyphName, gs, k);
      var (u0, d0) := AddGradients(updates, defs, glyphName, gs[..k]);
      forall l | 0 < l < |gs[k..]| ensures gs[k..][l].id != gs[k..][0].id {
        assert gs[k..][l] == gs[k + l];
      }
      FirstIdResolves(u0, d0, glyphName, gs[k..]);
    }
  }

  /** XML entries are never overwritten, and an id no later gradient uses
      keeps its entry. */
  lemma {:induction false} AddGradientsKeeps(updates: map<UpdateKey, string>, defs: seq<Gradient>, glyphName: string, gs: seq<Gradient>)
    ensures var (u, d) := AddGradients(updates, defs, glyphName, gs);
      (forall x :: XmlKey(x) in updates ==> XmlKey(x) in u && u[XmlKey(x)] == updates[XmlKey(x)]) &&
      (forall id :: IdKey(id) in updates && (forall l :: 0 <= l < |gs| ==> gs[l].id != id) ==>
         IdKey(id) in u && u[IdKey(id)] == updates[IdKey(id)])
    decreases |gs|
  {
    if |gs| > 0 {
      var (u1, d1) := AddGradient(updates, defs, glyphName, gs[0]);
      AddGradientsKeeps(u1, d1, glyphName, gs[1..]);
      forall id | IdKey(id) in updates && (forall l :: 0 <= l < |gs| ==> gs[l].id != id)
        ensures forall l :: 0 <= l < |gs[1..]| ==> gs[1..][l].id != id
      {
        forall l | 0 <= l < |gs[1..]| ensures gs[1..][l].id != id {
          assert gs[1..][l] == gs[l + 1];
        }
      }
    }
  }

  // ---------------------------------------------------------------------
  // _ensure_has_id

  /** An element's attributes, which lxml updates in place. */
  class Element {
    var attrib: map<string, string>

    constructor (attrib: map<string, string>)
      ensures this.attrib == attrib
    {
      this.attrib := attrib;
    }
  }

  /** "<parent id>::<nth>" */
  function ChildId(parentId: string, nth: nat): string
  {
    parentId + "::" + Decimal(nth)
  }

  /** Different positions under one parent give different ids. */
  lemma ChildIdsDiffer(parentId: string, m: nat, n: nat)
    requires m != n
    ensures ChildId(parentId, m) != ChildId(parentId, n)
  {
    var pre := parentId + "::";
    assert ChildId(parentId, m) == pre + Decimal(m) && ChildId(parentId, n) == pre + Decimal(n);
    if ChildId(parentId, m) == ChildId(parentId, n) {
      assert Decimal(m) == ChildId(parentId, m)[|pre|..];
      assert Decimal(n) == ChildId(parentId, n)[|pre|..];
      DecimalInjective(m, n);
    }
  }

  /** _ensure_has_id: an element without an id gets its parent's id and its
      index among its siblings. `preceding` are the siblings before `el`
      (the getprevious() chain); `parent` is getparent(). */
  method EnsureHasId(el: Element, parent: Element?, preceding: seq<Element>) returns (r: Outcome)
    modifies el
    ensures "id" in old(el.attrib) ==> r == Pass && el.attrib == old(el.attrib)
    ensures "id" !in old(el.attrib) && parent == null ==> r == Fail(AttributeError) && el.attrib == old(el.attrib)
    ensures "id" !in old(el.attrib) && parent != null && "id" !in old(parent.attrib) ==>
              r == Fail(KeyError) && el.attrib == old(el.attrib)
    ensures "id" !in old(el.attrib) && parent != null && "id" in old(parent.attrib) ==>
              r == Pass && el.attrib == old(el.attrib)["id" := ChildId(old(parent.attrib["id"]), |preceding|)]
  {
    if "id" in el.attrib {
      return Pass;
    }
    var nthChild := 0;
    var prev := |preceding|;
    while prev > 0
      invariant 0 <= prev <= |preceding| && nthChild == |preceding| - prev
    {
      nthChild := nthChild + 1;
      prev := prev - 1;
    }
    if parent == null {
      return Fail(AttributeError);
    }
    if "id" !in parent.attrib {
      return Fail(KeyError);
    }
    el.attrib := el.attrib["id" := ChildId(parent.attrib["id"], nthChild)];
    r := Pass;
  }
}
