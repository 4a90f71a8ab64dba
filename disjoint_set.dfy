// The union-find structure that groups glyphs sharing reusable shapes
// (src/nanoemoji/disjoint_set.py).  Elements are glyph names.
module DisjointSets {
  import opened Sorting
  import opened Orders

  /** The parent links form a forest: every parent is an element, and a
      non-root's parent sits strictly higher in the ghost `level` map, which
      is what makes following parents terminate. */
  ghost predicate Forest<T>(parent: map<T, T>, level: map<T, nat>)
  {
    parent.Keys == level.Keys &&
    (forall e :: e in parent ==> Link(parent, e) in parent && (Link(parent, e) != e ==> Higher(level, Link(parent, e), e)))
  }

  ghost function Link<T>(parent: map<T, T>, e: T): T
    requires e in parent
  {
    parent[e]
  }

  ghost predicate Higher<T>(level: map<T, nat>, a: T, b: T)
  {
    a in level && b in level && level[a] > level[b]
  }

  ghost function Above<T>(level: map<T, nat>, e: T): set<T>
    requires e in level
  {
    set k | k in level && level[k] > level[e]
  }

  lemma AboveShrinks<T>(parent: map<T, T>, level: map<T, nat>, e: T)
    requires Forest(parent, level) && e in parent && parent[e] != e
    ensures Above(level, parent[e]) < Above(level, e)
  {
    assert Link(parent, e) == parent[e];
    assert Higher(level, parent[e], e);
    assert parent[e] in Above(level, e);
  }

  /** The representative reached by following parent links from `e`. */
  ghost function RootOf<T>(parent: map<T, T>, level: map<T, nat>, e: T): (r: T)
    requires Forest(parent, level) && e in parent
    ensures r in parent && parent[r] == r
    decreases Above(level, e)
  {
    if parent[e] == e then e
    else
      AboveShrinks(parent, level, e);
      RootOf(parent, level, parent[e])
  }

  lemma RootOfStep<T>(parent: map<T, T>, level: map<T, nat>, e: T)
    requires Forest(parent, level) && e in parent
    ensures parent[e] in parent && RootOf(parent, level, e) == RootOf(parent, level, parent[e])
  {
  }

  /** The representative of `e`, or `e` itself when it is not an element yet. */
  ghost function RootIn<T>(parent: map<T, T>, level: map<T, nat>, e: T): T
    requires Forest(parent, level)
  {
    if e in parent then RootOf(parent, level, e) else e
  }

  /** make_set on the dictionaries: adds `e` with value `v` unless present. */
  function WithSet<T, V>(m: map<T, V>, e: T, v: V): map<T, V>
  {
    if e in m then m else m[e := v]
  }

  lemma ForestExtend<T>(parent: map<T, T>, level: map<T, nat>, e: T)
    requires Forest(parent, level) && e !in parent
    ensures Forest(parent[e := e], level[e := 0])
  {
  }

  /** Adding a singleton keeps every existing representative. */
  lemma {:induction false} RootOfExtend<T>(parent: map<T, T>, level: map<T, nat>, e: T, a: T)
    requires Forest(parent, level) && e !in parent && a in parent
    requires Forest(parent[e := e], level[e := 0])
    ensures RootOf(parent[e := e], level[e := 0], a) == RootOf(parent, level, a)
    decreases Above(level, a)
  {
    if parent[a] != a {
      AboveShrinks(parent, level, a);
      RootOfExtend(parent, level, e, parent[a]);
    }
  }

  /** Linking root `l` under root `w` sends exactly the members of `l`'s set to `w`. */
  lemma {:induction false} RootOfLink<T>(p: map<T, T>, lv: map<T, nat>, w: T, l: T, a: T)
    requires Forest(p, lv) && w in p && l in p && p[w] == w && p[l] == l && w != l && a in p
    requires Forest(p[l := w], Raised(lv, w, l))
    ensures var r := RootOf(p, lv, a);
            RootOf(p[l := w], Raised(lv, w, l), a) == if r == l then w else r
    decreases Above(lv, a)
  {
    var p2 := p[l := w];
    var lv2 := Raised(lv, w, l);
    if p[a] != a {
      AboveShrinks(p, lv, a);
      RootOfLink(p, lv, w, l, p[a]);
    } else if a == l {
      assert RootOf(p2, lv2, w) == w;
    }
  }

  lemma StoreSame<T>(m: map<T, T>, k: T)
    requires k in m
    ensures m[k := m[k]] == m
  {
  }

  /** The invariant of a DisjointSet's dictionaries. */
  ghost predicate Inv<T>(parent: map<T, T>, rank: map<T, nat>, level: map<T, nat>)
  {
    Forest(parent, level) && rank.Keys == parent.Keys
  }

  /** make_set on the dictionaries keeps the invariant and every representative. */
  lemma MakeSetStep<T>(parent: map<T, T>, rank: map<T, nat>, level: map<T, nat>, e: T)
    requires Inv(parent, rank, level)
    ensures var p, l := WithSet(parent, e, e), WithSet(level, e, 0);
            Inv(p, WithSet(rank, e, 0), l) &&
            forall a {:trigger RootOf(p, l, a)} :: a in p ==> RootOf(p, l, a) == RootIn(parent, level, a)
  {
    if e !in parent {
      ForestExtend(parent, level, e);
      forall a {:trigger RootOf(parent, level, a)} | a in parent ensures RootOf(parent[e := e], level[e := 0], a) == RootOf(parent, level, a) {
        RootOfExtend(parent, level, e, a);
      }
    }
  }

  /** The ghost levels after linking root `l` below root `w`. */
  ghost function Raised<T>(lv: map<T, nat>, w: T, l: T): map<T, nat>
    requires w in lv && l in lv
  {
    lv[w := if lv[w] > lv[l] then lv[w] else lv[l] + 1]
  }

  lemma LinkForest<T>(p: map<T, T>, lv: map<T, nat>, w: T, l: T)
    requires Forest(p, lv) && w in p && l in p && p[w] == w && p[l] == l && w != l
    ensures Forest(p[l := w], Raised(lv, w, l))
  {
  }

  lemma LinkKeys<T>(p: map<T, T>, k: map<T, nat>, w: T, l: T, v: nat)
    requires k.Keys == p.Keys && w in p && l in p
    ensures k[w := v].Keys == p[l := w].Keys
  {
  }

  /** Linking root `l` below root `w` sends exactly the members of `l`'s set to `w`. */
  lemma LinkRoots<T>(p: map<T, T>, lv: map<T, nat>, w: T, l: T)
    requires Forest(p, lv) && w in p && l in p && p[w] == w && p[l] == l && w != l
    requires Forest(p[l := w], Raised(lv, w, l))
    ensures forall a {:trigger RootOf(p, lv, a)} :: a in p ==>
              RootOf(p[l := w], Raised(lv, w, l), a) == if RootOf(p, lv, a) == l then w else RootOf(p, lv, a)
  {
    forall a {:trigger RootOf(p, lv, a)} | a in p
      ensures RootOf(p[l := w], Raised(lv, w, l), a) == if RootOf(p, lv, a) == l then w else RootOf(p, lv, a)
    {
      RootOfLink(p, lv, w, l, a);
    }
  }

  /** The ranks after linking root `l` below root `w`: the winner's rank
      grows when the two ranks were equal. */
  function Bumped<T>(k: map<T, nat>, w: T, l: T): map<T, nat>
    requires w in k && l in k
  {
    if k[w] == k[l] then k[w := k[w] + 1] else k
  }

  /** The dictionaries (and ghost levels) after union(x, y), given those before it. */
  ghost function UnionState<T>(parent: map<T, T>, rank: map<T, nat>, level: map<T, nat>, x: T, y: T):
    (map<T, T>, map<T, nat>, map<T, nat>)
    requires Inv(parent, rank, level)
  {
    var p1 := WithSet(WithSet(parent, x, x), y, y);
    var k1 := WithSet(WithSet(rank, x, 0), y, 0);
    var lv1 := WithSet(WithSet(level, x, 0), y, 0);
    var xr := RootIn(parent, level, x);
    var yr := RootIn(parent, level, y);
    var w := if k1[x] < k1[y] then yr else xr;
    var l := if k1[x] < k1[y] then xr else yr;
    MakeSetStep(parent, rank, level, x);
    MakeSetStep(WithSet(parent, x, x), WithSet(rank, x, 0), WithSet(level, x, 0), y);
    if xr == yr then (p1, k1, lv1)
    else (p1[l := w], Bumped(k1, w, l), Raised(lv1, w, l))
  }

  /** The partition of (p, lv) is that of (p0, lv0), extended with `x` and
      `y` as singletons if new, with the sets of `x` and `y` merged. */
  ghost predicate MergedFrom<T>(p0: map<T, T>, lv0: map<T, nat>, p: map<T, T>, lv: map<T, nat>, x: T, y: T)
    requires Forest(p0, lv0) && Forest(p, lv)
  {
    p.Keys == p0.Keys + {x, y} &&
    forall a, b {:trigger RootOf(p, lv, a), RootOf(p, lv, b)} :: a in p && b in p ==>
      var ra, rb := RootIn(p0, lv0, a), RootIn(p0, lv0, b);
      var rx, ry := RootIn(p0, lv0, x), RootIn(p0, lv0, y);
      (RootOf(p, lv, a) == RootOf(p, lv, b) <==> ra == rb || (ra == rx && rb == ry) || (ra == ry && rb == rx))
  }

  /** Two make_set-like steps compose: representatives relative to the first state. */
  lemma ComposeRoots<T>(p0: map<T, T>, lv0: map<T, nat>, pA: map<T, T>, lvA: map<T, nat>,
                        p1: map<T, T>, lv1: map<T, nat>, y: T)
    requires Forest(p0, lv0) && Forest(pA, lvA) && Forest(p1, lv1)
    requires pA.Keys >= p0.Keys && p1.Keys == pA.Keys + {y}
    requires forall a {:trigger RootOf(pA, lvA, a)} :: a in pA ==> RootOf(pA, lvA, a) == RootIn(p0, lv0, a)
    requires forall a {:trigger RootOf(p1, lv1, a)} :: a in p1 ==> RootOf(p1, lv1, a) == RootIn(pA, lvA, a)
    requires y !in pA ==> y !in p0
    ensures forall a {:trigger RootOf(p1, lv1, a)} :: a in p1 ==> RootOf(p1, lv1, a) == RootIn(p0, lv0, a)
  {
  }

  lemma KeepMerges<T>(p0: map<T, T>, lv0: map<T, nat>, p1: map<T, T>, lv1: map<T, nat>, x: T, y: T)
    requires Forest(p0, lv0) && Forest(p1, lv1)
    requires p1.Keys == p0.Keys + {x, y}
    requires forall a {:trigger RootOf(p1, lv1, a)} :: a in p1 ==> RootOf(p1, lv1, a) == RootIn(p0, lv0, a)
    requires RootIn(p0, lv0, x) == RootIn(p0, lv0, y)
    ensures MergedFrom(p0, lv0, p1, lv1, x, y)
  {
  }

  lemma LinkMerges<T>(p0: map<T, T>, lv0: map<T, nat>, p1: map<T, T>, lv1: map<T, nat>,
                      p2: map<T, T>, lv2: map<T, nat>, x: T, y: T, w: T, l: T)
    requires Forest(p0, lv0) && Forest(p1, lv1) && Forest(p2, lv2)
    requires p1.Keys == p0.Keys + {x, y} && p2.Keys == p1.Keys
    requires forall a {:trigger RootOf(p1, lv1, a)} :: a in p1 ==> RootOf(p1, lv1, a) == RootIn(p0, lv0, a)
    requires forall a {:trigger RootOf(p2, lv2, a)} :: a in p1 ==> RootOf(p2, lv2, a) == if RootOf(p1, lv1, a) == l then w else RootOf(p1, lv1, a)
    requires w != l && w in p1 && p1[w] == w
    requires (w == RootIn(p0, lv0, x) && l == RootIn(p0, lv0, y)) || (w == RootIn(p0, lv0, y) && l == RootIn(p0, lv0, x))
    ensures MergedFrom(p0, lv0, p2, lv2, x, y)
    ensures RootOf(p2, lv2, x) == RootOf(p2, lv2, y)
  {
    assert RootOf(p2, lv2, x) == w by {
      assert RootOf(p1, lv1, x) == RootIn(p0, lv0, x);
    }
    assert RootOf(p2, lv2, y) == w by {
      assert RootOf(p1, lv1, y) == RootIn(p0, lv0, y);
    }
    forall a, b {:trigger RootOf(p2, lv2, a), RootOf(p2, lv2, b)} | a in p2 && b in p2
      ensures var ra, rb := RootIn(p0, lv0, a), RootIn(p0, lv0, b);
              var rx, ry := RootIn(p0, lv0, x), RootIn(p0, lv0, y);
              (RootOf(p2, lv2, a) == RootOf(p2, lv2, b) <==> ra == rb || (ra == rx && rb == ry) || (ra == ry && rb == rx))
    {
      var ra, rb := RootOf(p1, lv1, a), RootOf(p1, lv1, b);
      assert ra == RootIn(p0, lv0, a) && rb == RootIn(p0, lv0, b);
      assert RootOf(p2, lv2, a) == (if ra == l then w else ra);
      assert RootOf(p2, lv2, b) == (if rb == l then w else rb);
      assert p1[ra] == ra && p1[rb] == rb;
    }
  }

  /** The second find of union sees the representative the first state gave `y`. */
  lemma SecondFind<T>(p0: map<T, T>, k0: map<T, nat>, lv0: map<T, nat>, x: T, y: T)
    requires Inv(p0, k0, lv0)
    ensures Inv(WithSet(p0, x, x), WithSet(k0, x, 0), WithSet(lv0, x, 0))
    ensures RootIn(WithSet(p0, x, x), WithSet(lv0, x, 0), y) == RootIn(p0, lv0, y)
  {
    MakeSetStep(p0, k0, lv0, x);
  }

  /** The two make_set calls at the start of union (inside its finds). */
  lemma TwoMakeSets<T>(p0: map<T, T>, k0: map<T, nat>, lv0: map<T, nat>, x: T, y: T)
    requires Inv(p0, k0, lv0)
    ensures var p1, k1, lv1 := WithSet(WithSet(p0, x, x), y, y), WithSet(WithSet(k0, x, 0), y, 0), WithSet(WithSet(lv0, x, 0), y, 0);
            Inv(p1, k1, lv1) && p1.Keys == p0.Keys + {x, y} &&
            forall a {:trigger RootOf(p1, lv1, a)} :: a in p1 ==> RootOf(p1, lv1, a) == RootIn(p0, lv0, a)
  {
    var pA, kA, lvA := WithSet(p0, x, x), WithSet(k0, x, 0), WithSet(lv0, x, 0);
    var p1, k1, lv1 := WithSet(pA, y, y), WithSet(kA, y, 0), WithSet(lvA, y, 0);
    MakeSetStep(p0, k0, lv0, x);
    MakeSetStep(pA, kA, lvA, y);
    ComposeRoots(p0, lv0, pA, lvA, p1, lv1, y);
  }

  /** union keeps the invariant, merges the sets of `x` and `y` and leaves
      every other set alone. */
  lemma UnionCorrect<T>(p0: map<T, T>, k0: map<T, nat>, lv0: map<T, nat>, x: T, y: T,
                        p: map<T, T>, k: map<T, nat>, lv: map<T, nat>)
    requires Inv(p0, k0, lv0) && (p, k, lv) == UnionState(p0, k0, lv0, x, y)
    ensures Inv(p, k, lv) && MergedFrom(p0, lv0, p, lv, x, y)
    ensures RootOf(p, lv, x) == RootOf(p, lv, y)
  {
    var p1, k1, lv1 := WithSet(WithSet(p0, x, x), y, y), WithSet(WithSet(k0, x, 0), y, 0), WithSet(WithSet(lv0, x, 0), y, 0);
    TwoMakeSets(p0, k0, lv0, x, y);
    var xr, yr := RootIn(p0, lv0, x), RootIn(p0, lv0, y);
    assert RootOf(p1, lv1, x) == xr && RootOf(p1, lv1, y) == yr;
    if xr == yr {
      KeepMerges(p0, lv0, p1, lv1, x, y);
    } else {
      var w := if k1[x] < k1[y] then yr else xr;
      var l := if k1[x] < k1[y] then xr else yr;
      LinkStep(p0, lv0, p1, lv1, x, y, w, l);
      LinkKeys(p1, k1, w, l, k1[w] + 1);
    }
  }

  /** Linking the root `l` below the root `w` merges the sets of `x` and `y`. */
  lemma LinkStep<T>(p0: map<T, T>, lv0: map<T, nat>, p1: map<T, T>, lv1: map<T, nat>, x: T, y: T, w: T, l: T)
    requires Forest(p0, lv0) && Forest(p1, lv1)
    requires p1.Keys == p0.Keys + {x, y}
    requires forall a {:trigger RootOf(p1, lv1, a)} :: a in p1 ==> RootOf(p1, lv1, a) == RootIn(p0, lv0, a)
    requires w in p1 && l in p1 && p1[w] == w && p1[l] == l && w != l
    requires (w == RootIn(p0, lv0, x) && l == RootIn(p0, lv0, y)) || (w == RootIn(p0, lv0, y) && l == RootIn(p0, lv0, x))
    ensures Forest(p1[l := w], Raised(lv1, w, l))
    ensures MergedFrom(p0, lv0, p1[l := w], Raised(lv1, w, l), x, y)
    ensures RootOf(p1[l := w], Raised(lv1, w, l), x) == RootOf(p1[l := w], Raised(lv1, w, l), y)
  {
    LinkForest(p1, lv1, w, l);
    LinkRoots(p1, lv1, w, l);
    LinkMerges(p0, lv0, p1, lv1, p1[l := w], Raised(lv1, w, l), x, y, w, l);
  }

  /** find(find(e)) == find(e): a representative is its own representative. */
  lemma FindIdempotent<T>(p: map<T, T>, lv: map<T, nat>, e: T)
    requires Forest(p, lv)
    ensures RootIn(p, lv, RootIn(p, lv, e)) == RootIn(p, lv, e)
  {
  }

  /** make_set of an element already present leaves the dictionaries alone. */
  lemma MakeSetPresent<T, V>(m: map<T, V>, e: T, v: V)
    requires e in m
    ensures WithSet(m, e, v) == m
  {
  }

  /** A union of two elements that already share a representative changes nothing. */
  lemma UnionJoined<T>(p: map<T, T>, k: map<T, nat>, lv: map<T, nat>, x: T, y: T)
    requires Inv(p, k, lv) && x in p && y in p && RootOf(p, lv, x) == RootOf(p, lv, y)
    ensures UnionState(p, k, lv, x, y) == (p, k, lv)
  {
  }

  /** A union of two separate sets changes the parent of exactly one
      element, one of the two representatives, which becomes a child of the other. */
  lemma UnionOneLink<T>(p: map<T, T>, k: map<T, nat>, lv: map<T, nat>, x: T, y: T)
    requires Inv(p, k, lv) && x in p && y in p && RootOf(p, lv, x) != RootOf(p, lv, y)
    ensures var p2 := UnionState(p, k, lv, x, y).0;
            var xr, yr := RootOf(p, lv, x), RootOf(p, lv, y);
            p2.Keys == p.Keys &&
            (forall a :: a in p && a != xr && a != yr ==> p2[a] == p[a]) &&
            ((p2[yr] == xr && p2[xr] == xr) || (p2[xr] == yr && p2[yr] == yr))
  {
  }

  /** The elements of `d` whose representative is `r`. */
  ghost function Group<T>(p: map<T, T>, lv: map<T, nat>, d: set<T>, r: T): set<T>
    requires Forest(p, lv)
  {
    set a | a in d && a in p && RootOf(p, lv, a) == r
  }

  /** The representatives of the elements of `d`. */
  ghost function Reps<T>(p: map<T, T>, lv: map<T, nat>, d: set<T>): set<T>
    requires Forest(p, lv)
  {
    set a | a in d && a in p :: RootOf(p, lv, a)
  }

  /** The partition sets() reports: one set per representative. */
  ghost function Classes<T>(p: map<T, T>, lv: map<T, nat>): set<set<T>>
    requires Forest(p, lv)
  {
    set r | r in Reps(p, lv, p.Keys) :: Group(p, lv, p.Keys, r)
  }

  /** Recording one more element in the sets being collected. */
  lemma GroupStep<T>(p: map<T, T>, lv: map<T, nat>, d: set<T>, e: T, groups: map<T, set<T>>)
    requires Forest(p, lv) && e in p
    requires groups.Keys == Reps(p, lv, d)
    requires forall r {:trigger groups[r]} :: r in groups ==> groups[r] == Group(p, lv, d, r)
    ensures var r := RootOf(p, lv, e);
            var g := groups[r := (if r in groups then groups[r] else {}) + {e}];
            g.Keys == Reps(p, lv, d + {e}) &&
            forall q {:trigger g[q]} :: q in g ==> g[q] == Group(p, lv, d + {e}, q)
  {
    var r := RootOf(p, lv, e);
    var g := groups[r := (if r in groups then groups[r] else {}) + {e}];
    forall q | q in g ensures g[q] == Group(p, lv, d + {e}, q) {
      if q == r && r !in groups {
        forall a | a in d && a in p ensures RootOf(p, lv, a) != q {
          assert RootOf(p, lv, a) in Reps(p, lv, d);
        }
        assert Group(p, lv, d, q) == {};
      }
    }
  }

  lemma SetStep<U>(all: set<U>, todo: set<U>, done: set<U>, e: U)
    requires todo <= all && done == all - todo && e in todo
    ensures todo - {e} <= all && done + {e} == all - (todo - {e})
  {
  }

  /** When every element has been seen, the collected sets are the classes. */
  lemma GroupsDone<T>(p: map<T, T>, lv: map<T, nat>, groups: map<T, set<T>>)
    requires Forest(p, lv)
    requires groups.Keys == Reps(p, lv, p.Keys)
    requires forall r {:trigger groups[r]} :: r in groups ==> groups[r] == Group(p, lv, p.Keys, r)
    ensures (set r | r in groups :: groups[r]) == Classes(p, lv)
  {
  }

  /** The classes partition the elements: each element lies in exactly one,
      and two elements share a class exactly when they share a representative. */
  lemma ClassesPartition<T>(p: map<T, T>, lv: map<T, nat>, a: T, b: T)
    requires Forest(p, lv)
    ensures a in p ==> exists c :: c in Classes(p, lv) && a in c
    ensures forall c :: c in Classes(p, lv) ==> c != {} && c <= p.Keys
    ensures forall c, c' :: c in Classes(p, lv) && c' in Classes(p, lv) && a in c && a in c' ==> c == c'
    ensures a in p && b in p ==>
              ((exists c :: c in Classes(p, lv) && a in c && b in c) <==> RootOf(p, lv, a) == RootOf(p, lv, b))
  {
    if a in p {
      var c := Group(p, lv, p.Keys, RootOf(p, lv, a));
      assert a in c;
      assert c in Classes(p, lv);
    }
    forall c | c in Classes(p, lv) ensures c != {} && c <= p.Keys {
      var r :| r in Reps(p, lv, p.Keys) && c == Group(p, lv, p.Keys, r);
      var e :| e in p && RootOf(p, lv, e) == r;
      assert e in c;
    }
  }

  /** Builds the sorted tuple of a set: each element, in iteration order, is
      inserted into the already sorted prefix, as Python's sorted() orders
      by `<` alone. */
  method SortedTuple<U(!new)>(c: set<U>, lt: (U, U) -> bool) returns (t: seq<U>)
    requires StrictTotalOrder(lt)
    ensures StrictlySorted(t, lt)
    ensures forall x :: x in t <==> x in c
  {
    t := [];
    var todo := c;
    while todo != {}
      invariant todo <= c
      invariant StrictlySorted(t, lt)
      invariant forall x :: x in t <==> x in c && x !in todo
      decreases |todo|
    {
      var e :| e in todo;
      InsertStrict(e, t, lt);
      t := Insert(e, t, NotAfter(lt));
      todo := todo - {e};
    }
  }

  /** The element sets of a set of tuples. */
  ghost function Images<U>(tuples: set<seq<U>>): set<set<U>>
  {
    set u | u in tuples :: Elements(u)
  }

  /** The element sets of a sequence of tuples. */
  ghost function SeqImages<U>(r: seq<seq<U>>): set<set<U>>
  {
    set u | u in r :: Elements(u)
  }

  lemma ImageAdd<U>(tuples: set<seq<U>>, t: seq<U>)
    ensures Images(tuples + {t}) == Images(tuples) + {Elements(t)}
  {
  }

  lemma ImageSame<U>(r: seq<seq<U>>, tuples: set<seq<U>>)
    requires forall x :: x in r <==> x in tuples
    ensures SeqImages(r) == Images(tuples)
  {
  }

  /** The set of a tuple's elements. */
  ghost function Elements<U>(t: seq<U>): set<U>
  {
    set x | x in t
  }

  class DisjointSet<T(==, !new)> {
    var parent: map<T, T>
    var rank: map<T, nat>
    ghost var level: map<T, nat>

    ghost predicate Valid()
      reads this
    {
      Inv(parent, rank, level)
    }

    constructor()
      ensures Valid() && parent == map[] && rank == map[]
    {
      parent := map[];
      rank := map[];
      level := map[];
    }

    /** Adds `e` as a singleton set unless it is already an element. */
    method MakeSet(e: T)
      requires Valid()
      modifies this
      ensures Valid()
      ensures parent == WithSet(old(parent), e, e) && rank == WithSet(old(rank), e, 0)
      ensures level == WithSet(old(level), e, 0)
    {
      MakeSetStep(parent, rank, level, e);
      if e in parent {
        return;
      }
      parent, rank, level := parent[e := e], rank[e := 0], level[e := 0];
    }

    /** The representative of `e`'s set, adding `e` first if needed.  The
        loop's reassignment of `parent[prev]` stores the value already there,
        so the links are left as they were. */
    method Find(e0: T) returns (r: T)
      requires Valid()
      modifies this
      ensures Valid()
      ensures parent == WithSet(old(parent), e0, e0) && rank == WithSet(old(rank), e0, 0)
      ensures level == WithSet(old(level), e0, 0)
      ensures r == RootIn(old(parent), old(level), e0)
      ensures r in parent && parent[r] == r
    {
      MakeSetStep(parent, rank, level, e0);
      MakeSet(e0);
      ghost var p, lv, rk := parent, level, rank;
      var e := e0;
      var prev := e;
      while parent[e] != e
        invariant parent == p && level == lv && rank == rk
        invariant e in p && RootOf(p, lv, e) == RootOf(p, lv, e0)
        decreases Above(lv, e)
      {
        AboveShrinks(p, lv, e);
        RootOfStep(p, lv, e);
        prev := e;
        e := parent[e];
        StoreSame(parent, prev);
        parent := parent[prev := e];
      }
      r := e;
    }

    /** Merges the sets of `x` and `y` (adding either if needed); which root
        goes below the other is decided by the ranks of `x` and `y`
        themselves. */
    method Union(x: T, y: T)
      requires Valid()
      modifies this
      ensures Valid()
      ensures (parent, rank, level) == UnionState(old(parent), old(rank), old(level), x, y)
      ensures RootOf(parent, level, x) == RootOf(parent, level, y)
      ensures MergedFrom(old(parent), old(level), parent, level, x, y)
    {
      ghost var p0, k0, lv0 := parent, rank, level;
      SecondFind(p0, k0, lv0, x, y);
      var xRoot := Find(x);
      var yRoot := Find(y);
      if xRoot == yRoot {
        UnionCorrect(p0, k0, lv0, x, y, parent, rank, level);
        return;
      }
      if rank[x] < rank[y] {
        xRoot, yRoot := yRoot, xRoot;
      }
      parent, level := parent[yRoot := xRoot], Raised(level, xRoot, yRoot);
      if rank[xRoot] == rank[yRoot] {
        rank := rank[xRoot := rank[xRoot] + 1];
      }
      UnionCorrect(p0, k0, lv0, x, y, parent, rank, level);
    }

    /** The partition, as a set of sets; the state is left as it was. */
    method Sets() returns (classes: set<set<T>>)
      requires Valid()
      modifies this
      ensures Valid() && parent == old(parent) && rank == old(rank) && level == old(level)
      ensures classes == Classes(parent, level)
    {
      ghost var p, lv := parent, level;
      var groups: map<T, set<T>> := map[];
      var todo := parent.Keys;
      ghost var done: set<T> := {};
      while todo != {}
        invariant Valid() && parent == p && level == lv && rank == old(rank)
        invariant todo <= p.Keys && done == p.Keys - todo
        invariant groups.Keys == Reps(p, lv, done)
        invariant forall r {:trigger groups[r]} :: r in groups ==> groups[r] == Group(p, lv, done, r)
        decreases |todo|
      {
        var e :| e in todo;
        var r := Find(e);
        GroupStep(p, lv, done, e, groups);
        groups := groups[r := (if r in groups then groups[r] else {}) + {e}];
        SetStep(p.Keys, todo, done, e);
        todo := todo - {e};
        done := done + {e};
      }
      GroupsDone(p, lv, groups);
      classes := set r | r in groups :: groups[r];
    }

    /** The partition as a sorted tuple of sorted tuples. */
    method Sorted(lt: (T, T) -> bool) returns (r: seq<seq<T>>)
      requires Valid() && StrictTotalOrder(lt)
      modifies this
      ensures Valid() && parent == old(parent) && rank == old(rank) && level == old(level)
      ensures SeqImages(r) == Classes(parent, level)
      ensures forall t :: t in r ==> StrictlySorted(t, lt)
      ensures StrictlySorted(r, LexLt(lt))
    {
      var classes := Sets();
      var tuples: set<seq<T>> := {};
      var todo := classes;
      while todo != {}
        modifies {}
        invariant todo <= classes
        invariant Images(tuples) == classes - todo
        invariant forall t :: t in tuples ==> StrictlySorted(t, lt)
        decreases |todo|
      {
        var c :| c in todo;
        var t := SortedTuple(c, lt);
        assert Elements(t) == c;
        ImageAdd(tuples, t);
        tuples := tuples + {t};
        todo := todo - {c};
      }
      LexLtOrder(lt);
      r := SortedTuple(tuples, LexLt(lt));
      ImageSame(r, tuples);
    }
  }
}
