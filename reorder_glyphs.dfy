// Reordering coverage tables after the glyph order changes
// (src/nanoemoji/reorder_glyphs.py).  A coverage's glyph list and the
// record list parallel to it are Python lists that are overwritten in
// place; they are modelled as objects holding a sequence.  fontTools'
// getGlyphID is a parameter.
module ReorderGlyphs {
  import opened Wrappers
  import opened Sorting
  import opened Orders

  const DefaultCoverageAttr: string := "Coverage"

  /** coverage.glyphs */
  class GlyphList {
    var glyphs: seq<string>

    constructor (glyphs: seq<string>)
      ensures this.glyphs == glyphs
    {
      this.glyphs := glyphs;
    }
  }

  /** A list of records parallel to a coverage (Value, PairSet, MarkRecord, ...). */
  class ParallelList<E> {
    var items: seq<E>

    constructor (items: seq<E>)
      ensures this.items == items
    {
      this.items := items;
    }
  }

  function Min(a: nat, b: nat): nat { if a <= b then a else b }

  /** zip(glyphs, parallel_list): as long as the shorter of the two. */
  function Zip<E>(gs: seq<string>, es: seq<E>): (r: seq<(string, E)>)
    ensures |r| == Min(|gs|, |es|)
    ensures forall k :: 0 <= k < |r| ==> r[k] == (gs[k], es[k])
  {
    seq(Min(|gs|, |es|), k requires 0 <= k < Min(|gs|, |es|) => (gs[k], es[k]))
  }

  function Firsts<E>(ps: seq<(string, E)>): (r: seq<string>)
    ensures |r| == |ps| && forall k :: 0 <= k < |ps| ==> r[k] == ps[k].0
  {
    seq(|ps|, k requires 0 <= k < |ps| => ps[k].0)
  }

  function Seconds<E>(ps: seq<(string, E)>): (r: seq<E>)
    ensures |r| == |ps| && forall k :: 0 <= k < |ps| ==> r[k] == ps[k].1
  {
    seq(|ps|, k requires 0 <= k < |ps| => ps[k].1)
  }

  /** The order of sorted(glyphs, key=get_glyph_id). */
  function GidLe(gid: string -> int): (string, string) -> bool
  {
    ByKey(gid, IntLe)
  }

  function PairGid<E>(gid: string -> int): ((string, E)) -> int
  {
    (p: (string, E)) => gid(p.0)
  }

  /** The order of sorted(zip(...), key=lambda t: get_glyph_id(t[0])). */
  function PairGidLe<E>(gid: string -> int): ((string, E), (string, E)) -> bool
  {
    ByKey(PairGid(gid), IntLe)
  }

  function SortedGlyphs(gid: string -> int, glyphs: seq<string>): seq<string>
  {
    Sort(glyphs, GidLe(gid))
  }

  function SortedPairs<E>(gid: string -> int, glyphs: seq<string>, items: seq<E>): seq<(string, E)>
  {
    Sort(Zip(glyphs, items), PairGidLe(gid))
  }

  /** _sort_by_gid.  With a non-empty parallel list the (glyph, record)
      pairs are sorted together and both lists are overwritten with their
      halves; unpacking the pairs of an empty glyph list raises ValueError
      before anything is written.  Otherwise only the glyphs are sorted. */
  method SortByGid<E>(gid: string -> int, glyphs: GlyphList, parallel: Option<ParallelList<E>>) returns (r: Outcome)
    modifies glyphs, if parallel.Some? then {parallel.value} else {}
    ensures parallel.Some? && |old(parallel.value.items)| > 0 ==>
              if |old(glyphs.glyphs)| == 0 then
                r == Fail(ValueError) && glyphs.glyphs == old(glyphs.glyphs) &&
                parallel.value.items == old(parallel.value.items)
              else
                r == Pass &&
                glyphs.glyphs == Firsts(SortedPairs(gid, old(glyphs.glyphs), old(parallel.value.items))) &&
                parallel.value.items == Seconds(SortedPairs(gid, old(glyphs.glyphs), old(parallel.value.items)))
    ensures parallel.None? || |old(parallel.value.items)| == 0 ==>
              r == Pass && glyphs.glyphs == SortedGlyphs(gid, old(glyphs.glyphs)) &&
              (parallel.Some? ==> unchanged(parallel.value))
  {
    if parallel.Some? && |parallel.value.items| > 0 {
      var reordered := SortedPairs(gid, glyphs.glyphs, parallel.value.items);
      if |reordered| == 0 {
        SortLength(Zip(glyphs.glyphs, parallel.value.items), PairGidLe(gid));
        return Fail(ValueError);
      }
      SortLength(Zip(glyphs.glyphs, parallel.value.items), PairGidLe(gid));
      parallel.value.items := Seconds(reordered);
      glyphs.glyphs := Firsts(reordered);
    } else {
      glyphs.glyphs := SortedGlyphs(gid, glyphs.glyphs);
    }
    r := Pass;
  }

  /** Sorting the glyphs alone: ordered by glyph id, a permutation, and
      stable: the glyphs sharing an id keep their relative order. */
  lemma SortedGlyphsProperties(gid: string -> int, glyphs: seq<string>)
    ensures var r := SortedGlyphs(gid, glyphs);
            (forall i, j :: 0 <= i < j < |r| ==> gid(r[i]) <= gid(r[j])) &&
            multiset(r) == multiset(glyphs) &&
            forall g :: EquivalentTo(r, g, GidLe(gid)) == EquivalentTo(glyphs, g, GidLe(gid))
  {
    IntOrder();
    ByKeyOrder(gid, IntLe);
    var r := SortedGlyphs(gid, glyphs);
    SortSorted(glyphs, GidLe(gid));
    assert forall i, j :: 0 <= i < j < |r| ==> GidLe(gid)(r[i], r[j]);
    SortPerm(glyphs, GidLe(gid));
    forall g ensures EquivalentTo(r, g, GidLe(gid)) == EquivalentTo(glyphs, g, GidLe(gid)) {
      SortStable(glyphs, g, GidLe(gid));
    }
  }

  /** Sorting pairs keeps each record beside its glyph: the pairs after are
      a permutation of the zipped pairs before, ordered by glyph id. */
  lemma SortedPairsProperties<E(!new)>(gid: string -> int, glyphs: seq<string>, items: seq<E>)
    ensures var r := SortedPairs(gid, glyphs, items);
            |r| == Min(|glyphs|, |items|) &&
            multiset(r) == multiset(Zip(glyphs, items)) &&
            forall i, j :: 0 <= i < j < |r| ==> gid(r[i].0) <= gid(r[j].0)
  {
    IntOrder();
    ByKeyOrder(PairGid<E>(gid), IntLe);
    var r := SortedPairs(gid, glyphs, items);
    SortLength(Zip(glyphs, items), PairGidLe(gid));
    SortPerm(Zip(glyphs, items), PairGidLe(gid));
    SortSorted(Zip(glyphs, items), PairGidLe(gid));
    assert forall i, j :: 0 <= i < j < |r| ==> PairGidLe(gid)(r[i], r[j]);
  }

  lemma {:induction false} InsertFirsts<E>(gid: string -> int, p: (string, E), s: seq<(string, E)>)
    ensures Firsts(Insert(p, s, PairGidLe(gid))) == Insert(p.0, Firsts(s), GidLe(gid))
  {
    if |s| > 0 {
      assert Firsts(s)[1..] == Firsts(s[1..]);
      InsertFirsts(gid, p, s[1..]);
    }
  }

  lemma {:induction false} SortFirsts<E>(gid: string -> int, ps: seq<(string, E)>)
    ensures Firsts(Sort(ps, PairGidLe(gid))) == Sort(Firsts(ps), GidLe(gid))
  {
    if |ps| > 0 {
      var front := ps[..|ps| - 1];
      assert Firsts(ps)[..|ps| - 1] == Firsts(front);
      SortFirsts(gid, front);
      InsertFirsts(gid, ps[|ps| - 1], Sort(front, PairGidLe(gid)));
    }
  }

  /** The lockstep sort puts the glyphs in exactly the order the plain sort
      does, when both lists have the same length. */
  lemma LockstepOrder<E>(gid: string -> int, glyphs: seq<string>, items: seq<E>)
    requires |glyphs| == |items|
    ensures Firsts(SortedPairs(gid, glyphs, items)) == SortedGlyphs(gid, glyphs)
  {
    SortFirsts(gid, Zip(glyphs, items));
    assert Firsts(Zip(glyphs, items)) == glyphs;
  }

  /** A ReorderCoverage entry of the _COVERAGE_REORDER table. */
  datatype ReorderCoverage = ReorderCoverage(parallelListAttr: Option<string>, coverageAttr: string)

  /** What the coverage attribute holds: one coverage, or (in a few
      tables) a list of them. */
  datatype CoverageValue = One(coverage: GlyphList) | Many(coverages: seq<GlyphList>)

  /** What the parallel-list attribute holds. */
  datatype ParallelValue<E> = List(list: ParallelList<E>) | NotList

  /** `if self.parallel_list_attr:`: set and non-empty. */
  predicate HasParallel(reorder: ReorderCoverage)
  {
    reorder.parallelListAttr.Some? && reorder.parallelListAttr.value != ""
  }

  function CoverageObjects(coverage: CoverageValue): set<GlyphList>
  {
    if coverage.One? then {coverage.coverage} else set c | c in coverage.coverages
  }

  /** The loop over a list of coverages, each sorted without a parallel list. */
  method SortEach(gid: string -> int, cs: seq<GlyphList>)
    modifies set c | c in cs
    ensures forall c :: c in cs ==> c.glyphs == SortedGlyphs(gid, old(c.glyphs))
  {
    IntOrder();
    ByKeyOrder(gid, IntLe);
    var none: Option<ParallelList<int>> := None;
    var i := 0;
    while i < |cs|
      invariant 0 <= i <= |cs|
      invariant forall c :: c in cs ==> c.glyphs == if c in cs[..i] then SortedGlyphs(gid, old(c.glyphs)) else old(c.glyphs)
    {
      var c := cs[i];
      SortIdempotent(old(c.glyphs), GidLe(gid));
      var _ := SortByGid(gid, c, none);
      assert forall d :: d in cs[..i + 1] <==> d in cs[..i] || d == c;
      i := i + 1;
    }
    assert cs[..i] == cs;
  }

  /** ReorderCoverage.apply, given the values the dotted attributes name.
      One coverage with a parallel list must have a list of the same length
      beside it; a list of coverages must have no parallel list.  Each
      coverage is then sorted by glyph id; the same coverage listed twice
      ends up sorted just once. */
  method Apply<E>(reorder: ReorderCoverage, gid: string -> int, coverage: CoverageValue, parallel: ParallelValue<E>)
    returns (r: Outcome)
    modifies CoverageObjects(coverage), if parallel.List? then {parallel.list} else {}
    ensures r.Fail? <==>
              if coverage.One? then
                HasParallel(reorder) && (parallel.NotList? || |old(parallel.list.items)| != |old(coverage.coverage.glyphs)|)
              else HasParallel(reorder)
    ensures r.Fail? ==> r.error == AssertionError
    ensures r.Fail? ==> unchanged(CoverageObjects(coverage)) && (parallel.List? ==> unchanged(parallel.list))
    ensures r.Pass? && coverage.One? && HasParallel(reorder) && |old(parallel.list.items)| > 0 ==>
              var pairs := SortedPairs(gid, old(coverage.coverage.glyphs), old(parallel.list.items));
              coverage.coverage.glyphs == Firsts(pairs) && parallel.list.items == Seconds(pairs)
    ensures r.Pass? && (coverage.Many? || !HasParallel(reorder) || |old(parallel.list.items)| == 0) ==>
              (forall c :: c in CoverageObjects(coverage) ==> c.glyphs == SortedGlyphs(gid, old(c.glyphs))) &&
              (parallel.List? ==> unchanged(parallel.list))
  {
    if coverage.One? {
      var p: Option<ParallelList<E>> := None;
      if HasParallel(reorder) {
        if parallel.NotList? {
          return Fail(AssertionError);
        }
        if |parallel.list.items| != |coverage.coverage.glyphs| {
          return Fail(AssertionError);
        }
        p := Some(parallel.list);
      }
      r := SortByGid(gid, coverage.coverage, p);
    } else {
      if HasParallel(reorder) {
        return Fail(AssertionError);
      }
      SortEach(gid, coverage.coverages);
      r := Pass;
    }
  }
}
