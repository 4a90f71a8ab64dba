// Small helpers of src/nanoemoji/util.py: `only`, the breadth- and
// depth-first walks over OpenType table data, `require_fully_loaded`.
module Util {
  import opened Wrappers
  import opened Seqs

  // ---------------------------------------------------------------------
  // only

  /** filter(keep, xs) */
  function Filter<T>(xs: seq<T>, keep: T -> bool): (r: seq<T>)
    ensures |r| <= |xs|
    ensures forall x :: x in r ==> x in xs && keep(x)
    decreases |xs|
  {
    if |xs| == 0 then []
    else (if keep(xs[0]) then [xs[0]] else []) + Filter(xs[1..], keep)
  }

  /** only(iterable, filter_fn): the first element that passes; if none
      passes next() raises StopIteration, and a second one fails the
      assertion. */
  function Only<T>(xs: seq<T>, keep: T -> bool): (r: Result<T>)
    ensures r.Ok? ==> r.value in xs && keep(r.value)
    ensures r.Err? ==> r.error == StopIteration || r.error == AssertionError
  {
    var passing := Filter(xs, keep);
    if |passing| == 0 then Err(StopIteration)
    else if |passing| > 1 then Err(AssertionError)
    else Ok(passing[0])
  }

  /** The element passing the filter at the front of `xs`'s passing ones. */
  lemma {:induction false} FilterFirst<T>(xs: seq<T>, keep: T -> bool, i: int)
    requires 0 <= i < |xs| && keep(xs[i]) && forall j :: 0 <= j < i ==> !keep(xs[j])
    ensures |Filter(xs, keep)| > 0 && Filter(xs, keep)[0] == xs[i]
    ensures Filter(xs, keep)[1..] == Filter(xs[i + 1..], keep)
    decreases i
  {
    if i > 0 {
      assert Filter(xs, keep) == Filter(xs[1..], keep) by {
        assert !keep(xs[0]);
      }
      assert forall j :: 0 <= j < i - 1 ==> xs[1..][j] == xs[j + 1];
      FilterFirst(xs[1..], keep, i - 1);
      assert xs[1..][i..] == xs[i + 1..];
    } else {
      assert Filter(xs, keep) == [xs[0]] + Filter(xs[1..], keep);
    }
  }

  /** When nothing passes, nothing is left. */
  lemma {:induction false} FilterNone<T>(xs: seq<T>, keep: T -> bool)
    requires forall j :: 0 <= j < |xs| ==> !keep(xs[j])
    ensures Filter(xs, keep) == []
    decreases |xs|
  {
    if |xs| > 0 {
      FilterNone(xs[1..], keep);
    }
  }

  /** Nothing is left exactly when nothing passes. */
  lemma {:induction false} FilterEmpty<T>(xs: seq<T>, keep: T -> bool)
    ensures |Filter(xs, keep)| == 0 <==> forall j :: 0 <= j < |xs| ==> !keep(xs[j])
    decreases |xs|
  {
    if |xs| > 0 {
      FilterEmpty(xs[1..], keep);
      assert forall j :: 1 <= j < |xs| ==> xs[j] == xs[1..][j - 1];
    }
  }

  /** `only` raises StopIteration exactly when nothing passes. */
  lemma OnlyNone<T>(xs: seq<T>, keep: T -> bool)
    ensures Only(xs, keep) == Err(StopIteration) <==> forall j :: 0 <= j < |xs| ==> !keep(xs[j])
  {
    FilterEmpty(xs, keep);
  }

  /** When exactly one element passes, `only` returns it. */
  lemma OnlyOne<T>(xs: seq<T>, keep: T -> bool, i: int)
    requires 0 <= i < |xs| && keep(xs[i]) && forall j :: 0 <= j < |xs| && j != i ==> !keep(xs[j])
    ensures Only(xs, keep) == Ok(xs[i])
  {
    FilterFirst(xs, keep, i);
    var tail := xs[i + 1..];
    assert forall j :: 0 <= j < |tail| ==> tail[j] == xs[i + 1 + j];
    FilterEmpty(tail, keep);
  }

  /** When two elements pass, `only` fails its assertion. */
  lemma OnlyTwo<T>(xs: seq<T>, keep: T -> bool, i: int, j: int)
    requires 0 <= i < j < |xs| && keep(xs[i]) && keep(xs[j])
    ensures Only(xs, keep) == Err(AssertionError)
  {
    var first := FirstPassing(xs, keep);
    FilterFirst(xs, keep, first);
    var tail := xs[first + 1..];
    var other := if first == i then j else i;
    assert other > first && tail[other - first - 1] == xs[other];
    FilterEmpty(tail, keep);
  }

  /** The index of the first element that passes. */
  lemma FirstPassing<T>(xs: seq<T>, keep: T -> bool) returns (i: int)
    requires exists j :: 0 <= j < |xs| && keep(xs[j])
    ensures 0 <= i < |xs| && keep(xs[i]) && forall j :: 0 <= j < i ==> !keep(xs[j])
  {
    i := 0;
    while !keep(xs[i])
      invariant 0 <= i < |xs| && forall j :: 0 <= j < i ==> !keep(xs[j])
      invariant exists j :: i <= j < |xs| && keep(xs[j])
      decreases |xs| - i
    {
      i := i + 1;
    }
  }

  // ---------------------------------------------------------------------
  // Walking OpenType table data

  /** A table and the subtables iterSubTables() lists for it, in order.
      Offsets only point forward, so the data is a tree. */
  datatype OtTable = OtTable(subTables: seq<SubTableEntry>)

  /** otBase.BaseTable.SubTableEntry(name, value, index) */
  datatype SubTableEntry = SubTableEntry(name: string, value: OtTable, index: Option<nat>)

  /** A path from the root: each entry's value is a subtable of the
      previous entry's value. */
  type SubTablePath = seq<SubTableEntry>

  /** The number of tables in a tree. */
  function Size(t: OtTable): nat
  {
    1 + EntriesSize(t.subTables)
  }

  function EntriesSize(es: seq<SubTableEntry>): nat
  {
    if |es| == 0 then 0 else Size(es[0].value) + EntriesSize(es[1..])
  }

  /** The tables still to visit below a path's last table, itself included. */
  function Weight(p: SubTablePath): nat
  {
    if |p| == 0 then 1 else Size(p[|p| - 1].value)
  }

  function Weights(ps: seq<SubTablePath>): nat
  {
    if |ps| == 0 then 0 else Weight(ps[0]) + Weights(ps[1..])
  }

  /** `path + (subtable_entry,)` for each subtable of the path's last table. */
  function Extensions(p: SubTablePath): (r: seq<SubTablePath>)
    ensures |p| > 0 ==> |r| == |p[|p| - 1].value.subTables|
    ensures forall k :: 0 <= k < |r| ==> |p| > 0 && r[k] == p + [p[|p| - 1].value.subTables[k]]
  {
    if |p| == 0 then []
    else
      var es := p[|p| - 1].value.subTables;
      seq(|es|, k requires 0 <= k < |es| => p + [es[k]])
  }

  lemma {:induction false} WeightsAppend(a: seq<SubTablePath>, b: seq<SubTablePath>)
    ensures Weights(a + b) == Weights(a) + Weights(b)
  {
    if |a| == 0 {
      assert a + b == b;
    } else {
      assert (a + b)[1..] == a[1..] + b;
      WeightsAppend(a[1..], b);
    }
  }

  lemma {:induction false} ExtensionWeights(p: SubTablePath, es: seq<SubTableEntry>)
    ensures Weights(seq(|es|, k requires 0 <= k < |es| => p + [es[k]])) == EntriesSize(es)
    decreases |es|
  {
    var ps := seq(|es|, k requires 0 <= k < |es| => p + [es[k]]);
    if |es| > 0 {
      ExtensionWeights(p, es[1..]);
      assert ps[1..] == seq(|es[1..]|, k requires 0 <= k < |es[1..]| => p + [es[1..][k]]);
    }
  }

  /** Visiting a table leaves its subtables to visit. */
  lemma ExtensionsWeight(p: SubTablePath)
    ensures Weights(Extensions(p)) == Weight(p) - 1
  {
    if |p| > 0 {
      ExtensionWeights(p, p[|p| - 1].value.subTables);
    }
  }

  /** How new entries join the frontier: `frontier.extend(new)` (breadth
      first) or `frontier.extendleft(reversed(new))` (depth first). */
  datatype Order = BreadthFirst | DepthFirst

  function AddToFrontier(order: Order, frontier: seq<SubTablePath>, entries: seq<SubTablePath>): seq<SubTablePath>
  {
    match order
    case BreadthFirst => frontier + entries
    case DepthFirst => entries + frontier
  }

  /** Every path the walk yields from `frontier`, in order. */
  function Walk(order: Order, frontier: seq<SubTablePath>): seq<SubTablePath>
    decreases Weights(frontier)
  {
    if |frontier| == 0 then []
    else
      var p := frontier[0];
      ExtensionsWeight(p);
      WeightsAppend(frontier[1..], Extensions(p));
      WeightsAppend(Extensions(p), frontier[1..]);
      [p] + Walk(order, AddToFrontier(order, frontier[1..], Extensions(p)))
  }

  /** The path of the root: `(SubTableEntry(root_accessor, root),)`. */
  function RootPath(root: OtTable, rootAccessor: string): SubTablePath
  {
    [SubTableEntry(rootAccessor, root, None)]
  }

  /** The inner loop of _traverse_ot_data. */
  method NewEntries(path: SubTablePath) returns (newEntries: seq<SubTablePath>)
    ensures newEntries == Extensions(path)
  {
    newEntries := [];
    var current := if |path| > 0 then path[|path| - 1].value else OtTable([]);
    var subs := current.subTables;
    for k := 0 to |subs|
      invariant newEntries == Extensions(path)[..k]
    {
      newEntries := newEntries + [path + [subs[k]]];
    }
  }

  /** _traverse_ot_data: pop the front path, yield it, add its extensions
      to the frontier. */
  method TraverseOtData(root: OtTable, rootAccessor: string, order: Order) returns (paths: seq<SubTablePath>)
    ensures paths == Walk(order, [RootPath(root, rootAccessor)])
  {
    var frontier := [RootPath(root, rootAccessor)];
    paths := [];
    while |frontier| > 0
      invariant Walk(order, [RootPath(root, rootAccessor)]) == paths + Walk(order, frontier)
      decreases Weights(frontier)
    {
      ghost var before := frontier;
      var path := frontier[0];
      frontier := frontier[1..];
      paths := paths + [path];
      var newEntries := NewEntries(path);
      ExtensionsWeight(path);
      WeightsAppend(frontier, newEntries);
      WeightsAppend(newEntries, frontier);
      frontier := AddToFrontier(order, frontier, newEntries);
      assert Walk(order, before) == [path] + Walk(order, frontier);
    }
  }

  method DfsBaseTable(root: OtTable, rootAccessor: string) returns (paths: seq<SubTablePath>)
    ensures paths == Walk(DepthFirst, [RootPath(root, rootAccessor)])
  {
    paths := TraverseOtData(root, rootAccessor, DepthFirst);
  }

  method BfsBaseTable(root: OtTable, rootAccessor: string) returns (paths: seq<SubTablePath>)
    ensures paths == Walk(BreadthFirst, [RootPath(root, rootAccessor)])
  {
    paths := TraverseOtData(root, rootAccessor, BreadthFirst);
  }

  /** The pre-order listing of the paths below `p`, subtables in
      iterSubTables order. */
  function PreOrder(p: SubTablePath): seq<SubTablePath>
    decreases Weight(p), 0
  {
    ExtensionsWeight(p);
    [p] + PreOrders(Extensions(p))
  }

  function PreOrders(ps: seq<SubTablePath>): seq<SubTablePath>
    decreases Weights(ps), 1
  {
    if |ps| == 0 then [] else PreOrder(ps[0]) + PreOrders(ps[1..])
  }

  lemma {:induction false} PreOrdersAppend(a: seq<SubTablePath>, b: seq<SubTablePath>)
    ensures PreOrders(a + b) == PreOrders(a) + PreOrders(b)
    decreases |a|
  {
    if |a| == 0 {
      assert a + b == b;
    } else {
      assert (a + b)[0] == a[0] && (a + b)[1..] == a[1..] + b;
      PreOrdersAppend(a[1..], b);
    }
  }

  /** The depth-first walk is the pre-order listing. */
  lemma {:induction false} DepthFirstIsPreOrder(frontier: seq<SubTablePath>)
    ensures Walk(DepthFirst, frontier) == PreOrders(frontier)
    decreases Weights(frontier)
  {
    if |frontier| > 0 {
      var p, rest := frontier[0], frontier[1..];
      ExtensionsWeight(p);
      WeightsAppend(Extensions(p), rest);
      DepthFirstIsPreOrder(Extensions(p) + rest);
      PreOrdersAppend(Extensions(p), rest);
    }
  }

  /** The breadth-first walk yields the same paths as the depth-first one,
      each as often. */
  lemma {:induction false} BreadthFirstSamePaths(frontier: seq<SubTablePath>)
    ensures multiset(Walk(BreadthFirst, frontier)) == multiset(PreOrders(frontier))
    decreases Weights(frontier)
  {
    if |frontier| > 0 {
      var p, rest := frontier[0], frontier[1..];
      ExtensionsWeight(p);
      WeightsAppend(rest, Extensions(p));
      BreadthFirstSamePaths(rest + Extensions(p));
      PreOrdersAppend(rest, Extensions(p));
    }
  }

  /** One path per table: the walk from a path yields as many paths as
      there are tables below it. */
  lemma {:induction false} PreOrdersCount(ps: seq<SubTablePath>)
    ensures |PreOrders(ps)| == Weights(ps)
    decreases Weights(ps), 1
  {
    if |ps| > 0 {
      PreOrderCount(ps[0]);
      PreOrdersCount(ps[1..]);
    }
  }

  lemma {:induction false} PreOrderCount(p: SubTablePath)
    ensures |PreOrder(p)| == Weight(p)
    decreases Weight(p), 0
  {
    ExtensionsWeight(p);
    PreOrdersCount(Extensions(p));
  }

  /** Both walks from the root yield exactly one path per table. */
  lemma WalkCount(root: OtTable, rootAccessor: string, order: Order)
    ensures |Walk(order, [RootPath(root, rootAccessor)])| == Size(root)
  {
    var f := [RootPath(root, rootAccessor)];
    assert Weights(f) == Size(root) by {
      assert f[1..] == [];
    }
    PreOrdersCount(f);
    if order == DepthFirst {
      DepthFirstIsPreOrder(f);
    } else {
      BreadthFirstSamePaths(f);
      assert |multiset(Walk(order, f))| == |multiset(PreOrders(f))|;
    }
  }

  /** q extends p by one subtable of p's last table. */
  ghost predicate ChildOf(q: SubTablePath, p: SubTablePath)
  {
    |p| > 0 && |q| == |p| + 1 && q[..|p|] == p && q[|p|] in p[|p| - 1].value.subTables
  }

  /** Every frontier path is waiting below a path already yielded. */
  ghost predicate Pending(yielded: seq<SubTablePath>, frontier: seq<SubTablePath>)
  {
    forall j :: 0 <= j < |frontier| ==> exists i :: 0 <= i < |yielded| && ChildOf(frontier[j], yielded[i])
  }

  /** Every later path yielded extends some earlier-yielded path by one
      subtable entry. */
  ghost predicate FromEarlier(yielded: seq<SubTablePath>, from: int)
  {
    forall j :: 0 <= from <= j < |yielded| ==> exists i :: 0 <= i < j && ChildOf(yielded[j], yielded[i])
  }

  /** Popping the front path keeps every frontier path pending. */
  lemma PendingStep(order: Order, yielded: seq<SubTablePath>, frontier: seq<SubTablePath>)
    requires Pending(yielded, frontier) && |frontier| > 0
    ensures Pending(yielded + [frontier[0]], AddToFrontier(order, frontier[1..], Extensions(frontier[0])))
  {
    var p, rest := frontier[0], frontier[1..];
    var y := yielded + [p];
    var next := AddToFrontier(order, rest, Extensions(p));
    forall j | 0 <= j < |next| ensures exists i :: 0 <= i < |y| && ChildOf(next[j], y[i]) {
      if next[j] in Extensions(p) {
        var k :| 0 <= k < |Extensions(p)| && Extensions(p)[k] == next[j];
        assert y[|yielded|] == p;
        assert next[j][..|p|] == p;
      } else {
        assert next[j] in rest;
        var r :| 0 <= r < |rest| && rest[r] == next[j];
        assert rest[r] == frontier[r + 1];
        var i :| 0 <= i < |yielded| && ChildOf(frontier[r + 1], yielded[i]);
        assert y[i] == yielded[i];
      }
    }
  }

  /** A path below an earlier-yielded one can go in front of the rest. */
  lemma FromEarlierCons(yielded: seq<SubTablePath>, p: SubTablePath, rest: seq<SubTablePath>, i: int)
    requires 0 <= i < |yielded| && ChildOf(p, yielded[i])
    requires FromEarlier((yielded + [p]) + rest, |yielded| + 1)
    ensures FromEarlier(yielded + ([p] + rest), |yielded|)
  {
    var all := yielded + ([p] + rest);
    assert all == (yielded + [p]) + rest;
    assert all[|yielded|] == p && all[i] == yielded[i];
  }

  lemma {:induction false} WalkFromEarlier(order: Order, yielded: seq<SubTablePath>, frontier: seq<SubTablePath>)
    requires Pending(yielded, frontier)
    ensures FromEarlier(yielded + Walk(order, frontier), |yielded|)
    decreases Weights(frontier)
  {
    if |frontier| > 0 {
      var p := frontier[0];
      var next := AddToFrontier(order, frontier[1..], Extensions(p));
      ExtensionsWeight(p);
      WeightsAppend(frontier[1..], Extensions(p));
      WeightsAppend(Extensions(p), frontier[1..]);
      PendingStep(order, yielded, frontier);
      WalkFromEarlier(order, yielded + [p], next);
      assert Walk(order, frontier) == [p] + Walk(order, next);
      var i :| 0 <= i < |yielded| && ChildOf(p, yielded[i]);
      FromEarlierCons(yielded, p, Walk(order, next), i);
    } else {
      assert yielded + Walk(order, frontier) == yielded;
    }
  }

  /** The walk from the root yields the root path first, and every later
      path extends an earlier-yielded one by one subtable entry. */
  lemma WalkShape(root: OtTable, rootAccessor: string, order: Order)
    ensures var w := Walk(order, [RootPath(root, rootAccessor)]);
            |w| > 0 && w[0] == RootPath(root, rootAccessor) && |w[0]| == 1 && FromEarlier(w, 1)
  {
    var r := RootPath(root, rootAccessor);
    var next := AddToFrontier(order, [], Extensions(r));
    assert [r][1..] == [];
    assert Walk(order, [r]) == [r] + Walk(order, next);
    forall j | 0 <= j < |next| ensures exists i :: 0 <= i < |[r]| && ChildOf(next[j], [r][i]) {
      assert next[j] == Extensions(r)[j];
      assert next[j][..1] == r;
    }
    WalkFromEarlier(order, [r], next);
  }

  /** Path lengths along a breadth-first frontier never drop and rise by at
      most one. */
  ghost predicate Layered(frontier: seq<SubTablePath>)
  {
    forall i, j :: 0 <= i < j < |frontier| ==> |frontier[i]| <= |frontier[j]| <= |frontier[i]| + 1
  }

  ghost predicate NonDecreasingLengths(ps: seq<SubTablePath>)
  {
    forall i, j :: 0 <= i < j < |ps| ==> |ps[i]| <= |ps[j]|
  }

  /** Taking the head off a layered frontier and queueing its extensions
      keeps the frontier layered. */
  lemma LayeredStep(frontier: seq<SubTablePath>)
    requires Layered(frontier) && |frontier| > 0
    ensures Layered(frontier[1..] + Extensions(frontier[0]))
  {
    var p, rest := frontier[0], frontier[1..];
    var kids := Extensions(p);
    var next := rest + kids;
    forall i, j | 0 <= i < j < |next| ensures |next[i]| <= |next[j]| <= |next[i]| + 1 {
      if j < |rest| {
        assert next[i] == frontier[i + 1] && next[j] == frontier[j + 1];
      } else if i < |rest| {
        assert next[i] == frontier[i + 1] && next[j] == kids[j - |rest|];
      } else {
        assert next[i] == kids[i - |rest|] && next[j] == kids[j - |rest|];
      }
    }
  }

  lemma {:induction false} BreadthFirstLengths(frontier: seq<SubTablePath>)
    requires Layered(frontier)
    ensures var w := Walk(BreadthFirst, frontier);
            NonDecreasingLengths(w) && forall k :: 0 <= k < |w| ==> |frontier[0]| <= |w[k]|
    decreases Weights(frontier)
  {
    if |frontier| > 0 {
      var p, rest := frontier[0], frontier[1..];
      var kids := Extensions(p);
      var next := rest + kids;
      ExtensionsWeight(p);
      WeightsAppend(rest, kids);
      LayeredStep(frontier);
      BreadthFirstLengths(next);
      var tail := Walk(BreadthFirst, next);
      assert Walk(BreadthFirst, frontier) == [p] + tail;
      if |next| > 0 {
        if |rest| > 0 {
          assert next[0] == frontier[1];
        } else {
          assert next[0] == kids[0];
        }
      }
      PrependLengths(p, tail);
    }
  }

  lemma PrependLengths(p: SubTablePath, tail: seq<SubTablePath>)
    requires NonDecreasingLengths(tail) && forall k :: 0 <= k < |tail| ==> |p| <= |tail[k]|
    ensures NonDecreasingLengths([p] + tail)
    ensures forall k :: 0 <= k < |[p] + tail| ==> |p| <= |([p] + tail)[k]|
  {
    var w := [p] + tail;
    forall i, j | 0 <= i < j < |w| ensures |w[i]| <= |w[j]| {
      assert w[j] == tail[j - 1];
      if i > 0 {
        assert w[i] == tail[i - 1];
      }
    }
  }

  /** The breadth-first walk from the root yields paths in non-decreasing
      length. */
  lemma BreadthFirstOrder(root: OtTable, rootAccessor: string)
    ensures NonDecreasingLengths(Walk(BreadthFirst, [RootPath(root, rootAccessor)]))
  {
    BreadthFirstLengths([RootPath(root, rootAccessor)]);
  }

  /** The depth-first walk from the root is the pre-order listing. */
  lemma DepthFirstOrder(root: OtTable, rootAccessor: string)
    ensures Walk(DepthFirst, [RootPath(root, rootAccessor)]) == PreOrder(RootPath(root, rootAccessor))
  {
    var f := [RootPath(root, rootAccessor)];
    DepthFirstIsPreOrder(f);
    assert f[1..] == [];
  }

  // ---------------------------------------------------------------------
  // require_fully_loaded

  /** `tags` are font.keys() and `isLoaded` is font.isLoaded: raise when
      the (sorted) list of tables not loaded is not empty. */
  function RequireFullyLoaded(tags: seq<string>, isLoaded: string -> bool): (r: Outcome)
    ensures r == Pass <==> forall k :: 0 <= k < |tags| ==> isLoaded(tags[k])
    ensures r != Pass ==> r == Fail(ValueError)
  {
    var missing := t => !isLoaded(t);
    var notLoaded := Filter(tags, missing);
    FilterEmpty(tags, missing);
    if |notLoaded| > 0 then Fail(ValueError) else Pass
  }
}
