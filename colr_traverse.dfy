// The COLR version 1 paint graph walk of src/nanoemoji/colr_traverse.py:
// the children of each paint format, `_only`, and the breadth-first
// `traverse` that hands every paint it reaches to a callback.
module ColrTraverse {
  import opened Wrappers
  import Util
  import opened Seqs

  datatype ColorStop = ColorStop(stopOffset: int, paletteIndex: nat)

  datatype ColorLine = ColorLine(extend: nat, colorStop: seq<ColorStop>)

  /** One paint of a COLR version 1 table, as fontTools holds it: the
      paints a format wraps are embedded, while PaintColrLayers points into
      the layer list and PaintColrGlyph names a base glyph. PaintSweepGradient
      is a known format that the walk does not list; PaintOther stands for
      every other format number. */
  datatype Paint =
    | PaintColrLayers(numLayers: nat, firstLayerIndex: nat)
    | PaintSolid(paletteIndex: nat)
    | PaintLinearGradient(colorLine: ColorLine)
    | PaintRadialGradient(colorLine: ColorLine)
    | PaintSweepGradient(colorLine: ColorLine)
    | PaintGlyph(paint: Paint, glyph: string)
    | PaintColrGlyph(glyph: string)
    | PaintTransform(paint: Paint)
    | PaintTranslate(paint: Paint, dx: int, dy: int)
    | PaintRotate(paint: Paint, angle: int)
    | PaintSkew(paint: Paint, xSkewAngle: int, ySkewAngle: int)
    | PaintComposite(sourcePaint: Paint, compositeMode: nat, backdropPaint: Paint)
    | PaintOther(format: nat)

  datatype BaseGlyphRecord = BaseGlyphRecord(baseGlyph: string, paint: Paint)

  /** BaseGlyphV1List and LayerV1List of a COLR table. */
  datatype Colr = Colr(baseGlyphs: seq<BaseGlyphRecord>, layers: seq<Paint>)

  /** The formats in _LEAVES. */
  predicate IsLeaf(p: Paint)
  {
    p.PaintSolid? || p.PaintLinearGradient? || p.PaintRadialGradient?
  }

  /** The formats in _HAS_PAINT. */
  predicate HasPaint(p: Paint)
  {
    p.PaintGlyph? || p.PaintTransform? || p.PaintTranslate? || p.PaintRotate? || p.PaintSkew?
  }

  /** Python's xs[lo:hi] for 0 <= lo <= hi: the bounds are clipped to the
      list. */
  function Slice<T>(xs: seq<T>, lo: nat, hi: nat): (r: seq<T>)
    requires lo <= hi
    ensures |r| == (if hi <= |xs| then hi - lo else if lo <= |xs| then |xs| - lo else 0)
    ensures forall k :: 0 <= k < |r| ==> r[k] == xs[lo + k]
  {
    if |xs| <= lo then [] else if |xs| <= hi then xs[lo..] else xs[lo..hi]
  }

  /** _only: the single entry of a sequence, or ValueError. */
  function Only<T>(s: seq<T>): (r: Result<T>)
    ensures r.Ok? <==> |s| == 1
    ensures r.Ok? ==> r.value == s[0]
    ensures r.Err? ==> r.error == ValueError
  {
    if |s| != 1 then Err(ValueError) else Ok(s[0])
  }

  /** _base_glyphs(colr, lambda g: g.BaseGlyph == name) */
  function BaseGlyphsNamed(colr: Colr, name: string): seq<BaseGlyphRecord>
  {
    Util.Filter(colr.baseGlyphs, (g: BaseGlyphRecord) => g.baseGlyph == name)
  }

  /** _children(colr, paint) */
  function Children(colr: Colr, paint: Paint): (r: Result<seq<Paint>>)
    ensures r.Err? ==> r.error == ValueError
    ensures r.Err? <==> paint.PaintSweepGradient? || paint.PaintOther? ||
                        (paint.PaintColrGlyph? && |BaseGlyphsNamed(colr, paint.glyph)| != 1)
  {
    if IsLeaf(paint) then Ok([])
    else if paint.PaintColrLayers? then
      Ok(Slice(colr.layers, paint.firstLayerIndex, paint.firstLayerIndex + paint.numLayers))
    else if paint.PaintColrGlyph? then
      var base :- Only(BaseGlyphsNamed(colr, paint.glyph));
      Ok([base.paint])
    else if HasPaint(paint) then Ok([paint.paint])
    else if paint.PaintComposite? then Ok([paint.sourcePaint, paint.backdropPaint])
    else Err(ValueError)
  }

  /** Solid and gradient paints have no children; PaintColrLayers has the
      layers [FirstLayerIndex, FirstLayerIndex + NumLayers) that exist; the
      single-child formats have their Paint; PaintComposite has its source
      and then its backdrop. */
  lemma ChildrenByFormat(colr: Colr, paint: Paint)
    ensures IsLeaf(paint) ==> Children(colr, paint) == Ok([])
    ensures paint.PaintColrLayers? ==>
              var first, num := paint.firstLayerIndex, paint.numLayers;
              var kids := Children(colr, paint);
              kids.Ok? &&
              |kids.value| == (if first + num <= |colr.layers| then num
                               else if first <= |colr.layers| then |colr.layers| - first else 0) &&
              forall k :: 0 <= k < |kids.value| ==> kids.value[k] == colr.layers[first + k]
    ensures HasPaint(paint) ==> Children(colr, paint) == Ok([paint.paint])
    ensures paint.PaintComposite? ==>
              Children(colr, paint) == Ok([paint.sourcePaint, paint.backdropPaint])
  {
  }

  /** A PaintColrGlyph's child is the paint of the one base glyph record
      with its name. */
  lemma ColrGlyphChild(colr: Colr, paint: Paint, i: int)
    requires paint.PaintColrGlyph?
    requires 0 <= i < |colr.baseGlyphs| && colr.baseGlyphs[i].baseGlyph == paint.glyph
    requires forall j :: 0 <= j < |colr.baseGlyphs| && j != i ==> colr.baseGlyphs[j].baseGlyph != paint.glyph
    ensures Children(colr, paint) == Ok([colr.baseGlyphs[i].paint])
  {
    var keep := (g: BaseGlyphRecord) => g.baseGlyph == paint.glyph;
    Util.OnlyOne(colr.baseGlyphs, keep, i);
  }

  /** With no base glyph record of that name, PaintColrGlyph raises. */
  lemma ColrGlyphMissing(colr: Colr, paint: Paint)
    requires paint.PaintColrGlyph?
    requires forall j :: 0 <= j < |colr.baseGlyphs| ==> colr.baseGlyphs[j].baseGlyph != paint.glyph
    ensures Children(colr, paint) == Err(ValueError)
  {
    var keep := (g: BaseGlyphRecord) => g.baseGlyph == paint.glyph;
    Util.FilterEmpty(colr.baseGlyphs, keep);
  }

  /** With two base glyph records of that name, PaintColrGlyph raises. */
  lemma ColrGlyphAmbiguous(colr: Colr, paint: Paint, i: int, j: int)
    requires paint.PaintColrGlyph?
    requires 0 <= i < j < |colr.baseGlyphs|
    requires colr.baseGlyphs[i].baseGlyph == paint.glyph && colr.baseGlyphs[j].baseGlyph == paint.glyph
    ensures Children(colr, paint) == Err(ValueError)
  {
    var keep := (g: BaseGlyphRecord) => g.baseGlyph == paint.glyph;
    Util.OnlyTwo(colr.baseGlyphs, keep, i, j);
  }

  // ---------------------------------------------------------------------
  // traverse

  /** The paints handed to the callback, in order, and how the walk ended. */
  datatype Trace = Trace(visited: seq<Paint>, outcome: Outcome)

  function Prepend(visited: seq<Paint>, t: Trace): Trace
  {
    Trace(visited + t.visited, t.outcome)
  }

  /** The walk from a frontier, visiting at most `fuel` paints: take the
      front paint, call back on it, then queue its children at the back.
      A COLR table whose PaintColrGlyph references form a cycle makes the
      original loop forever; here it runs out of fuel. */
  function Visits(colr: Colr, frontier: seq<Paint>, fuel: nat): Trace
    decreases fuel
  {
    if |frontier| == 0 then Trace([], Pass)
    else if fuel == 0 then Trace([], Fail(OutOfFuel))
    else
      var current := frontier[0];
      match Children(colr, current)
      case Err(e) => Trace([current], Fail(e))
      case Ok(kids) => Prepend([current], Visits(colr, frontier[1..] + kids, fuel - 1))
  }

  /** traverse(colr, root, callback_fn), returning what the callback saw. */
  method Traverse(colr: Colr, root: Paint, fuel: nat) returns (visited: seq<Paint>, outcome: Outcome)
    ensures Trace(visited, outcome) == Visits(colr, [root], fuel)
    ensures fuel > 0 ==> |visited| > 0 && visited[0] == root
  {
    var frontier := [root];
    visited := [];
    outcome := Pass;
    var steps := 0;
    ghost var whole := Visits(colr, [root], fuel);
    while |frontier| > 0
      invariant steps <= fuel
      invariant whole == Prepend(visited, Visits(colr, frontier, fuel - steps))
      decreases fuel - steps
    {
      VisitsFront(colr, frontier, fuel - steps);
      if steps == fuel {
        outcome := Fail(OutOfFuel);
        return;
      }
      var current := frontier[0];
      var kids := Children(colr, current);
      if kids.Err? {
        visited := visited + [current];
        outcome := Fail(kids.error);
        return;
      }
      TraverseStep(colr, visited, frontier, fuel - steps, kids.value);
      visited := visited + [current];
      frontier := frontier[1..] + kids.value;
      steps := steps + 1;
    }
    assert Visits(colr, frontier, fuel - steps) == Trace([], Pass);
    RootVisitedFirst(colr, root, fuel);
  }

  /** With any fuel, the root is the first paint the callback sees. */
  lemma RootVisitedFirst(colr: Colr, root: Paint, fuel: nat)
    ensures fuel > 0 ==> var v := Visits(colr, [root], fuel).visited; |v| > 0 && v[0] == root
  {
    if fuel > 0 {
      assert [root][0] == root;
    }
  }

  /** The walk visits at most `fuel` paints and raises only ValueError or
      runs out of fuel. */
  lemma {:induction false} VisitsBounds(colr: Colr, frontier: seq<Paint>, fuel: nat)
    ensures var t := Visits(colr, frontier, fuel);
            (t.outcome.Fail? ==> t.outcome.error == ValueError || t.outcome.error == OutOfFuel) &&
            |t.visited| <= fuel
    decreases fuel
  {
    if |frontier| > 0 && fuel > 0 {
      var kids := Children(colr, frontier[0]);
      if kids.Ok? {
        VisitsBounds(colr, frontier[1..] + kids.value, fuel - 1);
      }
    }
  }

  /** The walk from a non-empty frontier: out of fuel, or the front paint's
      error. */
  lemma VisitsFront(colr: Colr, frontier: seq<Paint>, fuel: nat)
    requires |frontier| > 0
    ensures fuel == 0 ==> Visits(colr, frontier, fuel) == Trace([], Fail(OutOfFuel))
    ensures fuel > 0 && Children(colr, frontier[0]).Err? ==>
              Visits(colr, frontier, fuel) == Trace([frontier[0]], Fail(Children(colr, frontier[0]).error))
  {
  }

  /** One pass of the loop of traverse. */
  lemma TraverseStep(colr: Colr, visited: seq<Paint>, frontier: seq<Paint>, fuel: nat, kids: seq<Paint>)
    requires |frontier| > 0 && fuel > 0 && Children(colr, frontier[0]) == Ok(kids)
    ensures Prepend(visited, Visits(colr, frontier, fuel)) ==
            Prepend(visited + [frontier[0]], Visits(colr, frontier[1..] + kids, fuel - 1))
  {
    VisitsStep(colr, frontier, fuel, kids);
    AppendAssociative(visited, [frontier[0]], Visits(colr, frontier[1..] + kids, fuel - 1).visited);
  }

  /** First in, first out: the walk visits the frontier in order before
      anything it queues. */
  lemma {:induction false} VisitsFifo(colr: Colr, frontier: seq<Paint>, fuel: nat)
    ensures var v := Visits(colr, frontier, fuel).visited;
            forall k :: 0 <= k < |v| && k < |frontier| ==> v[k] == frontier[k]
    decreases fuel
  {
    if |frontier| > 0 && fuel > 0 {
      var kids := Children(colr, frontier[0]);
      if kids.Ok? {
        var next := frontier[1..] + kids.value;
        VisitsFifo(colr, next, fuel - 1);
        var v' := Visits(colr, next, fuel - 1).visited;
        assert forall k :: 1 <= k < |frontier| && k - 1 < |v'| ==> v'[k - 1] == next[k - 1] == frontier[k];
      }
    }
  }

  /** A paint whose whole graph is embedded: no layer list, no base glyph
      reference and no format the walk rejects. */
  predicate Embedded(p: Paint)
  {
    match p
    case PaintSolid(_) => true
    case PaintLinearGradient(_) => true
    case PaintRadialGradient(_) => true
    case PaintGlyph(c, _) => Embedded(c)
    case PaintTransform(c) => Embedded(c)
    case PaintTranslate(c, _, _) => Embedded(c)
    case PaintRotate(c, _) => Embedded(c)
    case PaintSkew(c, _, _) => Embedded(c)
    case PaintComposite(s, _, b) => Embedded(s) && Embedded(b)
    case _ => false
  }

  /** Every occurrence of a paint in an embedded graph, in pre-order. */
  function Nodes(p: Paint): seq<Paint>
  {
    match p
    case PaintGlyph(c, _) => [p] + Nodes(c)
    case PaintTransform(c) => [p] + Nodes(c)
    case PaintTranslate(c, _, _) => [p] + Nodes(c)
    case PaintRotate(c, _) => [p] + Nodes(c)
    case PaintSkew(c, _, _) => [p] + Nodes(c)
    case PaintComposite(s, _, b) => [p] + Nodes(s) + Nodes(b)
    case _ => [p]
  }

  function NodesOf(ps: seq<Paint>): seq<Paint>
    decreases |ps|
  {
    if |ps| == 0 then [] else Nodes(ps[0]) + NodesOf(ps[1..])
  }

  lemma {:induction false} NodesOfAppend(a: seq<Paint>, b: seq<Paint>)
    ensures NodesOf(a + b) == NodesOf(a) + NodesOf(b)
    decreases |a|
  {
    if |a| > 0 {
      assert (a + b)[0] == a[0] && (a + b)[1..] == a[1..] + b;
      NodesOfAppend(a[1..], b);
    } else {
      assert a + b == b;
    }
  }

  lemma NodesOfOne(c: Paint)
    ensures NodesOf([c]) == Nodes(c)
  {
    assert [c][1..] == [];
  }

  lemma NodesOfTwo(c: Paint, d: Paint)
    ensures NodesOf([c, d]) == Nodes(c) + Nodes(d)
  {
    assert [c, d][1..] == [d];
    NodesOfOne(d);
  }

  /** One step of the walk. */
  lemma VisitsStep(colr: Colr, frontier: seq<Paint>, fuel: nat, kids: seq<Paint>)
    requires |frontier| > 0 && fuel > 0 && Children(colr, frontier[0]) == Ok(kids)
    ensures Visits(colr, frontier, fuel) == Prepend([frontier[0]], Visits(colr, frontier[1..] + kids, fuel - 1))
  {
  }

  /** An embedded paint's children are embedded and together hold the rest
      of its nodes. */
  lemma EmbeddedChildren(colr: Colr, p: Paint)
    requires Embedded(p)
    ensures Children(colr, p).Ok?
    ensures AllEmbedded(Children(colr, p).value)
    ensures Nodes(p) == [p] + NodesOf(Children(colr, p).value)
  {
    if p.PaintComposite? {
      CompositeChildren(colr, p);
    } else if HasPaint(p) {
      WrapperChildren(colr, p);
    } else {
      assert IsLeaf(p);
      assert Children(colr, p) == Ok([]);
    }
  }

  lemma CompositeChildren(colr: Colr, p: Paint)
    requires Embedded(p) && p.PaintComposite?
    ensures Children(colr, p) == Ok([p.sourcePaint, p.backdropPaint])
    ensures AllEmbedded([p.sourcePaint, p.backdropPaint])
    ensures Nodes(p) == [p] + NodesOf([p.sourcePaint, p.backdropPaint])
  {
    NodesOfTwo(p.sourcePaint, p.backdropPaint);
  }

  lemma WrapperChildren(colr: Colr, p: Paint)
    requires Embedded(p) && HasPaint(p)
    ensures Children(colr, p) == Ok([p.paint])
    ensures AllEmbedded([p.paint])
    ensures Nodes(p) == [p] + NodesOf([p.paint])
  {
    NodesOfOne(p.paint);
  }

  /** On an embedded graph, which is a tree, the walk visits every paint
      occurrence exactly once given enough fuel: shared subgraphs are not
      deduplicated, because the original keeps no visited set. */
  lemma {:induction false} VisitsEmbedded(colr: Colr, frontier: seq<Paint>, fuel: nat)
    requires AllEmbedded(frontier)
    requires |NodesOf(frontier)| <= fuel
    ensures Visits(colr, frontier, fuel).outcome == Pass
    ensures multiset(Visits(colr, frontier, fuel).visited) == multiset(NodesOf(frontier))
    decreases fuel
  {
    if |frontier| > 0 {
      var kids := EmbeddedStep(colr, frontier, fuel);
      VisitsEmbedded(colr, frontier[1..] + kids, fuel - 1);
      EmbeddedTrace(colr, frontier, fuel, kids);
    } else {
      assert Visits(colr, frontier, fuel) == Trace([], Pass);
    }
  }

  /** The front paint of an embedded frontier has children, and the next
      frontier is embedded and holds one node fewer. */
  lemma EmbeddedStep(colr: Colr, frontier: seq<Paint>, fuel: nat) returns (kids: seq<Paint>)
    requires AllEmbedded(frontier) && 0 < |frontier| && |NodesOf(frontier)| <= fuel
    ensures Children(colr, frontier[0]) == Ok(kids) && 0 < fuel
    ensures AllEmbedded(frontier[1..] + kids)
    ensures NodesOf(frontier[1..] + kids) == NodesOf(frontier[1..]) + NodesOf(kids)
    ensures NodesOf(frontier) == ([frontier[0]] + NodesOf(kids)) + NodesOf(frontier[1..])
    ensures |NodesOf(frontier[1..] + kids)| <= fuel - 1
  {
    var p, rest := frontier[0], frontier[1..];
    EmbeddedChildren(colr, p);
    kids := Children(colr, p).value;
    NodesOfAppend(rest, kids);
    assert NodesOf(frontier) == Nodes(p) + NodesOf(rest);
    assert AllEmbedded(rest);
    AllEmbeddedAppend(rest, kids);
  }

  /** The trace of an embedded frontier follows from the trace of the next
      one. */
  lemma EmbeddedTrace(colr: Colr, frontier: seq<Paint>, fuel: nat, kids: seq<Paint>)
    requires |frontier| > 0 && fuel > 0 && Children(colr, frontier[0]) == Ok(kids)
    requires NodesOf(frontier) == ([frontier[0]] + NodesOf(kids)) + NodesOf(frontier[1..])
    requires Visits(colr, frontier[1..] + kids, fuel - 1).outcome == Pass
    requires multiset(Visits(colr, frontier[1..] + kids, fuel - 1).visited) ==
             multiset(NodesOf(frontier[1..]) + NodesOf(kids))
    ensures Visits(colr, frontier, fuel).outcome == Pass
    ensures multiset(Visits(colr, frontier, fuel).visited) == multiset(NodesOf(frontier))
  {
    var t := Visits(colr, frontier[1..] + kids, fuel - 1);
    VisitsStep(colr, frontier, fuel, kids);
    MultisetCons(frontier[0], t.visited, NodesOf(frontier[1..]), NodesOf(kids));
  }

  predicate AllEmbedded(ps: seq<Paint>)
  {
    forall k :: 0 <= k < |ps| ==> Embedded(ps[k])
  }

  lemma AllEmbeddedAppend(a: seq<Paint>, b: seq<Paint>)
    requires AllEmbedded(a) && AllEmbedded(b)
    ensures AllEmbedded(a + b)
  {
    assert forall k :: 0 <= k < |a + b| ==> (a + b)[k] == if k < |a| then a[k] else b[k - |a|];
  }

  lemma MultisetCons(p: Paint, v: seq<Paint>, a: seq<Paint>, b: seq<Paint>)
    requires multiset(v) == multiset(a + b)
    ensures multiset([p] + v) == multiset(([p] + b) + a)
  {
  }

  /** The two halves of a composite are visited separately even when they
      are the same paint. */
  lemma SharedPaintRevisited(colr: Colr, leaf: Paint, mode: nat, fuel: nat)
    requires IsLeaf(leaf) && 3 <= fuel
    ensures Visits(colr, [PaintComposite(leaf, mode, leaf)], fuel) ==
            Trace([PaintComposite(leaf, mode, leaf), leaf, leaf], Pass)
  {
    var root := PaintComposite(leaf, mode, leaf);
    assert Children(colr, root) == Ok([leaf, leaf]);
    assert Children(colr, leaf) == Ok([]);
    assert [root][1..] + [leaf, leaf] == [leaf, leaf];
    assert [leaf, leaf][1..] + [] == [leaf];
    assert [leaf][1..] + [] == [];
    assert Visits(colr, [], fuel - 3) == Trace([], Pass);
    assert Visits(colr, [leaf], fuel - 2) == Trace([leaf], Pass);
    assert Visits(colr, [leaf, leaf], fuel - 1) == Trace([leaf, leaf], Pass);
  }

  /** A base glyph whose paint names itself makes the walk run until the
      fuel is gone, visiting that paint every time. */
  lemma {:induction false} SelfReferenceNeverEnds(colr: Colr, name: string, fuel: nat)
    requires colr.baseGlyphs == [BaseGlyphRecord(name, PaintColrGlyph(name))]
    ensures Visits(colr, [PaintColrGlyph(name)], fuel) ==
            Trace(seq(fuel, _ => PaintColrGlyph(name)), Fail(OutOfFuel))
    decreases fuel
  {
    if fuel > 0 {
      var p := PaintColrGlyph(name);
      ColrGlyphChild(colr, p, 0);
      SelfReferenceNeverEnds(colr, name, fuel - 1);
      assert [p][1..] + [p] == [p];
      assert [p] + seq(fuel - 1, _ => p) == seq(fuel, _ => p);
    } else {
      assert seq(0, _ => PaintColrGlyph(name)) == [];
    }
  }
}
