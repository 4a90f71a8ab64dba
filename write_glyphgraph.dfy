// The graph bookkeeping of src/nanoemoji/write_glyphgraph.py: node
// labels, the DAG that numbers nodes per type and remembers edges, and
// the depth-bounded descent of `_paint` over a COLR paint graph.
module WriteGlyphgraph {
  import opened Wrappers
  import opened Seqs
  import opened Text
  import opened ColrTraverse

  /** Node(node_id, node_label=None) */
  datatype Node = Node(nodeId: string, nodeLabel: Option<string>)
  {
    /** label(): the label when it is truthy (present and not empty), else
        the id. */
    function Label(): (r: string)
      ensures nodeLabel.Some? && nodeLabel.value != "" ==> r == nodeLabel.value
      ensures nodeLabel.None? || nodeLabel.value == "" ==> r == nodeId
    {
      if nodeLabel.Some? && |nodeLabel.value| > 0 then nodeLabel.value else nodeId
    }
  }

  /** _indent(depth): two spaces per level. */
  function Indent(depth: nat): (r: string)
    ensures |r| == 2 * depth
    ensures forall k :: 0 <= k < |r| ==> r[k] == ' '
  {
    RepeatSpaces(depth);
    Repeat("  ", depth)
  }

  lemma {:induction false} RepeatSpaces(n: nat)
    ensures forall k :: 0 <= k < |Repeat("  ", n)| ==> Repeat("  ", n)[k] == ' '
  {
    if n > 0 {
      RepeatSpaces(n - 1);
      var r := Repeat("  ", n);
      assert r == "  " + Repeat("  ", n - 1);
      assert forall k :: 2 <= k < |r| ==> r[k] == Repeat("  ", n - 1)[k - 2];
    }
  }

  /** The node type: the text before the first "_", or the whole id when it
      has none. */
  function TypeOf(id: string): string
  {
    if |id| == 0 || id[0] == '_' then "" else [id[0]] + TypeOf(id[1..])
  }

  /** The type has no "_"; it is the whole id when the id has none, and
      otherwise the part before the id's first "_". */
  lemma {:induction false} TypeOfSpec(id: string)
    ensures '_' !in TypeOf(id)
    ensures '_' !in id ==> TypeOf(id) == id
    ensures '_' in id ==> var r := TypeOf(id); |r| < |id| && id[..|r|] == r && id[|r|] == '_'
  {
    if |id| > 0 && id[0] != '_' {
      TypeOfSpec(id[1..]);
      assert id == [id[0]] + id[1..];
      if '_' in id {
        assert '_' in id[1..];
      }
    }
  }

  /** How many ids in `order` have type t. */
  function CountType(order: seq<string>, t: string): nat
    decreases |order|
  {
    if |order| == 0 then 0
    else CountType(order[..|order| - 1], t) + (if TypeOf(order[|order| - 1]) == t then 1 else 0)
  }

  lemma CountTypeSnoc(order: seq<string>, id: string, t: string)
    ensures CountType(order + [id], t) == CountType(order, t) + (if TypeOf(id) == t then 1 else 0)
  {
    assert (order + [id])[..|order|] == order;
  }

  /** Counting a longer prefix counts at least as many. */
  lemma {:induction false} CountTypeGrows(order: seq<string>, t: string, i: nat, j: nat)
    requires i <= j <= |order|
    ensures CountType(order[..i], t) <= CountType(order[..j], t)
    decreases j - i
  {
    if i < j {
      CountTypeGrows(order, t, i, j - 1);
      assert order[..j][..j - 1] == order[..j - 1];
    }
  }

  /** The node at position i of `order` is numbered by how many nodes of its
      type come up to and including it. */
  ghost predicate Numbered(order: seq<string>, nth: map<string, nat>, i: nat)
  {
    i < |order| && order[i] in nth && nth[order[i]] == CountType(order[..i + 1], TypeOf(order[i]))
  }

  class Dag {
    /** self.edges: every (src, dest) pair seen; src is None for a root. */
    var edges: set<(Option<string>, string)>
    /** self.nth_of_type */
    var nthOfType: map<string, nat>
    /** self.count_of_type, a Counter: an absent type counts 0. */
    var countOfType: map<string, nat>
    /** The edges handed to graphviz, in order. */
    var graphEdges: seq<(string, string)>
    /** The visited node ids in first-visit order. */
    ghost var order: seq<string>

    function Count(t: string): nat
      reads this
    {
      if t in countOfType then countOfType[t] else 0
    }

    /** Nodes are numbered 1, 2, ... within their type in first-visit
        order; the counter holds the number of nodes of each type; every
        edge ends at a visited node. */
    ghost predicate Valid()
      reads this
    {
      && NoRepeats(order)
      && (forall id :: id in nthOfType <==> id in order)
      && (forall i :: 0 <= i < |order| ==> Numbered(order, nthOfType, i))
      && (forall t :: Count(t) == CountType(order, t))
      && (forall e :: e in edges ==> e.1 in nthOfType)
    }

    constructor ()
      ensures Valid() && edges == {} && nthOfType == map[] && countOfType == map[] && graphEdges == []
    {
      edges := {};
      nthOfType := map[];
      countOfType := map[];
      graphEdges := [];
      order := [];
    }

    /** visited(node_id) */
    predicate Visited(id: string)
      reads this
    {
      id in nthOfType
    }

    /** edge(src, dest): number dest within its type on its first visit,
        emit the edge to graphviz when src is a node and the pair is new,
        and say whether it was new. */
    method Edge(src: Option<string>, dest: string) returns (newEdge: bool)
      requires Valid()
      modifies this
      ensures Valid() && Visited(dest)
      ensures newEdge <==> (src, dest) !in old(edges)
      ensures edges == old(edges) + {(src, dest)}
      ensures graphEdges == old(graphEdges) + (if src.Some? && newEdge then [(src.value, dest)] else [])
      ensures old(Visited(dest)) ==>
                nthOfType == old(nthOfType) && countOfType == old(countOfType) && order == old(order)
      ensures !old(Visited(dest)) ==>
                var t := TypeOf(dest);
                && order == old(order) + [dest]
                && countOfType == old(countOfType)[t := old(Count(t)) + 1]
                && nthOfType == old(nthOfType)[dest := old(Count(t)) + 1]
      ensures !newEdge ==>
                edges == old(edges) && nthOfType == old(nthOfType) && countOfType == old(countOfType) &&
                graphEdges == old(graphEdges)
    {
      if dest !in nthOfType {
        Number(dest);
      }
      newEdge := (src, dest) !in edges;
      if src.Some? && newEdge {
        graphEdges := graphEdges + [(src.value, dest)];
      }
      edges := edges + {(src, dest)};
    }

    /** The first visit of a node: count it under its type and number it
        with the new count. */
    method Number(dest: string)
      requires Valid() && dest !in nthOfType
      modifies this
      ensures Valid() && edges == old(edges) && graphEdges == old(graphEdges)
      ensures var t := TypeOf(dest);
              && order == old(order) + [dest]
              && countOfType == old(countOfType)[t := old(Count(t)) + 1]
              && nthOfType == old(nthOfType)[dest := old(Count(t)) + 1]
    {
      var t := TypeOf(dest);
      var c := Count(t) + 1;
      ghost var before := order;
      countOfType := countOfType[t := c];
      nthOfType := nthOfType[dest := c];
      order := order + [dest];
      forall u ensures Count(u) == CountType(order, u) {
        CountTypeSnoc(before, dest, u);
      }
      forall i | 0 <= i < |order|
        ensures Numbered(order, nthOfType, i)
      {
        if i < |before| {
          assert Numbered(before, old(nthOfType), i);
          assert order[..i + 1] == before[..i + 1];
        } else {
          assert order[..i + 1] == order;
        }
      }
    }

    /** Within a type, a node visited later has a larger number. */
    lemma NumbersIncrease(i: nat, j: nat)
      requires Valid() && i < j < |order| && TypeOf(order[i]) == TypeOf(order[j])
      ensures 1 <= nthOfType[order[i]] < nthOfType[order[j]] <= Count(TypeOf(order[j]))
    {
      var t := TypeOf(order[j]);
      assert Numbered(order, nthOfType, i) && Numbered(order, nthOfType, j);
      CountTypeGrows(order, t, i + 1, j);
      CountTypeGrows(order, t, j + 1, |order|);
      assert order[..j + 1] == order[..j] + [order[j]];
      CountTypeSnoc(order[..j], order[j], t);
      assert order[..i + 1] == order[..i] + [order[i]];
      CountTypeSnoc(order[..i], order[i], t);
      assert order[..|order|] == order;
    }
  }

  /** The formats `_paint_node` can name; a wrapped paint must be nameable
      too, since its id is part of the wrapper's id. */
  predicate Nameable(p: Paint)
  {
    match p
    case PaintColrLayers(_, _) => true
    case PaintSolid(_) => true
    case PaintLinearGradient(_) => true
    case PaintRadialGradient(_) => true
    case PaintGlyph(c, _) => Nameable(c)
    case PaintColrGlyph(_) => true
    case PaintTransform(c) => Nameable(c)
    case PaintComposite(s, _, b) => Nameable(s) && Nameable(b)
    case _ => false
  }

  /** The deepest level `_paint` accepts. */
  const MaxDepth: nat := 256

  type EdgeSet = set<(Option<string>, string)>

  /** How many more levels `_paint` may descend from depth. */
  function Room(depth: nat): nat
  {
    if depth <= MaxDepth then MaxDepth + 1 - depth else 0
  }

  /** What `_paint` does to the set of edges, and how it ends: a node
      beyond depth 256 or of a format `_paint_node` cannot name raises
      NotImplementedError; a repeated edge stops the descent; a new one is
      recorded and the paint's children are walked one level deeper. The
      outcome is Pass or the first exception raised. */
  function Walk(edges: EdgeSet, parent: Option<string>, colr: Colr, paint: Paint, depth: nat,
                nodeId: Paint -> string, colorLineId: ColorLine -> string): (r: (Outcome, EdgeSet))
    ensures edges <= r.1
    ensures r.0.Fail? ==> r.0.error == NotImplementedError || r.0.error == ValueError
    ensures depth > MaxDepth || !Nameable(paint) ==> r == (Fail(NotImplementedError), edges)
    ensures depth <= MaxDepth && Nameable(paint) ==> (parent, nodeId(paint)) in r.1
    ensures depth <= MaxDepth && Nameable(paint) && (parent, nodeId(paint)) in edges ==> r == (Pass, edges)
    decreases Room(depth), 2, 0
  {
    if depth > MaxDepth || !Nameable(paint) then (Fail(NotImplementedError), edges)
    else if (parent, nodeId(paint)) in edges then (Pass, edges)
    else Descent(edges + {(parent, nodeId(paint))}, nodeId(paint), colr, paint, depth, nodeId, colorLineId)
  }

  /** The descent below a node whose edge has just been recorded in
      `edges`: the children of each format, or ValueError for a format
      `_paint` does not descend into. */
  function Descent(edges: EdgeSet, id: string, colr: Colr, paint: Paint, depth: nat,
                   nodeId: Paint -> string, colorLineId: ColorLine -> string): (r: (Outcome, EdgeSet))
    requires depth <= MaxDepth
    ensures edges <= r.1
    ensures r.0.Fail? ==> r.0.error == NotImplementedError || r.0.error == ValueError
    decreases Room(depth), 1, 0
  {
    match paint
    case PaintColrLayers(num, first) =>
      WalkAll(edges, id, colr, Slice(colr.layers, first, first + num), depth + 1, nodeId, colorLineId)
    case PaintSolid(_) => (Pass, edges)
    case PaintLinearGradient(line) => (Pass, edges + {(Some(id), colorLineId(line))})
    case PaintRadialGradient(line) => (Pass, edges + {(Some(id), colorLineId(line))})
    case PaintGlyph(child, _) => Walk(edges, Some(id), colr, child, depth + 1, nodeId, colorLineId)
    case PaintTransform(child) => Walk(edges, Some(id), colr, child, depth + 1, nodeId, colorLineId)
    case PaintComposite(source, _, backdrop) =>
      var b := Walk(edges, Some(id), colr, backdrop, depth + 1, nodeId, colorLineId);
      if b.0.Fail? then b else Walk(b.1, Some(id), colr, source, depth + 1, nodeId, colorLineId)
    case _ => (Fail(ValueError), edges)
  }

  /** The children of one node, walked in turn under `parentId` until one
      of them raises. */
  function WalkAll(edges: EdgeSet, parentId: string, colr: Colr, children: seq<Paint>, depth: nat,
                   nodeId: Paint -> string, colorLineId: ColorLine -> string): (r: (Outcome, EdgeSet))
    ensures edges <= r.1
    ensures r.0.Fail? ==> r.0.error == NotImplementedError || r.0.error == ValueError
    decreases Room(depth) + 1, 0, |children|
  {
    if |children| == 0 then (Pass, edges)
    else
      var w := Walk(edges, Some(parentId), colr, children[0], depth, nodeId, colorLineId);
      if w.0.Fail? then w else WalkAll(w.1, parentId, colr, children[1..], depth, nodeId, colorLineId)
  }

  /** Once a node's edge is new, each format descends as `_paint` says: a
      PaintSolid passes; a gradient also joins the node to its colour line;
      a PaintGlyph or PaintTransform joins its child one level deeper and
      ends as that child's walk does, which at the last level allowed is
      NotImplementedError; a PaintComposite walks its backdrop, then its
      source unless the backdrop raised; a PaintColrGlyph is ValueError. */
  lemma DescentByFormat(edges: EdgeSet, parent: Option<string>, colr: Colr, paint: Paint, depth: nat,
                        nodeId: Paint -> string, colorLineId: ColorLine -> string)
    requires depth <= MaxDepth && Nameable(paint) && (parent, nodeId(paint)) !in edges
    ensures var r := Walk(edges, parent, colr, paint, depth, nodeId, colorLineId);
            var id := nodeId(paint);
            var e := edges + {(parent, id)};
            && (paint.PaintSolid? ==> r == (Pass, e))
            && (paint.PaintLinearGradient? || paint.PaintRadialGradient? ==>
                  r == (Pass, e + {(Some(id), colorLineId(paint.colorLine))}))
            && (paint.PaintColrGlyph? ==> r == (Fail(ValueError), e))
            && (paint.PaintGlyph? || paint.PaintTransform? ==>
                  r == Walk(e, Some(id), colr, paint.paint, depth + 1, nodeId, colorLineId)
                  && (depth < MaxDepth ==> (Some(id), nodeId(paint.paint)) in r.1)
                  && (depth == MaxDepth ==> r.0 == Fail(NotImplementedError)))
            && (paint.PaintComposite? ==>
                  var b := Walk(e, Some(id), colr, paint.backdropPaint, depth + 1, nodeId, colorLineId);
                  && (b.0.Fail? ==> r == b)
                  && (b.0.Pass? ==> r == Walk(b.1, Some(id), colr, paint.sourcePaint, depth + 1, nodeId, colorLineId))
                  && (depth < MaxDepth ==> (Some(id), nodeId(paint.backdropPaint)) in r.1))
  {
  }

  /** _paint(dag, parent, font, paint, depth). The node ids (`_paint_node`,
      `_color_line_node`) are string formatting of float fields and are
      parameters here. */
  method PaintNode(dag: Dag, parent: Option<string>, colr: Colr, paint: Paint, depth: nat,
                   nodeId: Paint -> string, colorLineId: ColorLine -> string) returns (r: Outcome)
    requires dag.Valid()
    modifies dag
    ensures dag.Valid()
    ensures (r, dag.edges) == Walk(old(dag.edges), parent, colr, paint, depth, nodeId, colorLineId)
    ensures depth > MaxDepth ==> r == Fail(NotImplementedError) && dag.edges == old(dag.edges)
    ensures depth <= MaxDepth && !Nameable(paint) ==> r == Fail(NotImplementedError) && dag.edges == old(dag.edges)
    ensures depth <= MaxDepth && Nameable(paint) ==>
              dag.Visited(nodeId(paint)) && (parent, nodeId(paint)) in dag.edges
    ensures old(dag.edges) <= dag.edges
    ensures depth <= MaxDepth && Nameable(paint) && (parent, nodeId(paint)) in old(dag.edges) ==>
              r == Pass && dag.edges == old(dag.edges)
    ensures depth > MaxDepth || !Nameable(paint) || (parent, nodeId(paint)) in old(dag.edges) ==>
              dag.graphEdges == old(dag.graphEdges) &&
              dag.nthOfType == old(dag.nthOfType) && dag.countOfType == old(dag.countOfType)
    decreases Room(depth), 2
  {
    if depth > MaxDepth {
      return Fail(NotImplementedError);
    }
    if !Nameable(paint) {
      return Fail(NotImplementedError);
    }
    var id := nodeId(paint);
    var newEdge := dag.Edge(parent, id);
    if !newEdge {
      return Pass;
    }
    r := Descend(dag, id, colr, paint, depth, nodeId, colorLineId);
  }

  /** The "Descend" part of `_paint`, once the node's edge is new. */
  method Descend(dag: Dag, id: string, colr: Colr, paint: Paint, depth: nat,
                 nodeId: Paint -> string, colorLineId: ColorLine -> string) returns (r: Outcome)
    requires dag.Valid() && depth <= MaxDepth
    modifies dag
    ensures dag.Valid()
    ensures (r, dag.edges) == Descent(old(dag.edges), id, colr, paint, depth, nodeId, colorLineId)
    decreases Room(depth), 1
  {
    ghost var e := dag.edges;
    r := Pass;
    match paint {
      case PaintColrLayers(num, first) =>
        var children := Slice(colr.layers, first, first + num);
        assert Descent(e, id, colr, paint, depth, nodeId, colorLineId)
            == WalkAll(e, id, colr, children, depth + 1, nodeId, colorLineId);
        r := DescendLayers(dag, id, colr, children, depth + 1, nodeId, colorLineId);
      case PaintSolid(_) =>
        assert Descent(e, id, colr, paint, depth, nodeId, colorLineId) == (Pass, e);
      case PaintLinearGradient(line) =>
        assert Descent(e, id, colr, paint, depth, nodeId, colorLineId) == (Pass, e + {(Some(id), colorLineId(line))});
        JoinColorLine(dag, id, colorLineId(line));
      case PaintRadialGradient(line) =>
        assert Descent(e, id, colr, paint, depth, nodeId, colorLineId) == (Pass, e + {(Some(id), colorLineId(line))});
        JoinColorLine(dag, id, colorLineId(line));
      case PaintGlyph(child, _) =>
        assert Descent(e, id, colr, paint, depth, nodeId, colorLineId)
            == Walk(e, Some(id), colr, child, depth + 1, nodeId, colorLineId);
        r := DescendChild(dag, id, colr, child, depth + 1, nodeId, colorLineId);
      case PaintTransform(child) =>
        assert Descent(e, id, colr, paint, depth, nodeId, colorLineId)
            == Walk(e, Some(id), colr, child, depth + 1, nodeId, colorLineId);
        r := DescendChild(dag, id, colr, child, depth + 1, nodeId, colorLineId);
      case PaintComposite(source, _, backdrop) =>
        assert Descent(e, id, colr, paint, depth, nodeId, colorLineId)
            == var b := Walk(e, Some(id), colr, backdrop, depth + 1, nodeId, colorLineId);
               if b.0.Fail? then b else Walk(b.1, Some(id), colr, source, depth + 1, nodeId, colorLineId);
        r := DescendComposite(dag, id, colr, source, backdrop, depth + 1, nodeId, colorLineId);
      case PaintSweepGradient(_) => r := Fail(ValueError);
      case PaintColrGlyph(_) => r := Fail(ValueError);
      case PaintTranslate(_, _, _) => r := Fail(ValueError);
      case PaintRotate(_, _) => r := Fail(ValueError);
      case PaintSkew(_, _, _) => r := Fail(ValueError);
      case PaintOther(_) => r := Fail(ValueError);
    }
  }

  /** The loop over the child paints of a PaintColrLayers, stopping with
      the first child that raises. */
  method DescendLayers(dag: Dag, id: string, colr: Colr, children: seq<Paint>, depth: nat,
                       nodeId: Paint -> string, colorLineId: ColorLine -> string) returns (r: Outcome)
    requires dag.Valid()
    modifies dag
    ensures dag.Valid()
    ensures (r, dag.edges) == WalkAll(old(dag.edges), id, colr, children, depth, nodeId, colorLineId)
    decreases Room(depth) + 1, 0
  {
    r := Pass;
    var i := 0;
    while i < |children|
      invariant 0 <= i <= |children| && dag.Valid()
      invariant r == Pass
      invariant WalkAll(dag.edges, id, colr, children[i..], depth, nodeId, colorLineId)
                == WalkAll(old(dag.edges), id, colr, children, depth, nodeId, colorLineId)
      decreases |children| - i
    {
      assert children[i..][0] == children[i] && children[i..][1..] == children[i + 1..];
      r := PaintNode(dag, Some(id), colr, children[i], depth, nodeId, colorLineId);
      if r.Fail? {
        return;
      }
      i := i + 1;
    }
  }

  /** The two children of a PaintComposite: the backdrop first, then the
      source unless the backdrop raised. */
  method DescendComposite(dag: Dag, id: string, colr: Colr, source: Paint, backdrop: Paint, depth: nat,
                          nodeId: Paint -> string, colorLineId: ColorLine -> string) returns (r: Outcome)
    requires dag.Valid()
    modifies dag
    ensures dag.Valid()
    ensures var b := Walk(old(dag.edges), Some(id), colr, backdrop, depth, nodeId, colorLineId);
            (r, dag.edges) == if b.0.Fail? then b else Walk(b.1, Some(id), colr, source, depth, nodeId, colorLineId)
    decreases Room(depth) + 1, 0
  {
    r := PaintNode(dag, Some(id), colr, backdrop, depth, nodeId, colorLineId);
    if r.Fail? {
      return;
    }
    r := PaintNode(dag, Some(id), colr, source, depth, nodeId, colorLineId);
  }

  /** The colour line node of a gradient, joined to the gradient's node. */
  method JoinColorLine(dag: Dag, id: string, lineId: string)
    requires dag.Valid()
    modifies dag
    ensures dag.Valid() && dag.edges == old(dag.edges) + {(Some(id), lineId)}
  {
    var _ := dag.Edge(Some(id), lineId);
  }

  /** The one child of a PaintGlyph or PaintTransform, walked under the
      node. */
  method DescendChild(dag: Dag, id: string, colr: Colr, child: Paint, depth: nat,
                      nodeId: Paint -> string, colorLineId: ColorLine -> string) returns (r: Outcome)
    requires dag.Valid()
    modifies dag
    ensures dag.Valid()
    ensures (r, dag.edges) == Walk(old(dag.edges), Some(id), colr, child, depth, nodeId, colorLineId)
    decreases Room(depth) + 1, 0
  {
    r := PaintNode(dag, Some(id), colr, child, depth, nodeId, colorLineId);
  }
}
