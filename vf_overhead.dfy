// The estimate of src/nanoemoji/vf_overhead.py: how many bytes the
// variation indices of a variable COLR table would add, charging each
// distinct paint once.
module VfOverhead {
  import opened Wrappers
  import opened ColrTraverse

  /** _overhead_color_line: eight bytes per colour stop (a stop offset and
      a colour index, four bytes each). */
  function OverheadColorLine(line: ColorLine): nat
  {
    8 * |line.colorStop|
  }

  /** _overhead_gradient: the colour line plus four bytes per field. */
  function OverheadGradient(line: ColorLine, numFields: nat): nat
  {
    OverheadColorLine(line) + 4 * numFields
  }

  /** _OVERHEAD[paint.Format](paint); a format missing from the table is a
      KeyError. */
  function Overhead(p: Paint): (r: Result<nat>)
    ensures r.Err? <==> p.PaintSweepGradient? || p.PaintOther?
    ensures r.Err? ==> r.error == KeyError
    ensures r.Ok? ==> r.value % 4 == 0
    ensures p.PaintLinearGradient? || p.PaintRadialGradient? ==> r == Ok(8 * |p.colorLine.colorStop| + 24)
  {
    match p
    case PaintColrLayers(_, _) => Ok(0)
    case PaintSolid(_) => Ok(4)
    case PaintLinearGradient(line) => Ok(OverheadGradient(line, 6))
    case PaintRadialGradient(line) => Ok(OverheadGradient(line, 6))
    case PaintGlyph(_, _) => Ok(0)
    case PaintColrGlyph(_) => Ok(0)
    case PaintTransform(_) => Ok(6 * 4)
    case PaintTranslate(_, _, _) => Ok(2 * 4)
    case PaintRotate(_, _) => Ok(3 * 4)
    case PaintSkew(_, _, _) => Ok(4 * 4)
    case PaintComposite(_, _, _) => Ok(0)
    case PaintSweepGradient(_) => Err(KeyError)
    case PaintOther(_) => Err(KeyError)
  }

  /** The cost of a paint the table knows, and nothing otherwise. */
  function Cost(p: Paint): nat
  {
    if Overhead(p).Ok? then Overhead(p).value else 0
  }

  function SumCost(ps: seq<Paint>): nat
    decreases |ps|
  {
    if |ps| == 0 then 0 else Cost(ps[0]) + SumCost(ps[1..])
  }

  /** The keys of some paints. */
  function KeySet<K>(key: Paint -> K, ps: seq<Paint>): set<K>
    decreases |ps|
  {
    if |ps| == 0 then {} else {key(ps[0])} + KeySet(key, ps[1..])
  }

  /** The paints that get charged, in order: those whose key (the
      LayerV1ListBuilder paint tuple) has not been seen before. */
  function Firsts<K>(key: Paint -> K, seen: set<K>, ps: seq<Paint>): seq<Paint>
    decreases |ps|
  {
    if |ps| == 0 then []
    else if key(ps[0]) in seen then Firsts(key, seen, ps[1..])
    else [ps[0]] + Firsts(key, seen + {key(ps[0])}, ps[1..])
  }

  /** The callback of _count_overhead applied to the paints of a walk in
      turn, starting from the set of seen keys and the running total. */
  function Charge<K>(key: Paint -> K, seen: set<K>, total: nat, ps: seq<Paint>): Result<(set<K>, nat)>
    decreases |ps|
  {
    if |ps| == 0 then Ok((seen, total))
    else if key(ps[0]) in seen then Charge(key, seen, total, ps[1..])
    else
      match Overhead(ps[0])
      case Err(e) => Err(e)
      case Ok(c) => Charge(key, seen + {key(ps[0])}, total + c, ps[1..])
  }

  /** The charged paints are paints of the walk whose keys were not seen
      before. */
  lemma {:induction false} FirstsFresh<K>(key: Paint -> K, seen: set<K>, ps: seq<Paint>)
    ensures forall x :: x in Firsts(key, seen, ps) ==> key(x) !in seen && x in ps
    decreases |ps|
  {
    if |ps| > 0 {
      var p, tail := ps[0], ps[1..];
      assert forall x :: x in tail ==> x in ps;
      if key(p) in seen {
        FirstsFresh(key, seen, tail);
      } else {
        FirstsFresh(key, seen + {key(p)}, tail);
        var f, g := Firsts(key, seen, ps), Firsts(key, seen + {key(p)}, tail);
        assert f == [p] + g;
      }
    }
  }

  /** No two charged paints share a key. */
  ghost predicate DistinctKeys<K>(key: Paint -> K, f: seq<Paint>)
  {
    forall i, j :: 0 <= i < j < |f| ==> key(f[i]) != key(f[j])
  }

  lemma {:induction false} FirstsDistinct<K>(key: Paint -> K, seen: set<K>, ps: seq<Paint>)
    ensures DistinctKeys(key, Firsts(key, seen, ps))
    decreases |ps|
  {
    if |ps| > 0 {
      var p, tail := ps[0], ps[1..];
      if key(p) in seen {
        FirstsDistinct(key, seen, tail);
      } else {
        FirstsDistinct(key, seen + {key(p)}, tail);
        FirstsFresh(key, seen + {key(p)}, tail);
        var f, g := Firsts(key, seen, ps), Firsts(key, seen + {key(p)}, tail);
        assert f == [p] + g;
        forall i, j | 0 <= i < j < |f| ensures key(f[i]) != key(f[j]) {
          assert f[j] == g[j - 1] && g[j - 1] in g;
          if i > 0 {
            assert f[i] == g[i - 1];
          }
        }
      }
    }
  }

  /** Every paint walked has a key that was seen before or is charged. */
  ghost predicate Covers<K>(key: Paint -> K, seen: set<K>, ps: seq<Paint>, f: seq<Paint>)
  {
    forall i :: 0 <= i < |ps| ==> key(ps[i]) in seen || exists j :: 0 <= j < |f| && key(f[j]) == key(ps[i])
  }

  lemma {:induction false} FirstsCover<K>(key: Paint -> K, seen: set<K>, ps: seq<Paint>)
    ensures Covers(key, seen, ps, Firsts(key, seen, ps))
    decreases |ps|
  {
    if |ps| > 0 {
      var p, tail := ps[0], ps[1..];
      var f := Firsts(key, seen, ps);
      if key(p) in seen {
        FirstsCover(key, seen, tail);
        forall i | 0 <= i < |ps| && key(ps[i]) !in seen
          ensures exists j :: 0 <= j < |f| && key(f[j]) == key(ps[i])
        {
          assert ps[i] == tail[i - 1];
        }
      } else {
        FirstsCover(key, seen + {key(p)}, tail);
        var g := Firsts(key, seen + {key(p)}, tail);
        assert f == [p] + g;
        forall i | 0 <= i < |ps| && key(ps[i]) !in seen
          ensures exists j :: 0 <= j < |f| && key(f[j]) == key(ps[i])
        {
          if key(ps[i]) == key(p) {
            assert key(f[0]) == key(ps[i]);
          } else {
            assert ps[i] == tail[i - 1];
            var j :| 0 <= j < |g| && key(g[j]) == key(tail[i - 1]);
            assert key(f[j + 1]) == key(ps[i]);
          }
        }
      }
    }
  }

  /** Charging succeeds exactly when every charged paint has a cost; it
      then adds the sum of their costs and marks every key as seen; it
      fails only with KeyError. */
  lemma {:induction false} ChargeFirsts<K>(key: Paint -> K, seen: set<K>, total: nat, ps: seq<Paint>)
    ensures var f := Firsts(key, seen, ps);
            Charge(key, seen, total, ps).Ok? <==> forall i :: 0 <= i < |f| ==> Overhead(f[i]).Ok?
    ensures Charge(key, seen, total, ps).Ok? ==>
              Charge(key, seen, total, ps).value == (seen + KeySet(key, ps), total + SumCost(Firsts(key, seen, ps)))
    ensures Charge(key, seen, total, ps).Err? ==> Charge(key, seen, total, ps).error == KeyError
    decreases |ps|
  {
    if |ps| > 0 {
      var p := ps[0];
      if key(p) in seen {
        ChargeFirsts(key, seen, total, ps[1..]);
        assert seen + KeySet(key, ps) == seen + KeySet(key, ps[1..]);
      } else if Overhead(p).Ok? {
        ChargeFirsts(key, seen + {key(p)}, total + Overhead(p).value, ps[1..]);
        var f := Firsts(key, seen, ps);
        var g := Firsts(key, seen + {key(p)}, ps[1..]);
        assert f == [p] + g;
        assert forall i :: 1 <= i < |f| ==> f[i] == g[i - 1];
        assert (seen + {key(p)}) + KeySet(key, ps[1..]) == seen + KeySet(key, ps);
        assert SumCost(f) == Overhead(p).value + SumCost(g) by {
          assert f[1..] == g;
        }
      } else {
        assert Firsts(key, seen, ps)[0] == p;
      }
    } else {
      assert seen + KeySet(key, ps) == seen;
    }
  }

  /** Walking one list of paints after another charges the first list's new
      paints, then the second's paints new after both. */
  lemma {:induction false} FirstsAppend<K>(key: Paint -> K, seen: set<K>, a: seq<Paint>, b: seq<Paint>)
    ensures Firsts(key, seen, a + b) == Firsts(key, seen, a) + Firsts(key, seen + KeySet(key, a), b)
    decreases |a|
  {
    if |a| > 0 {
      assert (a + b)[0] == a[0] && (a + b)[1..] == a[1..] + b;
      if key(a[0]) in seen {
        FirstsAppend(key, seen, a[1..], b);
        assert seen + KeySet(key, a) == seen + KeySet(key, a[1..]);
      } else {
        FirstsAppend(key, seen + {key(a[0])}, a[1..], b);
        assert (seen + {key(a[0])}) + KeySet(key, a[1..]) == seen + KeySet(key, a);
      }
    } else {
      assert a + b == b;
      assert seen + KeySet(key, a) == seen;
    }
  }

  lemma {:induction false} SumCostAppend(a: seq<Paint>, b: seq<Paint>)
    ensures SumCost(a + b) == SumCost(a) + SumCost(b)
    decreases |a|
  {
    if |a| > 0 {
      assert (a + b)[0] == a[0] && (a + b)[1..] == a[1..] + b;
      SumCostAppend(a[1..], b);
    } else {
      assert a + b == b;
    }
  }

  /** The loop of _count_overhead over the base glyphs from the given
      state: walk each glyph's paint, charging what the walk hands the
      callback; the first exception ends it. */
  function CountFrom<K>(colr: Colr, key: Paint -> K, fuel: nat, seen: set<K>, total: nat,
                        glyphs: seq<BaseGlyphRecord>): (r: Result<nat>)
    ensures r.Ok? ==> total <= r.value
    ensures r.Err? ==> r.error == KeyError || r.error == ValueError || r.error == OutOfFuel
    decreases |glyphs|
  {
    if |glyphs| == 0 then Ok(total)
    else
      var t := Visits(colr, [glyphs[0].paint], fuel);
      VisitsBounds(colr, [glyphs[0].paint], fuel);
      ChargeFirsts(key, seen, total, t.visited);
      match Charge(key, seen, total, t.visited)
      case Err(e) => Err(e)
      case Ok(state) =>
        if t.outcome.Fail? then Err(t.outcome.error)
        else CountFrom(colr, key, fuel, state.0, state.1, glyphs[1..])
  }

  /** Every paint the walks from the base glyphs hand the callback, in order. */
  function Reached(colr: Colr, fuel: nat, glyphs: seq<BaseGlyphRecord>): seq<Paint>
    decreases |glyphs|
  {
    if |glyphs| == 0 then []
    else Visits(colr, [glyphs[0].paint], fuel).visited + Reached(colr, fuel, glyphs[1..])
  }

  /** A successful count is the sum of the costs of the distinct paints
      reached, each charged the first time its key turns up. */
  lemma {:induction false} CountIsSum<K>(colr: Colr, key: Paint -> K, fuel: nat, seen: set<K>, total: nat,
                                         glyphs: seq<BaseGlyphRecord>)
    requires CountFrom(colr, key, fuel, seen, total, glyphs).Ok?
    ensures CountFrom(colr, key, fuel, seen, total, glyphs).value ==
            total + SumCost(Firsts(key, seen, Reached(colr, fuel, glyphs)))
    decreases |glyphs|
  {
    if |glyphs| > 0 {
      var v := Visits(colr, [glyphs[0].paint], fuel).visited;
      var rest := Reached(colr, fuel, glyphs[1..]);
      ChargeFirsts(key, seen, total, v);
      var seen', total' := seen + KeySet(key, v), total + SumCost(Firsts(key, seen, v));
      CountIsSum(colr, key, fuel, seen', total', glyphs[1..]);
      FirstsAppend(key, seen, v, rest);
      SumCostAppend(Firsts(key, seen, v), Firsts(key, seen', rest));
    }
  }

  /** The mutable state of _count_overhead: the set of seen paint keys and
      the running total, with the callback that updates them. */
  class OverheadCounter<K(==)> {
    const key: Paint -> K
    var visited: set<K>
    var total: nat

    constructor (key: Paint -> K)
      ensures this.key == key && visited == {} && total == 0
    {
      this.key := key;
      visited := {};
      total := 0;
    }

    /** _callback(paint): a paint with a new key is recorded and charged;
        one seen before costs nothing. */
    method Callback(paint: Paint) returns (outcome: Outcome)
      modifies this
      ensures key(paint) in old(visited) ==> outcome == Pass && visited == old(visited) && total == old(total)
      ensures key(paint) !in old(visited) ==> visited == old(visited) + {key(paint)}
      ensures key(paint) !in old(visited) && Overhead(paint).Ok? ==>
                outcome == Pass && total == old(total) + Overhead(paint).value
      ensures key(paint) !in old(visited) && Overhead(paint).Err? ==>
                outcome == Fail(Overhead(paint).error) && total == old(total)
    {
      outcome := Pass;
      var k := key(paint);
      if k !in visited {
        visited := visited + {k};
        var cost := Overhead(paint);
        if cost.Err? {
          outcome := Fail(cost.error);
          return;
        }
        total := total + cost.value;
      }
    }
  }

  /** Charging the paints from index j on is one callback and then the rest. */
  lemma ChargeStep<K>(key: Paint -> K, seen: set<K>, total: nat, ps: seq<Paint>, j: nat)
    requires j < |ps|
    ensures Charge(key, seen, total, ps[j..]) ==
            if key(ps[j]) in seen then Charge(key, seen, total, ps[j + 1..])
            else match Overhead(ps[j])
                 case Err(e) => Err(e)
                 case Ok(c) => Charge(key, seen + {key(ps[j])}, total + c, ps[j + 1..])
  {
    assert ps[j..][0] == ps[j] && ps[j..][1..] == ps[j + 1..];
  }

  /** Hand the paints of one walk to the callback in turn. */
  method ChargeAll<K>(counter: OverheadCounter<K>, ps: seq<Paint>) returns (outcome: Outcome)
    modifies counter
    ensures var r := Charge(counter.key, old(counter.visited), old(counter.total), ps);
            (r.Ok? <==> outcome == Pass) &&
            (r.Ok? ==> r.value == (counter.visited, counter.total)) &&
            (r.Err? ==> outcome == Fail(r.error))
  {
    ghost var spec := Charge(counter.key, counter.visited, counter.total, ps);
    outcome := Pass;
    for j := 0 to |ps|
      invariant spec == Charge(counter.key, counter.visited, counter.total, ps[j..])
    {
      ChargeStep(counter.key, counter.visited, counter.total, ps, j);
      var o := counter.Callback(ps[j]);
      if o.Fail? {
        outcome := o;
        return;
      }
    }
    assert ps[|ps|..] == [];
  }

  /** _count_overhead(colr) */
  method CountOverhead<K(==)>(colr: Colr, key: Paint -> K, fuel: nat) returns (r: Result<nat>)
    ensures r == CountFrom(colr, key, fuel, {}, 0, colr.baseGlyphs)
    ensures r.Ok? ==> r.value == SumCost(Firsts(key, {}, Reached(colr, fuel, colr.baseGlyphs)))
  {
    var counter := new OverheadCounter(key);
    var glyphs := colr.baseGlyphs;
    for i := 0 to |glyphs|
      invariant CountFrom(colr, key, fuel, {}, 0, glyphs) ==
                CountFrom(colr, key, fuel, counter.visited, counter.total, glyphs[i..])
    {
      assert glyphs[i..][0] == glyphs[i] && glyphs[i..][1..] == glyphs[i + 1..];
      var visited, outcome := Traverse(colr, glyphs[i].paint, fuel);
      var charged := ChargeAll(counter, visited);
      if charged.Fail? {
        return Err(charged.error);
      }
      if outcome.Fail? {
        return Err(outcome.error);
      }
    }
    assert glyphs[|glyphs|..] == [];
    r := Ok(counter.total);
    CountIsSum(colr, key, fuel, {}, 0, glyphs);
  }
}
