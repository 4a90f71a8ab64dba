// src/nanoemoji/svg_path.py: replaying an SVG path's commands onto a pen
// (draw_svg_path) and a pen that records what it is given as SVG path
// commands (SVGPathPen).
module SvgPath {
  import opened Wrappers
  import opened Seqs
  import opened Geometry

  /** One command of SVGPath.as_cmd_seq(): its letter and its numbers. */
  datatype PathCmd = PathCmd(cmd: char, args: seq<real>)

  /** The calls a segment pen receives. */
  datatype PenCall =
    | MoveTo(pt: Point)
    | LineTo(pt: Point)
    | CurveTo(pts: seq<Point>)
    | QCurveTo(pts: seq<Point>)
    | ClosePath
    | EndPath

  /** The itertools grouper recipe on an even-length sequence: consecutive
      (x, y) pairs. */
  function Pairs(args: seq<real>): (r: seq<Point>)
    requires |args| % 2 == 0
    ensures |r| == |args| / 2
    ensures |r| > 0 ==> r[0] == (args[0], args[1])
  {
    if |args| == 0 then [] else [(args[0], args[1])] + Pairs(args[2..])
  }

  /** The numbers of some points, in order. */
  function Coordinates(points: seq<Point>): (r: seq<real>)
    ensures |r| == 2 * |points|
  {
    if |points| == 0 then [] else [points[0].0, points[0].1] + Coordinates(points[1..])
  }

  /** Grouping into pairs and flattening again gives the numbers back. */
  lemma {:induction false} CoordinatesOfPairs(args: seq<real>)
    requires |args| % 2 == 0
    ensures Coordinates(Pairs(args)) == args
  {
    if |args| > 0 {
      CoordinatesOfPairs(args[2..]);
      assert Pairs(args)[1..] == Pairs(args[2..]);
      assert args == [args[0], args[1]] + args[2..];
    }
  }

  /** `getattr(pen, _SVG_CMD_TO_PEN_METHOD[cmd])(*points)`: the pen call
      for a command letter; KeyError for a letter outside M, L, C, Q, Z,
      and TypeError when the points do not fit the method's signature. */
  function PenCallFor(cmd: char, points: seq<Point>): (r: Result<PenCall>)
    ensures cmd !in {'M', 'L', 'C', 'Q', 'Z'} ==> r == Err(KeyError)
    ensures r.Ok? && cmd == 'M' ==> |points| == 1 && r.value == MoveTo(points[0])
    ensures r.Ok? && cmd == 'L' ==> |points| == 1 && r.value == LineTo(points[0])
    ensures cmd == 'C' ==> r == Ok(CurveTo(points))
    ensures cmd == 'Q' ==> r == Ok(QCurveTo(points))
    ensures r.Ok? && cmd == 'Z' ==> r.value == ClosePath && |points| == 0
    ensures r.Err? ==> r.error in {KeyError, TypeError}
  {
    if cmd == 'M' then
      if |points| == 1 then Ok(MoveTo(points[0])) else Err(TypeError)
    else if cmd == 'L' then
      if |points| == 1 then Ok(LineTo(points[0])) else Err(TypeError)
    else if cmd == 'C' then Ok(CurveTo(points))
    else if cmd == 'Q' then Ok(QCurveTo(points))
    else if cmd == 'Z' then
      if |points| == 0 then Ok(ClosePath) else Err(TypeError)
    else Err(KeyError)
  }

  /** The pen calls made so far and whether drawing went on or raised. */
  datatype Drawn = Drawn(calls: seq<PenCall>, outcome: Outcome)

  /** The `closed` flag after some commands: set by Z, cleared by M, and
      true before the first command. */
  function ClosedAfter(cmds: seq<PathCmd>): bool
  {
    if |cmds| == 0 then true
    else if cmds[|cmds| - 1].cmd == 'Z' then true
    else if cmds[|cmds| - 1].cmd == 'M' then false
    else ClosedAfter(cmds[..|cmds| - 1])
  }

  /** The points a pen receives: through a TransformPen when there is a
      transform. */
  function Place(transform: Option<Affine>, points: seq<Point>): (r: seq<Point>)
    ensures |r| == |points|
    ensures transform.None? ==> r == points
    ensures transform.Some? ==> forall k :: 0 <= k < |r| ==> r[k] == transform.value.Apply(points[k])
  {
    match transform
    case None => points
    case Some(t) => seq(|points|, k requires 0 <= k < |points| => t.Apply(points[k]))
  }

  /** One pass of the loop body with the flag `closed`: an open subpath is
      ended before a new M, the arguments must pair up, then the pen
      method is called. */
  function Step(closed: bool, c: PathCmd, transform: Option<Affine>): Drawn
  {
    var before := if c.cmd == 'M' && !closed then [EndPath] else [];
    if |c.args| % 2 != 0 then Drawn(before, Fail(AssertionError))
    else
      match PenCallFor(c.cmd, Place(transform, Pairs(c.args)))
      case Ok(call) => Drawn(before + [call], Pass)
      case Err(e) => Drawn(before, Fail(e))
  }

  /** The calls of the loop over some commands, stopping at the first
      exception. */
  function Body(cmds: seq<PathCmd>, transform: Option<Affine>): Drawn
  {
    if |cmds| == 0 then Drawn([], Pass)
    else
      var front := Body(cmds[..|cmds| - 1], transform);
      if front.outcome.Fail? then front
      else
        var step := Step(ClosedAfter(cmds[..|cmds| - 1]), cmds[|cmds| - 1], transform);
        Drawn(front.calls + step.calls, step.outcome)
  }

  /** What draw_svg_path does to a pen: the loop, then an endPath for a
      subpath left open. */
  function Draw(cmds: seq<PathCmd>, transform: Option<Affine>): Drawn
  {
    var body := Body(cmds, transform);
    if body.outcome.Fail? then body
    else Drawn(body.calls + (if ClosedAfter(cmds) then [] else [EndPath]), Pass)
  }

  /** draw_svg_path(path, pen, transform), the pen recording its calls. */
  method DrawSvgPath(cmds: seq<PathCmd>, transform: Option<Affine>) returns (calls: seq<PenCall>, outcome: Outcome)
    ensures Drawn(calls, outcome) == Draw(cmds, transform)
  {
    var closed := true;
    calls := [];
    var i := 0;
    while i < |cmds|
      invariant 0 <= i <= |cmds|
      invariant Body(cmds[..i], transform) == Drawn(calls, Pass)
      invariant closed == ClosedAfter(cmds[..i])
    {
      BodySnoc(cmds, transform, i);
      var stepCalls, stepOutcome;
      stepCalls, stepOutcome, closed := DrawCommand(closed, cmds[i], transform);
      calls := calls + stepCalls;
      if stepOutcome.Fail? {
        BodyStops(cmds, transform, i + 1);
        return calls, stepOutcome;
      }
      i := i + 1;
    }
    assert cmds[..i] == cmds;
    if !closed {
      calls := calls + [EndPath];
    }
    outcome := Pass;
  }

  /** The body of the loop of draw_svg_path for one command: the calls it
      makes, whether it raised, and the new value of `closed`. */
  method DrawCommand(closed: bool, c: PathCmd, transform: Option<Affine>)
    returns (calls: seq<PenCall>, outcome: Outcome, closedAfter: bool)
    ensures Drawn(calls, outcome) == Step(closed, c, transform)
    ensures outcome == Pass ==> closedAfter == if c.cmd == 'Z' then true else if c.cmd == 'M' then false else closed
  {
    calls := [];
    closedAfter := closed;
    if c.cmd == 'M' {
      if !closedAfter {
        calls := calls + [EndPath];
      }
      closedAfter := false;
    }
    if |c.args| % 2 != 0 {
      return calls, Fail(AssertionError), closedAfter;
    }
    var call := PenCallFor(c.cmd, Place(transform, Pairs(c.args)));
    if call.Err? {
      return calls, Fail(call.error), closedAfter;
    }
    calls := calls + [call.value];
    if c.cmd == 'Z' {
      closedAfter := true;
    }
    outcome := Pass;
  }

  /** One more command: its step after the calls so far, and the flag it
      leaves. */
  lemma BodySnoc(cmds: seq<PathCmd>, transform: Option<Affine>, i: nat)
    requires i < |cmds| && Body(cmds[..i], transform).outcome == Pass
    ensures var step := Step(ClosedAfter(cmds[..i]), cmds[i], transform);
            Body(cmds[..i + 1], transform) == Drawn(Body(cmds[..i], transform).calls + step.calls, step.outcome)
    ensures ClosedAfter(cmds[..i + 1]) ==
              if cmds[i].cmd == 'Z' then true else if cmds[i].cmd == 'M' then false else ClosedAfter(cmds[..i])
  {
    assert cmds[..i + 1][..i] == cmds[..i] && cmds[..i + 1][i] == cmds[i];
  }

  /** Once a prefix raises, the rest of the commands are not drawn. */
  lemma {:induction false} BodyStops(cmds: seq<PathCmd>, transform: Option<Affine>, k: nat)
    requires k <= |cmds| && Body(cmds[..k], transform).outcome.Fail?
    ensures Body(cmds, transform) == Body(cmds[..k], transform)
    decreases |cmds| - k
  {
    if k < |cmds| {
      assert cmds[..k + 1][..k] == cmds[..k];
      BodyStops(cmds, transform, k + 1);
    } else {
      assert cmds[..k] == cmds;
    }
  }

  /** The flag is clear exactly when some M has no Z after it: a subpath
      is open. */
  lemma {:induction false} ClosedAfterOpen(cmds: seq<PathCmd>)
    ensures !ClosedAfter(cmds) <==>
              exists i :: 0 <= i < |cmds| && cmds[i].cmd == 'M' && forall j :: i < j < |cmds| ==> cmds[j].cmd != 'Z'
  {
    if |cmds| > 0 {
      var front := cmds[..|cmds| - 1];
      var last := cmds[|cmds| - 1];
      ClosedAfterOpen(front);
      if last.cmd == 'M' {
        assert cmds[|cmds| - 1].cmd == 'M';
      } else if last.cmd != 'Z' {
        if !ClosedAfter(front) {
          var i :| 0 <= i < |front| && front[i].cmd == 'M' && forall j :: i < j < |front| ==> front[j].cmd != 'Z';
          assert cmds[i].cmd == 'M' && forall j :: i < j < |cmds| ==> cmds[j].cmd != 'Z';
        }
        if exists i :: 0 <= i < |cmds| && cmds[i].cmd == 'M' && forall j :: i < j < |cmds| ==> cmds[j].cmd != 'Z' {
          var i :| 0 <= i < |cmds| && cmds[i].cmd == 'M' && forall j :: i < j < |cmds| ==> cmds[j].cmd != 'Z';
          assert i < |front| && front[i].cmd == 'M' && forall j :: i < j < |front| ==> front[j].cmd != 'Z';
        }
      } else {
        assert forall i :: 0 <= i < |cmds| && cmds[i].cmd == 'M' ==> i < |cmds| - 1;
      }
    }
  }

  /** The loop body never makes endPath its last call. */
  lemma {:induction false} BodyLastNotEnd(cmds: seq<PathCmd>, transform: Option<Affine>)
    requires Body(cmds, transform).outcome == Pass
    ensures var calls := Body(cmds, transform).calls;
            |calls| > 0 ==> calls[|calls| - 1] != EndPath
    ensures !ClosedAfter(cmds) ==> |Body(cmds, transform).calls| > 0
  {
    if |cmds| > 0 {
      BodyLastNotEnd(cmds[..|cmds| - 1], transform);
    }
  }

  /** A drawing that goes through ends with exactly one endPath when its
      last subpath is open, and with none otherwise; an M after an open
      subpath is preceded by an endPath. */
  lemma TrailingEndPath(cmds: seq<PathCmd>, transform: Option<Affine>)
    requires Draw(cmds, transform).outcome == Pass
    ensures var calls := Draw(cmds, transform).calls;
            !ClosedAfter(cmds) ==> |calls| >= 2 && calls[|calls| - 1] == EndPath && calls[|calls| - 2] != EndPath
    ensures var calls := Draw(cmds, transform).calls;
            ClosedAfter(cmds) ==> |calls| == 0 || calls[|calls| - 1] != EndPath
  {
    BodyLastNotEnd(cmds, transform);
  }

  /** Drawing one more command adds an endPath in front of an M exactly when
      the previous subpath is still open. */
  lemma EndPathBeforeMove(cmds: seq<PathCmd>, c: PathCmd)
    requires Body(cmds, None).outcome == Pass && c.cmd == 'M' && |c.args| == 2
    ensures Body(cmds + [c], None) ==
              Drawn(Body(cmds, None).calls + (if ClosedAfter(cmds) then [] else [EndPath]) + [MoveTo((c.args[0], c.args[1]))], Pass)
  {
    assert (cmds + [c])[..|cmds|] == cmds;
  }

  /** Drawing through the identity transform is drawing without one. */
  lemma {:induction false} IdentityTransform(cmds: seq<PathCmd>)
    ensures Body(cmds, Some(Identity)) == Body(cmds, None)
    ensures Draw(cmds, Some(Identity)) == Draw(cmds, None)
  {
    forall points: seq<Point> ensures Place(Some(Identity), points) == points {
      forall k | 0 <= k < |points| ensures Place(Some(Identity), points)[k] == points[k] {
        IdentityFixes(points[k]);
      }
    }
    if |cmds| > 0 {
      IdentityTransform(cmds[..|cmds| - 1]);
    }
  }

  // ---------------------------------------------------------------------
  // SVGPathPen

  /** The midpoint of two points. */
  function Mid(p: Point, q: Point): Point
  {
    ((p.0 + q.0) / 2.0, (p.1 + q.1) / 2.0)
  }

  /** A TrueType quadratic spline as quadratic segments: each off-curve
      point is a control point, and between two consecutive ones the
      implied on-curve point is their midpoint. */
  function QuadSegments(points: seq<Point>): (r: seq<(Point, Point)>)
    requires |points| >= 2
    ensures |r| == |points| - 1
    ensures forall i :: 0 <= i < |r| ==> r[i].0 == points[i]
    ensures r[|r| - 1].1 == points[|points| - 1]
  {
    seq(|points| - 1, i requires 0 <= i < |points| - 1 =>
      (points[i], if i < |points| - 2 then Mid(points[i], points[i + 1]) else points[|points| - 1]))
  }

  /** Four off-curve points and an on-curve end give four segments, each
      ending halfway to the next control point except the last. */
  lemma QuadSegmentsExample()
    ensures QuadSegments([(0.0, -8.0), (3.0, -10.0), (7.0, -10.0), (10.0, -8.0), (10.0, -5.0)]) ==
              [((0.0, -8.0), (1.5, -9.0)), ((3.0, -10.0), (5.0, -10.0)),
               ((7.0, -10.0), (8.5, -9.0)), ((10.0, -8.0), (10.0, -5.0))]
  {
  }

  /** The Q commands of a quadratic spline. */
  function QuadCmds(points: seq<Point>): (r: seq<PathCmd>)
    requires |points| >= 2
    ensures |r| == |points| - 1
  {
    var segs := QuadSegments(points);
    seq(|segs|, i requires 0 <= i < |segs| => PathCmd('Q', [segs[i].0.0, segs[i].0.1, segs[i].1.0, segs[i].1.1]))
  }

  /** What SVGPathPen appends to its path for one call. */
  function Recorded(call: PenCall): seq<PathCmd>
  {
    match call
    case MoveTo(pt) => [PathCmd('M', [pt.0, pt.1])]
    case LineTo(pt) => [PathCmd('L', [pt.0, pt.1])]
    case CurveTo(pts) => [PathCmd('C', Coordinates(pts))]
    case QCurveTo(pts) => if |pts| >= 2 then QuadCmds(pts) else []
    case ClosePath => [PathCmd('Z', [])]
    case EndPath => []
  }

  /** What SVGPathPen appends for a sequence of calls. */
  function RecordedAll(calls: seq<PenCall>): seq<PathCmd>
  {
    if |calls| == 0 then [] else RecordedAll(calls[..|calls| - 1]) + Recorded(calls[|calls| - 1])
  }

  lemma {:induction false} RecordedAllAppend(a: seq<PenCall>, b: seq<PenCall>)
    ensures RecordedAll(a + b) == RecordedAll(a) + RecordedAll(b)
    decreases |b|
  {
    if |b| == 0 {
      assert a + b == a;
    } else {
      var b', last := b[..|b| - 1], b[|b| - 1];
      assert (a + b)[..|a + b| - 1] == a + b' && (a + b)[|a + b| - 1] == last;
      assert RecordedAll(a + b) == RecordedAll(a + b') + Recorded(last);
      assert RecordedAll(b) == RecordedAll(b') + Recorded(last);
      RecordedAllAppend(a, b');
      AppendAssociative(RecordedAll(a), RecordedAll(b'), Recorded(last));
    }
  }

  /** The commands draw_svg_path replays unchanged onto an SVGPathPen: M and
      L with one point, C with whole points, Q with one control point and
      its end, Z with nothing. */
  predicate Replayable(c: PathCmd)
  {
    || (c.cmd in {'M', 'L'} && |c.args| == 2)
    || (c.cmd == 'C' && |c.args| % 2 == 0)
    || (c.cmd == 'Q' && |c.args| == 4)
    || (c.cmd == 'Z' && |c.args| == 0)
  }

  /** A replayable command becomes one pen call that records it back. */
  lemma CallReplays(c: PathCmd)
    requires Replayable(c)
    ensures PenCallFor(c.cmd, Place(None, Pairs(c.args))).Ok?
    ensures Recorded(PenCallFor(c.cmd, Place(None, Pairs(c.args))).value) == [c]
  {
    var pts := Pairs(c.args);
    if c.cmd == 'C' {
      CoordinatesOfPairs(c.args);
    } else if c.cmd == 'Q' {
      assert pts[1..] == Pairs(c.args[2..]);
      assert QuadCmds(pts)[0] == PathCmd('Q', [c.args[0], c.args[1], c.args[2], c.args[3]]);
      assert [c.args[0], c.args[1], c.args[2], c.args[3]] == c.args;
    } else if c.cmd == 'M' || c.cmd == 'L' {
      assert [c.args[0], c.args[1]] == c.args;
    }
  }

  lemma StepReplays(closed: bool, c: PathCmd)
    requires Replayable(c)
    ensures Step(closed, c, None).outcome == Pass && RecordedAll(Step(closed, c, None).calls) == [c]
  {
    var before: seq<PenCall> := if c.cmd == 'M' && !closed then [EndPath] else [];
    CallReplays(c);
    var call := PenCallFor(c.cmd, Place(None, Pairs(c.args))).value;
    assert Step(closed, c, None) == Drawn(before + [call], Pass);
    assert (before + [call])[..|before|] == before;
    assert RecordedAll(before) == [] by {
      if before != [] {
        assert before[..0] == [];
      }
    }
  }

  lemma {:induction false} BodyReplays(cmds: seq<PathCmd>)
    requires forall i :: 0 <= i < |cmds| ==> Replayable(cmds[i])
    ensures Body(cmds, None).outcome == Pass && RecordedAll(Body(cmds, None).calls) == cmds
  {
    if |cmds| > 0 {
      var front, last := cmds[..|cmds| - 1], cmds[|cmds| - 1];
      assert front + [last] == cmds;
      assert forall i :: 0 <= i < |front| ==> front[i] == cmds[i];
      BodyReplays(front);
      var step := Step(ClosedAfter(front), last, None);
      StepReplays(ClosedAfter(front), last);
      assert Body(cmds, None) == Drawn(Body(front, None).calls + step.calls, Pass);
      RecordedAllAppend(Body(front, None).calls, step.calls);
    }
  }

  /** Drawing a path onto an SVGPathPen gives the path back: the round trip
      of draw_svg_path and SVGPathPen. */
  lemma RoundTrip(cmds: seq<PathCmd>)
    requires forall i :: 0 <= i < |cmds| ==> Replayable(cmds[i])
    ensures Draw(cmds, None).outcome == Pass && RecordedAll(Draw(cmds, None).calls) == cmds
  {
    BodyReplays(cmds);
    var body := Body(cmds, None);
    var extra: seq<PenCall> := if ClosedAfter(cmds) then [] else [EndPath];
    assert Draw(cmds, None) == Drawn(body.calls + extra, Pass);
    RecordedAllAppend(body.calls, extra);
    assert RecordedAll(extra) == [] by {
      if extra != [] {
        assert extra[..0] == [];
        assert RecordedAll(extra) == RecordedAll([]) + Recorded(EndPath);
      }
    }
    assert RecordedAll(body.calls + extra) == cmds;
  }

  /** SVGPathPen: a pen that appends what it is given to an SVG path. */
  class SvgPathPen {
    var path: seq<PathCmd>

    /** SVGPathPen(path=path): extend an existing path, or a new empty one. */
    constructor (path: Option<seq<PathCmd>>)
      ensures this.path == if path.Some? then path.value else []
    {
      this.path := if path.Some? then path.value else [];
    }

    method MoveTo(pt: Point)
      modifies this
      ensures path == old(path) + Recorded(PenCall.MoveTo(pt))
    {
      path := path + [PathCmd('M', [pt.0, pt.1])];
    }

    method LineTo(pt: Point)
      modifies this
      ensures path == old(path) + Recorded(PenCall.LineTo(pt))
    {
      path := path + [PathCmd('L', [pt.0, pt.1])];
    }

    /** curveTo(*points): one C command with the points flattened. */
    method CurveTo(points: seq<Point>)
      modifies this
      ensures path == old(path) + Recorded(PenCall.CurveTo(points))
    {
      path := path + [PathCmd('C', Coordinates(points))];
    }

    /** qCurveTo(*points): one Q command per quadratic segment of the
        spline; a spline needs a control point and an end. */
    method QCurveTo(points: seq<Point>) returns (r: Outcome)
      modifies this
      ensures r.Pass? <==> |points| >= 2
      ensures r.Fail? ==> r.error == AssertionError
      ensures path == old(path) + Recorded(PenCall.QCurveTo(points))
    {
      if |points| < 2 {
        return Fail(AssertionError);
      }
      var segments := QuadSegments(points);
      var i := 0;
      while i < |segments|
        invariant 0 <= i <= |segments|
        invariant path == old(path) + QuadCmds(points)[..i]
      {
        var (control, end) := segments[i];
        path := path + [PathCmd('Q', [control.0, control.1, end.0, end.1])];
        assert QuadCmds(points)[..i + 1] == QuadCmds(points)[..i] + [QuadCmds(points)[i]];
        i := i + 1;
      }
      assert QuadCmds(points)[..i] == QuadCmds(points);
      return Pass;
    }

    /** closePath(): path.end(), a Z command. */
    method ClosePath()
      modifies this
      ensures path == old(path) + Recorded(PenCall.ClosePath)
    {
      path := path + [PathCmd('Z', [])];
    }

    /** endPath(): nothing to record. */
    method EndPath()
      ensures path == old(path) + Recorded(PenCall.EndPath)
    {
    }
  }
}
