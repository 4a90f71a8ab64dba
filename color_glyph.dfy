// The colour glyph of src/nanoemoji/color_glyph.py: the gradient parts
// every gradient shares, the painted layers a picosvg is cut into (with
// shape reuse inside one glyph) and `ColorGlyph.create`, which adds the
// base glyph to the UFO.
module ColorGlyphs {
  import opened Wrappers
  import opened Seqs
  import opened Text
  import opened Geometry
  import opened GlyphNames
  import opened GlyphReuse
  import opened Ufo
  import Config

  // ---------------------------------------------------------------------
  // Gradient parts

  /** paint.Extend */
  datatype Extend = Pad | Repeat | Reflect

  /** The name of each Extend member. */
  function ExtendName(e: Extend): string
  {
    match e
    case Pad => "PAD"
    case Repeat => "REPEAT"
    case Reflect => "REFLECT"
  }

  /** Extend.__members__[name], when there is such a member. */
  function ExtendNamed(name: string): (r: Option<Extend>)
    ensures r.Some? ==> ExtendName(r.value) == name
    ensures r.None? ==> forall e :: ExtendName(e) != name
  {
    if name == "PAD" then Some(Pad)
    else if name == "REPEAT" then Some(Repeat)
    else if name == "REFLECT" then Some(Reflect)
    else None
  }

  /** el.attrib.get(key, default) */
  function Get(attrib: map<string, string>, key: string, default: string): string
  {
    if key in attrib then attrib[key] else default
  }

  /** The spreadMethod attribute, "pad" when absent, upper-cased; a value
      that names no Extend member raises ValueError. */
  function SpreadMethod(attrib: map<string, string>): (r: Result<Extend>)
    ensures r.Ok? <==> exists e :: ExtendName(e) == Upper(Get(attrib, "spreadMethod", "pad"))
    ensures r.Ok? ==> ExtendName(r.value) == Upper(Get(attrib, "spreadMethod", "pad"))
    ensures r.Err? ==> r.error == ValueError
  {
    var name := Upper(Get(attrib, "spreadMethod", "pad"));
    match ExtendNamed(name)
    case Some(e) => Ok(e)
    case None => assert forall e :: ExtendName(e) != name; Err(ValueError)
  }

  /** Without a spreadMethod attribute a gradient pads. */
  lemma SpreadMethodDefault(attrib: map<string, string>)
    requires "spreadMethod" !in attrib
    ensures SpreadMethod(attrib) == Ok(Pad)
  {
    var p := "pad";
    assert Upper(p) == [Upper(p)[0]] + Upper(p[1..]);
    assert Upper(p[1..]) == [Upper(p[1..])[0]] + Upper(p[2..]);
    assert Upper(p) == "PAD";
  }

  /** The stops and the extend mode of a gradient element. */
  datatype GradientParts<C> = GradientParts(extend: Extend, stops: seq<C>)

  /** _common_gradient_parts(el, shape_opacity): the extend mode, then one
      stop per child element, in order; `colorStop` stands for
      _color_stop, whose colour and number parsing may raise. */
  function CommonGradientParts<C>(attrib: map<string, string>, children: seq<map<string, string>>,
                                  shapeOpacity: real, colorStop: (map<string, string>, real) -> Result<C>)
    : (r: Result<GradientParts<C>>)
    ensures SpreadMethod(attrib).Err? ==> r == Err(ValueError)
    ensures r.Ok? <==> SpreadMethod(attrib).Ok? && forall k :: 0 <= k < |children| ==> colorStop(children[k], shapeOpacity).Ok?
    ensures r.Ok? ==> r.value.extend == SpreadMethod(attrib).value && |r.value.stops| == |children| &&
                      forall k :: 0 <= k < |children| ==> r.value.stops[k] == colorStop(children[k], shapeOpacity).value
  {
    var extend :- SpreadMethod(attrib);
    var rs := seq(|children|, k requires 0 <= k < |children| => colorStop(children[k], shapeOpacity));
    CollectOk(rs);
    assert forall k :: 0 <= k < |children| ==> rs[k] == colorStop(children[k], shapeOpacity);
    var stops :- Collect(rs);
    Ok(GradientParts(extend, stops))
  }

  // ---------------------------------------------------------------------
  // Painted layers

  /** A picosvg shape as far as layering looks at it: its path data and
      what decides its paint. */
  datatype Shape = Shape(d: string, fill: string, opacity: real)

  /** PaintedLayer(paint, path, reuses): a layer drawing `path`, and once
      more under each transform in `reuses`. */
  datatype PaintedLayer<P> = PaintedLayer(paint: P, path: string, reuses: seq<Affine>)
  {
    /** The cache key, which leaves the paint out. */
    function ShapeCacheKey(): (string, seq<Affine>)
    {
      (path, reuses)
    }
  }

  /** Two layers share a cache key exactly when they draw the same path
      with the same reuses, whatever their paints. */
  lemma ShapeCacheKeyIgnoresPaint<P>(a: PaintedLayer<P>, b: PaintedLayer<P>)
    ensures a.ShapeCacheKey() == b.ShapeCacheKey() <==> a.path == b.path && a.reuses == b.reuses
  {
  }

  /** What layering calls out to: `_paint` for a shape (gradient and colour
      parsing may raise) and picosvg's normalize and affine_between. */
  datatype Env<P> = Env(paintOf: Shape -> Result<P>, ops: Ops)

  /** _in_glyph_reuse_key: the shape's paint and its normalized path. */
  function Key<P>(env: Env<P>, tolerance: real, s: Shape): (r: Result<(P, string)>)
    ensures r.Ok? <==> env.paintOf(s).Ok?
    ensures r.Err? ==> r.error == env.paintOf(s).error
  {
    var p :- env.paintOf(s);
    Ok((p, env.ops.normalize(s.d, tolerance)))
  }

  /** Where the run of shapes keyed `cur` that goes on at j ends, as
      `groupby` finds it: at the first shape with another key, or at the
      end; computing a key may raise first. */
  function GroupEnd<P(==)>(shapes: seq<Shape>, j: nat, cur: (P, string), tolerance: real, env: Env<P>)
    : (r: Result<nat>)
    requires j <= |shapes|
    ensures r.Ok? ==> j <= r.value <= |shapes|
    ensures r.Ok? ==> forall k :: j <= k < r.value ==> Key(env, tolerance, shapes[k]) == Ok(cur)
    ensures r.Ok? && r.value < |shapes| ==>
              Key(env, tolerance, shapes[r.value]).Ok? && Key(env, tolerance, shapes[r.value]).value != cur
    ensures r.Err? ==> exists k :: j <= k < |shapes| && Key(env, tolerance, shapes[k]) == Err(r.error)
    decreases |shapes| - j
  {
    if j == |shapes| then Ok(j)
    else
      var k :- Key(env, tolerance, shapes[j]);
      if k != cur then Ok(j) else GroupEnd(shapes, j + 1, cur, tolerance, env)
  }

  /** affine_between from the first path of a group to each later one. */
  function Transforms(paths: seq<Shape>, tolerance: real, ops: Ops): (r: seq<Option<Affine>>)
    requires |paths| > 0
    ensures |r| == |paths| - 1
    ensures forall m :: 0 <= m < |r| ==> r[m] == ops.affineBetween(paths[0].d, paths[m + 1].d, tolerance)
  {
    seq(|paths| - 1, m requires 0 <= m < |paths| - 1 => ops.affineBetween(paths[0].d, paths[m + 1].d, tolerance))
  }

  predicate AllFound(ts: seq<Option<Affine>>)
  {
    forall m :: 0 <= m < |ts| ==> ts[m].Some?
  }

  function Found(ts: seq<Option<Affine>>): (r: seq<Affine>)
    requires AllFound(ts)
    ensures |r| == |ts| && forall m :: 0 <= m < |ts| ==> r[m] == ts[m].value
  {
    seq(|ts|, m requires 0 <= m < |ts| && AllFound(ts) => ts[m].value)
  }

  /** Each path of a group as a layer of its own, without reuses. */
  function Singles<P>(paint: P, paths: seq<Shape>): (r: seq<PaintedLayer<P>>)
    ensures |r| == |paths| && forall k :: 0 <= k < |paths| ==> r[k] == PaintedLayer(paint, paths[k].d, [])
  {
    seq(|paths|, k requires 0 <= k < |paths| => PaintedLayer(paint, paths[k].d, []))
  }

  /** The layers of one group: a single layer reusing the first path for
      all the others when every transform is found; otherwise a layer per
      path, or ValueError when reuse errors are not to be ignored. */
  function GroupLayers<P>(paint: P, paths: seq<Shape>, tolerance: real, ignoreReuseError: bool, ops: Ops)
    : (r: Result<seq<PaintedLayer<P>>>)
    requires |paths| > 0
  {
    var ts := Transforms(paths, tolerance, ops);
    if AllFound(ts) then Ok([PaintedLayer(paint, paths[0].d, Found(ts))])
    else if ignoreReuseError then Ok(Singles(paint, paths))
    else Err(ValueError)
  }

  /** `layers` in front of what r holds, or r's error. */
  function Prepend<T>(layers: seq<T>, r: Result<seq<T>>): Result<seq<T>>
  {
    if r.Ok? then Ok(layers + r.value) else r
  }

  /** The layers for the groups from `start` on, where the shape at
      `start` has key `cur`. */
  function LayersFrom<P(==)>(shapes: seq<Shape>, start: nat, cur: (P, string), tolerance: real,
                             ignoreReuseError: bool, env: Env<P>): Result<seq<PaintedLayer<P>>>
    requires start < |shapes|
    decreases |shapes| - start
  {
    var end :- GroupEnd(shapes, start + 1, cur, tolerance, env);
    var group :- GroupLayers(cur.0, shapes[start..end], tolerance, ignoreReuseError, env.ops);
    if end == |shapes| then Ok(group)
    else Prepend(group, LayersFrom(shapes, end, Key(env, tolerance, shapes[end]).value, tolerance, ignoreReuseError, env))
  }

  /** The layer of a shape when reuse is off. */
  function Plain<P>(env: Env<P>, s: Shape): Result<PaintedLayer<P>>
  {
    var p :- env.paintOf(s);
    Ok(PaintedLayer(p, s.d, []))
  }

  function PlainLayers<P>(shapes: seq<Shape>, env: Env<P>): (r: seq<Result<PaintedLayer<P>>>)
    ensures |r| == |shapes| && forall k :: 0 <= k < |shapes| ==> r[k] == Plain(env, shapes[k])
  {
    seq(|shapes|, k requires 0 <= k < |shapes| => Plain(env, shapes[k]))
  }

  /** tuple(_painted_layers(...)): with a negative tolerance one layer per
      shape; otherwise the layers of each run of consecutive shapes with
      the same key, in shape order. */
  function Layers<P(==)>(shapes: seq<Shape>, tolerance: real, ignoreReuseError: bool, env: Env<P>)
    : Result<seq<PaintedLayer<P>>>
  {
    if tolerance < 0.0 then Collect(PlainLayers(shapes, env))
    else if |shapes| == 0 then Ok([])
    else
      var k0 :- Key(env, tolerance, shapes[0]);
      LayersFrom(shapes, 0, k0, tolerance, ignoreReuseError, env)
  }

  /** _painted_layers, consumed: the `groupby` loop over the shapes with its
      `success` flag, stopping at the first exception. */
  method PaintedLayers<P(==)>(shapes: seq<Shape>, tolerance: real, ignoreReuseError: bool, env: Env<P>)
    returns (r: Result<seq<PaintedLayer<P>>>)
    ensures r == Layers(shapes, tolerance, ignoreReuseError, env)
  {
    if tolerance < 0.0 {
      r := PlainPaintedLayers(shapes, env);
      return;
    }
    if |shapes| == 0 {
      return Ok([]);
    }
    var first := Key(env, tolerance, shapes[0]);
    if first.Err? {
      return Err(first.error);
    }
    var cur := first.value;
    var start := 0;
    var layers := [];
    assert Layers(shapes, tolerance, ignoreReuseError, env) == LayersFrom(shapes, 0, cur, tolerance, ignoreReuseError, env);
    var whole := LayersFrom(shapes, 0, cur, tolerance, ignoreReuseError, env);
    if whole.Ok? {
      assert layers + whole.value == whole.value;
    }
    while true
      invariant start < |shapes| && Key(env, tolerance, shapes[start]) == Ok(cur)
      invariant Layers(shapes, tolerance, ignoreReuseError, env) ==
                Prepend(layers, LayersFrom(shapes, start, cur, tolerance, ignoreReuseError, env))
      decreases |shapes| - start
    {
      var end := RunEnd(shapes, start + 1, cur, tolerance, env);
      if end.Err? {
        return Err(end.error);
      }
      var j := end.value;
      var group := GroupOf(cur.0, shapes[start..j], tolerance, ignoreReuseError, env.ops);
      if group.Err? {
        return Err(group.error);
      }
      PrependTwice(layers, group.value, if j == |shapes| then Ok([]) else
        LayersFrom(shapes, j, Key(env, tolerance, shapes[j]).value, tolerance, ignoreReuseError, env));
      layers := layers + group.value;
      if j == |shapes| {
        return Ok(layers);
      }
      start, cur := j, Key(env, tolerance, shapes[j]).value;
    }
  }

  lemma PrependTwice<T>(a: seq<T>, b: seq<T>, r: Result<seq<T>>)
    ensures Prepend(a, Prepend(b, r)) == Prepend(a + b, r)
  {
    if r.Ok? {
      assert a + (b + r.value) == (a + b) + r.value;
    }
  }

  /** The loop of _painted_layers when reuse is off. */
  method PlainPaintedLayers<P>(shapes: seq<Shape>, env: Env<P>) returns (r: Result<seq<PaintedLayer<P>>>)
    ensures r == Collect(PlainLayers(shapes, env))
  {
    ghost var all := PlainLayers(shapes, env);
    var layers := [];
    for i := 0 to |shapes|
      invariant Collect(all[..i]) == Ok(layers)
    {
      assert all[..i + 1][..i] == all[..i];
      var paint := env.paintOf(shapes[i]);
      if paint.Err? {
        CollectStopsAtError(all, i + 1);
        return Err(paint.error);
      }
      layers := layers + [PaintedLayer(paint.value, shapes[i].d, [])];
    }
    assert all[..|shapes|] == all;
    r := Ok(layers);
  }

  /** How far `groupby` takes the current group: it computes keys until
      one differs. */
  method RunEnd<P(==)>(shapes: seq<Shape>, from: nat, cur: (P, string), tolerance: real, env: Env<P>)
    returns (r: Result<nat>)
    requires from <= |shapes|
    ensures r == GroupEnd(shapes, from, cur, tolerance, env)
  {
    var j := from;
    while j < |shapes|
      invariant from <= j <= |shapes|
      invariant GroupEnd(shapes, from, cur, tolerance, env) == GroupEnd(shapes, j, cur, tolerance, env)
      decreases |shapes| - j
    {
      var k := Key(env, tolerance, shapes[j]);
      if k.Err? {
        return Err(k.error);
      }
      if k.value != cur {
        return Ok(j);
      }
      j := j + 1;
    }
    r := Ok(j);
  }

  /** One group of the loop: the transforms, the `success` flag set by the
      first one missing, and the layers yielded. */
  method GroupOf<P>(paint: P, paths: seq<Shape>, tolerance: real, ignoreReuseError: bool, ops: Ops)
    returns (r: Result<seq<PaintedLayer<P>>>)
    requires |paths| > 0
    ensures r == GroupLayers(paint, paths, tolerance, ignoreReuseError, ops)
  {
    var transforms := Transforms(paths, tolerance, ops);
    var success := true;
    for m := 0 to |transforms|
      invariant success <==> forall n :: 0 <= n < m ==> transforms[n].Some?
      invariant !success ==> ignoreReuseError
    {
      if transforms[m].None? {
        success := false;
        if !ignoreReuseError {
          assert !AllFound(transforms);
          return Err(ValueError);
        }
      }
    }
    if success {
      assert AllFound(transforms);
      r := Ok([PaintedLayer(paint, paths[0].d, Found(transforms))]);
    } else {
      assert !AllFound(transforms);
      r := Ok(Singles(paint, paths));
    }
  }

  // Properties of the layers

  /** With reuse off there is one layer per shape, in shape order, without
      reuses, unless some paint raises. */
  lemma PlainLayersExactly<P>(shapes: seq<Shape>, tolerance: real, ignoreReuseError: bool, env: Env<P>)
    requires tolerance < 0.0
    ensures var r := Layers(shapes, tolerance, ignoreReuseError, env);
            && (r.Ok? <==> forall k :: 0 <= k < |shapes| ==> env.paintOf(shapes[k]).Ok?)
            && (r.Ok? ==> |r.value| == |shapes| &&
                          forall k :: 0 <= k < |shapes| ==>
                            r.value[k] == PaintedLayer(env.paintOf(shapes[k]).value, shapes[k].d, []))
  {
    CollectOk(PlainLayers(shapes, env));
  }

  /** The shapes from `o` on are drawn by `layers` in order: each layer
      stands for its first shape and one more per reuse, all of them
      painted alike and normalizing alike; the layer draws the first shape
      and reaches the others by the transforms affine_between found. */
  ghost predicate Explains<P>(shapes: seq<Shape>, o: nat, layers: seq<PaintedLayer<P>>, tolerance: real, env: Env<P>)
    decreases |layers|
  {
    if |layers| == 0 then o == |shapes|
    else
      var l, n := layers[0], 1 + |layers[0].reuses|;
      && o + n <= |shapes|
      && l.path == shapes[o].d
      && (forall k :: o <= k < o + n ==> Key(env, tolerance, shapes[k]) == Ok((l.paint, env.ops.normalize(shapes[o].d, tolerance))))
      && (forall m :: 0 <= m < |l.reuses| ==> env.ops.affineBetween(shapes[o].d, shapes[o + 1 + m].d, tolerance) == Some(l.reuses[m]))
      && Explains(shapes, o + n, layers[1..], tolerance, env)
  }

  /** Explains restricted to the shapes up to `e`. */
  ghost predicate ExplainsUpTo<P>(shapes: seq<Shape>, o: nat, e: nat, layers: seq<PaintedLayer<P>>, tolerance: real, env: Env<P>)
  {
    o <= e <= |shapes| && Explains(shapes[..e], o, layers, tolerance, env)
  }

  lemma {:induction false} ExplainsAppend<P>(shapes: seq<Shape>, o: nat, e: nat, a: seq<PaintedLayer<P>>,
                                           b: seq<PaintedLayer<P>>, tolerance: real, env: Env<P>)
    requires ExplainsUpTo(shapes, o, e, a, tolerance, env) && Explains(shapes, e, b, tolerance, env)
    ensures Explains(shapes, o, a + b, tolerance, env)
    decreases |a|
  {
    if |a| == 0 {
      assert a + b == b;
    } else {
      var l, n := a[0], 1 + |a[0].reuses|;
      var pre := shapes[..e];
      assert forall k :: o <= k < o + n ==> pre[k] == shapes[k];
      assert (a + b)[0] == l && (a + b)[1..] == a[1..] + b;
      ExplainsAppend(shapes, o + n, e, a[1..], b, tolerance, env);
    }
  }

  /** Layers of their own explain a run of shapes with one key. */
  lemma {:induction false} SinglesExplain<P>(shapes: seq<Shape>, o: nat, e: nat, paint: P, tolerance: real, env: Env<P>)
    requires o <= e <= |shapes|
    requires forall k :: o <= k < e ==> Key(env, tolerance, shapes[k]) == Ok((paint, env.ops.normalize(shapes[k].d, tolerance)))
    ensures ExplainsUpTo(shapes, o, e, Singles(paint, shapes[o..e]), tolerance, env)
    decreases e - o
  {
    var pre := shapes[..e];
    if o < e {
      SinglesExplain(shapes, o + 1, e, paint, tolerance, env);
      var s := Singles(paint, shapes[o..e]);
      assert s[1..] == Singles(paint, shapes[o + 1..e]);
      assert pre[o] == shapes[o];
    }
  }

  /** The layers of one group explain it. */
  lemma GroupExplains<P>(shapes: seq<Shape>, o: nat, e: nat, cur: (P, string), tolerance: real,
                             ignoreReuseError: bool, env: Env<P>)
    requires o < e <= |shapes|
    requires forall k :: o <= k < e ==> Key(env, tolerance, shapes[k]) == Ok(cur)
    requires GroupLayers(cur.0, shapes[o..e], tolerance, ignoreReuseError, env.ops).Ok?
    ensures ExplainsUpTo(shapes, o, e, GroupLayers(cur.0, shapes[o..e], tolerance, ignoreReuseError, env.ops).value, tolerance, env)
  {
    var paths := shapes[o..e];
    var ts := Transforms(paths, tolerance, env.ops);
    var pre := shapes[..e];
    assert Key(env, tolerance, shapes[o]) == Ok(cur);
    if AllFound(ts) {
      var l := PaintedLayer(cur.0, paths[0].d, Found(ts));
      assert [l][1..] == [];
      assert forall k :: o <= k < e ==> pre[k] == shapes[k];
      assert forall k :: o < k < e ==> paths[k - o] == pre[k];
    } else {
      forall k | o <= k < e
        ensures Key(env, tolerance, shapes[k]) == Ok((cur.0, env.ops.normalize(shapes[k].d, tolerance)))
      {
      }
      SinglesExplain(shapes, o, e, cur.0, tolerance, env);
    }
  }

  /** The layers from `start` on explain the shapes from there. */
  lemma {:induction false} LayersFromExplain<P>(shapes: seq<Shape>, start: nat, cur: (P, string), tolerance: real,
                                                  ignoreReuseError: bool, env: Env<P>)
    requires start < |shapes| && Key(env, tolerance, shapes[start]) == Ok(cur)
    requires LayersFrom(shapes, start, cur, tolerance, ignoreReuseError, env).Ok?
    ensures Explains(shapes, start, LayersFrom(shapes, start, cur, tolerance, ignoreReuseError, env).value, tolerance, env)
    decreases |shapes| - start
  {
    var end := GroupEnd(shapes, start + 1, cur, tolerance, env).value;
    var group := GroupLayers(cur.0, shapes[start..end], tolerance, ignoreReuseError, env.ops).value;
    GroupExplains(shapes, start, end, cur, tolerance, ignoreReuseError, env);
    if end == |shapes| {
      assert shapes[..end] == shapes;
      assert group + [] == group;
      ExplainsAppend(shapes, start, end, group, [], tolerance, env);
    } else {
      var next := Key(env, tolerance, shapes[end]).value;
      LayersFromExplain(shapes, end, next, tolerance, ignoreReuseError, env);
      ExplainsAppend(shapes, start, end, group, LayersFrom(shapes, end, next, tolerance, ignoreReuseError, env).value,
                     tolerance, env);
    }
  }

  /** With reuse on, the layers account for every shape once and in order,
      group only shapes with the same paint and normalized path, and reuse
      a path only through the transform affine_between found for it. */
  lemma LayersExplainShapes<P>(shapes: seq<Shape>, tolerance: real, ignoreReuseError: bool, env: Env<P>)
    requires tolerance >= 0.0 && Layers(shapes, tolerance, ignoreReuseError, env).Ok?
    ensures Explains(shapes, 0, Layers(shapes, tolerance, ignoreReuseError, env).value, tolerance, env)
  {
    if |shapes| > 0 {
      LayersFromExplain(shapes, 0, Key(env, tolerance, shapes[0]).value, tolerance, ignoreReuseError, env);
    }
  }

  /** When reuse errors are ignored, the groups from `start` on fail only
      where a paint does. */
  lemma {:induction false} IgnoredFrom<P>(shapes: seq<Shape>, start: nat, cur: (P, string), tolerance: real, env: Env<P>)
    requires start < |shapes| && Key(env, tolerance, shapes[start]) == Ok(cur)
    ensures LayersFrom(shapes, start, cur, tolerance, true, env).Ok? <==>
            forall k :: start <= k < |shapes| ==> env.paintOf(shapes[k]).Ok?
    decreases |shapes| - start
  {
    var end := GroupEnd(shapes, start + 1, cur, tolerance, env);
    if end.Ok? {
      var e := end.value;
      assert forall k :: start <= k < e ==> env.paintOf(shapes[k]).Ok?;
      if e < |shapes| {
        var next := Key(env, tolerance, shapes[e]).value;
        IgnoredFrom(shapes, e, next, tolerance, env);
      }
    }
  }

  /** When reuse errors are ignored, layering fails exactly when some
      shape's paint does, whatever the transforms. */
  lemma IgnoringReuseErrors<P>(shapes: seq<Shape>, tolerance: real, env: Env<P>)
    ensures Layers(shapes, tolerance, true, env).Ok? <==> forall k :: 0 <= k < |shapes| ==> env.paintOf(shapes[k]).Ok?
  {
    if tolerance < 0.0 {
      PlainLayersExactly(shapes, tolerance, true, env);
    } else if |shapes| > 0 && env.paintOf(shapes[0]).Ok? {
      IgnoredFrom(shapes, 0, Key(env, tolerance, shapes[0]).value, tolerance, env);
    }
  }

  // ---------------------------------------------------------------------
  // ColorGlyph.create

  /** ColorGlyph(ufo, filename, glyph_name, glyph_id, codepoints,
      painted_layers, svg); the UFO it was made in is left out of the
      value. */
  datatype ColorGlyph<P> = ColorGlyph(filename: string, glyphName: string, glyphId: nat,
                                      codepoints: seq<Codepoint>,
                                      paintedLayers: Option<seq<PaintedLayer<P>>>, svg: seq<Shape>)

  /** The base glyph create adds: the font's upem as its width, and a
      unicode only when the sequence is a single code point. */
  function BaseGlyph(codepoints: seq<Codepoint>, upem: int): (g: GlyphEntry)
    ensures g.unicode.Some? <==> |codepoints| == 1
    ensures g.unicode.Some? ==> g.unicode.value == codepoints[0]
    ensures g.width == upem
  {
    GlyphEntry(if |codepoints| == 1 then Some(codepoints[0] as nat) else None, upem)
  }

  /** ColorGlyph.create: name the sequence, add the base glyph (KeyError if
      the name is taken), and cut the picosvg into painted layers unless
      the colour format keeps SVGs untouched. */
  method Create<P(==)>(config: Config.FontConfig, ufo: Font, filename: string, glyphId: nat,
                       codepoints: seq<Codepoint>, svg: seq<Shape>, digest: string -> string, env: Env<P>)
    returns (r: Result<ColorGlyph<P>>)
    requires IsDigest(digest)
    modifies ufo
    ensures ufo.glyphOrder == old(ufo.glyphOrder) && ufo.layers == old(ufo.layers) && ufo.unitsPerEm == old(ufo.unitsPerEm)
    ensures |codepoints| == 0 ==> r == Err(IndexError) && ufo.glyphs == old(ufo.glyphs)
    ensures |codepoints| > 0 ==>
              var name := GlyphName(codepoints, digest).value;
              && (name in old(ufo.glyphs) ==> r == Err(KeyError) && ufo.glyphs == old(ufo.glyphs))
              && (name !in old(ufo.glyphs) ==> ufo.glyphs == old(ufo.glyphs)[name := BaseGlyph(codepoints, ufo.unitsPerEm)])
              && (r.Ok? ==> r.value == ColorGlyph(filename, name, glyphId, codepoints, r.value.paintedLayers, svg))
    ensures r.Ok? ==> (r.value.paintedLayers.None? <==> !Config.HasPicosvgs(config))
    ensures Config.HasPicosvgs(config) && |codepoints| > 0 && GlyphName(codepoints, digest).value !in old(ufo.glyphs) ==>
              var layers := Layers(svg, config.reuseTolerance, Config.Truthy(config.ignoreReuseError), env);
              (r.Ok? <==> layers.Ok?) && (r.Ok? ==> r.value.paintedLayers == Some(layers.value)) &&
              (r.Err? ==> r.error == layers.error)
    ensures !Config.HasPicosvgs(config) ==> (r.Ok? <==> |codepoints| > 0 && GlyphName(codepoints, digest).value !in old(ufo.glyphs))
  {
    var name := GlyphName(codepoints, digest);
    if name.Err? {
      return Err(name.error);
    }
    var base := BaseGlyph(codepoints, ufo.unitsPerEm);
    var added := ufo.NewGlyph(name.value, base.unicode, base.width);
    if added.Fail? {
      return Err(added.error);
    }
    var paintedLayers := None;
    if Config.HasPicosvgs(config) {
      var layers := PaintedLayers(svg, config.reuseTolerance, Config.Truthy(config.ignoreReuseError), env);
      if layers.Err? {
        return Err(layers.error);
      }
      paintedLayers := Some(layers.value);
    }
    r := Ok(ColorGlyph(filename, name.value, glyphId, codepoints, paintedLayers, svg));
  }
}
