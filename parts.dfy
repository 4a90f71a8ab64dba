// src/nanoemoji/parts.py: a store of path shapes grouped by the shape they
// normalize to, filled from SVG shapes, from another store, or from a
// file holding an SVG document or the store's JSON form.
module Parts {
  import opened Wrappers
  import opened Text
  import opened Config

  /** Shape(d): an SVG path string. */
  datatype Shape = Shape(d: string)

  /** ShapeSet(normalized, shapes): shapes that normalize to the same path. */
  datatype ShapeSet = ShapeSet(normalized: Shape, shapes: set<Shape>)

  type ShapeSets = map<Shape, ShapeSet>

  /** Every set is filed under the shape it is the normal form of. */
  predicate Filed(sets: ShapeSets)
  {
    forall n :: n in sets ==> sets[n].normalized == n
  }

  /** The reuse tolerance of a new store: the font default. */
  const DefaultTolerance: real := Default.reuseTolerance

  /** The tolerance that switches normalization off. */
  const NoNormalize: real := -1.0

  // ---------------------------------------------------------------------
  // Filing shapes

  /** _add_norm_path(norm, shape) on a value: a set is made for norm when
      there is none, and shape joins it. */
  function WithShape(sets: ShapeSets, norm: Shape, shape: Shape): (r: ShapeSets)
    ensures r.Keys == sets.Keys + {norm}
    ensures shape in r[norm].shapes
    ensures r[norm].shapes == (if norm in sets then sets[norm].shapes else {}) + {shape}
    ensures r[norm].normalized == if norm in sets then sets[norm].normalized else norm
    ensures forall n :: n in sets && n != norm ==> r[n] == sets[n]
    ensures Filed(sets) ==> Filed(r)
  {
    var set0 := if norm in sets then sets[norm] else ShapeSet(norm, {});
    sets[norm := ShapeSet(set0.normalized, set0.shapes + {shape})]
  }

  /** The key `_add` files a shape under: its normalized path, or the shape
      itself when normalization is off. */
  function NormKey(shape: Shape, reuseTolerance: real, normalize: (string, real) -> string): (r: Shape)
    ensures reuseTolerance == NoNormalize ==> r == shape
    ensures reuseTolerance != NoNormalize ==> r == Shape(normalize(shape.d, reuseTolerance))
  {
    if reuseTolerance != NoNormalize then Shape(normalize(shape.d, reuseTolerance)) else shape
  }

  /** Shapes added one by one with `_add`, in order. */
  function AddedAll(sets: ShapeSets, shapes: seq<Shape>, reuseTolerance: real,
                    normalize: (string, real) -> string): ShapeSets
  {
    if |shapes| == 0 then sets
    else
      var last := shapes[|shapes| - 1];
      WithShape(AddedAll(sets, shapes[..|shapes| - 1], reuseTolerance, normalize),
                NormKey(last, reuseTolerance, normalize), last)
  }

  /** Every shape added is found under its key, nothing is lost, and the
      filing is kept. */
  lemma {:induction false} AddedAllFiles(sets: ShapeSets, shapes: seq<Shape>, reuseTolerance: real,
                                         normalize: (string, real) -> string)
    ensures var r := AddedAll(sets, shapes, reuseTolerance, normalize);
            forall k :: 0 <= k < |shapes| ==>
              var key := NormKey(shapes[k], reuseTolerance, normalize);
              key in r && shapes[k] in r[key].shapes
    ensures var r := AddedAll(sets, shapes, reuseTolerance, normalize);
            forall n :: n in sets ==> n in r && sets[n].shapes <= r[n].shapes
    ensures Filed(sets) ==> Filed(AddedAll(sets, shapes, reuseTolerance, normalize))
  {
    if |shapes| > 0 {
      var front := shapes[..|shapes| - 1];
      AddedAllFiles(sets, front, reuseTolerance, normalize);
      var before := AddedAll(sets, front, reuseTolerance, normalize);
      var r := AddedAll(sets, shapes, reuseTolerance, normalize);
      forall k | 0 <= k < |shapes|
        ensures NormKey(shapes[k], reuseTolerance, normalize) in r
        ensures shapes[k] in r[NormKey(shapes[k], reuseTolerance, normalize)].shapes
      {
        if k < |front| {
          assert front[k] == shapes[k];
        }
      }
    }
  }

  // ---------------------------------------------------------------------
  // Merging another store

  /** Shapes waiting to be filed, by the normal form they go under. */
  type Incoming = map<Shape, set<Shape>>

  function Get(inc: Incoming, n: Shape): set<Shape>
  {
    if n in inc then inc[n] else {}
  }

  /** What a filed store holds, as shapes by normal form; a set with no
      shapes contributes nothing. */
  function IncomingOf(other: ShapeSets): Incoming
  {
    map n | n in other && other[n].shapes != {} :: other[n].shapes
  }

  /** The store after filing the waiting shapes: each joins the set of its
      normal form, which is made when there is none. */
  function Merged(sets: ShapeSets, inc: Incoming): ShapeSets
  {
    map n | n in sets.Keys + inc.Keys ::
      ShapeSet(if n in sets then sets[n].normalized else n,
               (if n in sets then sets[n].shapes else {}) + Get(inc, n))
  }

  /** Filing nothing changes nothing. */
  lemma MergedNothing(sets: ShapeSets)
    ensures Merged(sets, map[]) == sets
  {
    var m := Merged(sets, map[]);
    assert m.Keys == sets.Keys;
    forall n | n in m ensures m[n] == sets[n] {
      assert Get(map[], n) == {};
    }
  }

  /** The shapes of one set waiting under its normal form; nothing when it
      has no shapes. */
  function Single(norm: Shape, shapes: set<Shape>): Incoming
  {
    if shapes == {} then map[] else map[norm := shapes]
  }

  lemma SingleStep(norm: Shape, filed: set<Shape>, shape: Shape)
    ensures var inc := Single(norm, filed);
            inc[norm := Get(inc, norm) + {shape}] == Single(norm, filed + {shape})
  {
  }

  /** Filing a store's sets one after another is filing them all at once. */
  lemma MergedTwoStages(sets: ShapeSets, done: Incoming, key: Shape, shapes: set<Shape>)
    requires key !in done
    ensures Merged(Merged(sets, done), Single(key, shapes)) ==
              Merged(sets, if shapes == {} then done else done[key := shapes])
  {
    var lhs := Merged(Merged(sets, done), Single(key, shapes));
    var rhs := Merged(sets, if shapes == {} then done else done[key := shapes]);
    assert lhs.Keys == rhs.Keys;
    forall n | n in lhs ensures lhs[n] == rhs[n] {
      MergedTwoStagesAt(sets, done, key, shapes, n);
    }
  }

  lemma MergedTwoStagesAt(sets: ShapeSets, done: Incoming, key: Shape, shapes: set<Shape>, n: Shape)
    requires key !in done && n in Merged(Merged(sets, done), Single(key, shapes))
    ensures n in Merged(sets, if shapes == {} then done else done[key := shapes])
    ensures Merged(Merged(sets, done), Single(key, shapes))[n] ==
              Merged(sets, if shapes == {} then done else done[key := shapes])[n]
  {
    if shapes == {} {
      TwoStagesNothing(sets, done, key, n);
    } else {
      TwoStagesSome(sets, done, key, shapes, n);
    }
  }

  lemma TwoStagesNothing(sets: ShapeSets, done: Incoming, key: Shape, n: Shape)
    requires n in Merged(Merged(sets, done), Single(key, {}))
    ensures n in Merged(sets, done) && Merged(Merged(sets, done), Single(key, {}))[n] == Merged(sets, done)[n]
  {
    var mid := Merged(sets, done);
    assert Single(key, {}) == map[];
    assert n in mid;
    MergedAt(mid, map[], n);
    assert Get(map[], n) == {};
  }

  lemma TwoStagesSome(sets: ShapeSets, done: Incoming, key: Shape, shapes: set<Shape>, n: Shape)
    requires key !in done && shapes != {} && n in Merged(Merged(sets, done), Single(key, shapes))
    ensures n in Merged(sets, done[key := shapes])
    ensures Merged(Merged(sets, done), Single(key, shapes))[n] == Merged(sets, done[key := shapes])[n]
  {
    if n == key {
      TwoStagesAtKey(sets, done, key, shapes);
    } else {
      TwoStagesElsewhere(sets, done, key, shapes, n);
    }
  }

  lemma TwoStagesAtKey(sets: ShapeSets, done: Incoming, key: Shape, shapes: set<Shape>)
    requires key !in done && shapes != {}
    ensures key in Merged(Merged(sets, done), Single(key, shapes)) && key in Merged(sets, done[key := shapes])
    ensures Merged(Merged(sets, done), Single(key, shapes))[key] == Merged(sets, done[key := shapes])[key]
  {
    var inc := done[key := shapes];
    var mid := Merged(sets, done);
    var single := Single(key, shapes);
    assert key in single;
    MergedAt(mid, single, key);
    MergedAt(sets, inc, key);
    assert Get(single, key) == shapes && Get(inc, key) == shapes;
    if key in sets {
      MergedAt(sets, done, key);
      assert Get(done, key) == {};
    } else {
      assert key !in mid;
    }
  }

  lemma TwoStagesElsewhere(sets: ShapeSets, done: Incoming, key: Shape, shapes: set<Shape>, n: Shape)
    requires n != key && shapes != {} && n in Merged(Merged(sets, done), Single(key, shapes))
    ensures n in Merged(sets, done[key := shapes])
    ensures Merged(Merged(sets, done), Single(key, shapes))[n] == Merged(sets, done[key := shapes])[n]
  {
    var mid := Merged(sets, done);
    var single := Single(key, shapes);
    var inc := done[key := shapes];
    MergedAt(mid, single, n);
    assert n !in single.Keys;
    MergedAt(sets, done, n);
    MergedAt(sets, inc, n);
    assert Get(inc, n) == Get(done, n);
  }

  /** One entry of a merged store. */
  lemma MergedAt(sets: ShapeSets, inc: Incoming, n: Shape)
    requires n in sets || n in inc
    ensures n in Merged(sets, inc)
    ensures Merged(sets, inc)[n] == ShapeSet(if n in sets then sets[n].normalized else n,
                                            (if n in sets then sets[n].shapes else {}) + Get(inc, n))
  {
  }

  /** Filing one more shape is `_add_norm_path` on the store so far. */
  lemma MergedStep(sets: ShapeSets, inc: Incoming, norm: Shape, shape: Shape)
    ensures Merged(sets, inc[norm := Get(inc, norm) + {shape}]) == WithShape(Merged(sets, inc), norm, shape)
  {
    var lhs := Merged(sets, inc[norm := Get(inc, norm) + {shape}]);
    var rhs := WithShape(Merged(sets, inc), norm, shape);
    assert lhs.Keys == rhs.Keys;
    forall n | n in lhs ensures lhs[n] == rhs[n] {
      MergedStepAt(sets, inc, norm, shape, n);
    }
  }

  lemma MergedStepAt(sets: ShapeSets, inc: Incoming, norm: Shape, shape: Shape, n: Shape)
    requires n in sets.Keys + inc.Keys + {norm}
    ensures Merged(sets, inc[norm := Get(inc, norm) + {shape}])[n] == WithShape(Merged(sets, inc), norm, shape)[n]
  {
    var inc' := inc[norm := Get(inc, norm) + {shape}];
    if n == norm {
      assert Get(inc', n) == Get(inc, n) + {shape};
    } else {
      assert Get(inc', n) == Get(inc, n);
    }
  }

  /** Merging is idempotent: merging the same shapes twice is merging them
      once. */
  lemma MergeTwice(sets: ShapeSets, inc: Incoming)
    ensures Merged(Merged(sets, inc), inc) == Merged(sets, inc)
  {
    var once := Merged(sets, inc);
    var twice := Merged(once, inc);
    assert twice.Keys == once.Keys;
    forall n | n in twice ensures twice[n] == once[n] {
    }
  }

  /** Merging a filed store files each of its shapes under the key it had
      there, keeps what was stored, and keeps the filing. */
  lemma MergeFiles(sets: ShapeSets, other: ShapeSets)
    requires Filed(other)
    ensures var r := Merged(sets, IncomingOf(other));
            forall n, s :: n in other && s in other[n].shapes ==> n in r && s in r[n].shapes
    ensures var r := Merged(sets, IncomingOf(other));
            forall n :: n in sets ==> n in r && sets[n].shapes <= r[n].shapes
    ensures Filed(sets) ==> Filed(Merged(sets, IncomingOf(other)))
  {
    var r := Merged(sets, IncomingOf(other));
    forall n, s | n in other && s in other[n].shapes ensures n in r && s in r[n].shapes {
      assert n in IncomingOf(other);
    }
  }

  // ---------------------------------------------------------------------
  // Sources

  /** What `add` may be given as an element: an SVG shape (with the d of
      its as_path()), an iterable of elements, or anything else. */
  datatype Thing =
    | SvgShape(d: string)
    | Items(items: seq<Thing>)
    | Other

  predicate IsSvgShape(t: Thing)
  {
    t.SvgShape?
  }

  /** _is_iterable_of(thing, desired_type): an iterable whose first item
      has the type, or an empty iterable; never a thing that is not
      iterable. */
  function IsIterableOf(thing: Thing, desired: Thing -> bool): (r: bool)
    ensures thing.Items? && |thing.items| == 0 ==> r
    ensures !thing.Items? ==> !r
    ensures thing.Items? && |thing.items| > 0 ==> (r <==> desired(thing.items[0]))
  {
    match thing
    case Items(items) => |items| == 0 || desired(items[0])
    case _ => false
  }

  /** The elements `add` walks: the iterable itself, or the thing alone. */
  function Elements(thing: Thing): (r: seq<Thing>)
    ensures IsIterableOf(thing, IsSvgShape) ==> r == thing.items
    ensures !IsIterableOf(thing, IsSvgShape) ==> r == [thing]
  {
    if IsIterableOf(thing, IsSvgShape) then thing.items else [thing]
  }

  /** The shapes of the leading SVG-shape elements: what `add` files before
      it meets an illegal element. */
  function LeadingShapes(elements: seq<Thing>): (r: seq<Shape>)
    ensures |r| <= |elements|
    ensures forall k :: 0 <= k < |r| ==> elements[k].SvgShape? && r[k] == Shape(elements[k].d)
    ensures |r| < |elements| ==> !elements[|r|].SvgShape?
  {
    if |elements| == 0 || !elements[0].SvgShape? then []
    else [Shape(elements[0].d)] + LeadingShapes(elements[1..])
  }

  /** What `fromstring` and `load` need from outside: picosvg's parser
      (the d of every path after topicosvg, or the exception it lets
      through: lxml's XMLSyntaxError, a SyntaxError, for text that is not
      well-formed XML, and ValueError for a document topicosvg cannot
      convert), json.loads, str() of a value
      that is not a string, int() and float() of a string, and normalize. */
  datatype Io = Io(
    svgPaths: string -> Result<seq<string>>,
    parseJson: string -> Option<Value>,
    show: Value -> string,
    parsers: Parsers,
    normalize: (string, real) -> string)

  /** str(v) */
  function Show(v: Value, io: Io): (r: string)
    ensures v.Str? ==> r == v.s
  {
    if v.Str? then v.s else io.show(v)
  }

  /** tuple(int(v) for v in version.split(".")) */
  function ParseVersion(v: Value, parsers: Parsers): (r: Result<seq<int>>)
    ensures !v.Str? ==> r == Err(AttributeError)
    ensures r.Ok? ==> v.Str? && |r.value| == |Split(v.s, '.')|
    ensures r.Ok? ==> forall k :: 0 <= k < |r.value| ==> parsers.parseInt(Split(v.s, '.')[k]) == Some(r.value[k])
  {
    if !v.Str? then Err(AttributeError)
    else
      var fields := Split(v.s, '.');
      var parsed := seq(|fields|, k requires 0 <= k < |fields| =>
        if parsers.parseInt(fields[k]).Some? then Ok(parsers.parseInt(fields[k]).value) else Err(ValueError));
      CollectOk(parsed);
      Collect(parsed)
  }

  /** Shape(s) for one member of "shapes": a string is the path itself;
      a list or an object cannot be hashed into the set. */
  function ShapeOf(item: Value, io: Io): (r: Result<Shape>)
    ensures item.Str? ==> r == Ok(Shape(item.s))
    ensures r.Err? <==> item.List? || item.Table?
    ensures r.Err? ==> r.error == TypeError
  {
    match item
    case Str(s) => Ok(Shape(s))
    case List(_) => Err(TypeError)
    case Table(_) => Err(TypeError)
    case _ => Ok(Shape(io.show(item)))
  }

  /** The set of shapes built from the members of "shapes"; the first
      unhashable member stops it. */
  function ShapesOf(items: seq<Value>, io: Io): (r: Result<set<Shape>>)
    ensures r.Ok? <==> forall k :: 0 <= k < |items| ==> ShapeOf(items[k], io).Ok?
    ensures r.Ok? ==> forall x :: x in r.value <==> exists k :: 0 <= k < |items| && ShapeOf(items[k], io) == Ok(x)
    ensures r.Err? ==> r.error == TypeError
  {
    if |items| == 0 then Ok({})
    else
      var front := ShapesOf(items[..|items| - 1], io);
      var last := ShapeOf(items[|items| - 1], io);
      if front.Err? then front
      else if last.Err? then Err(last.error)
      else
        assert forall k :: 0 <= k < |items| - 1 ==> items[..|items| - 1][k] == items[k];
        Ok(front.value + {last.value})
  }

  /** One entry of "shape_sets": exactly a normalized path and its shapes. */
  function ParseShapeSet(v: Value, io: Io): (r: Result<ShapeSet>)
    ensures r.Ok? ==> v.Table? && ToMap(v.entries).Keys == {"normalized", "shapes"}
    ensures r.Ok? ==> r.value.normalized == Shape(Show(ToMap(v.entries)["normalized"], io))
    ensures r.Ok? ==> var items := Iterate(ToMap(v.entries)["shapes"]);
                      items.Ok? && ShapesOf(items.value, io) == Ok(r.value.shapes)
    ensures (v.Table? && "normalized" in ToMap(v.entries) && "shapes" in ToMap(v.entries) &&
             Iterate(ToMap(v.entries)["shapes"]).Ok? &&
             ShapesOf(Iterate(ToMap(v.entries)["shapes"]).value, io).Err?) ==> r == Err(TypeError)
    ensures v.Table? && ToMap(v.entries).Keys - {"normalized", "shapes"} != {} ==> r.Err?
  {
    var m0 :- AsDict(v);
    var (nv, m1) :- Pop(m0, "normalized");
    var (sv, m2) :- Pop(m1, "shapes");
    var items :- Iterate(sv);
    var shapes :- ShapesOf(items, io);
    if m2.Keys != {} then Err(ValueError)
    else Ok(ShapeSet(Shape(Show(nv, io)), shapes))
  }

  /** The "shape_sets" entries filed one by one, a later entry for the
      same normalized path replacing an earlier one; the first bad entry
      stops the load. */
  function ShapeSetsOf(items: seq<Value>, io: Io): (r: Result<ShapeSets>)
    ensures r.Ok? ==> Filed(r.value)
    ensures r.Ok? ==> forall k :: 0 <= k < |items| ==> ParseShapeSet(items[k], io).Ok?
  {
    if |items| == 0 then Ok(map[])
    else
      var front := ShapeSetsOf(items[..|items| - 1], io);
      var last := ParseShapeSet(items[|items| - 1], io);
      if front.Err? then front
      else if last.Err? then Err(last.error)
      else
        assert forall k :: 0 <= k < |items| - 1 ==> items[..|items| - 1][k] == items[k];
        Ok(front.value[last.value.normalized := last.value])
  }

  /** A store as read back from JSON. */
  datatype Loaded = Loaded(version: (int, int, int), reuseTolerance: real, shapeSets: ShapeSets)

  /** The JSON branch of `fromstring`: version 1.0.0, a tolerance, the shape
      sets, and no other key. */
  function ParseJson(text: string, io: Io): (r: Result<Loaded>)
    ensures io.parseJson(text).None? ==> r == Err(ValueError)
    ensures r.Ok? ==> var json := io.parseJson(text).value;
                      json.Table? && ToMap(json.entries).Keys == {"version", "reuse_tolerance", "shape_sets"}
    ensures r.Ok? ==> r.value.version == (1, 0, 0) && Filed(r.value.shapeSets)
    ensures r.Ok? ==> ParseVersion(ToMap(io.parseJson(text).value.entries)["version"], io.parsers) == Ok([1, 0, 0])
    ensures r.Ok? ==> AsReal(ToMap(io.parseJson(text).value.entries)["reuse_tolerance"], io.parsers) == Ok(r.value.reuseTolerance)
    ensures (io.parseJson(text).Some? && io.parseJson(text).value.Table? &&
             "version" !in ToMap(io.parseJson(text).value.entries)) ==> r == Err(KeyError)
  {
    var json :- if io.parseJson(text).Some? then Ok(io.parseJson(text).value) else Err(ValueError);
    var m0 :- AsDict(json);
    LoadedFrom(m0, io)
  }

  /** The fields of the JSON object, popped one at a time: a version of
      1.0.0, the reuse tolerance and the shape sets, and nothing else. */
  function LoadedFrom(m0: map<string, Value>, io: Io): (r: Result<Loaded>)
    ensures r.Ok? ==> m0.Keys == {"version", "reuse_tolerance", "shape_sets"}
    ensures r.Ok? ==> r.value.version == (1, 0, 0) && Filed(r.value.shapeSets)
    ensures r.Ok? ==> ParseVersion(m0["version"], io.parsers) == Ok([1, 0, 0])
    ensures r.Ok? ==> AsReal(m0["reuse_tolerance"], io.parsers) == Ok(r.value.reuseTolerance)
    ensures "version" !in m0 ==> r == Err(KeyError)
    ensures ("version" in m0 && ParseVersion(m0["version"], io.parsers).Ok? &&
             ParseVersion(m0["version"], io.parsers).value != [1, 0, 0]) ==> r == Err(AssertionError)
  {
    var (vv, m1) :- Pop(m0, "version");
    var version :- ParseVersion(vv, io.parsers);
    if version != [1, 0, 0] then Err(AssertionError)
    else
      var (tv, m2) :- Pop(m1, "reuse_tolerance");
      var tolerance :- AsReal(tv, io.parsers);
      var (sv, m3) :- Pop(m2, "shape_sets");
      var items :- Iterate(sv);
      var sets :- ShapeSetsOf(items, io);
      if m3.Keys != {} then Err(ValueError)
      else Ok(Loaded((1, 0, 0), tolerance, sets))
  }

  /** A version other than 1.0.0 fails the assertion. */
  lemma BadVersionRejected(text: string, io: Io)
    requires io.parseJson(text).Some? && io.parseJson(text).value.Table?
    requires var m := ToMap(io.parseJson(text).value.entries);
             "version" in m && ParseVersion(m["version"], io.parsers).Ok? &&
             ParseVersion(m["version"], io.parsers).value != [1, 0, 0]
    ensures ParseJson(text, io) == Err(AssertionError)
  {
  }

  /** The first character after leading blanks, which picks the format. */
  function FirstChar(text: string): Option<char>
  {
    var stripped := Strip(text);
    if |stripped| == 0 then None else Some(stripped[0])
  }

  /** load(input_file) accepts the suffixes .svg and .json in any case. */
  function KnownFormat(fileName: string): (r: bool)
    ensures r <==> Lower(Suffix(fileName)) in {".svg", ".json"}
  {
    var ext := Lower(Suffix(fileName));
    ext == ".svg" || ext == ".json"
  }

  // ---------------------------------------------------------------------
  // The store

  /** Where `add` takes shapes from: a file (its name and text), another
      store's sets, or an element or iterable of elements. */
  datatype Source =
    | FromFile(fileName: string, text: string)
    | FromParts(sets: ShapeSets)
    | FromThing(thing: Thing)

  /** ReuseableParts */
  class ReuseableParts {
    var version: (int, int, int)
    var reuseTolerance: real
    var shapeSets: ShapeSets

    ghost predicate Valid()
      reads this
    {
      Filed(shapeSets)
    }

    /** ReuseableParts(): version 1.0.0, the font's reuse tolerance and no
        shapes. */
    constructor ()
      ensures Valid()
      ensures version == (1, 0, 0) && reuseTolerance == DefaultTolerance && shapeSets == map[]
    {
      version := (1, 0, 0);
      reuseTolerance := DefaultTolerance;
      shapeSets := map[];
    }

    /** _add_norm_path(norm, shape) */
    method AddNormPath(norm: Shape, shape: Shape)
      requires Valid()
      modifies this
      ensures Valid()
      ensures shapeSets == WithShape(old(shapeSets), norm, shape)
      ensures version == old(version) && reuseTolerance == old(reuseTolerance)
    {
      if norm !in shapeSets {
        shapeSets := shapeSets[norm := ShapeSet(norm, {})];
      }
      shapeSets := shapeSets[norm := ShapeSet(shapeSets[norm].normalized, shapeSets[norm].shapes + {shape})];
    }

    /** _add(shape) */
    method AddShape(shape: Shape, normalize: (string, real) -> string)
      requires Valid()
      modifies this
      ensures Valid()
      ensures shapeSets == WithShape(old(shapeSets), NormKey(shape, reuseTolerance, normalize), shape)
      ensures version == old(version) && reuseTolerance == old(reuseTolerance)
    {
      var norm := shape;
      if reuseTolerance != NoNormalize {
        norm := Shape(normalize(shape.d, reuseTolerance));
      }
      AddNormPath(norm, shape);
    }

    /** The ReuseableParts branch of add: every shape of every set is
        filed under that set's normal form. */
    method AddParts(other: ShapeSets)
      requires Filed(other)
      requires Valid()
      modifies this
      ensures Valid()
      ensures shapeSets == Merged(old(shapeSets), IncomingOf(other))
      ensures version == old(version) && reuseTolerance == old(reuseTolerance)
    {
      var keys := other.Keys;
      ghost var doneKeys: set<Shape> := {};
      ghost var done: Incoming := map[];
      MergedNothing(shapeSets);
      assert IncomingOf(Restrict(other, {})) == map[];
      while keys != {}
        invariant keys <= other.Keys && doneKeys == other.Keys - keys
        invariant done == IncomingOf(Restrict(other, doneKeys))
        invariant shapeSets == Merged(old(shapeSets), done)
        invariant version == old(version) && reuseTolerance == old(reuseTolerance)
        decreases keys
      {
        var key :| key in keys;
        AddShapeSet(other[key]);
        MergedTwoStages(old(shapeSets), done, key, other[key].shapes);
        IncomingStep(other, doneKeys, key);
        done := if other[key].shapes == {} then done else done[key := other[key].shapes];
        doneKeys := doneKeys + {key};
        keys := keys - {key};
      }
      assert Restrict(other, doneKeys) == other;
    }

    /** The inner loop of the ReuseableParts branch: the shapes of one set,
        filed under its normal form. */
    method AddShapeSet(shapeSet: ShapeSet)
      requires Valid()
      modifies this
      ensures Valid()
      ensures shapeSets == Merged(old(shapeSets), Single(shapeSet.normalized, shapeSet.shapes))
      ensures version == old(version) && reuseTolerance == old(reuseTolerance)
    {
      var shapes := shapeSet.shapes;
      ghost var filed: set<Shape> := {};
      MergedNothing(shapeSets);
      while shapes != {}
        invariant shapes <= shapeSet.shapes && filed == shapeSet.shapes - shapes
        invariant shapeSets == Merged(old(shapeSets), Single(shapeSet.normalized, filed))
        invariant version == old(version) && reuseTolerance == old(reuseTolerance)
        decreases shapes
      {
        var shape :| shape in shapes;
        MergedStep(old(shapeSets), Single(shapeSet.normalized, filed), shapeSet.normalized, shape);
        SingleStep(shapeSet.normalized, filed, shape);
        AddNormPath(shapeSet.normalized, shape);
        filed := filed + {shape};
        shapes := shapes - {shape};
      }
      assert filed == shapeSet.shapes;
    }

    /** The element branch of add: the iterable's elements, or the thing
        alone, must all be SVG shapes; each is filed in turn, and an
        illegal element raises ValueError after the shapes before it. */
    method AddThing(thing: Thing, normalize: (string, real) -> string) returns (r: Outcome)
      requires Valid()
      modifies this
      ensures Valid()
      ensures var elements := Elements(thing);
              r.Pass? <==> forall k :: 0 <= k < |elements| ==> elements[k].SvgShape?
      ensures r.Fail? ==> r.error == ValueError
      ensures shapeSets == AddedAll(old(shapeSets), LeadingShapes(Elements(thing)), reuseTolerance, normalize)
      ensures version == old(version) && reuseTolerance == old(reuseTolerance)
    {
      r := AddElements(Elements(thing), normalize);
    }

    /** The loop of the element branch, over the elements to add. */
    method AddElements(elements: seq<Thing>, normalize: (string, real) -> string) returns (r: Outcome)
      requires Valid()
      modifies this
      ensures Valid()
      ensures r.Pass? <==> forall k :: 0 <= k < |elements| ==> elements[k].SvgShape?
      ensures r.Fail? ==> r.error == ValueError
      ensures shapeSets == AddedAll(old(shapeSets), LeadingShapes(elements), reuseTolerance, normalize)
      ensures version == old(version) && reuseTolerance == old(reuseTolerance)
    {
      ghost var leading := LeadingShapes(elements);
      var i := 0;
      while i < |elements|
        invariant 0 <= i <= |leading| && i <= |elements|
        invariant forall k :: 0 <= k < i ==> elements[k].SvgShape?
        invariant shapeSets == AddedAll(old(shapeSets), leading[..i], reuseTolerance, normalize)
        invariant version == old(version) && reuseTolerance == old(reuseTolerance)
        invariant Valid()
      {
        if !elements[i].SvgShape? {
          assert leading[..i] == leading;
          return Fail(ValueError);
        }
        AddLeading(elements, i, old(shapeSets), normalize);
        i := i + 1;
      }
      assert leading[..i] == leading;
      r := Pass;
    }

    /** One round of the element loop: the i-th element, an SVG shape, is
        filed after the leading shapes before it. */
    method AddLeading(elements: seq<Thing>, i: nat, ghost start: ShapeSets, normalize: (string, real) -> string)
      requires Valid() && i < |elements| && elements[i].SvgShape? && i <= |LeadingShapes(elements)|
      requires shapeSets == AddedAll(start, LeadingShapes(elements)[..i], reuseTolerance, normalize)
      modifies this
      ensures Valid() && i < |LeadingShapes(elements)|
      ensures shapeSets == AddedAll(start, LeadingShapes(elements)[..i + 1], reuseTolerance, normalize)
      ensures version == old(version) && reuseTolerance == old(reuseTolerance)
    {
      LeadingAt(elements, i);
      AddedAllSnoc(start, LeadingShapes(elements), i, reuseTolerance, normalize);
      AddShape(Shape(elements[i].d), normalize);
    }

    /** add(source) */
    method Add(source: Source, io: Io) returns (r: Outcome)
      requires source.FromParts? ==> Filed(source.sets)
      requires Valid()
      modifies this
      ensures Valid()
      ensures source.FromParts? ==> r == Pass && shapeSets == Merged(old(shapeSets), IncomingOf(source.sets))
      ensures source.FromThing? ==>
                var elements := Elements(source.thing);
                && (r.Pass? <==> forall k :: 0 <= k < |elements| ==> elements[k].SvgShape?)
                && shapeSets == AddedAll(old(shapeSets), LeadingShapes(elements), reuseTolerance, io.normalize)
      ensures source.FromFile? && !KnownFormat(source.fileName) ==> r == Fail(ValueError) && shapeSets == old(shapeSets)
      ensures source.FromFile? && KnownFormat(source.fileName) ==>
                match FromText(source.text, io)
                case Err(e) => r == Fail(e) && shapeSets == old(shapeSets)
                case Ok(loaded) => r == Pass && shapeSets == Merged(old(shapeSets), IncomingOf(loaded.shapeSets))
      ensures version == old(version) && reuseTolerance == old(reuseTolerance)
    {
      match source {
        case FromFile(fileName, text) =>
          var loaded := LoadFile(fileName, text, io);
          if loaded.Err? {
            return Fail(loaded.error);
          }
          AddParts(loaded.value.shapeSets);
          r := Pass;
        case FromParts(sets) =>
          AddParts(sets);
          r := Pass;
        case FromThing(thing) =>
          r := AddThing(thing, io.normalize);
      }
    }
  }

  /** The sets of a store under some of its keys. */
  function Restrict(other: ShapeSets, keys: set<Shape>): ShapeSets
  {
    map n | n in keys && n in other :: other[n]
  }

  /** Taking one more key of a filed store adds its shapes to the incoming
      map, unless it has none. */
  lemma IncomingStep(other: ShapeSets, keys: set<Shape>, key: Shape)
    requires Filed(other) && key in other && key !in keys
    ensures var before := IncomingOf(Restrict(other, keys));
            key !in before &&
            IncomingOf(Restrict(other, keys + {key})) ==
              if other[key].shapes == {} then before else before[key := other[key].shapes]
  {
  }

  lemma LeadingAt(elements: seq<Thing>, i: nat)
    requires i <= |LeadingShapes(elements)| && i < |elements| && elements[i].SvgShape?
    ensures i < |LeadingShapes(elements)| && LeadingShapes(elements)[i] == Shape(elements[i].d)
  {
  }

  lemma AddedAllSnoc(sets: ShapeSets, shapes: seq<Shape>, i: nat, reuseTolerance: real,
                     normalize: (string, real) -> string)
    requires i < |shapes|
    ensures AddedAll(sets, shapes[..i + 1], reuseTolerance, normalize) ==
              WithShape(AddedAll(sets, shapes[..i], reuseTolerance, normalize),
                        NormKey(shapes[i], reuseTolerance, normalize), shapes[i])
  {
    assert shapes[..i + 1][..i] == shapes[..i];
  }

  /** A single path is one SVG shape, filed alone. */
  lemma AddOneShape(path: string)
    ensures LeadingShapes(Elements(SvgShape(path))) == [Shape(path)]
  {
    assert !IsIterableOf(SvgShape(path), IsSvgShape);
  }

  /** Adding one shape files it under its key. */
  lemma AddedOne(sets: ShapeSets, shape: Shape, reuseTolerance: real, normalize: (string, real) -> string)
    ensures AddedAll(sets, [shape], reuseTolerance, normalize) == WithShape(sets, NormKey(shape, reuseTolerance, normalize), shape)
  {
    assert [shape][..0] == [];
  }

  /** The '<' branch of fromstring: a fresh store with the default
      tolerance, each path of the document added in turn as an SVG shape. */
  method FromSvgPaths(paths: seq<string>, normalize: (string, real) -> string) returns (parts: ReuseableParts)
    ensures fresh(parts) && parts.Valid()
    ensures parts.version == (1, 0, 0) && parts.reuseTolerance == DefaultTolerance
    ensures parts.shapeSets == AddedAll(map[], PathShapes(paths), DefaultTolerance, normalize)
  {
    parts := new ReuseableParts();
    ghost var shapes := PathShapes(paths);
    var i := 0;
    while i < |paths|
      invariant 0 <= i <= |paths|
      invariant parts.version == (1, 0, 0) && parts.reuseTolerance == DefaultTolerance
      invariant parts.shapeSets == AddedAll(map[], shapes[..i], DefaultTolerance, normalize)
      invariant parts.Valid()
      modifies parts
    {
      AddOneShape(paths[i]);
      label step:
      var _ := parts.AddThing(SvgShape(paths[i]), normalize);
      AddedOne(old@step(parts.shapeSets), shapes[i], DefaultTolerance, normalize);
      AddedAllSnoc(map[], shapes, i, DefaultTolerance, normalize);
      i := i + 1;
    }
    assert shapes[..i] == shapes;
    AddedAllFiles(map[], shapes, DefaultTolerance, normalize);
  }

  /** The shapes of an SVG document's paths, in document order. */
  function PathShapes(paths: seq<string>): (r: seq<Shape>)
    ensures |r| == |paths| && forall k :: 0 <= k < |paths| ==> r[k] == Shape(paths[k])
  {
    seq(|paths|, k requires 0 <= k < |paths| => Shape(paths[k]))
  }

  /** What fromstring(string) reads from a text: an SVG document when the
      text starts with '<', the JSON form when it starts with '{', and
      ValueError otherwise; a blank text has no first character
      (IndexError). */
  function FromText(text: string, io: Io): (r: Result<Loaded>)
    ensures FirstChar(text).None? ==> r == Err(IndexError)
    ensures FirstChar(text).Some? && FirstChar(text).value !in {'<', '{'} ==> r == Err(ValueError)
    ensures FirstChar(text) == Some('<') && io.svgPaths(text).Err? ==> r == Err(io.svgPaths(text).error)
    ensures FirstChar(text) == Some('<') && io.svgPaths(text).Ok? ==>
              && r.Ok? && r.value.version == (1, 0, 0) && r.value.reuseTolerance == DefaultTolerance
              && var shapes := PathShapes(io.svgPaths(text).value);
                 forall k :: 0 <= k < |shapes| ==>
                   var key := NormKey(shapes[k], DefaultTolerance, io.normalize);
                   key in r.value.shapeSets && shapes[k] in r.value.shapeSets[key].shapes
    ensures FirstChar(text) == Some('{') ==> r == ParseJson(text, io)
    ensures r.Ok? ==> r.value.version == (1, 0, 0) && Filed(r.value.shapeSets)
  {
    match FirstChar(text)
    case None => Err(IndexError)
    case Some(first) =>
      if first == '<' then
        match io.svgPaths(text)
        case Err(e) => Err(e)
        case Ok(paths) =>
          AddedAllFiles(map[], PathShapes(paths), DefaultTolerance, io.normalize);
          Ok(Loaded((1, 0, 0), DefaultTolerance, AddedAll(map[], PathShapes(paths), DefaultTolerance, io.normalize)))
      else if first == '{' then ParseJson(text, io)
      else Err(ValueError)
  }

  /** An SVG text the parser rejects fails with the parser's own exception,
      so malformed XML is a SyntaxError, not a ValueError. */
  lemma MalformedSvgIsSyntaxError(text: string, io: Io)
    requires FirstChar(text) == Some('<') && io.svgPaths(text) == Err(SyntaxError)
    ensures FromText(text, io) == Err(SyntaxError)
    ensures FromText(text, io) != Err(ValueError)
  {
  }

  /** fromstring(string): a fresh store holding what the text describes,
      or the error reading it raises. */
  method FromString(text: string, io: Io) returns (r: Result<ReuseableParts>)
    ensures match FromText(text, io)
            case Err(e) => r == Err(e)
            case Ok(loaded) =>
              && r.Ok? && fresh(r.value) && r.value.Valid()
              && r.value.version == loaded.version && r.value.reuseTolerance == loaded.reuseTolerance
              && r.value.shapeSets == loaded.shapeSets
  {
    var first := FirstChar(text);
    if first.None? {
      return Err(IndexError);
    }
    if first.value == '<' {
      var found := io.svgPaths(text);
      if found.Err? {
        return Err(found.error);
      }
      var fromSvg := FromSvgPaths(found.value, io.normalize);
      return Ok(fromSvg);
    } else if first.value == '{' {
      var loaded := ParseJson(text, io);
      if loaded.Err? {
        return Err(loaded.error);
      }
      var parts := new ReuseableParts();
      parts.version := loaded.value.version;
      parts.reuseTolerance := loaded.value.reuseTolerance;
      parts.shapeSets := loaded.value.shapeSets;
      return Ok(parts);
    }
    return Err(ValueError);
  }

  /** load(input_file): the suffix check, then fromstring of the file's
      text. */
  method LoadFile(fileName: string, text: string, io: Io) returns (r: Result<ReuseableParts>)
    ensures !KnownFormat(fileName) ==> r == Err(ValueError)
    ensures KnownFormat(fileName) ==>
              match FromText(text, io)
              case Err(e) => r == Err(e)
              case Ok(loaded) =>
                && r.Ok? && fresh(r.value) && r.value.Valid()
                && r.value.version == loaded.version && r.value.reuseTolerance == loaded.reuseTolerance
                && r.value.shapeSets == loaded.shapeSets
  {
    if !KnownFormat(fileName) {
      return Err(ValueError);
    }
    r := FromString(text, io);
  }
}
