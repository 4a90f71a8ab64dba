// Range checks for the fixed-point number formats of OpenType
// (src/nanoemoji/fixed.py).  Python floats are modelled as reals, and the
// near-equality used to test for whole numbers as exact equality.
module Fixed {

  const MinInt16: int := -0x8000
  const MaxInt16: int := 0x7FFF
  const MinUint16: int := 0
  const MaxUint16: int := 0xFFFF

  const MinF2Dot14: real := -2.0
  const MaxF2Dot14: real := MaxInt16 as real / 16384.0
  const MinFixed: real := MinInt16 as real
  const MaxFixed: real := 2147483647.0 / 65536.0

  /** all(p(v) for v in values), evaluated left to right. */
  function All(values: seq<real>, p: real -> bool): (r: bool)
    ensures r <==> forall k :: 0 <= k < |values| ==> p(values[k])
  {
    if |values| == 0 then true else p(values[0]) && All(values[1..], p)
  }

  predicate IsWhole(v: real)
  {
    v == v.Floor as real
  }

  predicate Int16Value(v: real)
  {
    IsWhole(v) && MinInt16 as real <= v <= MaxInt16 as real
  }

  predicate F2Dot14Value(v: real)
  {
    MinF2Dot14 <= v <= MaxF2Dot14
  }

  predicate FixedValue(v: real)
  {
    MinFixed <= v <= MaxFixed
  }

  predicate RotationValue(v: real)
  {
    MinF2Dot14 <= v / 180.0 <= MaxF2Dot14
  }

  function Int16Safe(values: seq<real>): bool { All(values, Int16Value) }

  function F2Dot14Safe(values: seq<real>): bool { All(values, F2Dot14Value) }

  function FixedSafe(values: seq<real>): bool { All(values, FixedValue) }

  function F2Dot14RotationSafe(values: seq<real>): bool { All(values, RotationValue) }

  /** Checking many values at once is checking each part: the empty call
      holds, and a call on a + b holds iff it holds on a and on b. */
  lemma {:induction false} AllAppend(a: seq<real>, b: seq<real>, p: real -> bool)
    ensures All([], p)
    ensures All(a + b, p) <==> All(a, p) && All(b, p)
  {
    if |a| > 0 {
      assert (a + b)[1..] == a[1..] + b;
      AllAppend(a[1..], b, p);
    } else {
      assert a + b == b;
    }
  }

  /** The ranges written out: F2Dot14 holds -2 up to 32767/16384, Fixed
      holds -32768 up to (2^31 - 1)/65536, and an Int16 is a whole number
      from -32768 to 32767. */
  lemma Ranges(v: real)
    ensures F2Dot14Safe([v]) <==> -2.0 <= v <= 32767.0 / 16384.0
    ensures FixedSafe([v]) <==> -32768.0 <= v <= 2147483647.0 / 65536.0
    ensures Int16Safe([v]) <==> v == v.Floor as real && -32768.0 <= v <= 32767.0
  {
    assert [v][0] == v;
  }

  function Degrees(values: seq<real>): (r: seq<real>)
    ensures |r| == |values| && forall k :: 0 <= k < |values| ==> r[k] == values[k] / 180.0
  {
    seq(|values|, k requires 0 <= k < |values| => values[k] / 180.0)
  }

  /** A rotation in degrees is safe iff it is a safe F2Dot14 once divided
      by 180: from -360 up to 180 * 32767/16384 degrees. */
  lemma RotationRange(values: seq<real>)
    ensures F2Dot14RotationSafe(values) <==> F2Dot14Safe(Degrees(values))
    ensures F2Dot14RotationSafe(values) <==>
              forall k :: 0 <= k < |values| ==> -360.0 <= values[k] <= 180.0 * (32767.0 / 16384.0)
  {
    var d := Degrees(values);
    assert forall k :: 0 <= k < |values| ==> (RotationValue(values[k]) <==> F2Dot14Value(d[k]));
  }

  /** A fraction is never an Int16, and 32768 is one past the largest. */
  lemma Int16Examples()
    ensures !Int16Safe([1.5]) && Int16Safe([32767.0, -32768.0]) && !Int16Safe([32768.0])
  {
    assert 1.5.Floor == 1;
    assert [32767.0, -32768.0][1] == -32768.0;
    assert (-32768.0).Floor == -32768;
  }
}
