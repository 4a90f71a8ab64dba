// The geometric values the modelled code passes around: points and the
// affine transforms of picosvg's Affine2D.
module Geometry {
  type Point = (real, real)

  /** Affine2D(a, b, c, d, e, f): x' = a*x + c*y + e, y' = b*x + d*y + f. */
  datatype Affine = Affine(a: real, b: real, c: real, d: real, e: real, f: real)
  {
    /** The six coefficients in order, as `*affine` unpacks them. */
    function Coefficients(): (r: seq<real>)
      ensures |r| == 6 && r[0] == a && r[5] == f
    {
      [a, b, c, d, e, f]
    }

    function Apply(p: Point): Point
    {
      (a * p.0 + c * p.1 + e, b * p.0 + d * p.1 + f)
    }
  }

  const Identity: Affine := Affine(1.0, 0.0, 0.0, 1.0, 0.0, 0.0)

  /** The identity leaves every point where it is. */
  lemma IdentityFixes(p: Point)
    ensures Identity.Apply(p) == p
  {
  }
}
