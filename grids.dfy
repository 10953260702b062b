/**
 * The sampling grids the graph callbacks of app/home.py evaluate fitted curves and
 * surfaces on: `np.linspace(a, b, n)` (1000 points for a 2D curve, 20 per axis for a 3D
 * surface) and the 20 by 20 `np.meshgrid` of two such axes.
 */
module Grids {

  /** Points per 2D fitted curve. */
  const CurvePoints: nat := 1000

  /** Points per axis of a 3D fitted surface. */
  const SurfacePoints: nat := 20

  /** A positive factor times a non-negative one is non-negative. */
  lemma MulNonNeg(a: real, b: real)
    requires a >= 0.0 && b >= 0.0
    ensures a * b >= 0.0
  {
  }

  /** `np.linspace(a, b, n)`: n evenly spaced points from a to b, both ends included. */
  function Linspace(a: real, b: real, n: nat): (r: seq<real>)
    requires n >= 2
    ensures |r| == n
  {
    var step := (b - a) / ((n - 1) as real);
    seq(n, i requires 0 <= i < n => a + step * (i as real))
  }

  /** The grid starts at a and ends at b. */
  lemma LinspaceEnds(a: real, b: real, n: nat)
    requires n >= 2
    ensures Linspace(a, b, n)[0] == a
    ensures Linspace(a, b, n)[n - 1] == b
  {
    var d := (n - 1) as real;
    var step := (b - a) / d;
    assert step * d == b - a;
  }

  /** Consecutive points are one step, `(b - a) / (n - 1)`, apart. */
  lemma LinspaceEven(a: real, b: real, n: nat, i: nat)
    requires n >= 2 && i < n - 1
    ensures Linspace(a, b, n)[i + 1] - Linspace(a, b, n)[i] == (b - a) / ((n - 1) as real)
  {
    var step := (b - a) / ((n - 1) as real);
    assert step * ((i + 1) as real) == step * (i as real) + step;
  }

  /** When a <= b the points never decrease. */
  lemma LinspaceMonotone(a: real, b: real, n: nat, i: nat, j: nat)
    requires n >= 2 && a <= b && i <= j < n
    ensures Linspace(a, b, n)[i] <= Linspace(a, b, n)[j]
  {
    var step := (b - a) / ((n - 1) as real);
    assert step >= 0.0;
    MulNonNeg(step, (j - i) as real);
    assert step * (j as real) - step * (i as real) == step * ((j - i) as real);
  }

  /** When a <= b every point lies in [a, b]. */
  lemma LinspaceWithin(a: real, b: real, n: nat, i: nat)
    requires n >= 2 && a <= b && i < n
    ensures a <= Linspace(a, b, n)[i] <= b
  {
    LinspaceEnds(a, b, n);
    LinspaceMonotone(a, b, n, 0, i);
    LinspaceMonotone(a, b, n, i, n - 1);
  }

  /** A constant axis (a == b) samples the same value n times. */
  lemma LinspaceFlat(a: real, n: nat)
    requires n >= 2
    ensures forall i :: 0 <= i < n ==> Linspace(a, a, n)[i] == a
  {
  }
}
