/**
 * The min-max normaliser the graph callbacks of app/home.py apply to an axis when its
 * "Normalize X/Y/Z" option is ticked: a constant column becomes all 0.5, any other
 * column is rescaled onto [0, 1], and afterwards every exact 0 is overwritten with 0.001.
 */
module Normalize {

  /** The smallest value of a non-empty sequence. */
  function Min(s: seq<real>): (m: real)
    requires |s| > 0
    ensures m in s
    ensures forall i :: 0 <= i < |s| ==> m <= s[i]
  {
    if |s| == 1 then s[0]
    else
      var m := Min(s[..|s| - 1]);
      assert forall i :: 0 <= i < |s| - 1 ==> s[..|s| - 1][i] == s[i];
      if s[|s| - 1] < m then s[|s| - 1] else m
  }

  /** The largest value of a non-empty sequence. */
  function Max(s: seq<real>): (m: real)
    requires |s| > 0
    ensures m in s
    ensures forall i :: 0 <= i < |s| ==> s[i] <= m
  {
    if |s| == 1 then s[0]
    else
      var m := Max(s[..|s| - 1]);
      assert forall i :: 0 <= i < |s| - 1 ==> s[..|s| - 1][i] == s[i];
      if s[|s| - 1] > m then s[|s| - 1] else m
  }

  /** The value written over an exact zero after rescaling. */
  const ZeroLift: real := 0.001

  /** The value every entry of a constant column becomes. */
  const Flat: real := 0.5

  /** `x[x == 0] = 0.001` on one entry. */
  function Lift(v: real): real {
    if v == 0.0 then ZeroLift else v
  }

  /** `(v - min) / (max - min)`. */
  function Scale(v: real, lo: real, hi: real): real
    requires lo < hi
  {
    (v - lo) / (hi - lo)
  }

  /** Rescaling maps [lo, hi] onto [0, 1], lo to 0 and hi to 1. */
  lemma ScaleBounds(v: real, lo: real, hi: real)
    requires lo <= v <= hi && lo < hi
    ensures 0.0 <= Scale(v, lo, hi) <= 1.0
    ensures v == lo <==> Scale(v, lo, hi) == 0.0
    ensures v == hi <==> Scale(v, lo, hi) == 1.0
  {
    var d := hi - lo;
    var q := (v - lo) / d;
    assert q * d == v - lo;
    if q > 1.0 {
      assert q * d > d;
    }
  }

  /** Rescaling keeps strict order. */
  lemma ScaleStrict(u: real, v: real, lo: real, hi: real)
    requires lo < hi && u < v
    ensures Scale(u, lo, hi) < Scale(v, lo, hi)
  {
    var d := hi - lo;
    var p := (u - lo) / d;
    var q := (v - lo) / d;
    assert p * d == u - lo && q * d == v - lo;
    if p >= q {
      assert p * d >= q * d;
    }
  }

  /** One entry before zeros are lifted: 0.5 for a constant column, else rescaled. */
  function Rescaled(v: real, lo: real, hi: real): real
    requires lo <= hi
  {
    if hi == lo then Flat else Scale(v, lo, hi)
  }

  /** The normalised column, as the callbacks compute it. */
  function Normalized(xs: seq<real>): (r: seq<real>)
    requires |xs| > 0
    ensures |r| == |xs|
  {
    var lo := Min(xs);
    var hi := Max(xs);
    seq(|xs|, i requires 0 <= i < |xs| => Lift(Rescaled(xs[i], lo, hi)))
  }

  /** A constant column becomes all 0.5. */
  lemma NormalizedConstant(xs: seq<real>)
    requires |xs| > 0
    requires forall i :: 0 <= i < |xs| ==> xs[i] == xs[0]
    ensures forall i :: 0 <= i < |xs| ==> Normalized(xs)[i] == Flat
  {
    var k :| 0 <= k < |xs| && xs[k] == Min(xs);
    var m :| 0 <= m < |xs| && xs[m] == Max(xs);
    assert Min(xs) == Max(xs);
  }

  /**
   * Every normalised value lies in (0, 1]. The lower bound is not 0.001: a rescaled value
   * strictly between 0 and 0.001 is left alone.
   */
  lemma NormalizedRange(xs: seq<real>)
    requires |xs| > 0
    ensures forall i :: 0 <= i < |xs| ==> 0.0 < Normalized(xs)[i] <= 1.0
  {
    var lo := Min(xs);
    var hi := Max(xs);
    forall i | 0 <= i < |xs| ensures 0.0 < Normalized(xs)[i] <= 1.0 {
      if hi != lo {
        ScaleBounds(xs[i], lo, hi);
      }
    }
  }

  /** In a column that is not constant, the largest value maps to 1 and the smallest to 0.001. */
  lemma NormalizedEnds(xs: seq<real>, i: int)
    requires 0 <= i < |xs|
    requires exists k :: 0 <= k < |xs| && xs[k] != xs[0]
    ensures xs[i] == Max(xs) ==> Normalized(xs)[i] == 1.0
    ensures xs[i] == Min(xs) ==> Normalized(xs)[i] == ZeroLift
  {
    var k :| 0 <= k < |xs| && xs[k] != xs[0];
    var lo := Min(xs);
    var hi := Max(xs);
    assert lo <= xs[k] <= hi && lo <= xs[0] <= hi;
    ScaleBounds(xs[i], lo, hi);
  }

  /**
   * Strictly larger inputs stay strictly larger, except where the smaller one is the
   * column minimum (lifted to 0.001).
   */
  lemma NormalizedMonotone(xs: seq<real>, i: int, j: int)
    requires 0 <= i < |xs| && 0 <= j < |xs|
    requires xs[i] < xs[j] && xs[i] != Min(xs)
    ensures Normalized(xs)[i] < Normalized(xs)[j]
  {
    var lo := Min(xs);
    var hi := Max(xs);
    assert lo < xs[i] < xs[j] <= hi;
    ScaleBounds(xs[i], lo, hi);
    ScaleStrict(xs[i], xs[j], lo, hi);
  }

  /**
   * The lift can invert the order: in [0, 1, 10000] the minimum becomes 0.001 while the
   * middle value rescales to 0.0001, which is not lifted.
   */
  lemma NormalizedCanInvertOrder()
    ensures Normalized([0.0, 1.0, 10000.0]) == [ZeroLift, 0.0001, 1.0]
  {
    var xs := [0.0, 1.0, 10000.0];
    assert xs[..2][..1] == [0.0];
    assert Min(xs[..2]) == 0.0 && Max(xs[..2]) == 1.0;
    assert Min(xs) == 0.0 && Max(xs) == 10000.0;
  }

  /** The bounds of the column, found in one pass (`min(x)` and `max(x)`). */
  method Bounds(a: array<real>) returns (lo: real, hi: real)
    requires a.Length > 0
    ensures lo == Min(a[..]) && hi == Max(a[..])
  {
    lo, hi := a[0], a[0];
    var i := 1;
    assert a[..1] == [a[0]];
    while i < a.Length
      invariant 1 <= i <= a.Length
      invariant lo == Min(a[..i]) && hi == Max(a[..i])
    {
      assert a[..i + 1][..i] == a[..i];
      if a[i] < lo {
        lo := a[i];
      }
      if a[i] > hi {
        hi := a[i];
      }
      i := i + 1;
    }
    assert a[..a.Length] == a[..];
  }

  /**
   * Normalises the column in place: fills with 0.5 or rescales, then overwrites every
   * exact zero with 0.001.
   */
  method NormalizeInPlace(a: array<real>)
    requires a.Length > 0
    modifies a
    ensures a[..] == Normalized(old(a[..]))
  {
    ghost var xs := a[..];
    var lo, hi := Bounds(a);
    assert lo <= xs[0] <= hi;
    RescaleInPlace(a, lo, hi);
    LiftZerosInPlace(a);
    assert forall k :: 0 <= k < a.Length ==> a[k] == Normalized(xs)[k];
  }

  /** `np.full_like(x, 0.5)` or `(x - min) / (max - min)`, entry by entry. */
  method RescaleInPlace(a: array<real>, lo: real, hi: real)
    requires lo <= hi
    modifies a
    ensures forall k :: 0 <= k < a.Length ==> a[k] == Rescaled(old(a[k]), lo, hi)
  {
    ghost var xs := a[..];
    var i := 0;
    while i < a.Length
      invariant 0 <= i <= a.Length
      invariant forall k :: i <= k < a.Length ==> a[k] == xs[k]
      invariant forall k :: 0 <= k < i ==> a[k] == Rescaled(xs[k], lo, hi)
    {
      if hi == lo {
        a[i] := Flat;
      } else {
        a[i] := (a[i] - lo) / (hi - lo);
      }
      i := i + 1;
    }
  }

  /** `x[x == 0] = 0.001`. */
  method LiftZerosInPlace(a: array<real>)
    modifies a
    ensures forall k :: 0 <= k < a.Length ==> a[k] == Lift(old(a[k]))
  {
    ghost var xs := a[..];
    var i := 0;
    while i < a.Length
      invariant 0 <= i <= a.Length
      invariant forall k :: 0 <= k < i ==> a[k] == Lift(xs[k])
      invariant forall k :: i <= k < a.Length ==> a[k] == xs[k]
    {
      if a[i] == 0.0 {
        a[i] := ZeroLift;
      }
      i := i + 1;
    }
  }
}
