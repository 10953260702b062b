/**
 * How the graph callbacks of app/home.py render fitted coefficients in a trace's hover
 * label (scientific notation or three decimals, by magnitude), how a polynomial given
 * by its coefficients is evaluated (`np.poly1d`, highest power first), and the R squared
 * reported for a 2D polynomial fit.
 */
module Formatting {

  function Abs(c: real): real {
    if c < 0.0 then -c else c
  }

  /** Magnitudes at or below this are shown in scientific notation. */
  const SmallLimit: real := 0.000999

  /** Magnitudes above this (`np.power(10, 4)`) are shown in scientific notation. */
  const LargeLimit: real := 10000.0

  /**
   * One rendered coefficient: `format(num, '.3e')` or `np.round(num, 3)`. The digits are
   * not modelled; the entry keeps the coefficient it renders.
   */
  datatype Shown = Scientific(v: real) | Rounded(v: real)

  /** The rendering rule applied to one coefficient. */
  function Classify(c: real): (s: Shown)
    ensures s.v == c
  {
    if Abs(c) <= SmallLimit || Abs(c) > LargeLimit then Scientific(c) else Rounded(c)
  }

  /**
   * A coefficient is rounded exactly when its magnitude lies in (0.000999, 10000]; the
   * rule ignores the sign, and zero is shown in scientific notation.
   */
  lemma ClassifyBands(c: real)
    ensures Classify(c).Rounded? <==> SmallLimit < Abs(c) <= LargeLimit
    ensures Classify(-c).Scientific? == Classify(c).Scientific?
    ensures Classify(0.0).Scientific?
    ensures Classify(0.001).Rounded? && Classify(LargeLimit).Rounded?
    ensures Classify(SmallLimit).Scientific? && Classify(10000.001).Scientific?
  {
  }

  /** The `f_new` loop: one rendered entry per coefficient, in order. */
  method FormatCoefficients(cs: seq<real>) returns (fNew: seq<Shown>)
    ensures |fNew| == |cs|
    ensures forall i :: 0 <= i < |cs| ==> fNew[i].v == cs[i]
    ensures forall i :: 0 <= i < |cs| ==>
      (fNew[i].Scientific? <==> Abs(cs[i]) <= SmallLimit || Abs(cs[i]) > LargeLimit)
  {
    fNew := [];
    var i := 0;
    while i < |cs|
      invariant 0 <= i <= |cs|
      invariant |fNew| == i
      invariant forall k :: 0 <= k < i ==> fNew[k] == Classify(cs[k])
    {
      if Abs(cs[i]) <= SmallLimit || Abs(cs[i]) > LargeLimit {
        fNew := fNew + [Scientific(cs[i])];
      } else {
        fNew := fNew + [Rounded(cs[i])];
      }
      i := i + 1;
    }
  }

  /** `np.poly1d(cs)(x)`: the coefficients are highest power first. */
  function PolyValue(cs: seq<real>, x: real): real {
    if cs == [] then 0.0 else PolyValue(cs[..|cs| - 1], x) * x + cs[|cs| - 1]
  }

  /**
   * Highest-first evaluation agrees with the 2D labels: `y = {a}x + {b}`,
   * `y = {a}x² + {b}x + {c}` and `y = {a}x³ + {b}x² + {c}x + {d}`.
   */
  lemma PolyValueMatchesLabels(a: real, b: real, c: real, d: real, x: real)
    ensures PolyValue([a, b], x) == a * x + b
    ensures PolyValue([a, b, c], x) == a * x * x + b * x + c
    ensures PolyValue([a, b, c, d], x) == a * x * x * x + b * x * x + c * x + d
  {
    assert [a][..0] == [];
    assert PolyValue([a], x) == a;
    assert [a, b][..1] == [a];
    assert PolyValue([a, b], x) == a * x + b;
    assert [a, b, c][..2] == [a, b];
    assert PolyValue([a, b, c], x) == (a * x + b) * x + c;
    assert [a, b, c, d][..3] == [a, b, c];
    assert PolyValue([a, b, c, d], x) == ((a * x + b) * x + c) * x + d;
  }

  /** Appending a coefficient multiplies the polynomial by x and adds it. */
  lemma {:induction false} PolyValueShift(cs: seq<real>, c: real, x: real)
    ensures PolyValue(cs + [c], x) == PolyValue(cs, x) * x + c
  {
    assert (cs + [c])[..|cs|] == cs;
  }

  /** Leading zero coefficients do not change the polynomial (what `np.poly1d` trims). */
  lemma {:induction false} PolyValueLeadingZero(cs: seq<real>, x: real)
    ensures PolyValue([0.0] + cs, x) == PolyValue(cs, x)
    decreases |cs|
  {
    if cs != [] {
      var init := cs[..|cs| - 1];
      assert [0.0] + cs == ([0.0] + init) + [cs[|cs| - 1]];
      PolyValueShift([0.0] + init, cs[|cs| - 1], x);
      PolyValueLeadingZero(init, x);
    } else {
      assert ([0.0] + cs)[..0] == [];
    }
  }

  function Sum(s: seq<real>): real {
    if s == [] then 0.0 else s[0] + Sum(s[1..])
  }

  /** The sum of squares of `s`; never negative. */
  function SumSquares(s: seq<real>): (r: real)
    ensures r >= 0.0
  {
    if s == [] then 0.0 else s[0] * s[0] + SumSquares(s[1..])
  }

  /** A positive product plus a non-negative term is positive. */
  lemma ProductPlusPositive(a: real, b: real, t: real)
    requires a > 0.0 && b > 0.0 && t >= 0.0
    ensures a * b + t > 0.0
  {
  }

  /*
   * The square is taken as the product of two equal names: the solver handles
   * `x * y` with `x == y` where it does not handle `x * x` directly.
   */
  lemma EqualProductPlusPositive(x: real, y: real, t: real)
    requires x == y && x != 0.0 && t >= 0.0
    ensures x * y + t > 0.0
  {
    if x < 0.0 {
      ProductPlusPositive(-x, -y, t);
      assert (-x) * (-y) == x * y;
    } else {
      ProductPlusPositive(x, y, t);
    }
  }

  /** A sum of squares with a non-zero term is positive. */
  lemma {:induction false} SumSquaresPositive(s: seq<real>, i: int)
    requires 0 <= i < |s| && s[i] != 0.0
    ensures SumSquares(s) > 0.0
  {
    if i == 0 {
      EqualProductPlusPositive(s[0], s[0], SumSquares(s[1..]));
    } else {
      SumSquaresPositive(s[1..], i - 1);
    }
  }

  /** The residuals `y - f(x)` of the fitted polynomial. */
  function Residuals(xs: seq<real>, ys: seq<real>, cs: seq<real>): (r: seq<real>)
    requires |xs| == |ys|
    ensures |r| == |ys|
  {
    seq(|ys|, i requires 0 <= i < |ys| => ys[i] - PolyValue(cs, xs[i]))
  }

  /** The deviations `y - mean(y)`. */
  function Deviations(ys: seq<real>): (r: seq<real>)
    requires |ys| > 0
    ensures |r| == |ys|
  {
    var m := Sum(ys) / (|ys| as real);
    seq(|ys|, i requires 0 <= i < |ys| => ys[i] - m)
  }

  /**
   * The R squared line of a polynomial trace: a value for a linear fit, nothing
   * meaningful when every y is equal (the division by a zero total sum of squares), and
   * the literal "Non-Linear" for orders 2 and 3.
   */
  datatype RSquared = Value(r: real) | Undefined | NonLinear

  function RSquaredOf(order: int, xs: seq<real>, ys: seq<real>, cs: seq<real>): (r: RSquared)
    requires 1 <= order <= 3
    requires |xs| == |ys| > 0
    ensures order != 1 <==> r == NonLinear
    ensures r.Value? ==> r.r <= 1.0
  {
    if order != 1 then NonLinear
    else
      var ssRes := SumSquares(Residuals(xs, ys, cs));
      var ssTot := SumSquares(Deviations(ys));
      if ssTot == 0.0 then Undefined
      else
        assert ssRes / ssTot >= 0.0;
        Value(1.0 - ssRes / ssTot)
  }

  /** A linear fit through every point reports R squared = 1. */
  lemma RSquaredPerfectFit(xs: seq<real>, ys: seq<real>, cs: seq<real>)
    requires |xs| == |ys| > 0
    requires forall i :: 0 <= i < |ys| ==> ys[i] == PolyValue(cs, xs[i])
    requires exists i :: 0 <= i < |ys| && ys[i] != ys[0]
    ensures RSquaredOf(1, xs, ys, cs) == Value(1.0)
  {
    var res := Residuals(xs, ys, cs);
    SumSquaresZeroes(res);
    var dev := Deviations(ys);
    var i :| 0 <= i < |ys| && ys[i] != ys[0];
    if dev[i] != 0.0 {
      SumSquaresPositive(dev, i);
    } else {
      SumSquaresPositive(dev, 0);
    }
  }

  /** A sequence of zeros has sum of squares zero. */
  lemma {:induction false} SumSquaresZeroes(s: seq<real>)
    requires forall i :: 0 <= i < |s| ==> s[i] == 0.0
    ensures SumSquares(s) == 0.0
  {
    if s != [] {
      SumSquaresZeroes(s[1..]);
    }
  }

  /** When every y is equal the linear fit's R squared is undefined. */
  lemma RSquaredConstantY(xs: seq<real>, ys: seq<real>, cs: seq<real>)
    requires |xs| == |ys| > 0
    requires forall i :: 0 <= i < |ys| ==> ys[i] == ys[0]
    ensures RSquaredOf(1, xs, ys, cs) == Undefined
  {
    SumConst(ys);
    var dev := Deviations(ys);
    SumSquaresZeroes(dev);
  }

  lemma {:induction false} SumConst(ys: seq<real>)
    requires |ys| > 0
    requires forall i :: 0 <= i < |ys| ==> ys[i] == ys[0]
    ensures Sum(ys) == (|ys| as real) * ys[0]
  {
    if |ys| > 1 {
      SumConst(ys[1..]);
    }
  }
}
