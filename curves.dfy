/**
 * The non-polynomial fit families of the graph callbacks of app/home.py (Log-Fit,
 * Exp-Fit and Power-Fit, for 2D curves and 3D surfaces) and the numbers their hover
 * labels print. `np.log`, `np.exp` and `np.power` are floating-point library calls; they
 * are a parameter here, as are the fitted parameters that `curve_fit` returns.
 */
module Curves {
  import opened Formatting

  /** The library functions the fit families are built from. */
  datatype Numerics = Numerics(log: real -> real, exp: real -> real, pow: (real, real) -> real)

  /** The three non-polynomial fit families. */
  datatype Family = Logarithmic | Exponential | PowerLaw

  /** The factor a family puts in front of one variable: `log(k * v)`, `e^(k * v)` or `v ** k`. */
  function Factor(f: Family, n: Numerics, k: real, v: real): real {
    match f
    case Logarithmic => n.log(k * v)
    case Exponential => n.exp(k * v)
    case PowerLaw => n.pow(v, k)
  }

  /** `a * F(k, x) + c`: the curve shape shared by the fitted models and their labels. */
  function CurveShape(f: Family, n: Numerics, a: real, k: real, c: real, x: real): real {
    a * Factor(f, n, k, x) + c
  }

  /** `a * F(k, x) * F(m, y) + d`: the surface shape shared by the 3D models and their labels. */
  function SurfaceShape(f: Family, n: Numerics, a: real, k: real, m: real, d: real, x: real, y: real): real {
    a * Factor(f, n, k, x) * Factor(f, n, m, y) + d
  }

  /** The rate a fitted parameter enters the model with: the exponential models negate it. */
  function Rate(f: Family, b: real): (k: real)
    ensures f == Exponential ==> k == -b
    ensures f != Exponential ==> k == b
  {
    if f == Exponential then -b else b
  }

  /**
   * The fitted 2D models `a * log(b * x) + c`, `a * exp(-b * x) + c` and
   * `a * x ** N + b`, with the parameters `p` in the order `curve_fit` returns them.
   */
  function FittedCurve(f: Family, n: Numerics, p: seq<real>, x: real): real
    requires |p| == 3
  {
    CurveShape(f, n, p[0], Rate(f, p[1]), p[2], x)
  }

  /**
   * The fitted 3D models `a * log(b * x) * log(c * y) + d`,
   * `a * exp(-b * x) * exp(-c * y) + d` and `a * x ** M * y ** N + b`.
   */
  function FittedSurface(f: Family, n: Numerics, p: seq<real>, x: real, y: real): real
    requires |p| == 4
  {
    SurfaceShape(f, n, p[0], Rate(f, p[1]), Rate(f, p[2]), p[3], x, y)
  }

  /** The rendered fitted parameters, one per parameter, in order (the `f_new` loop). */
  function Rendered(p: seq<real>): (s: seq<Shown>)
    ensures |s| == |p|
    ensures forall i :: 0 <= i < |p| ==> s[i].v == p[i]
  {
    seq(|p|, i requires 0 <= i < |p| => Classify(p[i]))
  }

  /**
   * The curve a 2D label spells out: `y = {a} * log({b} * x) + {c}`,
   * `y = {a} * e^({b} * x) + {c}` or `y = {a} * x^{N} + {c}`.
   */
  function ReadLabel(f: Family, n: Numerics, l: seq<Shown>, x: real): real
    requires |l| == 3
  {
    CurveShape(f, n, l[0].v, l[1].v, l[2].v, x)
  }

  /**
   * The surface a 3D label spells out: `{a} * log({b} * x) * log({c} * y) + {d}`,
   * `{a} * e^({b} * x) * e^({c} * y) + {d}` or `{a} * x^{M} * y^{N} + {d}`.
   */
  function ReadSurfaceLabel(f: Family, n: Numerics, l: seq<Shown>, x: real, y: real): real
    requires |l| == 4
  {
    SurfaceShape(f, n, l[0].v, l[1].v, l[2].v, l[3].v, x, y)
  }

  /** The numbers a label prints as written: the fitted parameters as they are. */
  function LabelAsWritten(p: seq<real>): (l: seq<Shown>)
    ensures |l| == |p|
  {
    Rendered(p)
  }

  /** The numbers a 2D label evidently means to print: the rates the curve applies. */
  function FitLabel(f: Family, p: seq<real>): (l: seq<Shown>)
    requires |p| == 3
    ensures |l| == 3
  {
    Rendered([p[0], Rate(f, p[1]), p[2]])
  }

  /** The numbers a 3D label evidently means to print: both rates as the surface applies them. */
  function FitSurfaceLabel(f: Family, p: seq<real>): (l: seq<Shown>)
    requires |p| == 4
    ensures |l| == 4
  {
    Rendered([p[0], Rate(f, p[1]), Rate(f, p[2]), p[3]])
  }

  /** True when `g` tells its arguments apart, as the exponential does. */
  ghost predicate Injective(g: real -> real) {
    forall s, t :: g(s) == g(t) ==> s == t
  }

  /**
   * With a non-zero scale and an injective exponential, the curve at rate k and the
   * mirrored curve at rate -k agree exactly where k is zero.
   */
  lemma MirrorAgrees(n: Numerics, a: real, k: real, c: real)
    requires a != 0.0 && Injective(n.exp)
    ensures a * n.exp(k) + c == a * n.exp(-k) + c <==> k == 0.0
  {
    var u, v := n.exp(k), n.exp(-k);
    if a * u + c == a * v + c {
      assert (a * u) / a == u && (a * v) / a == v;
      assert u == v;
    }
  }

  /** The logarithmic and power labels as written already print the model's parameters. */
  lemma LabelAsWrittenAgrees(f: Family, p: seq<real>)
    requires |p| == 3 && f != Exponential
    ensures LabelAsWritten(p) == FitLabel(f, p)
  {
    assert [p[0], Rate(f, p[1]), p[2]] == p;
  }

  /** The 3D logarithmic and power labels as written already print the model's parameters. */
  lemma SurfaceLabelAsWrittenAgrees(f: Family, p: seq<real>)
    requires |p| == 4 && f != Exponential
    ensures LabelAsWritten(p) == FitSurfaceLabel(f, p)
  {
    assert [p[0], Rate(f, p[1]), Rate(f, p[2]), p[3]] == p;
  }

  /**
   * As written, the exponential label reads the drawn curve at x exactly when the rate
   * times x is zero (given a non-zero scale): anywhere else it shows the mirrored
   * curve. With a = 1, b = 1, c = 0 it reads e^x where the curve is e^(-x).
   */
  lemma ExpLabelAsWrittenMisreads(p: seq<real>, n: Numerics, x: real)
    requires |p| == 3 && p[0] != 0.0
    requires Injective(n.exp)
    ensures ReadLabel(Exponential, n, LabelAsWritten(p), x) == FittedCurve(Exponential, n, p, x) <==> p[1] * x == 0.0
  {
    var l := LabelAsWritten(p);
    var k := p[1] * x;
    assert l[0].v == p[0] && l[1].v == p[1] && l[2].v == p[2];
    assert ReadLabel(Exponential, n, l, x) == p[0] * n.exp(k) + p[2];
    assert FittedCurve(Exponential, n, p, x) == p[0] * n.exp(-k) + p[2] by {
      assert -p[1] * x == -k;
    }
    MirrorAgrees(n, p[0], k, p[2]);
  }

  /**
   * As written, the 3D exponential label misreads in the same way: on a surface that
   * is flat in y (c = 0) it reads the drawn surface at (x, y) exactly when b * x is
   * zero, given a non-zero scale and `e^0 == 1`.
   */
  lemma ExpSurfaceLabelAsWrittenMisreads(p: seq<real>, n: Numerics, x: real, y: real)
    requires |p| == 4 && p[0] != 0.0 && p[2] == 0.0
    requires Injective(n.exp) && n.exp(0.0) == 1.0
    ensures ReadSurfaceLabel(Exponential, n, LabelAsWritten(p), x, y) == FittedSurface(Exponential, n, p, x, y)
      <==> p[1] * x == 0.0
  {
    var q := [p[0], p[1], p[3]];
    FlatSurfaces(p, n, x, y);
    ExpLabelAsWrittenMisreads(q, n, x);
  }

  /**
   * The 3D label as written, against the surface value z drawn at (x, y): it reads z for
   * the logarithmic and power families; for the exponential family on a surface flat in
   * y it reads z exactly where b * x is zero.
   */
  lemma FitSurfaceLabelAsWrittenReads(f: Family, n: Numerics, p: seq<real>, l: seq<Shown>, x: real, y: real, z: real)
    requires |p| == 4 && l == LabelAsWritten(p) && z == FittedSurface(f, n, p, x, y)
    ensures |l| == 4
    ensures f != Exponential ==> ReadSurfaceLabel(f, n, l, x, y) == z
    ensures f == Exponential && p[0] != 0.0 && p[2] == 0.0 && Injective(n.exp) && n.exp(0.0) == 1.0 ==>
      (ReadSurfaceLabel(f, n, l, x, y) == z <==> p[1] * x == 0.0)
  {
    if f != Exponential {
      SurfaceLabelAsWrittenAgrees(f, p);
      FitSurfaceLabelReadsSurface(f, n, p, x, y);
    } else if p[0] != 0.0 && p[2] == 0.0 && Injective(n.exp) && n.exp(0.0) == 1.0 {
      ExpSurfaceLabelAsWrittenMisreads(p, n, x, y);
    }
  }

  /**
   * On a surface flat in y, the label as written and the model are the label and the
   * curve of the 2D fit with parameters (a, b, d).
   */
  lemma FlatSurfaces(p: seq<real>, n: Numerics, x: real, y: real)
    requires |p| == 4 && p[2] == 0.0 && n.exp(0.0) == 1.0
    ensures ReadSurfaceLabel(Exponential, n, LabelAsWritten(p), x, y)
      == ReadLabel(Exponential, n, LabelAsWritten([p[0], p[1], p[3]]), x)
    ensures FittedSurface(Exponential, n, p, x, y) == FittedCurve(Exponential, n, [p[0], p[1], p[3]], x)
  {
    var l, m := LabelAsWritten(p), LabelAsWritten([p[0], p[1], p[3]]);
    assert l[0].v == m[0].v == p[0] && l[1].v == m[1].v == p[1] && l[2].v == 0.0 && l[3].v == m[2].v == p[3];
    FlatInY(n, p[0], p[1], p[3], x, y);
    FlatInY(n, p[0], -p[1], p[3], x, y);
  }

  /** An exponential surface with rate 0 in y is the curve in x. */
  lemma FlatInY(n: Numerics, a: real, k: real, d: real, x: real, y: real)
    requires n.exp(0.0) == 1.0
    ensures SurfaceShape(Exponential, n, a, k, 0.0, d, x, y) == CurveShape(Exponential, n, a, k, d, x)
  {
    assert Factor(Exponential, n, 0.0, y) == 1.0 by {
      assert 0.0 * y == 0.0;
    }
  }

  /** The corrected 2D label of every family reads the drawn curve at every x. */
  lemma FitLabelReadsCurve(f: Family, n: Numerics, p: seq<real>, x: real)
    requires |p| == 3
    ensures ReadLabel(f, n, FitLabel(f, p), x) == FittedCurve(f, n, p, x)
  {
    var l := FitLabel(f, p);
    assert l[0].v == p[0] && l[1].v == Rate(f, p[1]) && l[2].v == p[2];
  }

  /** The corrected 3D label of every family reads the drawn surface everywhere. */
  lemma FitSurfaceLabelReadsSurface(f: Family, n: Numerics, p: seq<real>, x: real, y: real)
    requires |p| == 4
    ensures ReadSurfaceLabel(f, n, FitSurfaceLabel(f, p), x, y) == FittedSurface(f, n, p, x, y)
  {
    var l := FitSurfaceLabel(f, p);
    assert l[0].v == p[0] && l[1].v == Rate(f, p[1]) && l[2].v == Rate(f, p[2]) && l[3].v == p[3];
  }
}
