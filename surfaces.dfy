/**
 * The polynomial surface of a 3D Poly-Fit trace in app/home.py: the monomials of the
 * least-squares design matrix, the monomials the 20 by 20 grid is evaluated with, and
 * the hover label that spells the fitted surface out. The least-squares solve itself
 * (`np.linalg.lstsq`) is not modelled: its coefficients are an input.
 */
module Surfaces {
  import opened Formatting
  import opened Grids
  import opened Normalize

  /** The polynomial degree chosen with the fit-order input. */
  type Order = o: int | 1 <= o <= 3 witness 1

  /** A monomial in the data coordinates (x, y, z). */
  datatype Term = One | X | Y | XY | X2 | Y2 | X3 | X2Y | XY2 | Y3 | Z3

  /** The power of x in a monomial. */
  function DegX(t: Term): nat {
    match t
    case X | XY | XY2 => 1
    case X2 | X2Y => 2
    case X3 => 3
    case _ => 0
  }

  /** The power of y in a monomial. */
  function DegY(t: Term): nat {
    match t
    case Y | XY | X2Y => 1
    case Y2 | XY2 => 2
    case Y3 => 3
    case _ => 0
  }

  /** The power of z in a monomial. */
  function DegZ(t: Term): nat {
    if t == Z3 then 3 else 0
  }

  /** `v ** k`. */
  function Power(v: real, k: nat): real {
    if k == 0 then 1.0 else v * Power(v, k - 1)
  }

  /** The value of a monomial at a point. */
  function Eval(t: Term, x: real, y: real, z: real): real {
    Power(x, DegX(t)) * Power(y, DegY(t)) * Power(z, DegZ(t))
  }

  /** `sum(cs[i] * terms[i])`: a row of a design matrix times the coefficients. */
  function Combine(terms: seq<Term>, cs: seq<real>, x: real, y: real, z: real): real
    requires |cs| == |terms|
  {
    CombineFirst(terms, cs, |terms|, x, y, z)
  }

  /** The sum over the first n monomials. */
  function CombineFirst(terms: seq<Term>, cs: seq<real>, n: nat, x: real, y: real, z: real): real
    requires |cs| == |terms| && n <= |terms|
  {
    if n == 0 then 0.0
    else CombineFirst(terms, cs, n - 1, x, y, z) + Weighted(cs[n - 1], terms[n - 1], x, y, z)
  }

  /** One coefficient times its monomial at a point. */
  function Weighted(c: real, t: Term, x: real, y: real, z: real): real {
    c * Eval(t, x, y, z)
  }

  /**
   * The columns of the design matrix `A` as written. Order 3 ends with `d[:,2]**3`, the
   * cube of the fitted coordinate z itself.
   */
  function FitBasisAsWritten(order: Order): (b: seq<Term>)
    ensures order == 1 ==> |b| == 3
    ensures order == 2 ==> |b| == 6
    ensures order == 3 ==> |b| == 10
  {
    match order
    case 1 => [X, Y, One]
    case 2 => [One, X, Y, XY, X2, Y2]
    case 3 => [One, X, Y, X2, XY, Y2, X3, X2Y, XY2, Z3]
  }

  /**
   * The monomials the grid `Z` is evaluated with (`np.c_[...]` over `XX`, `YY`). These are
   * also the columns the design matrix evidently means, and the model fits with them.
   */
  function GridBasis(order: Order): (b: seq<Term>)
    ensures order == 1 ==> |b| == 3
    ensures order == 2 ==> |b| == 6
    ensures order == 3 ==> |b| == 10
  {
    match order
    case 1 => [X, Y, One]
    case 2 => [One, X, Y, XY, X2, Y2]
    case 3 => [One, X, Y, X2, XY, Y2, X3, X2Y, XY2, Y3]
  }

  /** True when a monomial does not involve z. */
  predicate PlanarTerm(t: Term) {
    t != Z3
  }

  /** A monomial without z takes the same value whatever z is. */
  lemma PlanarTermIgnoresZ(t: Term, x: real, y: real, z: real, z': real)
    requires PlanarTerm(t)
    ensures Eval(t, x, y, z) == Eval(t, x, y, z')
  {
  }

  /** A combination of monomials without z is a function of x and y alone. */
  lemma {:induction false} CombineIgnoresZ(terms: seq<Term>, cs: seq<real>, n: nat, x: real, y: real, z: real, z': real)
    requires |cs| == |terms| && n <= |terms|
    requires forall i :: 0 <= i < |terms| ==> PlanarTerm(terms[i])
    ensures CombineFirst(terms, cs, n, x, y, z) == CombineFirst(terms, cs, n, x, y, z')
  {
    if n > 0 {
      var t := terms[n - 1];
      assert Weighted(cs[n - 1], t, x, y, z) == Weighted(cs[n - 1], t, x, y, z') by {
        PlanarTermIgnoresZ(t, x, y, z, z');
      }
      CombineIgnoresZ(terms, cs, n - 1, x, y, z, z');
    }
  }

  /**
   * Orders 1 and 2 fit the monomials the grid evaluates. Order 3 as written does not: its
   * tenth column is z³ where the grid uses y³, so the model the coefficients were fitted
   * for and the surface drawn from them disagree. With coefficients (0, ..., 0, 1) at the
   * point (0, 1, 0) the fitted model reads 0 and the drawn surface reads 1.
   */
  lemma FitBasisAsWrittenMismatch()
    ensures FitBasisAsWritten(1) == GridBasis(1) && FitBasisAsWritten(2) == GridBasis(2)
    ensures FitBasisAsWritten(3) != GridBasis(3)
    ensures var cs := [0.0, 0.0, 0.0, 0.0, 0.0, 0.0, 0.0, 0.0, 0.0, 1.0];
      Combine(FitBasisAsWritten(3), cs, 0.0, 1.0, 0.0) == 0.0
      && Combine(GridBasis(3), cs, 0.0, 1.0, 0.0) == 1.0
  {
    assert FitBasisAsWritten(3)[9] != GridBasis(3)[9];
    var cs := [0.0, 0.0, 0.0, 0.0, 0.0, 0.0, 0.0, 0.0, 0.0, 1.0];
    LastTermOnly(FitBasisAsWritten(3), cs, 0.0, 1.0, 0.0);
    LastTermOnly(GridBasis(3), cs, 0.0, 1.0, 0.0);
    assert Eval(Z3, 0.0, 1.0, 0.0) == 0.0;
    assert Eval(Y3, 0.0, 1.0, 0.0) == 1.0;
  }

  /** When only the last coefficient is non-zero, the combination is that coefficient's term. */
  lemma LastTermOnly(terms: seq<Term>, cs: seq<real>, x: real, y: real, z: real)
    requires |cs| == |terms| > 0
    requires forall i :: 0 <= i < |cs| - 1 ==> cs[i] == 0.0
    ensures Combine(terms, cs, x, y, z) == Weighted(cs[|cs| - 1], terms[|cs| - 1], x, y, z)
  {
    CombineFirstZeros(terms, cs, |cs| - 1, x, y, z);
  }

  /** Terms whose coefficients are zero contribute nothing. */
  lemma {:induction false} CombineFirstZeros(terms: seq<Term>, cs: seq<real>, n: nat, x: real, y: real, z: real)
    requires |cs| == |terms| && n <= |terms|
    requires forall i :: 0 <= i < n ==> cs[i] == 0.0
    ensures CombineFirst(terms, cs, n, x, y, z) == 0.0
  {
    if n > 0 {
      CombineFirstZeros(terms, cs, n - 1, x, y, z);
    }
  }

  /**
   * With the corrected columns, every order fits exactly the monomials the grid evaluates,
   * none of them involves z, and so the fitted model at a data point equals the drawn
   * surface above that point's (x, y).
   */
  lemma FitBasisMatchesGrid(order: Order, cs: seq<real>, x: real, y: real, z: real)
    requires |cs| == |GridBasis(order)|
    ensures forall i :: 0 <= i < |GridBasis(order)| ==> PlanarTerm(GridBasis(order)[i])
    ensures Combine(GridBasis(order), cs, x, y, z) == Combine(GridBasis(order), cs, x, y, 0.0)
  {
    CombineIgnoresZ(GridBasis(order), cs, |cs|, x, y, z, 0.0);
  }

  /** The design matrix `A` handed to `lstsq`: one row per data point, one column per monomial. */
  function DesignMatrix(basis: seq<Term>, xs: seq<real>, ys: seq<real>, zs: seq<real>): (a: seq<seq<real>>)
    requires |xs| == |ys| == |zs|
    ensures |a| == |xs|
    ensures forall i :: 0 <= i < |a| ==> |a[i]| == |basis|
  {
    seq(|xs|, i requires 0 <= i < |xs| =>
      seq(|basis|, j requires 0 <= j < |basis| => Eval(basis[j], xs[i], ys[i], zs[i])))
  }

  /** With the corrected columns the design matrix depends on the data's x and y only. */
  lemma DesignMatrixIgnoresZ(order: Order, xs: seq<real>, ys: seq<real>, zs: seq<real>, zs': seq<real>)
    requires |xs| == |ys| == |zs| == |zs'|
    ensures DesignMatrix(GridBasis(order), xs, ys, zs) == DesignMatrix(GridBasis(order), xs, ys, zs')
  {
    var b := GridBasis(order);
    var a, a' := DesignMatrix(b, xs, ys, zs), DesignMatrix(b, xs, ys, zs');
    forall i | 0 <= i < |xs| ensures a[i] == a'[i] {
      forall j | 0 <= j < |b| ensures a[i][j] == a'[i][j] {
        PlanarTermIgnoresZ(b[j], xs[i], ys[i], zs[i], zs'[i]);
      }
    }
  }

  /**
   * As written, the last column of the order-3 design matrix is the cube of the very
   * z values being fitted, so the matrix changes with the target it is solved against.
   */
  lemma DesignMatrixAsWrittenReadsZ(xs: seq<real>, ys: seq<real>, zs: seq<real>, i: int)
    requires |xs| == |ys| == |zs| && 0 <= i < |xs|
    ensures DesignMatrix(FitBasisAsWritten(3), xs, ys, zs)[i][9] == zs[i] * zs[i] * zs[i]
  {
    var z := zs[i];
    assert FitBasisAsWritten(3)[9] == Z3;
    assert Power(z, 1) == z;
    assert Power(z, 3) == z * (z * z);
  }

  /**
   * The 20 by 20 surface: row r, column c holds the polynomial at the c-th x sample and
   * the r-th y sample, both sampled from the data's minimum to its maximum.
   */
  function SurfaceGrid(order: Order, cs: seq<real>, xs: seq<real>, ys: seq<real>): (zz: seq<seq<real>>)
    requires |cs| == |GridBasis(order)|
    requires |xs| > 0 && |ys| > 0
    ensures |zz| == SurfacePoints
    ensures forall r :: 0 <= r < |zz| ==> |zz[r]| == SurfacePoints
  {
    var gx := Linspace(Min(xs), Max(xs), SurfacePoints);
    var gy := Linspace(Min(ys), Max(ys), SurfacePoints);
    seq(SurfacePoints, r requires 0 <= r < SurfacePoints =>
      seq(SurfacePoints, c requires 0 <= c < SurfacePoints => Combine(GridBasis(order), cs, gx[c], gy[r], 0.0)))
  }

  /** The surface's corners sit above the corners of the data's bounding box. */
  lemma SurfaceGridCorners(order: Order, cs: seq<real>, xs: seq<real>, ys: seq<real>)
    requires |cs| == |GridBasis(order)|
    requires |xs| > 0 && |ys| > 0
    ensures SurfaceGrid(order, cs, xs, ys)[0][0] == Combine(GridBasis(order), cs, Min(xs), Min(ys), 0.0)
    ensures SurfaceGrid(order, cs, xs, ys)[SurfacePoints - 1][SurfacePoints - 1]
         == Combine(GridBasis(order), cs, Max(xs), Max(ys), 0.0)
  {
    LinspaceEnds(Min(xs), Max(xs), SurfacePoints);
    LinspaceEnds(Min(ys), Max(ys), SurfacePoints);
  }

  /** One `{coefficient}monomial` part of a surface label. */
  datatype LabelTerm = LabelTerm(coefficient: Shown, term: Term)

  /** The order in which a label lists its monomials, as the label templates write them. */
  function DisplayOrder(order: Order): (d: seq<Term>)
    ensures |d| == |GridBasis(order)|
    ensures forall i :: 0 <= i < |d| ==> d[i] in GridBasis(order)
  {
    match order
    case 1 => [X, Y, One]
    case 2 => [X2, Y2, XY, X, Y, One]
    case 3 => [X3, Y3, X2Y, XY2, X2, Y2, XY, X, Y, One]
  }

  /**
   * The label as written: the i-th coefficient of `C` is printed in front of the i-th
   * monomial of the template, whatever monomial it was fitted for.
   */
  function SurfaceLabelAsWritten(order: Order, cs: seq<real>): (l: seq<LabelTerm>)
    requires |cs| == |GridBasis(order)|
    ensures |l| == |cs|
  {
    var d := DisplayOrder(order);
    seq(|d|, i requires 0 <= i < |d| => LabelTerm(Classify(cs[i]), d[i]))
  }

  /**
   * For each place of the template, the index of the coefficient fitted for the monomial
   * printed there.
   */
  function LabelSlots(order: Order): (p: seq<nat>)
    ensures |p| == |DisplayOrder(order)|
    ensures forall i :: 0 <= i < |p| ==> p[i] < |GridBasis(order)| && GridBasis(order)[p[i]] == DisplayOrder(order)[i]
  {
    match order
    case 1 => [0, 1, 2]
    case 2 => [4, 5, 3, 1, 2, 0]
    case 3 => [6, 9, 7, 8, 3, 5, 4, 1, 2, 0]
  }

  /**
   * The label evidently intended: the same template, each monomial printed with the
   * coefficient fitted for it.
   */
  function SurfaceLabel(order: Order, cs: seq<real>): (l: seq<LabelTerm>)
    requires |cs| == |GridBasis(order)|
    ensures |l| == |cs|
  {
    var d := DisplayOrder(order);
    var p := LabelSlots(order);
    seq(|d|, i requires 0 <= i < |d| => LabelTerm(Classify(cs[p[i]]), d[i]))
  }

  /** The polynomial a label spells out, read at (x, y). */
  function LabelValue(l: seq<LabelTerm>, x: real, y: real): real {
    LabelValueFirst(l, |l|, x, y)
  }

  /** The sum over the first n parts of a label. */
  function LabelValueFirst(l: seq<LabelTerm>, n: nat, x: real, y: real): real
    requires n <= |l|
  {
    if n == 0 then 0.0
    else LabelValueFirst(l, n - 1, x, y) + Weighted(l[n - 1].coefficient.v, l[n - 1].term, x, y, 0.0)
  }

  /** Both labels list the template's monomials in the template's order. */
  lemma SurfaceLabelLayout(order: Order, cs: seq<real>)
    requires |cs| == |GridBasis(order)|
    ensures forall i :: 0 <= i < |cs| ==>
      SurfaceLabel(order, cs)[i].term == SurfaceLabelAsWritten(order, cs)[i].term == DisplayOrder(order)[i]
  {
  }

  /** A label that pairs coefficient i with monomial i reads as the combination of them. */
  lemma {:induction false} LabelValueIsCombine(l: seq<LabelTerm>, terms: seq<Term>, cs: seq<real>, n: nat, x: real, y: real)
    requires |l| == |terms| == |cs| && n <= |l|
    requires forall i :: 0 <= i < |l| ==> l[i].coefficient.v == cs[i] && l[i].term == terms[i]
    ensures LabelValueFirst(l, n, x, y) == CombineFirst(terms, cs, n, x, y, 0.0)
  {
    if n > 0 {
      LabelValueIsCombine(l, terms, cs, n - 1, x, y);
      assert l[n - 1].coefficient.v == cs[n - 1] && l[n - 1].term == terms[n - 1];
    }
  }

  /** The coefficients in the order the corrected label prints them. */
  function Permuted(order: Order, cs: seq<real>): (p: seq<real>)
    requires |cs| == |GridBasis(order)|
    ensures |p| == |cs|
  {
    var slots := LabelSlots(order);
    seq(|slots|, i requires 0 <= i < |slots| => cs[slots[i]])
  }

  /** The products `cs[k] * terms[k]` at a point. */
  function Products(terms: seq<Term>, cs: seq<real>, x: real, y: real, z: real): (v: seq<real>)
    requires |cs| == |terms|
    ensures |v| == |terms|
  {
    seq(|terms|, k requires 0 <= k < |terms| => Weighted(cs[k], terms[k], x, y, z))
  }

  /** The sum of the first n entries. */
  function Total(v: seq<real>, n: nat): real
    requires n <= |v|
  {
    if n == 0 then 0.0 else Total(v, n - 1) + v[n - 1]
  }

  /** A combination is the sum of its products. */
  lemma {:induction false} CombineIsTotal(terms: seq<Term>, cs: seq<real>, n: nat, x: real, y: real, z: real)
    requires |cs| == |terms| && n <= |terms|
    ensures CombineFirst(terms, cs, n, x, y, z) == Total(Products(terms, cs, x, y, z), n)
  {
    if n > 0 {
      CombineIsTotal(terms, cs, n - 1, x, y, z);
      var v := Products(terms, cs, x, y, z);
      assert v[n - 1] == Weighted(cs[n - 1], terms[n - 1], x, y, z);
    }
  }

  /** The first three entries, summed out. */
  lemma TotalOfThree(v: seq<real>)
    requires |v| >= 3
    ensures Total(v, 3) == v[0] + v[1] + v[2]
  {
    assert Total(v, 1) == v[0];
    assert Total(v, 2) == Total(v, 1) + v[1];
  }

  /** The first six entries, summed out. */
  lemma TotalOfSix(v: seq<real>)
    requires |v| >= 6
    ensures Total(v, 6) == v[0] + v[1] + v[2] + v[3] + v[4] + v[5]
  {
    TotalOfThree(v);
    assert Total(v, 4) == Total(v, 3) + v[3];
    assert Total(v, 5) == Total(v, 4) + v[4];
  }

  /** The first ten entries, summed out. */
  lemma TotalOfTen(v: seq<real>)
    requires |v| >= 10
    ensures Total(v, 10) == v[0] + v[1] + v[2] + v[3] + v[4] + v[5] + v[6] + v[7] + v[8] + v[9]
  {
    TotalOfSix(v);
    assert Total(v, 7) == Total(v, 6) + v[6];
    assert Total(v, 8) == Total(v, 7) + v[7];
    assert Total(v, 9) == Total(v, 8) + v[8];
  }

  /** Summing the entries of b in the order the label slots list them gives the same total. */
  lemma TotalOfSlots(order: Order, a: seq<real>, b: seq<real>)
    requires |a| == |b| == |LabelSlots(order)|
    requires forall i :: 0 <= i < |a| ==> a[i] == b[LabelSlots(order)[i]]
    ensures Total(a, |a|) == Total(b, |b|)
  {
    var p := LabelSlots(order);
    match order
    case 1 =>
      assert p == [0, 1, 2];
      assert a[0] == b[p[0]] && a[1] == b[p[1]] && a[2] == b[p[2]];
      LinearSlotsTotal(a, b);
    case 2 =>
      assert p == [4, 5, 3, 1, 2, 0];
      assert a[0] == b[p[0]] && a[1] == b[p[1]] && a[2] == b[p[2]];
      assert a[3] == b[p[3]] && a[4] == b[p[4]] && a[5] == b[p[5]];
      QuadraticSlotsTotal(a, b);
    case 3 =>
      assert p == [6, 9, 7, 8, 3, 5, 4, 1, 2, 0];
      assert a[0] == b[p[0]] && a[1] == b[p[1]] && a[2] == b[p[2]] && a[3] == b[p[3]] && a[4] == b[p[4]];
      assert a[5] == b[p[5]] && a[6] == b[p[6]] && a[7] == b[p[7]] && a[8] == b[p[8]] && a[9] == b[p[9]];
      CubicSlotsTotal(a, b);
  }

  /** The order-1 slots keep three entries in place. */
  lemma LinearSlotsTotal(a: seq<real>, b: seq<real>)
    requires |a| == |b| == 3
    requires a[0] == b[0] && a[1] == b[1] && a[2] == b[2]
    ensures Total(a, 3) == Total(b, 3)
  {
    TotalOfThree(a);
    TotalOfThree(b);
  }

  /** The order-2 slots reorder six entries without changing their total. */
  lemma QuadraticSlotsTotal(a: seq<real>, b: seq<real>)
    requires |a| == |b| == 6
    requires a[0] == b[4] && a[1] == b[5] && a[2] == b[3] && a[3] == b[1] && a[4] == b[2] && a[5] == b[0]
    ensures Total(a, 6) == Total(b, 6)
  {
    TotalOfSix(a);
    TotalOfSix(b);
  }

  /** The order-3 slots reorder ten entries without changing their total. */
  lemma CubicSlotsTotal(a: seq<real>, b: seq<real>)
    requires |a| == |b| == 10
    requires a[0] == b[6] && a[1] == b[9] && a[2] == b[7] && a[3] == b[8] && a[4] == b[3]
    requires a[5] == b[5] && a[6] == b[4] && a[7] == b[1] && a[8] == b[2] && a[9] == b[0]
    ensures Total(a, 10) == Total(b, 10)
  {
    TotalOfTen(a);
    TotalOfTen(b);
  }

  /** Each product of the template order is the product of the slot it names. */
  lemma SlotProducts(order: Order, cs: seq<real>, x: real, y: real, i: nat)
    requires |cs| == |GridBasis(order)| && i < |cs|
    ensures Products(DisplayOrder(order), Permuted(order, cs), x, y, 0.0)[i]
         == Products(GridBasis(order), cs, x, y, 0.0)[LabelSlots(order)[i]]
  {
    var k := LabelSlots(order)[i];
    assert DisplayOrder(order)[i] == GridBasis(order)[k];
    assert Permuted(order, cs)[i] == cs[k];
  }

  /** The monomials listed in template order, with their coefficients, sum to the surface. */
  lemma DisplayOrderSum(order: Order, cs: seq<real>, x: real, y: real)
    requires |cs| == |GridBasis(order)|
    ensures CombineFirst(DisplayOrder(order), Permuted(order, cs), |cs|, x, y, 0.0)
         == CombineFirst(GridBasis(order), cs, |cs|, x, y, 0.0)
  {
    var a := Products(DisplayOrder(order), Permuted(order, cs), x, y, 0.0);
    var b := Products(GridBasis(order), cs, x, y, 0.0);
    CombineIsTotal(DisplayOrder(order), Permuted(order, cs), |cs|, x, y, 0.0);
    CombineIsTotal(GridBasis(order), cs, |cs|, x, y, 0.0);
    forall i | 0 <= i < |a|
      ensures a[i] == b[LabelSlots(order)[i]]
    {
      SlotProducts(order, cs, x, y, i);
    }
    TotalOfSlots(order, a, b);
  }

  /** The linear label is right as written: it reads the drawn plane. */
  lemma LinearLabelReadsSurface(cs: seq<real>, x: real, y: real)
    requires |cs| == 3
    ensures LabelValue(SurfaceLabelAsWritten(1, cs), x, y) == Combine(GridBasis(1), cs, x, y, 0.0)
  {
    LabelValueIsCombine(SurfaceLabelAsWritten(1, cs), DisplayOrder(1), cs, 3, x, y);
  }

  /**
   * The quadratic label as written misreads the surface: when only the constant
   * coefficient c is non-zero (for instance C = (1, 0, 0, 0, 0, 0)) the surface is c
   * everywhere, but the label prints c in front of x² and reads c·x², which is 0 at x = 0.
   */
  lemma QuadraticLabelAsWrittenMisreads(cs: seq<real>, x: real, y: real)
    requires |cs| == 6
    requires forall i :: 1 <= i < 6 ==> cs[i] == 0.0
    ensures LabelValue(SurfaceLabelAsWritten(2, cs), x, y) == cs[0] * Power(x, 2)
    ensures Combine(GridBasis(2), cs, x, y, 0.0) == cs[0]
  {
    LabelValueIsCombine(SurfaceLabelAsWritten(2, cs), DisplayOrder(2), cs, 6, x, y);
    OnlyFirstCoefficient(DisplayOrder(2), cs, 6, x, y);
    OnlyFirstCoefficient(GridBasis(2), cs, 6, x, y);
  }

  /**
   * The cubic label as written misreads the surface the same way: the constant
   * coefficient c is printed in front of x³, so the label reads c·x³.
   */
  lemma CubicLabelAsWrittenMisreads(cs: seq<real>, x: real, y: real)
    requires |cs| == 10
    requires forall i :: 1 <= i < 10 ==> cs[i] == 0.0
    ensures LabelValue(SurfaceLabelAsWritten(3, cs), x, y) == cs[0] * Power(x, 3)
    ensures Combine(GridBasis(3), cs, x, y, 0.0) == cs[0]
  {
    LabelValueIsCombine(SurfaceLabelAsWritten(3, cs), DisplayOrder(3), cs, 10, x, y);
    OnlyFirstCoefficient(DisplayOrder(3), cs, 10, x, y);
    OnlyFirstCoefficient(GridBasis(3), cs, 10, x, y);
  }

  /** True when every coefficient but the constant (the first) is zero: a flat surface. */
  predicate OnlyConstant(cs: seq<real>) {
    forall k :: 1 <= k < |cs| ==> cs[k] == 0.0
  }

  /**
   * How the label as written reads the surface value z drawn at (x, y): the plane's
   * label reads z; with only the constant coefficient non-zero, the quadratic and cubic
   * labels read c·x² and c·x³ where z is the constant c.
   */
  predicate ReadsAsWritten(order: Order, cs: seq<real>, l: seq<LabelTerm>, x: real, y: real, z: real)
    requires |cs| == |GridBasis(order)|
  {
    && (order == 1 ==> LabelValue(l, x, y) == z)
    && (order > 1 && OnlyConstant(cs) ==> LabelValue(l, x, y) == cs[0] * Power(x, order) && z == cs[0])
  }

  /** The label as written reads the drawn surface as `ReadsAsWritten` says. */
  lemma PolyLabelAsWrittenReads(order: Order, cs: seq<real>, l: seq<LabelTerm>, x: real, y: real, z: real)
    requires |cs| == |GridBasis(order)|
    requires l == SurfaceLabelAsWritten(order, cs) && z == Combine(GridBasis(order), cs, x, y, 0.0)
    ensures order == 1 ==> LabelValue(l, x, y) == z
    ensures order > 1 && OnlyConstant(cs) ==> LabelValue(l, x, y) == cs[0] * Power(x, order) && z == cs[0]
    ensures ReadsAsWritten(order, cs, l, x, y, z)
  {
    if order == 1 {
      LinearLabelReadsSurface(cs, x, y);
    } else if OnlyConstant(cs) {
      if order == 2 {
        QuadraticLabelAsWrittenMisreads(cs, x, y);
      } else {
        CubicLabelAsWrittenMisreads(cs, x, y);
      }
    }
  }

  /** At the origin both misread labels read 0 where the surface reads its constant 1. */
  lemma LabelsAsWrittenAtOrigin()
    ensures LabelValue(SurfaceLabelAsWritten(2, [1.0, 0.0, 0.0, 0.0, 0.0, 0.0]), 0.0, 0.0) == 0.0
    ensures Combine(GridBasis(2), [1.0, 0.0, 0.0, 0.0, 0.0, 0.0], 0.0, 0.0, 0.0) == 1.0
    ensures LabelValue(SurfaceLabelAsWritten(3, [1.0, 0.0, 0.0, 0.0, 0.0, 0.0, 0.0, 0.0, 0.0, 0.0]), 0.0, 0.0) == 0.0
    ensures Combine(GridBasis(3), [1.0, 0.0, 0.0, 0.0, 0.0, 0.0, 0.0, 0.0, 0.0, 0.0], 0.0, 0.0, 0.0) == 1.0
  {
    QuadraticLabelAsWrittenMisreads([1.0, 0.0, 0.0, 0.0, 0.0, 0.0], 0.0, 0.0);
    CubicLabelAsWrittenMisreads([1.0, 0.0, 0.0, 0.0, 0.0, 0.0, 0.0, 0.0, 0.0, 0.0], 0.0, 0.0);
  }

  /** When only the first coefficient is non-zero, the combination is that coefficient's term. */
  lemma {:induction false} OnlyFirstCoefficient(terms: seq<Term>, cs: seq<real>, n: nat, x: real, y: real)
    requires |cs| == |terms| && 0 < n <= |terms|
    requires forall i :: 1 <= i < |cs| ==> cs[i] == 0.0
    ensures CombineFirst(terms, cs, n, x, y, 0.0) == cs[0] * Eval(terms[0], x, y, 0.0)
  {
    if n > 1 {
      OnlyFirstCoefficient(terms, cs, n - 1, x, y);
    }
  }

  /**
   * The corrected label reads the drawn surface at every point, for every order and every
   * set of coefficients.
   */
  lemma SurfaceLabelReadsSurface(order: Order, cs: seq<real>, x: real, y: real)
    requires |cs| == |GridBasis(order)|
    ensures LabelValue(SurfaceLabel(order, cs), x, y) == Combine(GridBasis(order), cs, x, y, 0.0)
  {
    LabelValueIsCombine(SurfaceLabel(order, cs), DisplayOrder(order), Permuted(order, cs), |cs|, x, y);
    DisplayOrderSum(order, cs, x, y);
  }
}
