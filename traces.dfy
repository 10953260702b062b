/**
 * The graph callbacks of app/home.py: `update_comp1_2D_graph`, `update_comp1_3D_graph`
 * and their comp2 twins. Each one filters and cleans the table, then walks the study
 * list and, for every study with more than two cleaned rows, appends the traces the
 * chosen options ask for; it returns the traces, the legend layout and the table of the
 * axis columns.
 */
module Traces {
  import opened Records
  import opened Seqs
  import opened Filtering
  import opened Aggregate
  import opened Normalize
  import opened Formatting
  import opened Grids
  import opened Surfaces
  import opened Curves

  datatype Option<T> = None | Some(value: T)

  /**
   * The options of the trace checklist: "Scatter", "Line", "Poly-Fit", "Log-Fit",
   * "Exp-Fit" and "Power-Fit".
   */
  datatype TraceOption = Scatter | Line | PolyFit | LogFit | ExpFit | PowerFit

  /**
   * The options of the normalise checklist: "Normalize X", "Normalize Y", "Normalize Z"
   * and "Average Y-axis".
   */
  datatype NormalizeOption = NormalizeX | NormalizeY | NormalizeZ | AverageYAxis

  /** The trace options that compete for a study's legend entry, in order of precedence. */
  const Priority: seq<TraceOption> := [Scatter, PolyFit, LogFit, ExpFit, PowerFit]

  /** A graph callback's inputs besides the facet selection. */
  datatype Query = Query(axes: Axes, normalize: seq<NormalizeOption>, fit: seq<TraceOption>, order: Order)

  /** The numerical solvers: `np.polyfit`, `np.linalg.lstsq` and `curve_fit` for curves and surfaces. */
  datatype Solvers = Solvers(
    polyfit: (seq<real>, seq<real>, Order) -> seq<real>,
    lstsq: (seq<seq<real>>, seq<real>) -> seq<real>,
    curveFit: (Family, seq<real>, seq<real>) -> seq<real>,
    surfaceFit: (Family, seq<real>, seq<real>, seq<real>) -> seq<real>,
    numerics: Numerics)
  {
    /** Each solver returns one coefficient per term of the model it fits. */
    ghost predicate Valid() {
      && (forall xs, ys, o: Order :: |polyfit(xs, ys, o)| == o + 1)
      && (forall a, zs :: |a| > 0 ==> |lstsq(a, zs)| == |a[0]|)
      && (forall f, xs, ys :: |curveFit(f, xs, ys)| == 3)
      && (forall f, xs, ys, zs :: |surfaceFit(f, xs, ys, zs)| == 4)
    }
  }

  /** How a point trace is drawn (`mode`). */
  datatype Mode = Markers | LinesAndMarkers | Lines

  /** What a trace draws. */
  datatype Shape =
    | Points(mode: Mode, rows: seq<Row>, xs: seq<real>, ys: seq<real>, zs: seq<real>)
    | PolyCurve(xs: seq<real>, ys: seq<real>, coefficients: seq<Shown>, rSquared: RSquared)
    | FitCurve(family: Family, xs: seq<real>, ys: seq<real>, parameters: seq<Shown>)
    | PolySurface(gx: seq<real>, gy: seq<real>, zz: seq<seq<real>>, equation: seq<LabelTerm>)
    | FitSurface(family: Family, gx: seq<real>, gy: seq<real>, zz: seq<seq<real>>, parameters: seq<Shown>)

  /** One trace: its `name` (also its `legendgroup`), `showlegend`, the study's colour and its shape. */
  datatype Trace = Trace(name: string, showLegend: bool, color: string, shape: Shape)

  /** The trace option a fit family answers to. */
  function FamilyOption(f: Family): TraceOption {
    match f
    case Logarithmic => LogFit
    case Exponential => ExpFit
    case PowerLaw => PowerFit
  }

  /** The trace option that produced a trace; Scatter for markers with or without lines. */
  function KindOf(t: Trace): TraceOption {
    match t.shape
    case Points(mode, _, _, _, _) => if mode == Lines then Line else Scatter
    case PolyCurve(_, _, _, _) => PolyFit
    case PolySurface(_, _, _, _) => PolyFit
    case FitCurve(f, _, _, _) => FamilyOption(f)
    case FitSurface(f, _, _, _, _) => FamilyOption(f)
  }

  /** `showLegend` of the Poly-Fit trace. */
  function PolyLegend(fit: seq<TraceOption>): bool {
    !(Scatter in fit)
  }

  /** `showLegend` of the Log-Fit, Exp-Fit and Power-Fit traces. */
  function FamilyLegend(fit: seq<TraceOption>, f: Family): bool {
    match f
    case Logarithmic => !(Scatter in fit || PolyFit in fit)
    case Exponential => !(Scatter in fit || PolyFit in fit || LogFit in fit)
    case PowerLaw => !(Scatter in fit || PolyFit in fit || LogFit in fit || ExpFit in fit)
  }

  /** The first of `ps` that is selected in `fit`. */
  function FirstIn(ps: seq<TraceOption>, fit: seq<TraceOption>): (r: Option<TraceOption>)
    ensures r.Some? ==> r.value in ps && r.value in fit
    ensures r.None? <==> forall p :: p in ps ==> p !in fit
  {
    if ps == [] then None
    else if ps[0] in fit then Some(ps[0])
    else FirstIn(ps[1..], fit)
  }

  /** The cascade of precedence: Scatter, then Poly-Fit, Log-Fit, Exp-Fit and Power-Fit. */
  lemma FirstSelectedCases(fit: seq<TraceOption>)
    ensures FirstIn(Priority, fit) ==
      if Scatter in fit then Some(Scatter)
      else if PolyFit in fit then Some(PolyFit)
      else if LogFit in fit then Some(LogFit)
      else if ExpFit in fit then Some(ExpFit)
      else if PowerFit in fit then Some(PowerFit)
      else None
  {
    var p1: seq<TraceOption> := [PolyFit, LogFit, ExpFit, PowerFit];
    var p2: seq<TraceOption> := [LogFit, ExpFit, PowerFit];
    var p3: seq<TraceOption> := [ExpFit, PowerFit];
    var p4: seq<TraceOption> := [PowerFit];
    assert Priority[1..] == p1 && p1[1..] == p2 && p2[1..] == p3 && p3[1..] == p4 && p4[1..] == [];
    assert FirstIn(p4, fit) == if PowerFit in fit then Some(PowerFit) else None;
    assert FirstIn(p3, fit) == if ExpFit in fit then Some(ExpFit) else FirstIn(p4, fit);
    assert FirstIn(p2, fit) == if LogFit in fit then Some(LogFit) else FirstIn(p3, fit);
    assert FirstIn(p1, fit) == if PolyFit in fit then Some(PolyFit) else FirstIn(p2, fit);
  }

  /**
   * A selected fit trace shows its legend exactly when its option is the first selected
   * one in the order of precedence; "Line" plays no part.
   */
  lemma LegendIsFirstSelected(fit: seq<TraceOption>)
    ensures PolyFit in fit ==> (PolyLegend(fit) <==> FirstIn(Priority, fit) == Some(PolyFit))
    ensures forall f :: FamilyOption(f) in fit ==>
      (FamilyLegend(fit, f) <==> FirstIn(Priority, fit) == Some(FamilyOption(f)))
    ensures PolyLegend(fit + [Line]) == PolyLegend(fit)
    ensures forall f :: FamilyLegend(fit + [Line], f) == FamilyLegend(fit, f)
  {
    FirstSelectedCases(fit);
  }

  /** The fit options, as opposed to "Scatter" and "Line". */
  predicate IsFit(o: TraceOption) {
    o == PolyFit || o == LogFit || o == ExpFit || o == PowerFit
  }

  /** The place of a trace option among a study's traces: points first, then the fits in order. */
  function Rank(o: TraceOption): nat {
    match o
    case Scatter => 0
    case Line => 0
    case PolyFit => 1
    case LogFit => 2
    case ExpFit => 3
    case PowerFit => 4
  }

  /** The traces' options strictly follow the order points, Poly-Fit, Log-Fit, Exp-Fit, Power-Fit. */
  predicate Ranked(ts: seq<Trace>) {
    forall i, j :: 0 <= i < j < |ts| ==> Rank(KindOf(ts[i])) < Rank(KindOf(ts[j]))
  }

  /** Two ranked runs, the first ranked wholly below the second, make one ranked run. */
  lemma RankedAppend(a: seq<Trace>, b: seq<Trace>)
    requires Ranked(a) && Ranked(b)
    requires forall t, u :: t in a && u in b ==> Rank(KindOf(t)) < Rank(KindOf(u))
    ensures Ranked(a + b)
  {
    var ab := a + b;
    forall i, j | 0 <= i < j < |ab| ensures Rank(KindOf(ab[i])) < Rank(KindOf(ab[j])) {
      if j < |a| {
        assert ab[i] == a[i] && ab[j] == a[j];
      } else if i < |a| {
        assert ab[i] in a && ab[j] in b;
      } else {
        assert ab[i] == b[i - |a|] && ab[j] == b[j - |a|];
      }
    }
  }

  /** One cleaned study: the rows `cleaned[cleaned.Study == study]`, in order. */
  function StudyRows(cleaned: seq<Row>, study: string): (rows: seq<Row>)
    ensures forall r :: r in rows <==> r in cleaned && r.study == study
  {
    Keep(cleaned, (r: Row) => r.study == study)
  }

  /** Every row holds every axis column. */
  predicate Complete(rows: seq<Row>, axes: Axes) {
    forall r :: r in rows ==> HasAll(r, axes.Columns())
  }

  /** The axis columns are among the columns the cleaning checked. */
  lemma AxesInColumns(axes: Axes)
    ensures axes.x in axes.Columns() && axes.y in axes.Columns()
    ensures axes.Axes3? ==> axes.z in axes.Columns()
  {
  }

  /** Every row belongs to `study`. */
  predicate OfStudy(rows: seq<Row>, study: string) {
    forall r :: r in rows ==> r.study == study
  }

  /** Complete 2D rows hold both axis columns. */
  lemma CompleteHasAxes(rows: seq<Row>, x: string, y: string)
    requires Complete(rows, Axes2(x, y))
    ensures HasAxes(rows, x, y)
  {
    var cols := Axes2(x, y).Columns();
    assert x in cols && y in cols;
    forall i | 0 <= i < |rows| ensures x in rows[i].measures && y in rows[i].measures {
      assert rows[i] in rows;
    }
  }

  /** Averaging a study's complete rows leaves a non-empty set of complete rows of that study. */
  lemma AveragedComplete(rows: seq<Row>, study: string, x: string, y: string)
    requires |rows| > 0 && Complete(rows, Axes2(x, y)) && OfStudy(rows, study)
    ensures HasAxes(rows, x, y)
    ensures var out := Averaged(rows, x, y);
      |out| > 0 && Complete(out, Axes2(x, y)) && OfStudy(out, study)
      && (forall r :: r in out ==> exists i :: 0 <= i < |rows| && r.color == rows[i].color)
  {
    CompleteHasAxes(rows, x, y);
    assert AtX(rows[0], x, rows[0].measures[x]);
    assert Occurs(rows, x, rows[0].measures[x]);
    assert rows[0].study == study by {
      assert rows[0] in rows;
    }
    assert forall i :: 0 <= i < |rows| ==> rows[i].study == study by {
      forall i | 0 <= i < |rows| ensures rows[i].study == study {
        assert rows[i] in rows;
      }
    }
    AveragedKeepsStudy(rows, x, y, study);
    AveragedRows(Averaged(rows, x, y), rows, study, x, y);
  }

  /** Rows indexed with both axes, the study and a source colour are complete rows of the study. */
  lemma AveragedRows(out: seq<Row>, rows: seq<Row>, study: string, x: string, y: string)
    requires HasAxes(out, x, y)
    requires forall k :: 0 <= k < |out| ==> out[k].study == study
    requires forall k :: 0 <= k < |out| ==> exists i :: 0 <= i < |rows| && out[k].color == rows[i].color
    ensures Complete(out, Axes2(x, y)) && OfStudy(out, study)
    ensures forall r :: r in out ==> exists i :: 0 <= i < |rows| && r.color == rows[i].color
  {
    var cols := Axes2(x, y).Columns();
    assert cols == [x, y];
    forall r | r in out
      ensures HasAll(r, cols) && r.study == study
      ensures exists i :: 0 <= i < |rows| && r.color == rows[i].color
    {
      var k :| 0 <= k < |out| && out[k] == r;
    }
  }

  /**
   * A study's rows as plotted: averaged by x in 2D when "Average Y-axis" is chosen.
   * They stay complete rows of the study, each coloured as one of its rows.
   */
  function PlotRows(q: Query, study: string, rows: seq<Row>): (r: seq<Row>)
    requires |rows| > 0 && Complete(rows, q.axes) && OfStudy(rows, study)
    ensures |r| > 0 && Complete(r, q.axes) && OfStudy(r, study)
    ensures forall x :: x in r ==> exists i :: 0 <= i < |rows| && x.color == rows[i].color
    ensures !(q.axes.Axes2? && AverageYAxis in q.normalize) ==> r == rows
  {
    if q.axes.Axes2? && AverageYAxis in q.normalize then
      AveragedComplete(rows, study, q.axes.x, q.axes.y);
      Averaged(rows, q.axes.x, q.axes.y)
    else
      assert forall x :: x in rows ==> exists i :: 0 <= i < |rows| && x.color == rows[i].color by {
        forall x | x in rows ensures exists i :: 0 <= i < |rows| && x.color == rows[i].color {
          var i :| 0 <= i < |rows| && rows[i] == x;
        }
      }
      rows
  }

  /** One axis of a study's points: `np.array(name_array[col])`, normalised when chosen. */
  function AxisValues(rows: seq<Row>, col: string, normalize: bool): (v: seq<real>)
    requires |rows| > 0
    requires forall i :: 0 <= i < |rows| ==> col in rows[i].measures
    ensures |v| == |rows|
  {
    if normalize then Normalized(Values(rows, col)) else Values(rows, col)
  }

  /** The scatter or line trace of a study, if "Scatter" or "Line" is chosen. */
  function PointTraces(fit: seq<TraceOption>, study: string, color: string, rows: seq<Row>,
                       xs: seq<real>, ys: seq<real>, zs: seq<real>): (ts: seq<Trace>)
    ensures |ts| <= 1
    ensures ts != [] <==> Scatter in fit || Line in fit
    ensures forall t :: t in ts ==>
      && t.name == study && t.showLegend && t.color == color && t.shape.Points? && t.shape.rows == rows
      && KindOf(t) == (if Scatter in fit then Scatter else Line)
  {
    if Scatter in fit then
      var mode := if Line in fit then LinesAndMarkers else Markers;
      [Trace(study, true, color, Points(mode, rows, xs, ys, zs))]
    else if Line in fit then
      [Trace(study, true, color, Points(Lines, rows, xs, ys, zs))]
    else
      []
  }

  /** The 2D polynomial: `np.polyfit`, drawn at 1000 points from the first to the last x. */
  function PolyCurveShape(order: Order, s: Solvers, xs: seq<real>, ys: seq<real>): (sh: Shape)
    requires s.Valid() && |xs| == |ys| > 0
    ensures sh.PolyCurve? && |sh.xs| == |sh.ys| == CurvePoints
  {
    var cs := s.polyfit(xs, ys, order);
    var gx := Linspace(xs[0], xs[|xs| - 1], CurvePoints);
    var gy := seq(CurvePoints, i requires 0 <= i < CurvePoints => PolyValue(cs, gx[i]));
    PolyCurve(gx, gy, Rendered(cs), RSquaredOf(order, xs, ys, cs))
  }

  /**
   * The 3D polynomial as the callback computes it: least squares over the design matrix
   * as written (ending in z³ for order 3), the grid evaluated with the grid monomials,
   * and the label printing `C` in template order.
   */
  function PolySurfaceShape(order: Order, s: Solvers, xs: seq<real>, ys: seq<real>, zs: seq<real>): (sh: Shape)
    requires s.Valid() && |xs| == |ys| == |zs| > 0
    ensures sh.PolySurface? && |sh.gx| == |sh.gy| == |sh.zz| == SurfacePoints
    ensures |sh.equation| == |GridBasis(order)|
  {
    var cs := PolySurfaceCoefficients(order, s, xs, ys, zs);
    var gx := Linspace(Min(xs), Max(xs), SurfacePoints);
    var gy := Linspace(Min(ys), Max(ys), SurfacePoints);
    PolySurface(gx, gy, SurfaceGrid(order, cs, xs, ys), SurfaceLabelAsWritten(order, cs))
  }

  /** `C`: what `lstsq` returns for the design matrix as written, one coefficient per grid monomial. */
  function PolySurfaceCoefficients(order: Order, s: Solvers, xs: seq<real>, ys: seq<real>, zs: seq<real>): (cs: seq<real>)
    requires s.Valid() && |xs| == |ys| == |zs| > 0
    ensures |cs| == |FitBasisAsWritten(order)| == |GridBasis(order)|
  {
    var a := DesignMatrix(FitBasisAsWritten(order), xs, ys, zs);
    assert |a[0]| == |FitBasisAsWritten(order)|;
    s.lstsq(a, zs)
  }

  /**
   * A 2D log, exp or power fit, drawn at 1000 points from the first to the last x; its
   * label prints the parameters as fitted.
   */
  function FitCurveShape(f: Family, s: Solvers, xs: seq<real>, ys: seq<real>): (sh: Shape)
    requires s.Valid() && |xs| > 0
    ensures sh.FitCurve? && sh.family == f && |sh.xs| == |sh.ys| == CurvePoints
  {
    var p := s.curveFit(f, xs, ys);
    var gx := Linspace(xs[0], xs[|xs| - 1], CurvePoints);
    var gy := seq(CurvePoints, i requires 0 <= i < CurvePoints => FittedCurve(f, s.numerics, p, gx[i]));
    FitCurve(f, gx, gy, LabelAsWritten(p))
  }

  /**
   * A 3D log, exp or power fit, drawn on the 20 by 20 grid over the data's x and y range;
   * its label prints the parameters as fitted.
   */
  function FitSurfaceShape(f: Family, s: Solvers, xs: seq<real>, ys: seq<real>, zs: seq<real>): (sh: Shape)
    requires s.Valid() && |xs| > 0 && |ys| > 0
    ensures sh.FitSurface? && sh.family == f && |sh.gx| == |sh.gy| == |sh.zz| == SurfacePoints
  {
    var p := s.surfaceFit(f, xs, ys, zs);
    var gx := Linspace(Min(xs), Max(xs), SurfacePoints);
    var gy := Linspace(Min(ys), Max(ys), SurfacePoints);
    var zz := seq(SurfacePoints, r requires 0 <= r < SurfacePoints =>
      seq(SurfacePoints, c requires 0 <= c < SurfacePoints => FittedSurface(f, s.numerics, p, gx[c], gy[r])));
    FitSurface(f, gx, gy, zz, LabelAsWritten(p))
  }

  /** The Poly-Fit trace of a study. */
  function PolyTrace(q: Query, s: Solvers, study: string, color: string, legend: bool,
                     xs: seq<real>, ys: seq<real>, zs: seq<real>): (t: Trace)
    requires s.Valid() && |xs| == |ys| > 0 && (q.axes.Axes3? ==> |zs| == |xs|)
    ensures t.name == study && t.showLegend == legend && t.color == color && KindOf(t) == PolyFit
  {
    var shape := if q.axes.Axes2? then PolyCurveShape(q.order, s, xs, ys) else PolySurfaceShape(q.order, s, xs, ys, zs);
    Trace(study, legend, color, shape)
  }

  /** The Log-Fit, Exp-Fit or Power-Fit trace of a study. */
  function FitTrace(q: Query, f: Family, s: Solvers, study: string, color: string, legend: bool,
                    xs: seq<real>, ys: seq<real>, zs: seq<real>): (t: Trace)
    requires s.Valid() && |xs| == |ys| > 0
    ensures t.name == study && t.showLegend == legend && t.color == color && KindOf(t) == FamilyOption(f)
  {
    var shape := if q.axes.Axes2? then FitCurveShape(f, s, xs, ys) else FitSurfaceShape(f, s, xs, ys, zs);
    Trace(study, legend, color, shape)
  }

  /**
   * `ts` is what fit option `o` contributes: nothing when it is not selected, otherwise
   * one trace of the study, of that option, that shows its legend exactly when `o` is
   * the first selected option in the order of precedence.
   */
  predicate PieceOf(ts: seq<Trace>, o: TraceOption, fit: seq<TraceOption>, study: string, color: string) {
    && |ts| <= 1 && (ts != [] <==> o in fit)
    && forall t :: t in ts ==>
      && t.name == study && t.color == color && !t.shape.Points? && KindOf(t) == o
      && (t.showLegend <==> FirstIn(Priority, fit) == Some(o))
  }

  /** The trace one fit option adds, if it is selected, with the legend flag the callback computes. */
  function FitPiece(q: Query, o: TraceOption, s: Solvers, study: string, color: string,
                    xs: seq<real>, ys: seq<real>, zs: seq<real>): (ts: seq<Trace>)
    requires IsFit(o)
    requires s.Valid() && |xs| == |ys| > 0 && (q.axes.Axes3? ==> |zs| == |xs|)
    ensures |ts| <= 1 && (ts != [] <==> o in q.fit)
    ensures forall t :: t in ts ==> t.name == study && t.color == color && !t.shape.Points? && KindOf(t) == o
  {
    var fit := q.fit;
    if o !in fit then []
    else if o == PolyFit then [PolyTrace(q, s, study, color, PolyLegend(fit), xs, ys, zs)]
    else if o == LogFit then [FitTrace(q, Logarithmic, s, study, color, FamilyLegend(fit, Logarithmic), xs, ys, zs)]
    else if o == ExpFit then [FitTrace(q, Exponential, s, study, color, FamilyLegend(fit, Exponential), xs, ys, zs)]
    else [FitTrace(q, PowerLaw, s, study, color, FamilyLegend(fit, PowerLaw), xs, ys, zs)]
  }

  /** A fit trace shows its legend exactly when its option is the first selected one. */
  lemma FitPieceLegend(q: Query, o: TraceOption, s: Solvers, study: string, color: string,
                       xs: seq<real>, ys: seq<real>, zs: seq<real>)
    requires IsFit(o)
    requires s.Valid() && |xs| == |ys| > 0 && (q.axes.Axes3? ==> |zs| == |xs|)
    ensures PieceOf(FitPiece(q, o, s, study, color, xs, ys, zs), o, q.fit, study, color)
  {
    LegendIsFirstSelected(q.fit);
  }

  /** What the fit traces are together, given what each fit option contributes. */
  predicate FitRun(ts: seq<Trace>, fit: seq<TraceOption>, study: string, color: string) {
    && (forall t :: t in ts ==>
      && t.name == study && t.color == color && !t.shape.Points?
      && KindOf(t) in fit && IsFit(KindOf(t))
      && (t.showLegend <==> FirstIn(Priority, fit) == Some(KindOf(t))))
    && (forall o :: o in fit && IsFit(o) ==> exists t :: t in ts && KindOf(t) == o)
    && Ranked(ts)
  }

  /** Every trace of the four contributions is a selected fit of the study with the legend rule. */
  lemma PiecesMembers(poly: seq<Trace>, log: seq<Trace>, exp: seq<Trace>, pow: seq<Trace>,
                      fit: seq<TraceOption>, study: string, color: string)
    requires PieceOf(poly, PolyFit, fit, study, color) && PieceOf(log, LogFit, fit, study, color)
    requires PieceOf(exp, ExpFit, fit, study, color) && PieceOf(pow, PowerFit, fit, study, color)
    ensures forall t :: t in poly + log + exp + pow ==>
      && t.name == study && t.color == color && !t.shape.Points?
      && KindOf(t) in fit && IsFit(KindOf(t))
      && (t.showLegend <==> FirstIn(Priority, fit) == Some(KindOf(t)))
  {
    forall t | t in poly + log + exp + pow
      ensures t.name == study && t.color == color && !t.shape.Points?
      ensures KindOf(t) in fit && IsFit(KindOf(t))
      ensures t.showLegend <==> FirstIn(Priority, fit) == Some(KindOf(t))
    {
      var piece := if t in poly then poly else if t in log then log else if t in exp then exp else pow;
      assert t in piece && piece != [];
    }
  }

  /** Every selected fit option has its trace among the four contributions. */
  lemma PiecesCover(poly: seq<Trace>, log: seq<Trace>, exp: seq<Trace>, pow: seq<Trace>,
                    fit: seq<TraceOption>, study: string, color: string)
    requires PieceOf(poly, PolyFit, fit, study, color) && PieceOf(log, LogFit, fit, study, color)
    requires PieceOf(exp, ExpFit, fit, study, color) && PieceOf(pow, PowerFit, fit, study, color)
    ensures forall o :: o in fit && IsFit(o) ==> exists t :: t in poly + log + exp + pow && KindOf(t) == o
  {
    forall o | o in fit && IsFit(o) ensures exists t :: t in poly + log + exp + pow && KindOf(t) == o {
      var piece := if o == PolyFit then poly else if o == LogFit then log else if o == ExpFit then exp else pow;
      assert piece[0] in poly + log + exp + pow;
    }
  }

  /** The four contributions, in the order Poly, Log, Exp, Power, make one fit run. */
  lemma PiecesMakeRun(poly: seq<Trace>, log: seq<Trace>, exp: seq<Trace>, pow: seq<Trace>,
                      fit: seq<TraceOption>, study: string, color: string)
    requires PieceOf(poly, PolyFit, fit, study, color) && PieceOf(log, LogFit, fit, study, color)
    requires PieceOf(exp, ExpFit, fit, study, color) && PieceOf(pow, PowerFit, fit, study, color)
    ensures FitRun(poly + log + exp + pow, fit, study, color)
  {
    PiecesRanked(poly, log, exp, pow);
    PiecesMembers(poly, log, exp, pow, fit, study, color);
    PiecesCover(poly, log, exp, pow, fit, study, color);
  }

  /** Four runs of at most one trace each, of ranks 1, 2, 3 and 4, are ranked in that order. */
  lemma PiecesRanked(poly: seq<Trace>, log: seq<Trace>, exp: seq<Trace>, pow: seq<Trace>)
    requires |poly| <= 1 && |log| <= 1 && |exp| <= 1 && |pow| <= 1
    requires forall t :: t in poly ==> Rank(KindOf(t)) == 1
    requires forall t :: t in log ==> Rank(KindOf(t)) == 2
    requires forall t :: t in exp ==> Rank(KindOf(t)) == 3
    requires forall t :: t in pow ==> Rank(KindOf(t)) == 4
    ensures Ranked(poly + log + exp + pow)
  {
    assert poly + log + exp + pow == poly + (log + (exp + pow));
    assert Ranked(exp + pow) by {
      RankedAppend(exp, pow);
    }
    assert Ranked(log + (exp + pow)) by {
      forall t, u | t in log && u in exp + pow ensures Rank(KindOf(t)) < Rank(KindOf(u)) {
        assert u in exp || u in pow;
      }
      RankedAppend(log, exp + pow);
    }
    forall t, u | t in poly && u in log + (exp + pow) ensures Rank(KindOf(t)) < Rank(KindOf(u)) {
      assert u in log || u in exp || u in pow;
    }
    RankedAppend(poly, log + (exp + pow));
  }

  /**
   * The fit traces of a study, in the order the callback appends them (Poly-Fit, Log-Fit,
   * Exp-Fit, Power-Fit): one per selected fit option, and a trace shows its legend exactly
   * when its option is the first selected one in the order of precedence.
   */
  function FitTraces(q: Query, s: Solvers, study: string, color: string,
                     xs: seq<real>, ys: seq<real>, zs: seq<real>): (ts: seq<Trace>)
    requires s.Valid() && |xs| == |ys| > 0 && (q.axes.Axes3? ==> |zs| == |xs|)
    ensures forall t :: t in ts ==> t.name == study && t.color == color && !t.shape.Points?
  {
    FitPiece(q, PolyFit, s, study, color, xs, ys, zs) + FitPiece(q, LogFit, s, study, color, xs, ys, zs)
    + FitPiece(q, ExpFit, s, study, color, xs, ys, zs) + FitPiece(q, PowerFit, s, study, color, xs, ys, zs)
  }

  /**
   * The fit traces are one per selected fit option, in the order Poly, Log, Exp, Power,
   * and a trace shows its legend exactly when its option is the first selected one in
   * the order of precedence.
   */
  lemma FitTracesRun(q: Query, s: Solvers, study: string, color: string,
                     xs: seq<real>, ys: seq<real>, zs: seq<real>)
    requires s.Valid() && |xs| == |ys| > 0 && (q.axes.Axes3? ==> |zs| == |xs|)
    ensures FitRun(FitTraces(q, s, study, color, xs, ys, zs), q.fit, study, color)
  {
    FitPieceLegend(q, PolyFit, s, study, color, xs, ys, zs);
    FitPieceLegend(q, LogFit, s, study, color, xs, ys, zs);
    FitPieceLegend(q, ExpFit, s, study, color, xs, ys, zs);
    FitPieceLegend(q, PowerFit, s, study, color, xs, ys, zs);
    PiecesMakeRun(FitPiece(q, PolyFit, s, study, color, xs, ys, zs), FitPiece(q, LogFit, s, study, color, xs, ys, zs),
                  FitPiece(q, ExpFit, s, study, color, xs, ys, zs), FitPiece(q, PowerFit, s, study, color, xs, ys, zs),
                  q.fit, study, color);
  }

  /**
   * Which options draw a trace: every selected option, except that "Line" draws its own
   * trace only when "Scatter" is not selected (with Scatter it only joins the markers).
   */
  predicate Drawn(o: TraceOption, fit: seq<TraceOption>) {
    if o == Line then Line in fit && Scatter !in fit else o in fit
  }

  /**
   * What a study's traces are together: one per drawn option, in the order points,
   * Poly-Fit, Log-Fit, Exp-Fit, Power-Fit, and a trace shows its legend exactly when it is
   * a Line trace or its option is the first selected one in the order of precedence.
   */
  predicate StudyRun(ts: seq<Trace>, fit: seq<TraceOption>) {
    && (forall t :: t in ts ==> Drawn(KindOf(t), fit))
    && (forall o :: Drawn(o, fit) ==> exists t :: t in ts && KindOf(t) == o)
    && Ranked(ts)
    && (forall t :: t in ts ==> (t.showLegend <==> KindOf(t) == Line || FirstIn(Priority, fit) == Some(KindOf(t))))
  }

  /** The point trace followed by the fit run is a study run. */
  lemma PointsThenFits(pt: seq<Trace>, ft: seq<Trace>, fit: seq<TraceOption>, study: string, color: string)
    requires |pt| <= 1 && (pt != [] <==> Scatter in fit || Line in fit)
    requires forall t :: t in pt ==> t.showLegend && KindOf(t) == (if Scatter in fit then Scatter else Line)
    requires FitRun(ft, fit, study, color)
    ensures StudyRun(pt + ft, fit)
  {
    PointsThenFitsRanked(pt, ft, fit, study, color);
    PointsThenFitsMembers(pt, ft, fit, study, color);
    PointsThenFitsCover(pt, ft, fit, study, color);
  }

  /** The point trace ranks below every fit trace. */
  lemma PointsThenFitsRanked(pt: seq<Trace>, ft: seq<Trace>, fit: seq<TraceOption>, study: string, color: string)
    requires |pt| <= 1 && (pt != [] <==> Scatter in fit || Line in fit)
    requires forall t :: t in pt ==> t.showLegend && KindOf(t) == (if Scatter in fit then Scatter else Line)
    requires FitRun(ft, fit, study, color)
    ensures Ranked(pt + ft)
  {
    forall t, u | t in pt && u in ft ensures Rank(KindOf(t)) < Rank(KindOf(u)) {
      assert IsFit(KindOf(u));
    }
    RankedAppend(pt, ft);
  }

  /** Each trace of the points and the fits is drawn, with the legend rule of a study run. */
  lemma PointsThenFitsMembers(pt: seq<Trace>, ft: seq<Trace>, fit: seq<TraceOption>, study: string, color: string)
    requires |pt| <= 1 && (pt != [] <==> Scatter in fit || Line in fit)
    requires forall t :: t in pt ==> t.showLegend && KindOf(t) == (if Scatter in fit then Scatter else Line)
    requires FitRun(ft, fit, study, color)
    ensures forall t :: t in pt + ft ==> Drawn(KindOf(t), fit)
    ensures forall t :: t in pt + ft ==> (t.showLegend <==> KindOf(t) == Line || FirstIn(Priority, fit) == Some(KindOf(t)))
  {
    FirstSelectedCases(fit);
    assert forall t :: t in pt + ft ==> t in pt || t in ft;
  }

  /** Every drawn option has its trace among the points and the fits. */
  lemma PointsThenFitsCover(pt: seq<Trace>, ft: seq<Trace>, fit: seq<TraceOption>, study: string, color: string)
    requires |pt| <= 1 && (pt != [] <==> Scatter in fit || Line in fit)
    requires forall t :: t in pt ==> t.showLegend && KindOf(t) == (if Scatter in fit then Scatter else Line)
    requires FitRun(ft, fit, study, color)
    ensures forall o :: Drawn(o, fit) ==> exists t :: t in pt + ft && KindOf(t) == o
  {
    forall o | Drawn(o, fit) ensures exists t :: t in pt + ft && KindOf(t) == o {
      if o == Scatter || o == Line {
        assert pt[0] in pt + ft;
      } else {
        var t :| t in ft && KindOf(t) == o;
        assert t in pt + ft;
      }
    }
  }

  /** All traces of one study that passed the more-than-two-rows gate. */
  function StudyTraces(q: Query, s: Solvers, study: string, rows: seq<Row>): (ts: seq<Trace>)
    requires s.Valid() && |rows| > 0 && Complete(rows, q.axes) && OfStudy(rows, study)
    ensures forall t :: t in ts ==>
      && t.name == study
      && (exists i :: 0 <= i < |rows| && t.color == rows[i].color)
      && (t.shape.Points? ==> |t.shape.rows| > 0 && OfStudy(t.shape.rows, study))
  {
    var plotted := PlotRows(q, study, rows);
    AxesInColumns(q.axes);
    assert forall i :: 0 <= i < |plotted| ==> HasAll(plotted[i], q.axes.Columns()) by {
      forall i | 0 <= i < |plotted| ensures HasAll(plotted[i], q.axes.Columns()) {
        assert plotted[i] in plotted;
      }
    }
    var xs := AxisValues(plotted, q.axes.x, NormalizeX in q.normalize);
    var ys := AxisValues(plotted, q.axes.y, NormalizeY in q.normalize);
    var zs := if q.axes.Axes3? then AxisValues(plotted, q.axes.z, NormalizeZ in q.normalize) else [];
    var color := plotted[0].color;
    assert plotted[0] in plotted;
    PointTraces(q.fit, study, color, plotted, xs, ys, zs) + FitTraces(q, s, study, color, xs, ys, zs)
  }

  /**
   * A study's traces are one per drawn option, points first and then the fits in the
   * order Poly, Log, Exp, Power, each showing its legend by the precedence rule.
   */
  lemma StudyTracesRun(q: Query, s: Solvers, study: string, rows: seq<Row>)
    requires s.Valid() && |rows| > 0 && Complete(rows, q.axes) && OfStudy(rows, study)
    ensures StudyRun(StudyTraces(q, s, study, rows), q.fit)
  {
    var plotted := PlotRows(q, study, rows);
    AxesInColumns(q.axes);
    assert forall i :: 0 <= i < |plotted| ==> HasAll(plotted[i], q.axes.Columns()) by {
      forall i | 0 <= i < |plotted| ensures HasAll(plotted[i], q.axes.Columns()) {
        assert plotted[i] in plotted;
      }
    }
    var xs := AxisValues(plotted, q.axes.x, NormalizeX in q.normalize);
    var ys := AxisValues(plotted, q.axes.y, NormalizeY in q.normalize);
    var zs := if q.axes.Axes3? then AxisValues(plotted, q.axes.z, NormalizeZ in q.normalize) else [];
    var color := plotted[0].color;
    FitTracesRun(q, s, study, color, xs, ys, zs);
    PointsThenFits(PointTraces(q.fit, study, color, plotted, xs, ys, zs), FitTraces(q, s, study, color, xs, ys, zs),
                   q.fit, study, color);
  }

  /** The traces of the listed studies, study by study; none for a study of two rows or fewer. */
  function Plan(q: Query, s: Solvers, cleaned: seq<Row>, studies: seq<string>): seq<Trace>
    requires s.Valid() && Complete(cleaned, q.axes)
    decreases |studies|
  {
    if studies == [] then []
    else
      var study := studies[|studies| - 1];
      var rows := StudyRows(cleaned, study);
      Plan(q, s, cleaned, studies[..|studies| - 1]) + (if |rows| > 2 then StudyTraces(q, s, study, rows) else [])
  }

  /** Planning one more study of the list appends that study's traces, if it has any. */
  lemma PlanStep(q: Query, s: Solvers, cleaned: seq<Row>, studies: seq<string>, i: nat)
    requires s.Valid() && Complete(cleaned, q.axes) && i < |studies|
    ensures var rows := StudyRows(cleaned, studies[i]);
      Plan(q, s, cleaned, studies[..i + 1])
      == Plan(q, s, cleaned, studies[..i]) + (if |rows| > 2 then StudyTraces(q, s, studies[i], rows) else [])
  {
    assert studies[..i + 1][..i] == studies[..i];
  }

  /**
   * Of a study's traces at most one shows its legend, apart from a Line trace (which
   * always does and comes first); when any of Scatter, Poly-Fit, Log-Fit, Exp-Fit and
   * Power-Fit is selected, the first selected one's trace shows it.
   */
  lemma OneLegendPerStudy(ts: seq<Trace>, fit: seq<TraceOption>)
    requires StudyRun(ts, fit)
    ensures forall i, j :: 0 <= i < j < |ts| && ts[i].showLegend && ts[j].showLegend ==> KindOf(ts[i]) == Line
    ensures forall k :: 0 < k < |ts| ==> KindOf(ts[k]) != Line
    ensures FirstIn(Priority, fit).Some? ==>
      exists t :: t in ts && t.showLegend && KindOf(t) == FirstIn(Priority, fit).value
  {
    forall i, j | 0 <= i < j < |ts| && ts[i].showLegend && ts[j].showLegend
      ensures KindOf(ts[i]) == Line
    {
      assert ts[i] in ts && ts[j] in ts;
      assert Rank(KindOf(ts[i])) < Rank(KindOf(ts[j]));
    }
    forall k | 0 < k < |ts| ensures KindOf(ts[k]) != Line {
      assert Rank(KindOf(ts[0])) < Rank(KindOf(ts[k]));
    }
    var first := FirstIn(Priority, fit);
    if first.Some? {
      FirstSelectedCases(fit);
      assert Drawn(first.value, fit);
    }
  }

  /**
   * Every trace of the plan belongs to a listed study that kept more than two cleaned
   * rows: it is named after that study, its points are that study's rows and its colour
   * is the colour of one of them.
   */
  lemma {:induction false} PlanStudies(q: Query, s: Solvers, cleaned: seq<Row>, studies: seq<string>)
    requires s.Valid() && Complete(cleaned, q.axes)
    ensures forall t :: t in Plan(q, s, cleaned, studies) ==>
      && t.name in studies
      && |StudyRows(cleaned, t.name)| > 2
      && (t.shape.Points? ==> |t.shape.rows| > 0 && OfStudy(t.shape.rows, t.name))
      && (exists r :: r in StudyRows(cleaned, t.name) && r.color == t.color)
    decreases |studies|
  {
    if studies != [] {
      var init := studies[..|studies| - 1];
      var study := studies[|studies| - 1];
      var rows := StudyRows(cleaned, study);
      PlanStudies(q, s, cleaned, init);
      assert studies == init + [study];
      forall t | t in Plan(q, s, cleaned, studies)
        ensures t.name in studies && |StudyRows(cleaned, t.name)| > 2
        ensures exists r :: r in StudyRows(cleaned, t.name) && r.color == t.color
      {
        if t !in Plan(q, s, cleaned, init) {
          var i :| 0 <= i < |rows| && t.color == rows[i].color;
          assert rows[i] in rows;
        }
      }
    }
  }

  /** The trace names follow the study list: positions in `studies` never decrease along `ts`. */
  predicate InStudyOrder(ts: seq<Trace>, studies: seq<string>) {
    forall i, j :: 0 <= i < j < |ts| ==>
      ts[i].name in studies && ts[j].name in studies
      && IndexOf(studies, ts[i].name) <= IndexOf(studies, ts[j].name)
  }

  /** Traces of a new last study, appended after traces in study order, stay in study order. */
  lemma InStudyOrderAppend(before: seq<Trace>, last: seq<Trace>, init: seq<string>, study: string)
    requires InStudyOrder(before, init) && study !in init
    requires forall t :: t in before ==> t.name in init
    requires forall t :: t in last ==> t.name == study
    ensures InStudyOrder(before + last, init + [study])
  {
    var ts := before + last;
    var studies := init + [study];
    IndexOfUnique(studies, study, |init|);
    forall i, j | 0 <= i < j < |ts|
      ensures ts[i].name in studies && ts[j].name in studies
      ensures IndexOf(studies, ts[i].name) <= IndexOf(studies, ts[j].name)
    {
      if j < |before| {
        assert ts[i] == before[i] && ts[j] == before[j];
        assert before[i] in before && before[j] in before;
        IndexOfAppend(init, study, before[i].name);
        IndexOfAppend(init, study, before[j].name);
      } else {
        assert ts[j] == last[j - |before|] && ts[j] in last;
        if i < |before| {
          assert ts[i] == before[i] && before[i] in before;
          IndexOfAppend(init, study, before[i].name);
        } else {
          assert ts[i] == last[i - |before|] && ts[i] in last;
        }
      }
    }
  }

  /**
   * Studies are visited in list order: along the plan, the position of a trace's study
   * in the (duplicate-free) study list never decreases, so each study's traces are
   * contiguous.
   */
  lemma {:induction false} PlanOrder(q: Query, s: Solvers, cleaned: seq<Row>, studies: seq<string>)
    requires s.Valid() && Complete(cleaned, q.axes) && Distinct(studies)
    ensures InStudyOrder(Plan(q, s, cleaned, studies), studies)
    decreases |studies|
  {
    if studies != [] {
      var init := studies[..|studies| - 1];
      var study := studies[|studies| - 1];
      var rows := StudyRows(cleaned, study);
      assert studies == init + [study];
      assert Distinct(init);
      PlanOrder(q, s, cleaned, init);
      PlanStudies(q, s, cleaned, init);
      var last := if |rows| > 2 then StudyTraces(q, s, study, rows) else [];
      InStudyOrderAppend(Plan(q, s, cleaned, init), last, init, study);
    }
  }

  /**
   * The hover label of a drawn 2D fit, as the callback prints it: for Log-Fit and
   * Power-Fit it reads the drawn curve at every point; for Exp-Fit (with a non-zero
   * scale) it reads the curve at a point exactly where the rate times x is zero, and
   * misreads it everywhere else (`Curves.ExpLabelAsWrittenMisreads`).
   */
  lemma FitCurveLabelReadsTrace(f: Family, s: Solvers, xs: seq<real>, ys: seq<real>, i: int)
    requires s.Valid() && |xs| > 0 && 0 <= i < CurvePoints
    ensures var sh := FitCurveShape(f, s, xs, ys);
      var p := s.curveFit(f, xs, ys);
      && |sh.parameters| == 3
      && (forall k :: 0 <= k < 3 ==> sh.parameters[k].v == p[k])
      && (f != Exponential ==> ReadLabel(f, s.numerics, sh.parameters, sh.xs[i]) == sh.ys[i])
      && (f == Exponential && p[0] != 0.0 && Injective(s.numerics.exp) ==>
           (ReadLabel(f, s.numerics, sh.parameters, sh.xs[i]) == sh.ys[i] <==> p[1] * sh.xs[i] == 0.0))
  {
    var p := s.curveFit(f, xs, ys);
    var gx := Linspace(xs[0], xs[|xs| - 1], CurvePoints);
    if f != Exponential {
      LabelAsWrittenAgrees(f, p);
      FitLabelReadsCurve(f, s.numerics, p, gx[i]);
    } else if p[0] != 0.0 && Injective(s.numerics.exp) {
      ExpLabelAsWrittenMisreads(p, s.numerics, gx[i]);
    }
  }

  /**
   * The hover label of a drawn 3D fit, as the callback prints it: for Log-Fit and
   * Power-Fit it reads the drawn surface at every grid point; for Exp-Fit on a surface
   * flat in y (with a non-zero scale) it reads a grid point exactly where b times x is
   * zero (`Curves.ExpSurfaceLabelAsWrittenMisreads`).
   */
  lemma FitSurfaceLabelReadsTrace(f: Family, s: Solvers, xs: seq<real>, ys: seq<real>, zs: seq<real>, r: int, c: int)
    requires s.Valid() && |xs| > 0 && |ys| > 0
    requires 0 <= r < SurfacePoints && 0 <= c < SurfacePoints
    ensures var sh := FitSurfaceShape(f, s, xs, ys, zs);
      var p := s.surfaceFit(f, xs, ys, zs);
      && |sh.parameters| == 4 && |sh.zz[r]| == SurfacePoints
      && (f != Exponential ==> ReadSurfaceLabel(f, s.numerics, sh.parameters, sh.gx[c], sh.gy[r]) == sh.zz[r][c])
      && (f == Exponential && p[0] != 0.0 && p[2] == 0.0 && Injective(s.numerics.exp) && s.numerics.exp(0.0) == 1.0 ==>
           (ReadSurfaceLabel(f, s.numerics, sh.parameters, sh.gx[c], sh.gy[r]) == sh.zz[r][c] <==> p[1] * sh.gx[c] == 0.0))
  {
    var p := s.surfaceFit(f, xs, ys, zs);
    var sh := FitSurfaceShape(f, s, xs, ys, zs);
    FitSurfaceShapeParts(f, s, xs, ys, zs, r, c);
    FitSurfaceLabelAsWrittenReads(f, s.numerics, p, sh.parameters, sh.gx[c], sh.gy[r], sh.zz[r][c]);
  }

  /** A drawn 3D fit prints the fitted parameters and draws the fitted surface at each grid point. */
  lemma FitSurfaceShapeParts(f: Family, s: Solvers, xs: seq<real>, ys: seq<real>, zs: seq<real>, r: int, c: int)
    requires s.Valid() && |xs| > 0 && |ys| > 0
    requires 0 <= r < SurfacePoints && 0 <= c < SurfacePoints
    ensures var sh := FitSurfaceShape(f, s, xs, ys, zs);
      var p := s.surfaceFit(f, xs, ys, zs);
      && |p| == 4 && sh.parameters == LabelAsWritten(p) && |sh.zz[r]| == SurfacePoints
      && sh.zz[r][c] == FittedSurface(f, s.numerics, p, sh.gx[c], sh.gy[r])
  {
  }

  /**
   * The hover label of a drawn 3D polynomial, as the callback prints it: the plane's
   * label reads the drawn plane at every grid point; the quadratic and cubic labels put
   * the constant coefficient in front of x² and x³, so with only the constant non-zero
   * they read c·x² or c·x³ over a surface that is flat at c
   * (`Surfaces.QuadraticLabelAsWrittenMisreads`, `Surfaces.CubicLabelAsWrittenMisreads`).
   */
  lemma PolySurfaceLabelReadsTrace(order: Order, s: Solvers, xs: seq<real>, ys: seq<real>, zs: seq<real>, r: int, c: int)
    requires s.Valid() && |xs| == |ys| == |zs| > 0
    requires 0 <= r < SurfacePoints && 0 <= c < SurfacePoints
    ensures var sh := PolySurfaceShape(order, s, xs, ys, zs);
      |sh.zz[r]| == SurfacePoints
      && ReadsAsWritten(order, PolySurfaceCoefficients(order, s, xs, ys, zs), sh.equation, sh.gx[c], sh.gy[r], sh.zz[r][c])
  {
    var cs := PolySurfaceCoefficients(order, s, xs, ys, zs);
    var sh := PolySurfaceShape(order, s, xs, ys, zs);
    PolySurfaceShapeParts(order, s, xs, ys, zs, r, c);
    PolyLabelAsWrittenReads(order, cs, sh.equation, sh.gx[c], sh.gy[r], sh.zz[r][c]);
  }

  /** A drawn 3D polynomial prints the label as written and draws the grid-monomial surface. */
  lemma PolySurfaceShapeParts(order: Order, s: Solvers, xs: seq<real>, ys: seq<real>, zs: seq<real>, r: int, c: int)
    requires s.Valid() && |xs| == |ys| == |zs| > 0
    requires 0 <= r < SurfacePoints && 0 <= c < SurfacePoints
    ensures var sh := PolySurfaceShape(order, s, xs, ys, zs);
      var cs := PolySurfaceCoefficients(order, s, xs, ys, zs);
      && sh.equation == SurfaceLabelAsWritten(order, cs) && |sh.zz[r]| == SurfacePoints
      && sh.zz[r][c] == Combine(GridBasis(order), cs, sh.gx[c], sh.gy[r], 0.0)
  {
  }
}
