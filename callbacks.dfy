/**
 * The graph callbacks of app/home.py as the statements they run: `update_comp1_2D_graph`
 * and `update_comp1_3D_graph` (one method, the axes telling 2D from 3D) and their comp2
 * twins. The module-level table `dv` and study list `unique_studies` are parameters.
 * Each method is proved equal to the plan of module Traces, whose properties are proved
 * there.
 */
module Callbacks {
  import opened Records
  import opened Seqs
  import opened Filtering
  import opened Aggregate
  import opened Normalize
  import opened Curves
  import opened Traces

  /** The "addComp" radio: "No Compare" or "Compare". */
  datatype Comparison = NoCompare | Compare

  /** The legend layout: `font_size` 24, or horizontal above the plot with `font_size` 20. */
  datatype LegendLayout = LargeFont | Horizontal

  /** The figure a graph callback returns: its traces and its legend layout. */
  datatype Figure = Figure(data: seq<Trace>, legend: LegendLayout)

  /** One axis column normalised as the callback does it: in place, on an array. */
  method NormalizeColumn(xs: seq<real>) returns (r: seq<real>)
    requires |xs| > 0
    ensures r == Normalized(xs)
  {
    var a := new real[|xs|](i requires 0 <= i < |xs| => xs[i]);
    assert a[..] == xs;
    NormalizeInPlace(a);
    r := a[..];
  }

  /**
   * The body of the `for i in unique_studies` loop for a study that passed the gate:
   * averaging, the axis arrays and their normalisation, then the traces appended one by
   * one, point trace first.
   */
  method BuildStudyTraces(q: Query, s: Solvers, study: string, nameArray: seq<Row>) returns (data: seq<Trace>)
    requires s.Valid() && |nameArray| > 0 && Complete(nameArray, q.axes) && OfStudy(nameArray, study)
    ensures data == StudyTraces(q, s, study, nameArray)
  {
    var rows := nameArray;
    if q.axes.Axes2? && AverageYAxis in q.normalize {
      AveragedComplete(rows, study, q.axes.x, q.axes.y);
      rows := AverageY(rows, q.axes.x, q.axes.y);
    }
    assert rows == PlotRows(q, study, nameArray);
    AxesInColumns(q.axes);
    assert forall i :: 0 <= i < |rows| ==> HasAll(rows[i], q.axes.Columns()) by {
      forall i | 0 <= i < |rows| ensures HasAll(rows[i], q.axes.Columns()) {
        assert rows[i] in rows;
      }
    }
    var x := Values(rows, q.axes.x);
    var y := Values(rows, q.axes.y);
    var z := if q.axes.Axes3? then Values(rows, q.axes.z) else [];
    if NormalizeX in q.normalize {
      x := NormalizeColumn(x);
    }
    if NormalizeY in q.normalize {
      y := NormalizeColumn(y);
    }
    if q.axes.Axes3? && NormalizeZ in q.normalize {
      z := NormalizeColumn(z);
    }
    var color := rows[0].color;
    data := AppendPointTrace(q.fit, study, color, rows, x, y, z);
    data := AppendFitTraces(q, s, study, color, x, y, z, data);
  }

  /** The `if 'Scatter' in fit ... elif 'Line' in fit` block: markers, markers joined by lines, or lines. */
  method AppendPointTrace(fit: seq<TraceOption>, study: string, color: string, rows: seq<Row>,
                          x: seq<real>, y: seq<real>, z: seq<real>) returns (data: seq<Trace>)
    ensures data == PointTraces(fit, study, color, rows, x, y, z)
  {
    data := [];
    if Scatter in fit {
      if Line in fit {
        data := data + [Trace(study, true, color, Points(LinesAndMarkers, rows, x, y, z))];
      } else {
        data := data + [Trace(study, true, color, Points(Markers, rows, x, y, z))];
      }
    } else if Line in fit {
      data := data + [Trace(study, true, color, Points(Lines, rows, x, y, z))];
    }
  }

  /** The `if 'Poly-Fit' in fit` block: the polynomial trace, its legend shown only without Scatter. */
  method AppendPolyTrace(q: Query, s: Solvers, study: string, color: string,
                         x: seq<real>, y: seq<real>, z: seq<real>, data: seq<Trace>) returns (out: seq<Trace>)
    requires s.Valid() && |x| == |y| > 0 && (q.axes.Axes3? ==> |z| == |x|)
    ensures out == data + FitPiece(q, PolyFit, s, study, color, x, y, z)
  {
    out := data;
    if PolyFit in q.fit {
      var showLegend := !(Scatter in q.fit);
      out := out + [PolyTrace(q, s, study, color, showLegend, x, y, z)];
    }
  }

  /** The `if 'Log-Fit' in fit`, `'Exp-Fit'` or `'Power-Fit'` block of the family `f`. */
  method AppendFamilyTrace(q: Query, f: Family, s: Solvers, study: string, color: string,
                           x: seq<real>, y: seq<real>, z: seq<real>, data: seq<Trace>) returns (out: seq<Trace>)
    requires s.Valid() && |x| == |y| > 0 && (q.axes.Axes3? ==> |z| == |x|)
    ensures out == data + FitPiece(q, FamilyOption(f), s, study, color, x, y, z)
  {
    out := data;
    if FamilyOption(f) in q.fit {
      out := out + [FitTrace(q, f, s, study, color, FamilyLegend(q.fit, f), x, y, z)];
    }
  }

  /** The four fit blocks, appending to `data` in the order Poly, Log, Exp, Power. */
  method AppendFitTraces(q: Query, s: Solvers, study: string, color: string,
                         x: seq<real>, y: seq<real>, z: seq<real>, data: seq<Trace>) returns (out: seq<Trace>)
    requires s.Valid() && |x| == |y| > 0 && (q.axes.Axes3? ==> |z| == |x|)
    ensures out == data + FitTraces(q, s, study, color, x, y, z)
  {
    out := AppendPolyTrace(q, s, study, color, x, y, z, data);
    out := AppendFamilyTraces(q, s, study, color, x, y, z, out);
    AppendFour(data, FitPiece(q, PolyFit, s, study, color, x, y, z), FitPiece(q, LogFit, s, study, color, x, y, z),
      FitPiece(q, ExpFit, s, study, color, x, y, z), FitPiece(q, PowerFit, s, study, color, x, y, z));
  }

  /** The Log-Fit, Exp-Fit and Power-Fit blocks, in that order. */
  method AppendFamilyTraces(q: Query, s: Solvers, study: string, color: string,
                            x: seq<real>, y: seq<real>, z: seq<real>, data: seq<Trace>) returns (out: seq<Trace>)
    requires s.Valid() && |x| == |y| > 0 && (q.axes.Axes3? ==> |z| == |x|)
    ensures out == data + (FitPiece(q, LogFit, s, study, color, x, y, z)
      + FitPiece(q, ExpFit, s, study, color, x, y, z) + FitPiece(q, PowerFit, s, study, color, x, y, z))
  {
    out := AppendFamilyTrace(q, Logarithmic, s, study, color, x, y, z, data);
    out := AppendFamilyTrace(q, Exponential, s, study, color, x, y, z, out);
    out := AppendFamilyTrace(q, PowerLaw, s, study, color, x, y, z, out);
    AppendThree(data, FitPiece(q, LogFit, s, study, color, x, y, z), FitPiece(q, ExpFit, s, study, color, x, y, z),
      FitPiece(q, PowerFit, s, study, color, x, y, z));
  }

  /**
   * `update_comp1_2D_graph` / `update_comp1_3D_graph`: filter, clean and sort the table,
   * then walk the study list appending the traces of every study with more than two
   * cleaned rows; the legend layout follows the comparison radio, and the table is the
   * cleaned rows restricted to the axis columns.
   */
  method UpdateComp1Graph(dv: seq<Row>, uniqueStudies: seq<string>, sel: Selection, q: Query, s: Solvers,
                          comp: Comparison) returns (figure: Figure, table: Table)
    requires s.Valid()
    ensures Complete(Cleaned(dv, sel, q.axes), q.axes)
    ensures figure.data == Plan(q, s, Cleaned(dv, sel, q.axes), uniqueStudies)
    ensures figure.legend == (if comp == Compare then Horizontal else LargeFont)
    ensures table == AxisTable(Cleaned(dv, sel, q.axes), q.axes)
  {
    var cleaned := Cleaned(dv, sel, q.axes);
    CleanedSpec(dv, sel, q.axes);
    var data := [];
    var i := 0;
    while i < |uniqueStudies|
      invariant 0 <= i <= |uniqueStudies|
      invariant data == Plan(q, s, cleaned, uniqueStudies[..i])
    {
      var study := uniqueStudies[i];
      var nameArray := StudyRows(cleaned, study);
      if |nameArray| > 2 {
        var traces := BuildStudyTraces(q, s, study, nameArray);
        data := data + traces;
      }
      PlanStep(q, s, cleaned, uniqueStudies, i);
      i := i + 1;
    }
    assert uniqueStudies[..i] == uniqueStudies;
    var legend := if comp == Compare then Horizontal else LargeFont;
    figure := Figure(data, legend);
    table := AxisTable(cleaned, q.axes);
  }

  /**
   * `update_comp2_2D_graph` / `update_comp2_3D_graph`: nothing while comparison is off;
   * otherwise the comp1 plan for the second panel's inputs, always with the horizontal
   * legend.
   */
  method UpdateComp2Graph(dv: seq<Row>, uniqueStudies: seq<string>, sel: Selection, q: Query, s: Solvers,
                          comp: Comparison) returns (figure: Option<Figure>, table: Table)
    requires s.Valid()
    ensures Complete(Cleaned(dv, sel, q.axes), q.axes)
    ensures comp == NoCompare <==> figure.None?
    ensures comp == NoCompare ==> table == Table([], [])
    ensures comp == Compare ==>
      && figure == Some(Figure(Plan(q, s, Cleaned(dv, sel, q.axes), uniqueStudies), Horizontal))
      && table == AxisTable(Cleaned(dv, sel, q.axes), q.axes)
  {
    CleanedSpec(dv, sel, q.axes);
    if comp == NoCompare {
      return None, Table([], []);
    }
    var f;
    f, table := UpdateComp1Graph(dv, uniqueStudies, sel, q, s, comp);
    figure := Some(f);
  }
}
