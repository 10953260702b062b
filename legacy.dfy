/**
 * The earlier single-file dashboard, Scripts/app.py: the same sheet loaded with every
 * empty cell read as "None", six facet checklists (no study filter), a 2D and three 3D
 * graphs that draw a study only when none of its filtered rows misses an axis, and the
 * comparison tables. Plot layout, hover text and the page components are not modelled.
 */
module Legacy {
  import opened Records
  import opened Seqs
  import opened Filtering
  import opened Dataset
  import opened Traces
  import opened Controls

  /** The row is a non-empty row of the sheet with its empty cells read as "None". */
  ghost predicate FilledFrom(r: Row, sheet: seq<RawRow>) {
    exists x :: x in sheet && !x.AllMissing() && r == FillRow(x, UnassignedColor)
  }

  /**
   * `dv.dropna(how='all')` and then `dv.fillna("None")` on every column. A measurement
   * cell that reads "None" afterwards is one absent from the row's `measures`.
   */
  function LoadLegacy(sheet: seq<RawRow>): (dv: seq<Row>)
    ensures |dv| <= |sheet|
    ensures forall i :: 0 <= i < |dv| ==> FilledFrom(dv[i], sheet)
  {
    var kept := DropEmptyRows(sheet);
    var rows := FillFacets(kept);
    assert forall i :: 0 <= i < |rows| ==> FilledFrom(rows[i], sheet) by {
      forall i | 0 <= i < |rows| ensures FilledFrom(rows[i], sheet) {
        var x := kept[i];
        assert x in kept;
        assert rows[i] == FillRow(x, UnassignedColor);
      }
    }
    rows
  }

  /** The legacy and the dashboard tables are the same rows. */
  lemma LoadLegacyIsPrepare(sheet: seq<RawRow>)
    ensures LoadLegacy(sheet) == Prepare(sheet)
  {
  }

  /** `list(dict.fromkeys(dv[f]))`: a facet's values in the order they first occur. */
  function FirstSeen(dv: seq<Row>, f: Facet): (names: seq<string>)
    ensures Distinct(names)
    ensures forall v :: v in names <==> exists i :: 0 <= i < |dv| && dv[i].Get(f) == v
  {
    var c := Column(dv, f);
    assert forall v :: v in c <==> exists i :: 0 <= i < |dv| && dv[i].Get(f) == v by {
      forall v ensures v in c <==> exists i :: 0 <= i < |dv| && dv[i].Get(f) == v {
        if v in c {
          var i :| 0 <= i < |c| && c[i] == v;
          assert dv[i].Get(f) == v;
        }
      }
    }
    Dedup(c)
  }

  /** The six chained `isin` filters of the legacy callbacks: every facet but the study. */
  function LegacyFilter(dv: seq<Row>, sel: Selection): (rows: seq<Row>)
    ensures forall r :: r in rows <==> r in dv && AdmitsAll(sel, r, Conditions)
  {
    FilterChainIsOnePass(dv, sel, Conditions);
    FilterChain(dv, sel, Conditions)
  }

  /** The legacy filter keeps the table's order: it filters each part of a split table on its own. */
  lemma LegacyFilterKeepsOrder(a: seq<Row>, b: seq<Row>, sel: Selection)
    ensures LegacyFilter(a + b, sel) == LegacyFilter(a, sel) + LegacyFilter(b, sel)
  {
    FilterChainIsOnePass(a + b, sel, Conditions);
    FilterChainIsOnePass(a, sel, Conditions);
    FilterChainIsOnePass(b, sel, Conditions);
    KeepConcat(a, b, (r: Row) => AdmitsAll(sel, r, Conditions));
  }

  /** The dashboard's seven filters are its study filter followed by the six legacy ones. */
  lemma DashboardFilterExtendsLegacy(dv: seq<Row>, sel: Selection)
    ensures FilterRows(dv, sel) == LegacyFilter(FacetFilter(dv, Study, sel.studies), sel)
  {
    assert Facets[1..] == Conditions;
  }

  /**
   * The legacy checklists start with every value of their facet ticked
   * (`value = list(dict.fromkeys(dv[f]))`), and then the filter keeps the whole table.
   */
  lemma LegacyDefaultsKeepTable(dv: seq<Row>, sel: Selection)
    requires forall k :: 0 <= k < |Conditions| ==> sel.Allowed(Conditions[k]) == FirstSeen(dv, Conditions[k])
    ensures LegacyFilter(dv, sel) == dv
  {
    FilterChainIsOnePass(dv, sel, Conditions);
    forall j | 0 <= j < |dv| ensures AdmitsAll(sel, dv[j], Conditions) {
      forall k | 0 <= k < |Conditions| ensures dv[j].Get(Conditions[k]) in sel.Allowed(Conditions[k]) {
        var f := Conditions[k];
        assert exists i :: 0 <= i < |dv| && dv[i].Get(f) == dv[j].Get(f);
      }
    }
    assert forall r :: r in dv ==> AdmitsAll(sel, r, Conditions);
    KeepAll(dv, (r: Row) => AdmitsAll(sel, r, Conditions));
  }

  /** A legacy trace: the study it is named after and the rows it plots, in plotting order. */
  datatype LegacyTrace = LegacyTrace(name: string, points: seq<Row>)

  /** No row of the study misses an axis value (no "None" among the scanned columns). */
  predicate Clean(rows: seq<Row>, axes: Axes) {
    forall i :: 0 <= i < |rows| ==> HasAll(rows[i], axes.Columns())
  }

  /**
   * The points a clean study is drawn with: sorted by x in the 2D graph; in the 3D graphs
   * the trace is built before `sort_values` runs, so the rows keep their table order.
   */
  function PlottedRows(rows: seq<Row>, axes: Axes): seq<Row> {
    if axes.Axes2? then SortBy(rows, axes.x) else rows
  }

  /** The trace one study contributes: none when a row of it misses an axis. */
  function StudyPiece(cleaned: seq<Row>, study: string, axes: Axes): seq<LegacyTrace> {
    var rows := StudyRows(cleaned, study);
    if Clean(rows, axes) then [LegacyTrace(study, PlottedRows(rows, axes))] else []
  }

  /** The traces of a legacy graph: one per listed study whose filtered rows are all clean. */
  function LegacyPlan(cleaned: seq<Row>, names: seq<string>, axes: Axes): seq<LegacyTrace>
    decreases |names|
  {
    if names == [] then []
    else LegacyPlan(cleaned, names[..|names| - 1], axes) + StudyPiece(cleaned, names[|names| - 1], axes)
  }

  /**
   * One `for x in name_array[col]: if x == "None": check = 1; break` scan: it reports
   * whether some row misses the column.
   */
  method ScanForNone(rows: seq<Row>, col: string) returns (found: bool)
    ensures found <==> exists i :: 0 <= i < |rows| && col !in rows[i].measures
  {
    found := false;
    var i := 0;
    while i < |rows|
      invariant 0 <= i <= |rows|
      invariant forall j :: 0 <= j < i ==> col in rows[j].measures
    {
      if col !in rows[i].measures {
        found := true;
        break;
      }
      i := i + 1;
    }
  }

  /** The scans of x, then y, then (in 3D) z, each skipped once a "None" has been found. */
  method ScanStudy(rows: seq<Row>, axes: Axes) returns (check: bool)
    ensures check <==> !Clean(rows, axes)
  {
    check := ScanForNone(rows, axes.x);
    if !check {
      check := ScanForNone(rows, axes.y);
    }
    if !check && axes.Axes3? {
      check := ScanForNone(rows, axes.z);
    }
    if !check {
      forall i | 0 <= i < |rows| ensures HasAll(rows[i], axes.Columns()) {
        assert axes.x in rows[i].measures && axes.y in rows[i].measures;
      }
    }
  }

  /**
   * `update_twoD` (2D axes) and `update_threeD`, `update_comp1`, `update_comp2` (3D
   * axes): filter the table, then walk the studies in first-seen order, skip a study as
   * soon as a scan finds a "None", and append the trace of every other study.
   */
  method UpdateLegacyGraph(dv: seq<Row>, sel: Selection, axes: Axes) returns (data: seq<LegacyTrace>)
    ensures data == LegacyPlan(LegacyFilter(dv, sel), FirstSeen(dv, Study), axes)
  {
    var cleaned := LegacyFilter(dv, sel);
    var names := FirstSeen(dv, Study);
    data := [];
    for i := 0 to |names|
      invariant data == LegacyPlan(cleaned, names[..i], axes)
    {
      LegacyPlanStep(cleaned, names, axes, i);
      var nameArray := StudyRows(cleaned, names[i]);
      var check := ScanStudy(nameArray, axes);
      if check {
        continue;
      }
      var trace;
      if axes.Axes2? {
        nameArray := SortBy(nameArray, axes.x);
        trace := LegacyTrace(names[i], nameArray);
      } else {
        trace := LegacyTrace(names[i], nameArray);
        nameArray := SortBy(nameArray, axes.x);
      }
      assert StudyPiece(cleaned, names[i], axes) == [trace];
      data := data + [trace];
    }
    assert names[..|names|] == names;
  }

  /** Walking one more study appends that study's trace, if it is drawn. */
  lemma LegacyPlanStep(cleaned: seq<Row>, names: seq<string>, axes: Axes, i: nat)
    requires i < |names|
    ensures LegacyPlan(cleaned, names[..i + 1], axes) == LegacyPlan(cleaned, names[..i], axes) + StudyPiece(cleaned, names[i], axes)
  {
    assert names[..i + 1][..i] == names[..i];
  }

  /** The names of a list of traces, in order. */
  function TraceNames(ts: seq<LegacyTrace>): (names: seq<string>)
    ensures |names| == |ts|
  {
    if ts == [] then [] else TraceNames(ts[..|ts| - 1]) + [ts[|ts| - 1].name]
  }

  /** The study of a name is drawn: its filtered rows are all clean. */
  predicate Drawable(cleaned: seq<Row>, axes: Axes, study: string) {
    Clean(StudyRows(cleaned, study), axes)
  }

  /**
   * The traces are named, in order, exactly after the listed studies whose filtered rows
   * all carry every axis: a study with one missing value is dropped whole, and a study
   * with no filtered row at all is still drawn, as an empty trace.
   */
  lemma {:induction false} LegacyPlanNames(cleaned: seq<Row>, names: seq<string>, axes: Axes)
    ensures TraceNames(LegacyPlan(cleaned, names, axes)) == Keep(names, (s: string) => Drawable(cleaned, axes, s))
    decreases |names|
  {
    if names != [] {
      var init, study := names[..|names| - 1], names[|names| - 1];
      var p := (s: string) => Drawable(cleaned, axes, s);
      LegacyPlanNames(cleaned, init, axes);
      SplitLast(names);
      KeepSnoc(init, study, p);
      TraceNamesOfPiece(LegacyPlan(cleaned, init, axes), cleaned, study, axes);
    }
  }

  /** Appending a study's piece appends its name exactly when the study is drawn. */
  lemma TraceNamesOfPiece(before: seq<LegacyTrace>, cleaned: seq<Row>, study: string, axes: Axes)
    ensures TraceNames(before + StudyPiece(cleaned, study, axes))
         == TraceNames(before) + (if Drawable(cleaned, axes, study) then [study] else [])
  {
    var ts := before + StudyPiece(cleaned, study, axes);
    if Drawable(cleaned, axes, study) {
      assert ts[..|ts| - 1] == before;
    } else {
      assert ts == before;
    }
  }

  /**
   * Every trace plots the filtered rows of its study and nothing else, each as often as
   * the table holds it, each with every axis; the 2D traces ascend by x, the 3D ones keep
   * table order.
   */
  lemma {:induction false} LegacyPlanPoints(cleaned: seq<Row>, names: seq<string>, axes: Axes, k: nat)
    requires k < |LegacyPlan(cleaned, names, axes)|
    ensures var t := LegacyPlan(cleaned, names, axes)[k];
      && t.name in names
      && multiset(t.points) == multiset(StudyRows(cleaned, t.name))
      && Clean(t.points, axes)
      && (axes.Axes2? ==> SortedBy(t.points, axes.x))
      && (axes.Axes3? ==> t.points == StudyRows(cleaned, t.name))
    decreases |names|
  {
    var init, study := names[..|names| - 1], names[|names| - 1];
    var before := LegacyPlan(cleaned, init, axes);
    var t := LegacyPlan(cleaned, names, axes)[k];
    if k < |before| {
      LegacyPlanPoints(cleaned, init, axes, k);
      assert t == before[k];
      assert t.name in names by {
        InPrefix(names, |names| - 1, t.name);
      }
    } else {
      assert t == LegacyTrace(study, PlottedRows(StudyRows(cleaned, study), axes));
      PlottedRowsSpec(StudyRows(cleaned, study), axes);
    }
  }

  /** The rows a drawn trace plots are its study's rows, clean, and ascending by x in 2D. */
  lemma PlottedRowsSpec(rows: seq<Row>, axes: Axes)
    requires Clean(rows, axes)
    ensures var p := PlottedRows(rows, axes);
      && multiset(p) == multiset(rows)
      && Clean(p, axes)
      && (axes.Axes2? ==> SortedBy(p, axes.x))
      && (axes.Axes3? ==> p == rows)
  {
    if axes.Axes2? {
      var p := SortBy(rows, axes.x);
      forall i | 0 <= i < |p| ensures HasAll(p[i], axes.Columns()) {
        assert p[i] in multiset(rows);
        var j :| 0 <= j < |rows| && rows[j] == p[i];
      }
    }
  }

  /** A listed study with no row left after filtering is drawn all the same, as a trace with no point. */
  lemma LegacyDrawsEmptyStudy(cleaned: seq<Row>, names: seq<string>, axes: Axes, study: string)
    requires study in names && StudyRows(cleaned, study) == []
    ensures study in TraceNames(LegacyPlan(cleaned, names, axes))
  {
    LegacyPlanNames(cleaned, names, axes);
    assert Drawable(cleaned, axes, study);
  }

  /** A study one of whose filtered rows misses an axis value has no trace at all. */
  lemma LegacyDropsWholeStudy(cleaned: seq<Row>, names: seq<string>, axes: Axes, study: string, r: Row)
    requires r in cleaned && r.study == study && !HasAll(r, axes.Columns())
    ensures study !in TraceNames(LegacyPlan(cleaned, names, axes))
  {
    LegacyPlanNames(cleaned, names, axes);
    var rows := StudyRows(cleaned, study);
    assert r in rows;
    var j :| 0 <= j < |rows| && rows[j] == r;
    assert !Drawable(cleaned, axes, study);
  }

  /**
   * `update_comp1table` / `update_comp2table`: the filtered rows without a "None" in x, y
   * or z, restricted to those three columns, which keep the order they have in the sheet.
   */
  function LegacyAxisTable(dv: seq<Row>, sel: Selection, axes: Axes, columns: seq<string>): (t: Table)
    ensures forall c :: c in t.columns <==> c in columns && c in axes.Columns()
    ensures Distinct(columns) ==> Distinct(t.columns)
    ensures t.columns == Keep(columns, (c: string) => c in axes.Columns())
    ensures var rows := DropMissing(LegacyFilter(dv, sel), axes.Columns());
      && |t.records| == |rows|
      && (forall i :: 0 <= i < |rows| ==> forall c :: c in t.records[i] <==> c in t.columns)
      && (forall i, c :: 0 <= i < |rows| && c in t.columns ==>
            c in rows[i].measures && t.records[i][c] == rows[i].measures[c])
  {
    var rows := DropMissing(LegacyFilter(dv, sel), axes.Columns());
    var cols := SheetColumns(columns, axes);
    ProjectRows(rows, cols, axes)
  }

  /** The sheet's columns that are axes, in sheet order. */
  function SheetColumns(columns: seq<string>, axes: Axes): (cols: seq<string>)
    ensures forall c :: c in cols <==> c in columns && c in axes.Columns()
    ensures Distinct(columns) ==> Distinct(cols)
  {
    var cols := Keep(columns, (c: string) => c in axes.Columns());
    assert Distinct(columns) ==> Distinct(cols) by {
      if Distinct(columns) {
        KeepDistinct(columns, (c: string) => c in axes.Columns());
      }
    }
    cols
  }

  /** Rows holding every axis, each restricted to `cols`, a selection of the axes. */
  function ProjectRows(rows: seq<Row>, cols: seq<string>, axes: Axes): (t: Table)
    requires forall i :: 0 <= i < |rows| ==> HasAll(rows[i], axes.Columns())
    requires forall c :: c in cols ==> c in axes.Columns()
    ensures t.columns == cols && |t.records| == |rows|
    ensures forall i :: 0 <= i < |rows| ==> forall c :: c in t.records[i] <==> c in cols
    ensures forall i, c :: 0 <= i < |rows| && c in cols ==>
      c in rows[i].measures && t.records[i][c] == rows[i].measures[c]
  {
    var records := seq(|rows|, i requires 0 <= i < |rows| => Project(rows[i], cols));
    assert forall i :: 0 <= i < |rows| ==> forall c :: c in records[i] <==> c in cols by {
      forall i, c | 0 <= i < |rows| ensures c in records[i] <==> c in cols {
        assert HasAll(rows[i], axes.Columns());
      }
    }
    assert forall i, c :: 0 <= i < |rows| && c in cols ==> c in rows[i].measures by {
      forall i, c | 0 <= i < |rows| && c in cols ensures c in rows[i].measures {
        assert HasAll(rows[i], axes.Columns());
      }
    }
    Table(records, cols)
  }

  /**
   * The legacy table keeps the rows with every axis among those the six filters admit,
   * so it lists a row of a study the graph leaves out because another of its rows
   * misses an axis.
   */
  lemma LegacyTableKeepsRowsOfDroppedStudies(dv: seq<Row>, sel: Selection, axes: Axes, r: Row, s: Row)
    requires r in dv && s in dv && r.study == s.study
    requires AdmitsAll(sel, r, Conditions) && AdmitsAll(sel, s, Conditions)
    requires HasAll(r, axes.Columns()) && !HasAll(s, axes.Columns())
    ensures r in DropMissing(LegacyFilter(dv, sel), axes.Columns())
    ensures r.study !in TraceNames(LegacyPlan(LegacyFilter(dv, sel), FirstSeen(dv, Study), axes))
  {
    LegacyDropsWholeStudy(LegacyFilter(dv, sel), FirstSeen(dv, Study), axes, r.study, s);
  }

  /** The pages `display_page` serves. */
  datatype Page = AboutPage | HomePage

  /** `display_page`: the about page at "/about", the dashboard at every other path. */
  function DisplayPage(pathname: string): (page: Page)
    ensures page == AboutPage <==> pathname == "/about"
  {
    if pathname == "/about" then AboutPage else HomePage
  }

  /** `toggle_container`: the legacy extra controls, taller (500) than the dashboard's. */
  function LegacyShowMoreStyle(toggle: string): (style: Style)
    ensures Visible(style) <==> toggle == "Show More"
    ensures Visible(style) ==> "max-height" in style && style["max-height"] == Number(500)
  {
    if toggle == "Show More" then
      map["display" := Word("block"), "max-height" := Number(500), "overflow-y" := Word("auto"),
          "border-top" := Word("1px black solid")]
    else Hidden
  }
}
