/**
 * The control callbacks of app/home.py: the "Select All" / "Deselect All" buttons of the
 * fourteen facet checklists, the "Show More" and "Compare" containers, and the column
 * highlighting of the master table. Dash component styles are modelled as maps from a
 * CSS property to its value.
 */
module Controls {
  import opened Records
  import opened Seqs
  import opened Filtering
  import opened Dataset
  import opened Traces
  import opened Callbacks

  /** A checklist entry `{'label': v, 'value': v}`. */
  datatype ChecklistOption = ChecklistOption(caption: string, value: string)

  /** The checklist a value list is shown as: one entry per value, in order. */
  function Checklist(vs: seq<string>): seq<ChecklistOption> {
    seq(|vs|, i requires 0 <= i < |vs| => ChecklistOption(vs[i], vs[i]))
  }

  /** The two filter panels: the main one and the comparison one (ids suffixed with "2"). */
  datatype Panel = Main | Second

  /** The id stem of a facet's buttons. */
  function Stem(f: Facet): string {
    match f
    case Study => "studies"
    case Gas => "gas"
    case Surfactant => "surf"
    case SurfactantConcentration => "sconc"
    case Additive => "add"
    case AdditiveConcentration => "aconc"
    case LiquidPhase => "lp"
  }

  function Suffix(p: Panel): string {
    if p == Main then "" else "2"
  }

  /** The `prop_id` a click on a checklist's "Select All" button reports, as `allgas2.n_clicks`. */
  function SelectAllId(f: Facet, p: Panel): string {
    "all" + Stem(f) + Suffix(p) + ".n_clicks"
  }

  /** The `prop_id` of its "Deselect All" button, as `dallgas2.n_clicks`. */
  function DeselectAllId(f: Facet, p: Panel): string {
    "dall" + Stem(f) + Suffix(p) + ".n_clicks"
  }

  /**
   * The `select_deselect_all_*` callback of facet `f` on panel `p`: every option's value
   * when the Select All button fired, nothing when the Deselect All button fired, and
   * the checklist's current value otherwise.
   */
  function SelectDeselect(f: Facet, p: Panel, changedId: string, value: seq<string>,
                          options: seq<ChecklistOption>): (r: seq<string>)
    ensures changedId == SelectAllId(f, p) ==>
      |r| == |options| && forall i :: 0 <= i < |options| ==> r[i] == options[i].value
    ensures changedId == DeselectAllId(f, p) ==> r == []
    ensures changedId != SelectAllId(f, p) && changedId != DeselectAllId(f, p) ==> r == value
  {
    if changedId == SelectAllId(f, p) then seq(|options|, i requires 0 <= i < |options| => options[i].value)
    else if changedId == DeselectAllId(f, p) then []
    else value
  }

  /** The two buttons of one checklist report different ids. */
  lemma SelectAndDeselectDiffer(f: Facet, p: Panel)
    ensures SelectAllId(f, p) != DeselectAllId(f, p)
  {
    assert SelectAllId(f, p)[0] == 'a' && DeselectAllId(f, p)[0] == 'd';
  }

  /** Select All on a checklist built from a value list puts back exactly that list, whatever was ticked. */
  lemma SelectAllRestoresOptions(f: Facet, p: Panel, value: seq<string>, vs: seq<string>)
    ensures SelectDeselect(f, p, SelectAllId(f, p), value, Checklist(vs)) == vs
  {
  }

  /** Pressing the same button twice leaves the checklist as the first press did. */
  lemma SelectDeselectIdempotent(f: Facet, p: Panel, changedId: string, value: seq<string>,
                                 options: seq<ChecklistOption>)
    ensures SelectDeselect(f, p, changedId, SelectDeselect(f, p, changedId, value, options), options)
         == SelectDeselect(f, p, changedId, value, options)
  {
  }

  /** The option list a facet's checklist is built from at load time; "None" last for the additive facets. */
  function FacetOptions(dv: seq<Row>, f: Facet): seq<string> {
    if f in {Additive, AdditiveConcentration, LiquidPhase} then NoneLast(UniqueValues(dv, f))
    else UniqueValues(dv, f)
  }

  /** Every row's value of a facet is one of that facet's options. */
  lemma FacetOptionsCover(dv: seq<Row>, f: Facet, k: nat)
    requires k < |dv|
    ensures dv[k].Get(f) in FacetOptions(dv, f)
  {
    var u := UniqueValues(dv, f);
    assert dv[k].Get(f) in u;
    NoneLastProperties(u);
  }

  /** The store's option lists are the load-time option lists of the prepared sheet. */
  lemma StoreOptionsAreFacetOptions(store: Store, sheet: seq<RawRow>)
    requires store.uniqueStudies == UniqueValues(Prepare(sheet), Study)
    requires store.uniqueGases == UniqueValues(Prepare(sheet), Gas)
    requires store.uniqueSurfactants == UniqueValues(Prepare(sheet), Surfactant)
    requires store.uniqueSurfactantConcentrations == UniqueValues(Prepare(sheet), SurfactantConcentration)
    requires store.uniqueAdditives == NoneLast(UniqueValues(Prepare(sheet), Additive))
    requires store.uniqueAdditiveConcentrations == NoneLast(UniqueValues(Prepare(sheet), AdditiveConcentration))
    requires store.uniqueLiquidPhases == NoneLast(UniqueValues(Prepare(sheet), LiquidPhase))
    ensures forall f :: store.Options(f) == FacetOptions(Prepare(sheet), f)
  {
    var dv := Prepare(sheet);
    forall f ensures store.Options(f) == FacetOptions(dv, f) {
      match f
      case Study =>
      case Gas =>
      case Surfactant =>
      case SurfactantConcentration =>
      case Additive =>
      case AdditiveConcentration =>
      case LiquidPhase =>
    }
  }

  /** A checklist state of one panel in which Select All was the last button pressed on every facet. */
  predicate AllSelected(sel: Selection, dv: seq<Row>, p: Panel, values: seq<seq<string>>) {
    && |values| == |Facets|
    && forall k :: 0 <= k < |Facets| ==>
      sel.Allowed(Facets[k]) == SelectDeselect(Facets[k], p, SelectAllId(Facets[k], p), values[k],
                                               Checklist(FacetOptions(dv, Facets[k])))
  }

  /**
   * With every facet's checklist holding all of its options, as the page starts
   * (`value = unique_*`), the filter keeps the whole table, in order.
   */
  lemma FullSelectionKeepsTable(dv: seq<Row>, sel: Selection)
    requires forall k :: 0 <= k < |Facets| ==> sel.Allowed(Facets[k]) == FacetOptions(dv, Facets[k])
    ensures FilterRows(dv, sel) == dv
  {
    FilterRowsIsOnePass(dv, sel);
    forall j | 0 <= j < |dv| ensures Admits(sel, dv[j]) {
      forall k | 0 <= k < |Facets| ensures dv[j].Get(Facets[k]) in sel.Allowed(Facets[k]) {
        FacetOptionsCover(dv, Facets[k], j);
      }
    }
    KeepAll(dv, (r: Row) => Admits(sel, r));
  }

  /** With Select All pressed on all seven checklists of a panel, the filter keeps the whole table, in order. */
  lemma SelectAllKeepsTable(dv: seq<Row>, p: Panel, values: seq<seq<string>>, sel: Selection)
    requires AllSelected(sel, dv, p, values)
    ensures FilterRows(dv, sel) == dv
  {
    forall k | 0 <= k < |Facets| ensures sel.Allowed(Facets[k]) == FacetOptions(dv, Facets[k]) {
      SelectAllRestoresOptions(Facets[k], p, values[k], FacetOptions(dv, Facets[k]));
    }
    FullSelectionKeepsTable(dv, sel);
  }

  /** Colouring the rows leaves every facet's option list as it was. */
  lemma ColorRowsKeepsOptions(dv: seq<Row>, studies: seq<string>, palette: seq<string>, f: Facet)
    requires |studies| <= |palette|
    ensures FacetOptions(ColorRows(dv, studies, palette), f) == FacetOptions(dv, f)
  {
    var rows := ColorRows(dv, studies, palette);
    assert Column(rows, f) == Column(dv, f);
  }

  /**
   * The options the dashboard offers are those of the prepared sheet, computed before
   * the colours are written; Select All everywhere keeps the whole coloured table.
   */
  lemma SelectAllKeepsLoadedTable(sheet: seq<RawRow>, palette: seq<string>, p: Panel,
                                  values: seq<seq<string>>, sel: Selection)
    requires |StudyList(sheet)| <= |palette|
    requires AllSelected(sel, Prepare(sheet), p, values)
    ensures FilterRows(ColorRows(Prepare(sheet), StudyList(sheet), palette), sel)
         == ColorRows(Prepare(sheet), StudyList(sheet), palette)
  {
    var dv := Prepare(sheet);
    var rows := ColorRows(dv, StudyList(sheet), palette);
    forall k | 0 <= k < |Facets| ensures FacetOptions(rows, Facets[k]) == FacetOptions(dv, Facets[k]) {
      ColorRowsKeepsOptions(dv, StudyList(sheet), palette, Facets[k]);
    }
    SelectAllKeepsTable(rows, p, values, sel);
  }

  /** Where a facet sits in the filter chain. */
  function FacetIndex(f: Facet): (k: nat)
    ensures k < |Facets| && Facets[k] == f
  {
    match f
    case Study => 0
    case Gas => 1
    case Surfactant => 2
    case SurfactantConcentration => 3
    case Additive => 4
    case AdditiveConcentration => 5
    case LiquidPhase => 6
  }

  /** A plan over an empty table draws nothing: no study passes the row-count gate. */
  lemma {:induction false} PlanOfNothing(q: Query, s: Solvers, studies: seq<string>)
    requires s.Valid()
    ensures Plan(q, s, [], studies) == []
    decreases |studies|
  {
    if studies != [] {
      PlanOfNothing(q, s, studies[..|studies| - 1]);
      assert StudyRows([], studies[|studies| - 1]) == [];
    }
  }

  /**
   * Deselect All on any one checklist empties the filtered table, so the graph callback
   * draws no trace and its table has no record.
   */
  lemma DeselectAllClearsGraph(dv: seq<Row>, studies: seq<string>, sel: Selection, q: Query, s: Solvers,
                               f: Facet, p: Panel, value: seq<string>, options: seq<ChecklistOption>)
    requires s.Valid()
    requires sel.Allowed(f) == SelectDeselect(f, p, DeselectAllId(f, p), value, options)
    ensures Cleaned(dv, sel, q.axes) == []
    ensures Plan(q, s, [], studies) == []
  {
    var k := FacetIndex(f);
    assert sel.Allowed(Facets[k]) == [];
    FilterRowsSpec(dv, sel, [], []);
    assert FilterRows(dv, sel) == [];
    assert DropMissing([], q.axes.Columns()) == [];
    PlanOfNothing(q, s, studies);
  }

  /** A CSS property value: a keyword or a number. */
  datatype StyleValue = Word(w: string) | Number(n: int)

  /** A component's `style`: CSS properties and their values. */
  type Style = map<string, StyleValue>

  /** A component is shown unless its style sets `display: none`. */
  predicate Visible(style: Style) {
    "display" !in style || style["display"] != Word("none")
  }

  /** The style of the hidden containers. */
  const Hidden: Style := map["display" := Word("none")]

  /** `toggle_showmore_container` and its twin: the extra controls scroll below a rule, or are hidden. */
  function ShowMoreStyle(toggle: string): (style: Style)
    ensures Visible(style) <==> toggle == "Show More"
  {
    if toggle == "Show More" then
      map["display" := Word("block"), "max-height" := Number(250), "overflow-y" := Word("auto"),
          "border-top" := Word("1px black solid")]
    else Hidden
  }

  /** The label of the comparison radio's options. */
  function RadioLabel(c: Comparison): string {
    if c == Compare then "Compare" else "No Compare"
  }

  /**
   * `toggle_compare_container`: the styles of the second panel's dropdown, its 3D graph,
   * 3D table, 2D graph, 2D table and "Show More" toggle.
   */
  function CompareStyles(compareValue: string): (styles: seq<Style>)
    ensures |styles| == 6
  {
    if compareValue == "Compare" then
      [ map["display" := Word("block"), "position" := Word("absolute"), "top" := Word("45%"),
            "margin-right" := Word("auto"), "margin-left" := Word("auto"), "width" := Word("100%"),
            "text-align" := Word("center")],
        map["display" := Word("block")],
        map["display" := Word("block")],
        map["display" := Word("block")],
        map["display" := Word("block")],
        map["text-align" := Word("center"), "margin" := Word("auto"), "backgroundColor" := Word("white"),
            "border-radius" := Number(3), "width" := Word("80%")] ]
    else [Hidden, Hidden, Hidden, Hidden, Hidden, Hidden]
  }

  /**
   * The second panel is shown, all six parts of it, exactly when the radio reads
   * "Compare", which is exactly when the comp2 graph callbacks draw a figure.
   */
  lemma SecondPanelShownWhenComparing(c: Comparison, i: nat)
    requires i < 6
    ensures Visible(CompareStyles(RadioLabel(c))[i]) <==> c == Compare
  {
    var styles := CompareStyles(RadioLabel(c));
    if c == NoCompare {
      assert RadioLabel(c) != "Compare" by {
        assert RadioLabel(c)[0] == 'N';
      }
      assert styles[i] == Hidden;
    }
  }

  /** One entry of the master table's `style_data_conditional`. */
  datatype StyleRule =
    | OddRowStripe(background: string)
    | ColumnHighlight(column: string, background: string, color: string)

  /** `update_master_table_styles`: odd rows striped grey, the selected x, y and z columns in blue. */
  function MasterTableStyles(x: string, y: string, z: string): seq<StyleRule> {
    [ OddRowStripe("rgb(248, 248, 248)"),
      ColumnHighlight(x, "#0066CC", "white"),
      ColumnHighlight(y, "#0066CC", "white"),
      ColumnHighlight(z, "#0066CC", "white") ]
  }

  /** The columns a list of rules highlights, in order. */
  function Highlighted(rules: seq<StyleRule>): (cols: seq<string>)
    ensures |cols| <= |rules|
  {
    if rules == [] then []
    else (if rules[0].ColumnHighlight? then [rules[0].column] else []) + Highlighted(rules[1..])
  }

  /**
   * The master table highlights exactly the columns the 3D graph plots, in axis order,
   * and stripes its odd rows first.
   */
  lemma MasterTableHighlightsAxes(x: string, y: string, z: string)
    ensures Highlighted(MasterTableStyles(x, y, z)) == Axes3(x, y, z).Columns()
    ensures MasterTableStyles(x, y, z)[0].OddRowStripe?
  {
    var rules := MasterTableStyles(x, y, z);
    assert rules[1..][1..][1..][1..] == [];
    assert Highlighted(rules[1..][1..][1..]) == [z];
    assert Highlighted(rules[1..][1..]) == [y, z];
    assert Highlighted(rules[1..]) == [x, y, z];
  }
}
