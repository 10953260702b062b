/**
 * The "Average Y-axis" option of the 2D graphs of app/home.py: within one study's rows,
 * all rows sharing an x value are collapsed into one row whose y is the mean of theirs
 * and whose facets read "Refine Further" where those rows disagree.
 */
module Aggregate {
  import opened Records
  import opened Seqs
  import opened Ordering

  /** Every row has a value in both axis columns (the rows left after `dropna`). */
  predicate HasAxes(rows: seq<Row>, xcol: string, ycol: string) {
    forall i :: 0 <= i < |rows| ==> xcol in rows[i].measures && ycol in rows[i].measures
  }

  /** The row's x value is `v`. */
  predicate AtX(r: Row, xcol: string, v: real) {
    xcol in r.measures && r.measures[xcol] == v
  }

  /** The row has an x value and it is none of `cs`. */
  predicate OffX(r: Row, xcol: string, cs: seq<real>) {
    xcol in r.measures && r.measures[xcol] !in cs
  }

  /** The selections the aggregation loop makes, as named predicates on rows. */
  function AtXP(xcol: string, v: real): Row -> bool {
    (r: Row) => AtX(r, xcol, v)
  }

  function NotAtXP(xcol: string, v: real): Row -> bool {
    (r: Row) => !AtX(r, xcol, v)
  }

  function OffXP(xcol: string, cs: seq<real>): Row -> bool {
    (r: Row) => OffX(r, xcol, cs)
  }

  /** Some row stands at the x value `v`. */
  predicate Occurs(rows: seq<Row>, xcol: string, v: real) {
    exists i :: 0 <= i < |rows| && AtX(rows[i], xcol, v)
  }

  /** `np.unique(rows[x].values)`: the distinct x values, ascending. */
  function Cats(rows: seq<Row>, xcol: string): (cats: seq<real>)
    requires forall i :: 0 <= i < |rows| ==> xcol in rows[i].measures
    ensures Ascending(cats, RealLess)
    ensures forall v :: v in cats <==> Occurs(rows, xcol, v)
  {
    RealLessIsStrictTotalOrder();
    var xs := Values(rows, xcol);
    var cats := SortedUnique(xs, RealLess);
    assert forall v :: v in xs <==> Occurs(rows, xcol, v) by {
      forall v | v in xs ensures Occurs(rows, xcol, v) {
        var i :| 0 <= i < |xs| && xs[i] == v;
        assert AtX(rows[i], xcol, v);
      }
      forall v | Occurs(rows, xcol, v) ensures v in xs {
        var i :| 0 <= i < |rows| && AtX(rows[i], xcol, v);
        assert xs[i] == v;
      }
    }
    cats
  }

  /** `rows[rows[x] == v]`: the rows at one x value, in order. */
  function Group(rows: seq<Row>, xcol: string, v: real): (g: seq<Row>)
    ensures forall r :: r in g <==> r in rows && AtX(r, xcol, v)
  {
    Keep(rows, AtXP(xcol, v))
  }

  /** The sum of the y values. */
  function Sum(rows: seq<Row>, ycol: string): real
    requires forall i :: 0 <= i < |rows| ==> ycol in rows[i].measures
  {
    if rows == [] then 0.0 else rows[0].measures[ycol] + Sum(rows[1..], ycol)
  }

  /** `rows[y].mean()`. */
  function Mean(rows: seq<Row>, ycol: string): real
    requires |rows| > 0
    requires forall i :: 0 <= i < |rows| ==> ycol in rows[i].measures
  {
    Sum(rows, ycol) / (|rows| as real)
  }

  /** The mean of equal values is that value. */
  lemma MeanOfEqual(rows: seq<Row>, ycol: string, v: real)
    requires |rows| > 0
    requires forall i :: 0 <= i < |rows| ==> ycol in rows[i].measures && rows[i].measures[ycol] == v
    ensures Mean(rows, ycol) == v
  {
    SumOfEqual(rows, ycol, v);
  }

  lemma {:induction false} SumOfEqual(rows: seq<Row>, ycol: string, v: real)
    requires forall i :: 0 <= i < |rows| ==> ycol in rows[i].measures && rows[i].measures[ycol] == v
    ensures Sum(rows, ycol) == (|rows| as real) * v
  {
    if rows != [] {
      SumOfEqual(rows[1..], ycol, v);
    }
  }

  /** The value kept in facet `f`: "Refine Further" when the rows disagree on it. */
  function Mark(rows: seq<Row>, f: Facet, current: string): string {
    if |Dedup(Column(rows, f))| > 1 then RefineFurther else current
  }

  /**
   * The row that replaces the rows at one x value: the first of them, with each of the
   * six condition facets marked where they disagree and y replaced by their mean.
   */
  function Collapse(rows: seq<Row>, ycol: string): Row
    requires |rows| > 0
    requires forall i :: 0 <= i < |rows| ==> ycol in rows[i].measures
  {
    var first := rows[0];
    first.(
      gas := Mark(rows, Gas, first.gas),
      surfactant := Mark(rows, Surfactant, first.surfactant),
      surfactantConcentration := Mark(rows, SurfactantConcentration, first.surfactantConcentration),
      additive := Mark(rows, Additive, first.additive),
      additiveConcentration := Mark(rows, AdditiveConcentration, first.additiveConcentration),
      liquidPhase := Mark(rows, LiquidPhase, first.liquidPhase),
      measures := first.measures[ycol := Mean(rows, ycol)])
  }

  /** The collapsed row of the x value `v`, which occurs in `rows`. */
  function CollapseAt(rows: seq<Row>, xcol: string, ycol: string, v: real): Row
    requires HasAxes(rows, xcol, ycol)
    requires v in Cats(rows, xcol)
  {
    var g := Group(rows, xcol, v);
    GroupNonEmpty(rows, xcol, ycol, v);
    Collapse(g, ycol)
  }

  /** The rows at an x value that occurs are not empty, and all have both axes. */
  lemma GroupNonEmpty(rows: seq<Row>, xcol: string, ycol: string, v: real)
    requires HasAxes(rows, xcol, ycol)
    requires v in Cats(rows, xcol)
    ensures |Group(rows, xcol, v)| > 0
    ensures HasAxes(Group(rows, xcol, v), xcol, ycol)
  {
    var g := Group(rows, xcol, v);
    var i :| 0 <= i < |rows| && AtX(rows[i], xcol, v);
    assert rows[i] in g;
    forall k | 0 <= k < |g| ensures xcol in g[k].measures && ycol in g[k].measures {
      assert g[k] in rows;
    }
  }

  /** The study's rows after "Average Y-axis": one collapsed row per distinct x, ascending. */
  function Averaged(rows: seq<Row>, xcol: string, ycol: string): (r: seq<Row>)
    requires HasAxes(rows, xcol, ycol)
    ensures |r| == |Cats(rows, xcol)|
  {
    var cats := Cats(rows, xcol);
    assert forall k :: 0 <= k < |cats| ==> cats[k] in cats;
    seq(|cats|, k requires 0 <= k < |cats| => CollapseAt(rows, xcol, ycol, cats[k]))
  }

  /** The collapsed row keeps its x value (also when y is the x column itself). */
  lemma CollapseAtX(rows: seq<Row>, xcol: string, ycol: string, v: real)
    requires HasAxes(rows, xcol, ycol)
    requires v in Cats(rows, xcol)
    ensures AtX(CollapseAt(rows, xcol, ycol, v), xcol, v)
  {
    var g := Group(rows, xcol, v);
    GroupNonEmpty(rows, xcol, ycol, v);
    assert g[0] in g;
    if ycol == xcol {
      forall k | 0 <= k < |g| ensures ycol in g[k].measures && g[k].measures[ycol] == v {
        assert g[k] in g;
      }
      MeanOfEqual(g, ycol, v);
    }
  }

  /** The k-th averaged row stands at the k-th distinct x value. */
  lemma AveragedAtCats(rows: seq<Row>, xcol: string, ycol: string)
    requires HasAxes(rows, xcol, ycol)
    ensures forall k :: 0 <= k < |Averaged(rows, xcol, ycol)| ==>
      AtX(Averaged(rows, xcol, ycol)[k], xcol, Cats(rows, xcol)[k])
  {
    var cats := Cats(rows, xcol);
    forall k | 0 <= k < |cats| ensures AtX(Averaged(rows, xcol, ycol)[k], xcol, cats[k]) {
      assert cats[k] in cats;
      CollapseAtX(rows, xcol, ycol, cats[k]);
    }
  }

  /**
   * Average Y-axis leaves exactly one row per distinct x value, in strictly ascending x
   * order: every x value of the study's rows is represented, and every averaged row's x
   * value occurs among them.
   */
  lemma AveragedOnePerX(rows: seq<Row>, xcol: string, ycol: string)
    requires HasAxes(rows, xcol, ycol)
    ensures var out := Averaged(rows, xcol, ycol);
      && (forall k :: 0 <= k < |out| ==> xcol in out[k].measures)
      && (forall k, j :: 0 <= k < j < |out| ==> out[k].measures[xcol] < out[j].measures[xcol])
      && (forall v :: Occurs(out, xcol, v) <==> Occurs(rows, xcol, v))
  {
    var out := Averaged(rows, xcol, ycol);
    var cats := Cats(rows, xcol);
    AveragedAtCats(rows, xcol, ycol);
    forall v ensures Occurs(out, xcol, v) <==> Occurs(rows, xcol, v) {
      if Occurs(rows, xcol, v) {
        assert v in cats;
        var k :| 0 <= k < |cats| && cats[k] == v;
        assert AtX(out[k], xcol, v);
      }
      if Occurs(out, xcol, v) {
        var k :| 0 <= k < |out| && AtX(out[k], xcol, v);
        assert cats[k] in cats;
      }
    }
  }

  /** The k-th averaged row collapses the rows at the k-th distinct x value. */
  lemma AveragedIsCollapse(rows: seq<Row>, xcol: string, ycol: string, k: int)
    requires HasAxes(rows, xcol, ycol)
    requires 0 <= k < |Averaged(rows, xcol, ycol)|
    ensures Cats(rows, xcol)[k] in Cats(rows, xcol)
    ensures |Group(rows, xcol, Cats(rows, xcol)[k])| > 0
    ensures HasAxes(Group(rows, xcol, Cats(rows, xcol)[k]), xcol, ycol)
    ensures Averaged(rows, xcol, ycol)[k] == Collapse(Group(rows, xcol, Cats(rows, xcol)[k]), ycol)
  {
    var cats := Cats(rows, xcol);
    assert cats[k] in cats;
    GroupNonEmpty(rows, xcol, ycol, cats[k]);
  }

  /**
   * The collapsed row: its y is the mean y of the rows, its study, colour and other
   * measures are those of the first row, and each condition facet reads "Refine Further"
   * exactly when two of the rows hold different values in it (otherwise the first row's).
   */
  lemma CollapseSpec(g: seq<Row>, ycol: string, f: Facet)
    requires |g| > 0
    requires forall i :: 0 <= i < |g| ==> ycol in g[i].measures
    requires f != Study
    ensures var c := Collapse(g, ycol);
      && ycol in c.measures && c.measures[ycol] == Mean(g, ycol)
      && c.study == g[0].study && c.color == g[0].color
      && (forall m :: m != ycol ==> (m in c.measures <==> m in g[0].measures))
      && (forall m :: m != ycol && m in g[0].measures ==> c.measures[m] == g[0].measures[m])
      && c.Get(f) == (if exists i, j :: 0 <= i < |g| && 0 <= j < |g| && g[i].Get(f) != g[j].Get(f)
                      then RefineFurther else g[0].Get(f))
  {
    MarkVaries(g, f, g[0].Get(f));
    CollapseGet(g, ycol, f);
  }

  /** A facet is marked exactly when two of the rows disagree on it. */
  lemma MarkVaries(g: seq<Row>, f: Facet, current: string)
    ensures Mark(g, f, current) == (if exists i, j :: 0 <= i < |g| && 0 <= j < |g| && g[i].Get(f) != g[j].Get(f)
                                    then RefineFurther else current)
  {
    var col := Column(g, f);
    DedupVaries(col);
    assert (exists i, j :: 0 <= i < |col| && 0 <= j < |col| && col[i] != col[j])
       <==> (exists i, j :: 0 <= i < |g| && 0 <= j < |g| && g[i].Get(f) != g[j].Get(f));
  }

  /** The collapsed row's condition facet is the first row's value, marked. */
  lemma CollapseGet(g: seq<Row>, ycol: string, f: Facet)
    requires |g| > 0
    requires forall i :: 0 <= i < |g| ==> ycol in g[i].measures
    requires f != Study
    ensures Collapse(g, ycol).Get(f) == Mark(g, f, g[0].Get(f))
  {
  }

  /**
   * Averaging one study's rows yields rows of that study, with a colour some of its rows
   * had, that still hold both axis values.
   */
  lemma AveragedKeepsStudy(rows: seq<Row>, xcol: string, ycol: string, study: string)
    requires HasAxes(rows, xcol, ycol)
    requires forall i :: 0 <= i < |rows| ==> rows[i].study == study
    ensures var out := Averaged(rows, xcol, ycol);
      && HasAxes(out, xcol, ycol)
      && (forall k :: 0 <= k < |out| ==> out[k].study == study)
      && (forall k :: 0 <= k < |out| ==> exists i :: 0 <= i < |rows| && out[k].color == rows[i].color)
  {
    var out := Averaged(rows, xcol, ycol);
    var cats := Cats(rows, xcol);
    forall k | 0 <= k < |out|
      ensures xcol in out[k].measures && ycol in out[k].measures && out[k].study == study
      ensures exists i :: 0 <= i < |rows| && out[k].color == rows[i].color
    {
      AveragedIsCollapse(rows, xcol, ycol, k);
      var g := Group(rows, xcol, cats[k]);
      CollapseSpec(g, ycol, Gas);
      assert g[0] in g;
      assert g[0] in rows;
    }
  }

  /**
   * The aggregation runs after the more-than-two-rows gate, so a study that passed the
   * gate can be left with a single row: all rows at one x collapse into one.
   */
  lemma AveragingUndercutsGate(rows: seq<Row>, xcol: string, ycol: string)
    requires HasAxes(rows, xcol, ycol) && |rows| > 2
    requires forall i :: 0 <= i < |rows| ==> rows[i].measures[xcol] == rows[0].measures[xcol]
    ensures |Averaged(rows, xcol, ycol)| == 1
  {
    var cats := Cats(rows, xcol);
    var v := rows[0].measures[xcol];
    assert v in cats;
    assert forall w :: w in cats ==> w in [v];
    RealLessIsStrictTotalOrder();
    AscendingIsDistinct(cats, RealLess);
    DistinctSubsetSize(cats, [v]);
  }

  /** The rows collapsed before step `i` stand at x values other than `cats[i]`. */
  lemma DoneElsewhere(rows: seq<Row>, xcol: string, ycol: string, i: int)
    requires HasAxes(rows, xcol, ycol)
    requires 0 <= i < |Cats(rows, xcol)|
    ensures forall r :: r in Averaged(rows, xcol, ycol)[..i] ==> NotAtXP(xcol, Cats(rows, xcol)[i])(r)
  {
    var all := Averaged(rows, xcol, ycol);
    forall r | r in all[..i] ensures NotAtXP(xcol, Cats(rows, xcol)[i])(r) {
      InPrefix(all, i, r);
      var k :| 0 <= k < i && all[k] == r;
      AveragedBefore(rows, xcol, ycol, k, i);
    }
  }

  /** An averaged row stands at an x value below every later distinct x value. */
  lemma AveragedBefore(rows: seq<Row>, xcol: string, ycol: string, k: int, i: int)
    requires HasAxes(rows, xcol, ycol)
    requires 0 <= k < i < |Cats(rows, xcol)|
    ensures !AtX(Averaged(rows, xcol, ycol)[k], xcol, Cats(rows, xcol)[i])
  {
    var cats := Cats(rows, xcol);
    AveragedAtCats(rows, xcol, ycol);
    assert AtX(Averaged(rows, xcol, ycol)[k], xcol, cats[k]);
    assert RealLess(cats[k], cats[i]);
  }

  /**
   * Among the rows off the earlier x values, those at a new value `v` are all the rows at
   * `v`, and the others are the rows off the earlier values and `v`.
   */
  lemma KeepOffThenAt(rows: seq<Row>, xcol: string, cs: seq<real>, v: real)
    requires v !in cs
    ensures Keep(Keep(rows, OffXP(xcol, cs)), AtXP(xcol, v)) == Keep(rows, AtXP(xcol, v))
    ensures Keep(Keep(rows, OffXP(xcol, cs)), NotAtXP(xcol, v)) == Keep(rows, OffXP(xcol, cs + [v]))
  {
    KeepFuse(rows, OffXP(xcol, cs), AtXP(xcol, v), AtXP(xcol, v));
    KeepFuse(rows, OffXP(xcol, cs), NotAtXP(xcol, v), OffXP(xcol, cs + [v]));
  }

  /** `cats[i]` is not among the earlier categories. */
  lemma CatIsNew(rows: seq<Row>, xcol: string, i: int)
    requires forall j :: 0 <= j < |rows| ==> xcol in rows[j].measures
    requires 0 <= i < |Cats(rows, xcol)|
    ensures Cats(rows, xcol)[i] !in Cats(rows, xcol)[..i]
  {
  }

  lemma StepGroup(rows: seq<Row>, xcol: string, ycol: string, i: int, out: seq<Row>)
    requires HasAxes(rows, xcol, ycol)
    requires 0 <= i < |Cats(rows, xcol)|
    requires out == Keep(rows, OffXP(xcol, Cats(rows, xcol)[..i])) + Averaged(rows, xcol, ycol)[..i]
    ensures Group(out, xcol, Cats(rows, xcol)[i]) == Group(rows, xcol, Cats(rows, xcol)[i])
  {
    var cats := Cats(rows, xcol);
    var v := cats[i];
    var done := Averaged(rows, xcol, ycol)[..i];
    var rest := Keep(rows, OffXP(xcol, cats[..i]));
    DoneElsewhere(rows, xcol, ycol, i);
    KeepNone(done, AtXP(xcol, v));
    KeepConcat(rest, done, AtXP(xcol, v));
    CatIsNew(rows, xcol, i);
    KeepOffThenAt(rows, xcol, cats[..i], v);
  }

  /**
   * Removing the rows at a new x value `v` from the rows off the earlier values followed by
   * rows at other x values, and appending one more row.
   */
  lemma RemoveAndAppend(rows: seq<Row>, xcol: string, cs: seq<real>, v: real, done: seq<Row>, next: Row)
    requires v !in cs
    requires forall r :: r in done ==> NotAtXP(xcol, v)(r)
    ensures Keep(Keep(rows, OffXP(xcol, cs)) + done, NotAtXP(xcol, v)) + [next]
         == Keep(rows, OffXP(xcol, cs + [v])) + (done + [next])
  {
    var rest := Keep(rows, OffXP(xcol, cs));
    KeepAll(done, NotAtXP(xcol, v));
    KeepConcat(rest, done, NotAtXP(xcol, v));
    KeepOffThenAt(rows, xcol, cs, v);
  }

  lemma StepNext(rows: seq<Row>, xcol: string, ycol: string, i: int, out: seq<Row>)
    requires HasAxes(rows, xcol, ycol)
    requires 0 <= i < |Cats(rows, xcol)|
    requires out == Keep(rows, OffXP(xcol, Cats(rows, xcol)[..i])) + Averaged(rows, xcol, ycol)[..i]
    ensures Keep(out, NotAtXP(xcol, Cats(rows, xcol)[i])) + [Averaged(rows, xcol, ycol)[i]]
         == Keep(rows, OffXP(xcol, Cats(rows, xcol)[..i + 1])) + Averaged(rows, xcol, ycol)[..i + 1]
  {
    var cats := Cats(rows, xcol);
    var all := Averaged(rows, xcol, ycol);
    DoneElsewhere(rows, xcol, ycol, i);
    CatIsNew(rows, xcol, i);
    RemoveAndAppend(rows, xcol, cats[..i], cats[i], all[..i], all[i]);
    PrefixSnoc(cats, i);
    PrefixSnoc(all, i);
  }

  /** Once every distinct x value has been handled, no original row is left. */
  lemma NoneLeft(rows: seq<Row>, xcol: string)
    requires forall j :: 0 <= j < |rows| ==> xcol in rows[j].measures
    ensures Keep(rows, OffXP(xcol, Cats(rows, xcol))) == []
  {
    var cats := Cats(rows, xcol);
    forall r | r in rows ensures !OffXP(xcol, cats)(r) {
      var j :| 0 <= j < |rows| && rows[j] == r;
      assert AtX(r, xcol, r.measures[xcol]);
    }
    KeepNone(rows, OffXP(xcol, cats));
  }

  /**
   * The body of one iteration: copy the first of the rows at one x value, mark each
   * condition facet in which those rows disagree, and set y to their mean.
   */
  method CollapseRows(rowsCat: seq<Row>, ycol: string) returns (first: Row)
    requires |rowsCat| > 0
    requires forall i :: 0 <= i < |rowsCat| ==> ycol in rowsCat[i].measures
    ensures first == Collapse(rowsCat, ycol)
  {
    first := rowsCat[0];
    if |Dedup(Column(rowsCat, Gas))| > 1 {
      first := first.(gas := RefineFurther);
    }
    if |Dedup(Column(rowsCat, Surfactant))| > 1 {
      first := first.(surfactant := RefineFurther);
    }
    if |Dedup(Column(rowsCat, SurfactantConcentration))| > 1 {
      first := first.(surfactantConcentration := RefineFurther);
    }
    if |Dedup(Column(rowsCat, Additive))| > 1 {
      first := first.(additive := RefineFurther);
    }
    if |Dedup(Column(rowsCat, AdditiveConcentration))| > 1 {
      first := first.(additiveConcentration := RefineFurther);
    }
    if |Dedup(Column(rowsCat, LiquidPhase))| > 1 {
      first := first.(liquidPhase := RefineFurther);
    }
    var avg := Mean(rowsCat, ycol);
    first := first.(measures := first.measures[ycol := avg]);
  }

  /**
   * The loop of the 2D callbacks: for each distinct x, ascending, collapse the rows at
   * that x, remove them and append the collapsed row.
   */
  method AverageY(rows: seq<Row>, xcol: string, ycol: string) returns (out: seq<Row>)
    requires HasAxes(rows, xcol, ycol)
    ensures out == Averaged(rows, xcol, ycol)
  {
    var cats := Cats(rows, xcol);
    out := rows;
    KeepAll(rows, OffXP(xcol, cats[..0]));
    var i := 0;
    while i < |cats|
      invariant 0 <= i <= |cats|
      invariant out == Keep(rows, OffXP(xcol, cats[..i])) + Averaged(rows, xcol, ycol)[..i]
    {
      var v := cats[i];
      StepGroup(rows, xcol, ycol, i, out);
      StepNext(rows, xcol, ycol, i, out);
      AveragedIsCollapse(rows, xcol, ycol, i);
      var rowsCat := Keep(out, AtXP(xcol, v));
      var first := CollapseRows(rowsCat, ycol);
      out := Keep(out, NotAtXP(xcol, v)) + [first];
      i := i + 1;
    }
    NoneLeft(rows, xcol);
    assert cats[..|cats|] == cats;
    assert Averaged(rows, xcol, ycol)[..|cats|] == Averaged(rows, xcol, ycol);
  }
}
