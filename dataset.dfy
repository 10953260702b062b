/**
 * Load-time preparation of the dashboard's table (app/initialize_data.py): drop the
 * rows the sheet left entirely empty, write "None" into empty facet cells, build the
 * sorted option list of every facet (with "None" moved last for additives, additive
 * concentrations and liquid phases) and give every study its own palette colour.
 * Fetching the sheet is not modelled: the loaded sheet is a parameter.
 */
module Dataset {
  import opened Records
  import opened Seqs
  import opened Ordering

  /** `dv.dropna(how='all')`: the rows with at least one non-empty cell, in order. */
  function DropEmptyRows(sheet: seq<RawRow>): (r: seq<RawRow>)
    ensures forall x :: x in r <==> x in sheet && !x.AllMissing()
  {
    Keep(sheet, (x: RawRow) => !x.AllMissing())
  }

  /** Row order survives the drop: dropping from a concatenation drops from each part. */
  lemma DropEmptyRowsKeepsOrder(a: seq<RawRow>, b: seq<RawRow>)
    ensures DropEmptyRows(a + b) == DropEmptyRows(a) + DropEmptyRows(b)
  {
    KeepConcat(a, b, (x: RawRow) => !x.AllMissing());
  }

  /** One row with its empty facet cells read as "None" and the given Color cell. */
  function FillRow(x: RawRow, color: string): (r: Row)
    ensures forall f :: r.Get(f) == OrNone(x.At(f))
    ensures r.measures == x.measures && r.color == color
  {
    Row(OrNone(x.study), OrNone(x.gas), OrNone(x.surfactant), OrNone(x.surfactantConcentration),
        OrNone(x.additive), OrNone(x.additiveConcentration), OrNone(x.liquidPhase),
        x.measures, color)
  }

  /**
   * `dv[facets] = dv[facets].fillna("None")`, followed by the new Color column set to
   * "any": facet cells are filled, measurement cells are left as they are.
   */
  function FillFacets(rows: seq<RawRow>): (r: seq<Row>)
    ensures |r| == |rows|
    ensures forall i, f :: 0 <= i < |rows| ==>
      r[i].Get(f) == (if rows[i].At(f).Text? then rows[i].At(f).s else NoneLabel)
    ensures forall i :: 0 <= i < |rows| ==> r[i].measures == rows[i].measures && r[i].color == UnassignedColor
  {
    seq(|rows|, i requires 0 <= i < |rows| => FillRow(rows[i], UnassignedColor))
  }

  /** The table as it stands before colours are assigned. */
  function Prepare(sheet: seq<RawRow>): seq<Row> {
    FillFacets(DropEmptyRows(sheet))
  }

  /** `np.sort(np.unique(dv[f]))`: the distinct values of facet `f`, ascending. */
  function UniqueValues(rows: seq<Row>, f: Facet): (u: seq<string>)
    ensures Ascending(u, StrLess)
    ensures Distinct(u)
    ensures forall v :: v in u <==> exists i :: 0 <= i < |rows| && rows[i].Get(f) == v
  {
    StrLessIsStrictTotalOrder();
    var c := Column(rows, f);
    var u := SortedUnique(c, StrLess);
    AscendingIsDistinct(u, StrLess);
    assert forall v :: v in c <==> exists i :: 0 <= i < |rows| && rows[i].Get(f) == v by {
      forall v ensures v in c <==> exists i :: 0 <= i < |rows| && rows[i].Get(f) == v {
        if v in c {
          var i :| 0 <= i < |c| && c[i] == v;
          assert rows[i].Get(f) == v;
        }
      }
    }
    u
  }

  /** True for every option but "None". */
  predicate NotNone(v: string) {
    v != NoneLabel
  }

  /** The option list with a present "None" moved to the last place (`np.delete` + `np.append`). */
  function NoneLast(s: seq<string>): seq<string> {
    if NoneLabel in s then Keep(s, NotNone) + [NoneLabel] else s
  }

  /** Removing the one "None" of a duplicate-free list leaves the entries around it, in order. */
  lemma {:induction false} KeepNotNoneRemovesOne(s: seq<string>, i: nat)
    requires Distinct(s) && i < |s| && s[i] == NoneLabel
    ensures Keep(s, NotNone) == s[..i] + s[i + 1..]
  {
    var before, after := s[..i], s[i + 1..];
    assert Keep(s, NotNone) == Keep(before + [NoneLabel], NotNone) + Keep(after, NotNone) by {
      SplitAt(s, i);
      KeepConcat(before + [NoneLabel], after, NotNone);
    }
    assert Keep(before + [NoneLabel], NotNone) == before by {
      KeepSnoc(before, NoneLabel, NotNone);
      DistinctSplit(s, i);
      KeepAll(before, NotNone);
    }
    assert Keep(after, NotNone) == after by {
      DistinctSplit(s, i);
      KeepAll(after, NotNone);
    }
  }

  /** Dropping one entry of an ascending list leaves it ascending. */
  lemma AscendingWithout(s: seq<string>, i: nat)
    requires Ascending(s, StrLess) && i < |s|
    ensures Ascending(s[..i] + s[i + 1..], StrLess)
  {
    var rest := s[..i] + s[i + 1..];
    forall a, b | 0 <= a < b < |rest| ensures StrLess(rest[a], rest[b]) {
      var a' := if a < i then a else a + 1;
      var b' := if b < i then b else b + 1;
      assert rest[a] == s[a'] && rest[b] == s[b'];
    }
  }

  /**
   * Moving "None" last keeps a sorted, duplicate-free option list duplicate-free and
   * over the same values; "None" ends up last and the other entries stay ascending.
   * A list without "None" is unchanged.
   */
  lemma NoneLastProperties(s: seq<string>)
    requires Ascending(s, StrLess) && Distinct(s)
    ensures forall v :: v in NoneLast(s) <==> v in s
    ensures Distinct(NoneLast(s))
    ensures |NoneLast(s)| == |s|
    ensures NoneLabel !in s ==> NoneLast(s) == s
    ensures NoneLabel in s ==>
      && NoneLast(s)[|s| - 1] == NoneLabel
      && Ascending(NoneLast(s)[..|s| - 1], StrLess)
      && NoneLabel !in NoneLast(s)[..|s| - 1]
  {
    if NoneLabel in s {
      var i := IndexOf(s, NoneLabel);
      KeepNotNoneRemovesOne(s, i);
      var rest := s[..i] + s[i + 1..];
      AscendingWithout(s, i);
      StrLessIsStrictTotalOrder();
      AscendingIsDistinct(rest, StrLess);
      assert NoneLabel !in rest;
      var r := rest + [NoneLabel];
      assert NoneLast(s) == r;
      assert r[..|s| - 1] == rest;
    }
  }

  /**
   * The colour a row of `study` gets: the palette entry at the study's position in
   * `studies`, or its current colour when the study is not listed.
   */
  function ColorOf(study: string, current: string, studies: seq<string>, palette: seq<string>): string
    requires |studies| <= |palette|
  {
    if study in studies then palette[IndexOf(studies, study)] else current
  }

  /** Every row recoloured by its study; nothing else in the row changes. */
  function ColorRows(rows: seq<Row>, studies: seq<string>, palette: seq<string>): (r: seq<Row>)
    requires |studies| <= |palette|
    ensures |r| == |rows|
  {
    seq(|rows|, k requires 0 <= k < |rows| =>
      rows[k].(color := ColorOf(rows[k].study, rows[k].color, studies, palette)))
  }

  /**
   * A row whose study is `studies[i]` gets `palette[i]`; rows of one study share their
   * colour; distinct listed studies use distinct palette positions; the other columns
   * are untouched.
   */
  lemma ColorRowsByStudy(rows: seq<Row>, studies: seq<string>, palette: seq<string>, k: nat, i: nat)
    requires |studies| <= |palette| && Distinct(studies)
    requires k < |rows| && i < |studies| && rows[k].study == studies[i]
    ensures ColorRows(rows, studies, palette)[k].color == palette[i]
    ensures ColorRows(rows, studies, palette)[k].(color := rows[k].color) == rows[k]
  {
    IndexOfDistinct(studies, i);
  }

  /** When every study is listed, no row keeps the colour it had before. */
  lemma EveryRowColored(rows: seq<Row>, studies: seq<string>, palette: seq<string>, k: nat)
    requires |studies| <= |palette| && k < |rows|
    requires forall j :: 0 <= j < |rows| ==> rows[j].study in studies
    ensures ColorRows(rows, studies, palette)[k].color == palette[IndexOf(studies, rows[k].study)]
    ensures forall j :: 0 <= j < |rows| && rows[j].study == rows[k].study ==>
      ColorRows(rows, studies, palette)[j].color == ColorRows(rows, studies, palette)[k].color
  {
  }

  /** One `dv.loc[dv.Study == study, 'Color'] = color` write. */
  function Recolor(rows: seq<Row>, study: string, color: string): (r: seq<Row>)
    ensures |r| == |rows|
  {
    seq(|rows|, k requires 0 <= k < |rows| =>
      if rows[k].study == study then rows[k].(color := color) else rows[k])
  }

  /** Colouring by one more listed study is one more Recolor write. */
  lemma ColorRowsStep(rows: seq<Row>, studies: seq<string>, palette: seq<string>, i: nat)
    requires i < |studies| <= |palette| && Distinct(studies)
    ensures ColorRows(rows, studies[..i + 1], palette)
         == Recolor(ColorRows(rows, studies[..i], palette), studies[i], palette[i])
  {
    var before := studies[..i];
    var study := studies[i];
    assert studies[..i + 1] == before + [study];
    assert study !in before;
    forall k | 0 <= k < |rows| && rows[k].study in before {
      IndexOfAppend(before, study, rows[k].study);
    }
    IndexOfUnique(before + [study], study, i);
  }

  /** The studies of the prepared sheet, which the palette must be long enough to cover. */
  function StudyList(sheet: seq<RawRow>): seq<string> {
    UniqueValues(Prepare(sheet), Study)
  }

  /** The table and the option lists the dashboard is built from (the module-level `dv` and `unique_*`). */
  class Store {
    var rows: seq<Row>
    var uniqueStudies: seq<string>
    var uniqueGases: seq<string>
    var uniqueSurfactants: seq<string>
    var uniqueSurfactantConcentrations: seq<string>
    var uniqueAdditives: seq<string>
    var uniqueAdditiveConcentrations: seq<string>
    var uniqueLiquidPhases: seq<string>

    /** The option list of facet `f`'s checklists. */
    function Options(f: Facet): seq<string>
      reads this
    {
      match f
      case Study => uniqueStudies
      case Gas => uniqueGases
      case Surfactant => uniqueSurfactants
      case SurfactantConcentration => uniqueSurfactantConcentrations
      case Additive => uniqueAdditives
      case AdditiveConcentration => uniqueAdditiveConcentrations
      case LiquidPhase => uniqueLiquidPhases
    }

    /** Runs the load-time statements of the module in order. Colours do not cycle, hence the requires. */
    constructor Load(sheet: seq<RawRow>, palette: seq<string>)
      requires |StudyList(sheet)| <= |palette|
      ensures uniqueStudies == UniqueValues(Prepare(sheet), Study)
      ensures uniqueGases == UniqueValues(Prepare(sheet), Gas)
      ensures uniqueSurfactants == UniqueValues(Prepare(sheet), Surfactant)
      ensures uniqueSurfactantConcentrations == UniqueValues(Prepare(sheet), SurfactantConcentration)
      ensures uniqueAdditives == NoneLast(UniqueValues(Prepare(sheet), Additive))
      ensures uniqueAdditiveConcentrations == NoneLast(UniqueValues(Prepare(sheet), AdditiveConcentration))
      ensures uniqueLiquidPhases == NoneLast(UniqueValues(Prepare(sheet), LiquidPhase))
      ensures rows == ColorRows(Prepare(sheet), uniqueStudies, palette)
    {
      var dv := Prepare(sheet);
      rows := dv;
      uniqueStudies := UniqueValues(dv, Study);
      uniqueGases := UniqueValues(dv, Gas);
      uniqueSurfactants := UniqueValues(dv, Surfactant);
      uniqueSurfactantConcentrations := UniqueValues(dv, SurfactantConcentration);
      uniqueAdditives := NoneLast(UniqueValues(dv, Additive));
      uniqueAdditiveConcentrations := NoneLast(UniqueValues(dv, AdditiveConcentration));
      uniqueLiquidPhases := NoneLast(UniqueValues(dv, LiquidPhase));
      new;
      AssignColors(palette);
    }

    /** The `for i in range(len(unique_studies))` loop writing the Color column. */
    method AssignColors(palette: seq<string>)
      requires |uniqueStudies| <= |palette| && Distinct(uniqueStudies)
      modifies this`rows
      ensures rows == ColorRows(old(rows), uniqueStudies, palette)
    {
      ghost var start := rows;
      var i := 0;
      while i < |uniqueStudies|
        invariant 0 <= i <= |uniqueStudies|
        invariant rows == ColorRows(start, uniqueStudies[..i], palette)
      {
        ColorRowsStep(start, uniqueStudies, palette, i);
        rows := Recolor(rows, uniqueStudies[i], palette[i]);
        i := i + 1;
      }
      assert uniqueStudies[..i] == uniqueStudies;
    }
  }
}
