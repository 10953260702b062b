/**
 * The row pipeline at the head of every graph callback of app/home.py: seven chained
 * `isin` facet filters, dropping the rows that miss a selected axis, sorting by the
 * x axis, and the table the callback returns (the rows restricted to the axis columns).
 */
module Filtering {
  import opened Records
  import opened Seqs

  /** The row's value of each facet in `fs` is among that facet's admissible values. */
  predicate AdmitsAll(sel: Selection, r: Row, fs: seq<Facet>) {
    forall k :: 0 <= k < |fs| ==> r.Get(fs[k]) in sel.Allowed(fs[k])
  }

  /** A row passes the dashboard's filter when all seven of its facets are admissible. */
  predicate Admits(sel: Selection, r: Row) {
    AdmitsAll(sel, r, Facets)
  }

  /** `rows[rows[f].isin(allowed)]`: one facet filter. */
  function FacetFilter(rows: seq<Row>, f: Facet, allowed: seq<string>): (r: seq<Row>)
    ensures forall x :: x in r <==> x in rows && x.Get(f) in allowed
  {
    Keep(rows, (x: Row) => x.Get(f) in allowed)
  }

  /** The facet filters of `fs` applied one after the other, `fs[0]` first. */
  function FilterChain(rows: seq<Row>, sel: Selection, fs: seq<Facet>): seq<Row>
    decreases |fs|
  {
    if fs == [] then rows
    else FilterChain(FacetFilter(rows, fs[0], sel.Allowed(fs[0])), sel, fs[1..])
  }

  /** The seven chained filters of a graph callback, Study first and LiquidPhase last. */
  function FilterRows(dv: seq<Row>, sel: Selection): seq<Row> {
    FilterChain(dv, sel, Facets)
  }

  /** A chain of filters is one order-preserving selection by the conjunction of its facets. */
  lemma {:induction false} FilterChainIsOnePass(rows: seq<Row>, sel: Selection, fs: seq<Facet>)
    ensures FilterChain(rows, sel, fs) == Keep(rows, (r: Row) => AdmitsAll(sel, r, fs))
    decreases |fs|
  {
    if fs == [] {
      KeepAll(rows, (r: Row) => AdmitsAll(sel, r, fs));
    } else {
      var first := (x: Row) => x.Get(fs[0]) in sel.Allowed(fs[0]);
      var rest := (r: Row) => AdmitsAll(sel, r, fs[1..]);
      var all := (r: Row) => AdmitsAll(sel, r, fs);
      FilterChainIsOnePass(Keep(rows, first), sel, fs[1..]);
      forall r: Row ensures all(r) == (first(r) && rest(r)) {
        if first(r) && rest(r) {
          forall k | 0 <= k < |fs| ensures r.Get(fs[k]) in sel.Allowed(fs[k]) {
            if k > 0 {
              assert fs[k] == fs[1..][k - 1];
            }
          }
        }
        if all(r) {
          assert r.Get(fs[0]) in sel.Allowed(fs[0]);
          forall k | 0 <= k < |fs[1..]| ensures r.Get(fs[1..][k]) in sel.Allowed(fs[1..][k]) {
            assert fs[1..][k] == fs[k + 1];
          }
        }
      }
      KeepFuse(rows, first, rest, all);
    }
  }

  lemma FilterRowsIsOnePass(dv: seq<Row>, sel: Selection)
    ensures FilterRows(dv, sel) == Keep(dv, (r: Row) => Admits(sel, r))
  {
    FilterChainIsOnePass(dv, sel, Facets);
    KeepSame(dv, (r: Row) => AdmitsAll(sel, r, Facets), (r: Row) => Admits(sel, r));
  }

  /**
   * A row survives the filter iff all seven of its facets are admissible; survivors keep
   * their input order (filtering a concatenation filters each part), and an empty
   * selection for any facet yields no rows.
   */
  lemma FilterRowsSpec(dv: seq<Row>, sel: Selection, a: seq<Row>, b: seq<Row>)
    ensures forall r :: r in FilterRows(dv, sel) <==> r in dv && Admits(sel, r)
    ensures FilterRows(a + b, sel) == FilterRows(a, sel) + FilterRows(b, sel)
    ensures (exists k :: 0 <= k < |Facets| && sel.Allowed(Facets[k]) == []) ==> FilterRows(dv, sel) == []
  {
    FilterRowsIsOnePass(dv, sel);
    FilterRowsIsOnePass(a, sel);
    FilterRowsIsOnePass(b, sel);
    FilterRowsIsOnePass(a + b, sel);
    KeepConcat(a, b, (r: Row) => Admits(sel, r));
    if exists k :: 0 <= k < |Facets| && sel.Allowed(Facets[k]) == [] {
      var k :| 0 <= k < |Facets| && sel.Allowed(Facets[k]) == [];
      FilterRowsIsOnePass(dv, sel);
      forall r: Row ensures !Admits(sel, r) {
        assert r.Get(Facets[k]) !in sel.Allowed(Facets[k]);
      }
      KeepNone(dv, (r: Row) => Admits(sel, r));
    }
  }

  /** Filtering a second time with the same selection changes nothing. */
  lemma FilterRowsIdempotent(dv: seq<Row>, sel: Selection)
    ensures FilterRows(FilterRows(dv, sel), sel) == FilterRows(dv, sel)
  {
    FilterRowsIsOnePass(dv, sel);
    FilterRowsIsOnePass(FilterRows(dv, sel), sel);
    KeepIdempotent(dv, (r: Row) => Admits(sel, r));
  }

  /** `small` admits no more values than `large` in any facet. */
  predicate Narrower(small: Selection, large: Selection) {
    forall f, v :: v in small.Allowed(f) ==> v in large.Allowed(f)
  }

  /** Shrinking any facet's admissible values never lets more rows through. */
  lemma FilterRowsMonotone(dv: seq<Row>, small: Selection, large: Selection)
    requires Narrower(small, large)
    ensures |FilterRows(dv, small)| <= |FilterRows(dv, large)|
  {
    FilterRowsIsOnePass(dv, small);
    FilterRowsIsOnePass(dv, large);
    forall r: Row ensures Admits(small, r) ==> Admits(large, r) {
      if Admits(small, r) {
        forall k | 0 <= k < |Facets| ensures r.Get(Facets[k]) in large.Allowed(Facets[k]) {
          assert r.Get(Facets[k]) in small.Allowed(Facets[k]);
        }
      }
    }
    KeepMonotone(dv, (r: Row) => Admits(small, r), (r: Row) => Admits(large, r));
  }

  /** True when the row has a value in every one of the given columns. */
  predicate HasAll(r: Row, cols: seq<string>) {
    forall c :: c in cols ==> c in r.measures
  }

  /** `rows.dropna(subset=cols)`: the rows with every listed column present, in order. */
  function DropMissing(rows: seq<Row>, cols: seq<string>): (r: seq<Row>)
    ensures forall x :: x in r <==> x in rows && HasAll(x, cols)
    ensures forall i :: 0 <= i < |r| ==> HasAll(r[i], cols)
  {
    var r := Keep(rows, (x: Row) => HasAll(x, cols));
    assert forall i :: 0 <= i < |r| ==> HasAll(r[i], cols) by {
      forall i | 0 <= i < |r| ensures HasAll(r[i], cols) {
        assert r[i] in r;
      }
    }
    r
  }

  /**
   * The order `sort_values(by=col)` puts rows in: ascending by the value in `col`,
   * a row without a value (NaN) after every row with one.
   */
  predicate XLeq(a: Row, b: Row, col: string) {
    col !in b.measures || (col in a.measures && a.measures[col] <= b.measures[col])
  }

  predicate SortedBy(rows: seq<Row>, col: string) {
    forall i, j :: 0 <= i < j < |rows| ==> XLeq(rows[i], rows[j], col)
  }

  function InsertBy(x: Row, rows: seq<Row>, col: string): (r: seq<Row>)
    requires SortedBy(rows, col)
    ensures SortedBy(r, col)
    ensures multiset(r) == multiset(rows) + multiset{x}
  {
    if rows == [] || XLeq(x, rows[0], col) then [x] + rows
    else
      var rest := InsertBy(x, rows[1..], col);
      assert rows == [rows[0]] + rows[1..];
      InsertBelowHead(x, rows, rest, col);
      [rows[0]] + rest
  }

  /** Putting the head back in front of the insertion into the tail keeps the order. */
  lemma InsertBelowHead(x: Row, rows: seq<Row>, rest: seq<Row>, col: string)
    requires rows != [] && SortedBy(rows, col) && !XLeq(x, rows[0], col)
    requires SortedBy(rest, col) && multiset(rest) == multiset(rows[1..]) + multiset{x}
    ensures SortedBy([rows[0]] + rest, col)
  {
    var r := [rows[0]] + rest;
    forall j | 0 < j < |r| ensures XLeq(rows[0], r[j], col) {
      assert r[j] == rest[j - 1];
      assert rest[j - 1] in multiset(rest);
      if rest[j - 1] != x {
        assert rest[j - 1] in multiset(rows[1..]);
        var k :| 0 <= k < |rows[1..]| && rows[1..][k] == rest[j - 1];
        assert rows[k + 1] == rest[j - 1];
      }
    }
  }

  /**
   * `sort_values(by=col)`: the same rows, ascending by `col`. Rows with equal values
   * may come out in any order (pandas' default sort is not stable), so only
   * sortedness and the permutation are promised.
   */
  function SortBy(rows: seq<Row>, col: string): (r: seq<Row>)
    ensures SortedBy(r, col)
    ensures multiset(r) == multiset(rows)
    ensures |r| == |rows|
  {
    if rows == [] then []
    else
      assert rows == [rows[0]] + rows[1..];
      InsertBy(rows[0], SortBy(rows[1..], col), col)
  }

  /** The selected axis columns: x and y, and z for the 3D graphs. */
  datatype Axes = Axes2(x: string, y: string) | Axes3(x: string, y: string, z: string)
  {
    function Columns(): seq<string> {
      match this
      case Axes2(x, y) => [x, y]
      case Axes3(x, y, z) => [x, y, z]
    }
  }

  /** The rows a graph callback works on: filtered, without a missing axis, sorted by x. */
  function Cleaned(dv: seq<Row>, sel: Selection, axes: Axes): seq<Row> {
    SortBy(DropMissing(FilterRows(dv, sel), axes.Columns()), axes.x)
  }

  /**
   * The cleaned rows are exactly the admissible rows with every axis present, each as
   * often as in the table, ascending by x.
   */
  lemma CleanedSpec(dv: seq<Row>, sel: Selection, axes: Axes)
    ensures forall r :: r in Cleaned(dv, sel, axes) <==> r in dv && Admits(sel, r) && HasAll(r, axes.Columns())
    ensures multiset(Cleaned(dv, sel, axes)) == multiset(DropMissing(FilterRows(dv, sel), axes.Columns()))
    ensures SortedBy(Cleaned(dv, sel, axes), axes.x)
    ensures forall i :: 0 <= i < |Cleaned(dv, sel, axes)| ==> HasAll(Cleaned(dv, sel, axes)[i], axes.Columns())
  {
    FilterRowsSpec(dv, sel, [], []);
    var kept := DropMissing(FilterRows(dv, sel), axes.Columns());
    var out := Cleaned(dv, sel, axes);
    forall r ensures r in out <==> r in kept {
      assert r in out <==> r in multiset(out);
      assert r in kept <==> r in multiset(kept);
    }
    forall i | 0 <= i < |out| ensures HasAll(out[i], axes.Columns()) {
      assert out[i] in out;
    }
  }

  /** One table record: the row's values in the given columns. */
  function Project(r: Row, cols: seq<string>): (m: map<string, real>)
    ensures forall c :: c in m <==> c in cols && c in r.measures
    ensures forall c :: c in m ==> m[c] == r.measures[c]
  {
    map c | c in cols && c in r.measures :: r.measures[c]
  }

  /** The table a graph callback returns: its records and its column ids. */
  datatype Table = Table(records: seq<map<string, real>>, columns: seq<string>)

  /**
   * `cleaned[[x, y(, z)]]`: one record per cleaned row, in the same order, holding
   * exactly the axis columns, which are listed as x, y(, z).
   */
  function AxisTable(cleaned: seq<Row>, axes: Axes): (t: Table)
    requires forall i :: 0 <= i < |cleaned| ==> HasAll(cleaned[i], axes.Columns())
    ensures t.columns == axes.Columns()
    ensures |t.records| == |cleaned|
    ensures forall i :: 0 <= i < |cleaned| ==>
      && (forall c :: c in t.records[i] <==> c in axes.Columns())
      && (forall c :: c in axes.Columns() ==>
            c in cleaned[i].measures && t.records[i][c] == cleaned[i].measures[c])
  {
    var cols := axes.Columns();
    var records := seq(|cleaned|, i requires 0 <= i < |cleaned| => Project(cleaned[i], cols));
    assert forall i :: 0 <= i < |cleaned| ==> forall c :: c in cols ==> c in cleaned[i].measures by {
      forall i | 0 <= i < |cleaned| ensures forall c :: c in cols ==> c in cleaned[i].measures {
        assert HasAll(cleaned[i], cols);
      }
    }
    Table(records, cols)
  }
}
