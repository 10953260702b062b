/**
 * Orders used by the dashboard: numpy's code-point order on strings (what `np.sort` and
 * `np.unique` use on the facet columns) and the duplicate-free ascending list that
 * `np.sort(np.unique(values))` builds.
 */
module Ordering {

  /** `lt` is irreflexive, transitive and relates every two distinct values. */
  ghost predicate StrictTotalOrder<T(!new)>(lt: (T, T) -> bool) {
    && (forall a :: !lt(a, a))
    && (forall a, b, c :: lt(a, b) && lt(b, c) ==> lt(a, c))
    && (forall a, b :: a != b ==> lt(a, b) || lt(b, a))
  }

  /** Every earlier element is strictly below every later one. */
  predicate Ascending<T>(s: seq<T>, lt: (T, T) -> bool) {
    forall i, j :: 0 <= i < j < |s| ==> lt(s[i], s[j])
  }

  /** Lexicographic order on strings, comparing characters by code point. */
  predicate StrLess(a: string, b: string) {
    if a == [] then b != []
    else if b == [] then false
    else a[0] < b[0] || (a[0] == b[0] && StrLess(a[1..], b[1..]))
  }

  lemma {:induction false} StrLessIrreflexive(a: string)
    ensures !StrLess(a, a)
  {
    if a != [] {
      StrLessIrreflexive(a[1..]);
    }
  }

  lemma {:induction false} StrLessTransitive(a: string, b: string, c: string)
    requires StrLess(a, b) && StrLess(b, c)
    ensures StrLess(a, c)
  {
    if a != [] && b != [] && c != [] && a[0] == b[0] && b[0] == c[0] {
      StrLessTransitive(a[1..], b[1..], c[1..]);
    }
  }

  lemma {:induction false} StrLessTotal(a: string, b: string)
    requires a != b
    ensures StrLess(a, b) || StrLess(b, a)
  {
    if a != [] && b != [] && a[0] == b[0] {
      assert a == [a[0]] + a[1..] && b == [b[0]] + b[1..];
      StrLessTotal(a[1..], b[1..]);
    }
  }

  /** Code-point order on strings is a strict total order. */
  lemma StrLessIsStrictTotalOrder()
    ensures StrictTotalOrder(StrLess)
  {
    forall a: string ensures !StrLess(a, a) {
      StrLessIrreflexive(a);
    }
    forall a: string, b: string, c: string | StrLess(a, b) && StrLess(b, c)
      ensures StrLess(a, c)
    {
      StrLessTransitive(a, b, c);
    }
    forall a: string, b: string | a != b ensures StrLess(a, b) || StrLess(b, a) {
      StrLessTotal(a, b);
    }
  }

  /** The usual order on reals (what `np.unique` sorts numeric columns by). */
  predicate RealLess(a: real, b: real) {
    a < b
  }

  /** The usual order on reals is a strict total order. */
  lemma RealLessIsStrictTotalOrder()
    ensures StrictTotalOrder(RealLess)
  {
  }

  /** An ascending sequence under a strict order holds no value twice. */
  lemma AscendingIsDistinct<T(!new)>(s: seq<T>, lt: (T, T) -> bool)
    requires StrictTotalOrder(lt) && Ascending(s, lt)
    ensures forall i, j :: 0 <= i < j < |s| ==> s[i] != s[j]
  {
  }

  /** Inserts `x` into the ascending, duplicate-free `s`, unless it is already there. */
  function InsertUnique<T(==,!new)>(x: T, s: seq<T>, lt: (T, T) -> bool): (r: seq<T>)
    requires StrictTotalOrder(lt) && Ascending(s, lt)
    ensures Ascending(r, lt)
    ensures forall v :: v in r <==> v == x || v in s
  {
    if s == [] then [x]
    else if x == s[0] then s
    else if lt(x, s[0]) then [x] + s
    else
      var rest := InsertUnique(x, s[1..], lt);
      assert forall v :: v in rest ==> lt(s[0], v);
      var r := [s[0]] + rest;
      assert forall j :: 0 < j < |r| ==> r[j] in rest;
      r
  }

  /**
   * The distinct values of `s` in ascending order: `np.sort(np.unique(s))`, and
   * `np.unique(s)` alone, which already sorts.
   */
  function SortedUnique<T(==,!new)>(s: seq<T>, lt: (T, T) -> bool): (r: seq<T>)
    requires StrictTotalOrder(lt)
    ensures Ascending(r, lt)
    ensures forall v :: v in r <==> v in s
    ensures |r| <= |s|
  {
    if s == [] then []
    else
      var rest := SortedUnique(s[1..], lt);
      assert forall v :: v in s <==> v == s[0] || v in s[1..] by {
        assert s == [s[0]] + s[1..];
      }
      var r := InsertUnique(s[0], rest, lt);
      AscendingIsDistinct(r, lt);
      DistinctSubsetSize(r, s);
      r
  }

  /** A duplicate-free sequence whose values all occur in `s` is no longer than `s`. */
  lemma DistinctSubsetSize<T>(r: seq<T>, s: seq<T>)
    requires forall i, j :: 0 <= i < j < |r| ==> r[i] != r[j]
    requires forall v :: v in r ==> v in s
    ensures |r| <= |s|
  {
    var rs := set v | v in r;
    var ss := set v | v in s;
    assert rs <= ss;
    DistinctCard(r);
    SetOfSeqCard(s);
    SubsetCard(rs, ss);
  }

  lemma {:induction false} DistinctCard<T>(r: seq<T>)
    requires forall i, j :: 0 <= i < j < |r| ==> r[i] != r[j]
    ensures |set v | v in r| == |r|
  {
    if r != [] {
      var tail := r[1..];
      DistinctCard(tail);
      assert (set v | v in r) == (set v | v in tail) + {r[0]};
      assert r[0] !in tail;
    }
  }

  lemma {:induction false} SetOfSeqCard<T>(s: seq<T>)
    ensures |set v | v in s| <= |s|
  {
    if s != [] {
      SetOfSeqCard(s[1..]);
      assert (set v | v in s) == (set v | v in s[1..]) + {s[0]};
    }
  }

  lemma SubsetCard<T>(a: set<T>, b: set<T>)
    requires a <= b
    ensures |a| <= |b|
  {
    assert b == a + (b - a);
  }
}
