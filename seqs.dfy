/**
 * Sequence utilities shared by the dashboard model: order-preserving selection
 * (a pandas boolean mask), first-seen de-duplication (`dict.fromkeys`) and
 * positions of values.
 */
module Seqs {

  /** The elements of `s` that satisfy `p`, in their original order. */
  function Keep<T(!new)>(s: seq<T>, p: T -> bool): (r: seq<T>)
    ensures |r| <= |s|
    ensures forall x :: x in r <==> x in s && p(x)
  {
    if s == [] then []
    else (if p(s[0]) then [s[0]] else []) + Keep(s[1..], p)
  }

  /** Selection distributes over concatenation: survivors keep their relative order. */
  lemma {:induction false} KeepConcat<T(!new)>(a: seq<T>, b: seq<T>, p: T -> bool)
    ensures Keep(a + b, p) == Keep(a, p) + Keep(b, p)
  {
    if a == [] {
      assert a + b == b;
    } else {
      var rest := a[1..] + b;
      assert a + b == [a[0]] + rest;
      KeepConcat(a[1..], b, p);
      assert Keep([a[0]] + rest, p) == (if p(a[0]) then [a[0]] else []) + Keep(rest, p);
    }
  }

  /** Selecting from a sequence extended by one element extends the selection by it, if it passes. */
  lemma KeepSnoc<T(!new)>(s: seq<T>, x: T, p: T -> bool)
    ensures Keep(s + [x], p) == Keep(s, p) + (if p(x) then [x] else [])
  {
    KeepConcat(s, [x], p);
    assert [x][1..] == [];
  }

  /** Selecting with two predicates in turn is selecting once with their conjunction. */
  lemma {:induction false} KeepFuse<T(!new)>(s: seq<T>, p: T -> bool, q: T -> bool, pq: T -> bool)
    requires forall x :: pq(x) == (p(x) && q(x))
    ensures Keep(Keep(s, p), q) == Keep(s, pq)
  {
    if s != [] {
      KeepFuse(s[1..], p, q, pq);
      var head := if p(s[0]) then [s[0]] else [];
      KeepConcat(head, Keep(s[1..], p), q);
    }
  }

  /** Two predicates that agree on the elements select the same elements. */
  lemma {:induction false} KeepSame<T(!new)>(s: seq<T>, p: T -> bool, q: T -> bool)
    requires forall x :: x in s ==> p(x) == q(x)
    ensures Keep(s, p) == Keep(s, q)
  {
    if s != [] {
      KeepSame(s[1..], p, q);
    }
  }

  /** A predicate that holds everywhere on `s` keeps all of it. */
  lemma {:induction false} KeepAll<T(!new)>(s: seq<T>, p: T -> bool)
    requires forall x :: x in s ==> p(x)
    ensures Keep(s, p) == s
  {
    if s != [] {
      KeepAll(s[1..], p);
    }
  }

  /** A predicate that holds nowhere on `s` keeps nothing. */
  lemma {:induction false} KeepNone<T(!new)>(s: seq<T>, p: T -> bool)
    requires forall x :: x in s ==> !p(x)
    ensures Keep(s, p) == []
  {
    if s != [] {
      KeepNone(s[1..], p);
    }
  }

  /** Selecting twice with the same predicate changes nothing. */
  lemma KeepIdempotent<T(!new)>(s: seq<T>, p: T -> bool)
    ensures Keep(Keep(s, p), p) == Keep(s, p)
  {
    KeepAll(Keep(s, p), p);
  }

  /** A weaker predicate never keeps fewer elements. */
  lemma {:induction false} KeepMonotone<T(!new)>(s: seq<T>, p: T -> bool, q: T -> bool)
    requires forall x :: p(x) ==> q(x)
    ensures |Keep(s, p)| <= |Keep(s, q)|
  {
    if s != [] {
      KeepMonotone(s[1..], p, q);
    }
  }

  /** Selection never adds copies of an element. */
  lemma {:induction false} KeepMultiset<T(!new)>(s: seq<T>, p: T -> bool)
    ensures multiset(Keep(s, p)) <= multiset(s)
  {
    if s != [] {
      KeepMultiset(s[1..], p);
      assert s == [s[0]] + s[1..];
    }
  }

  /** A prefix one longer is the prefix followed by the next element. */
  lemma PrefixSnoc<T>(s: seq<T>, i: int)
    requires 0 <= i < |s|
    ensures s[..i + 1] == s[..i] + [s[i]]
  {
  }

  /** A non-empty sequence is its prefix followed by its last element. */
  lemma SplitLast<T>(s: seq<T>)
    requires |s| > 0
    ensures s == s[..|s| - 1] + [s[|s| - 1]]
  {
  }

  /** An element of a prefix stands at a position before its end. */
  lemma InPrefix<T>(s: seq<T>, i: nat, x: T)
    requires i <= |s| && x in s[..i]
    ensures exists k :: 0 <= k < i && s[k] == x
  {
    var k :| 0 <= k < i && s[..i][k] == x;
  }

  /** Appending three pieces one after another appends their concatenation. */
  lemma AppendThree<T>(d: seq<T>, a: seq<T>, b: seq<T>, c: seq<T>)
    ensures d + a + b + c == d + (a + b + c)
  {
  }

  /** Appending four pieces one after another appends their concatenation. */
  lemma AppendFour<T>(d: seq<T>, a: seq<T>, b: seq<T>, c: seq<T>, e: seq<T>)
    ensures d + a + (b + c + e) == d + (a + b + c + e)
  {
  }

  /** A sequence is the part before position i, the element there and the part after. */
  lemma SplitAt<T>(s: seq<T>, i: nat)
    requires i < |s|
    ensures s == s[..i] + [s[i]] + s[i + 1..]
  {
  }

  /** No two positions of `s` hold the same value. */
  predicate Distinct<T(==)>(s: seq<T>) {
    forall i, j :: 0 <= i < j < |s| ==> s[i] != s[j]
  }

  /** In a duplicate-free sequence an element occurs neither before nor after its position. */
  lemma DistinctSplit<T>(s: seq<T>, i: nat)
    requires Distinct(s) && i < |s|
    ensures s[i] !in s[..i] && s[i] !in s[i + 1..]
  {
    forall x | x in s[..i] ensures x != s[i] {
      var j :| 0 <= j < i && s[..i][j] == x;
    }
    var after := s[i + 1..];
    forall x | x in after ensures x != s[i] {
      var j :| 0 <= j < |after| && after[j] == x;
      assert s[i + 1 + j] == x;
    }
  }

  /** Selecting from a duplicate-free sequence leaves it duplicate-free. */
  lemma {:induction false} KeepDistinct<T(!new)>(s: seq<T>, p: T -> bool)
    requires Distinct(s)
    ensures Distinct(Keep(s, p))
  {
    if s != [] {
      KeepDistinct(s[1..], p);
      var rest := Keep(s[1..], p);
      assert s[0] !in s[1..];
      assert s[0] !in rest;
    }
  }

  /** The first position at which `x` occurs in `s`. */
  function IndexOf<T(==)>(s: seq<T>, x: T): (i: nat)
    requires x in s
    ensures i < |s| && s[i] == x
    ensures forall k :: 0 <= k < i ==> s[k] != x
  {
    if s[0] == x then 0 else 1 + IndexOf(s[1..], x)
  }

  /** Appending at the end does not move the first occurrence of a value already present. */
  lemma IndexOfAppend<T>(s: seq<T>, y: T, x: T)
    requires x in s
    ensures IndexOf(s + [y], x) == IndexOf(s, x)
  {
    var i := IndexOf(s, x);
    var t := s + [y];
    assert t[i] == x;
    assert forall k :: 0 <= k < i ==> t[k] != x;
    IndexOfUnique(t, x, i);
  }

  /** The first occurrence is the position holding `x` with no earlier `x`. */
  lemma {:induction false} IndexOfUnique<T>(s: seq<T>, x: T, i: nat)
    requires i < |s| && s[i] == x
    requires forall k :: 0 <= k < i ==> s[k] != x
    ensures IndexOf(s, x) == i
  {
    if i > 0 {
      IndexOfUnique(s[1..], x, i - 1);
    }
  }

  /** In a duplicate-free sequence, position `i` is the first (and only) place of `s[i]`. */
  lemma IndexOfDistinct<T>(s: seq<T>, i: nat)
    requires Distinct(s) && i < |s|
    ensures IndexOf(s, s[i]) == i
  {
    IndexOfUnique(s, s[i], i);
  }

  /**
   * Order-preserving de-duplication: each value once, at the place it was first seen
   * (Python's `list(dict.fromkeys(values))`).
   */
  function Dedup<T(==,!new)>(s: seq<T>): (r: seq<T>)
    ensures forall x :: x in r <==> x in s
    ensures Distinct(r)
    ensures |r| <= |s|
  {
    if s == [] then []
    else
      var d := Dedup(s[..|s| - 1]);
      assert forall x :: x in s <==> x in s[..|s| - 1] || x == s[|s| - 1] by {
        assert s == s[..|s| - 1] + [s[|s| - 1]];
      }
      if s[|s| - 1] in d then d else d + [s[|s| - 1]]
  }

  /** The de-duplicated values appear in the order of their first occurrence in `s`. */
  lemma {:induction false} DedupFirstSeenOrder<T(!new)>(s: seq<T>, i: nat, j: nat)
    requires i < j < |Dedup(s)|
    ensures IndexOf(s, Dedup(s)[i]) < IndexOf(s, Dedup(s)[j])
  {
    var init := s[..|s| - 1];
    var last := s[|s| - 1];
    assert s == init + [last];
    var d := Dedup(init);
    var r := Dedup(s);
    if last in d {
      assert r == d;
      DedupFirstSeenOrder(init, i, j);
      IndexOfAppend(init, last, d[i]);
      IndexOfAppend(init, last, d[j]);
    } else {
      assert r == d + [last];
      if j < |d| {
        DedupFirstSeenOrder(init, i, j);
        IndexOfAppend(init, last, d[i]);
        IndexOfAppend(init, last, d[j]);
      } else {
        // r[j] is `last`, seen for the first time at the final position
        assert r[j] == last && last !in init;
        IndexOfUnique(s, last, |s| - 1);
        IndexOfAppend(init, last, d[i]);
      }
    }
  }

  /** More than one distinct value exactly when two positions differ. */
  lemma DedupVaries<T(!new)>(s: seq<T>)
    ensures |Dedup(s)| > 1 <==> exists i, j :: 0 <= i < |s| && 0 <= j < |s| && s[i] != s[j]
  {
    var d := Dedup(s);
    if |d| > 1 {
      assert d[0] in s && d[1] in s;
      var i := IndexOf(s, d[0]);
      var j := IndexOf(s, d[1]);
      assert s[i] != s[j];
    }
    if exists i, j :: 0 <= i < |s| && 0 <= j < |s| && s[i] != s[j] {
      var i, j :| 0 <= i < |s| && 0 <= j < |s| && s[i] != s[j];
      assert s[i] in d && s[j] in d;
    }
  }
}
