/**
 * Generic operations on tables held as sequences of rows: boolean masks,
 * column maps, `unique`, and the in-place table object.
 */
module Tables {

  /** `r` is an order-preserving subsequence of `s` (rows kept unchanged, in their order). */
  predicate IsSubsequence<T(==,!new)>(r: seq<T>, s: seq<T>)
    decreases |s|
  {
    if r == [] then true
    else if s == [] then false
    else if r[0] == s[0] then IsSubsequence(r[1..], s[1..])
    else IsSubsequence(r, s[1..])
  }

  /** The rows of `s` on which `keep` holds: `df[mask]`. */
  function Filter<T(==,!new)>(s: seq<T>, keep: T -> bool): (r: seq<T>)
    ensures |r| <= |s|
    ensures forall x :: x in r <==> x in s && keep(x)
    ensures IsSubsequence(r, s)
  {
    if s == [] then []
    else if keep(s[0]) then [s[0]] + Filter(s[1..], keep)
    else Filter(s[1..], keep)
  }

  /** The mask keeps every copy of a selected row and no copy of another. */
  lemma {:induction false} FilterMultiset<T(!new)>(s: seq<T>, keep: T -> bool)
    ensures forall x :: multiset(Filter(s, keep))[x] == if keep(x) then multiset(s)[x] else 0
  {
    if s != [] {
      FilterMultiset(s[1..], keep);
      assert s == [s[0]] + s[1..];
    }
  }

  /** Applying two masks one after the other is applying their conjunction. */
  lemma {:induction false} FilterFilter<T(!new)>(s: seq<T>, p: T -> bool, q: T -> bool, pq: T -> bool)
    requires forall x :: pq(x) == (p(x) && q(x))
    ensures Filter(Filter(s, p), q) == Filter(s, pq)
  {
    if s != [] {
      FilterFilter(s[1..], p, q, pq);
      if p(s[0]) {
        assert Filter(s, p) == [s[0]] + Filter(s[1..], p);
        assert ([s[0]] + Filter(s[1..], p))[1..] == Filter(s[1..], p);
      }
    }
  }

  /** A mask that holds on every row keeps the whole table. */
  lemma {:induction false} FilterKeepsAll<T(!new)>(s: seq<T>, keep: T -> bool)
    requires forall x :: x in s ==> keep(x)
    ensures Filter(s, keep) == s
  {
    if s != [] {
      FilterKeepsAll(s[1..], keep);
    }
  }

  /** Two masks that agree on every row of `s` select the same rows. */
  lemma {:induction false} FilterSameMask<T(!new)>(s: seq<T>, p: T -> bool, q: T -> bool)
    requires forall x :: x in s ==> p(x) == q(x)
    ensures Filter(s, p) == Filter(s, q)
  {
    if s != [] {
      FilterSameMask(s[1..], p, q);
    }
  }

  /** Masking a table with one more row at the end. */
  lemma {:induction false} FilterAppend<T(!new)>(s: seq<T>, x: T, keep: T -> bool)
    ensures Filter(s + [x], keep) == Filter(s, keep) + (if keep(x) then [x] else [])
  {
    if s == [] {
      assert [x][1..] == [];
    } else {
      assert (s + [x])[1..] == s[1..] + [x];
      FilterAppend(s[1..], x, keep);
    }
  }

  /** A mask that is the disjoint union of two masks selects as many rows as both together. */
  lemma {:induction false} FilterCountSplit<T(!new)>(s: seq<T>, p: T -> bool, q1: T -> bool, q2: T -> bool)
    requires forall x :: p(x) == (q1(x) || q2(x))
    requires forall x :: !(q1(x) && q2(x))
    ensures |Filter(s, p)| == |Filter(s, q1)| + |Filter(s, q2)|
  {
    if s != [] {
      FilterCountSplit(s[1..], p, q1, q2);
    }
  }

  /** Element-wise column map: `df[c].apply(f)`. */
  function Map<T, U>(s: seq<T>, f: T -> U): (r: seq<U>)
    ensures |r| == |s|
    ensures forall i :: 0 <= i < |s| ==> r[i] == f(s[i])
  {
    if s == [] then [] else [f(s[0])] + Map(s[1..], f)
  }

  /** A value is in the mapped column exactly when some row maps to it. */
  lemma MapContains<T(!new), U(!new)>(s: seq<T>, f: T -> U, y: U)
    ensures y in Map(s, f) <==> exists x :: x in s && f(x) == y
  {
    var m := Map(s, f);
    if y in m {
      var i :| 0 <= i < |m| && m[i] == y;
      assert s[i] in s && f(s[i]) == y;
    }
    if exists x :: x in s && f(x) == y {
      var x :| x in s && f(x) == y;
      var i :| 0 <= i < |s| && s[i] == x;
      assert m[i] == y;
    }
  }

  /** No value occurs twice. */
  predicate Distinct<T(==,!new)>(s: seq<T>)
  {
    forall i, j :: 0 <= i < j < |s| ==> s[i] != s[j]
  }

  /** pandas' `unique`: the distinct values of `s`, each once, in order of first occurrence. */
  function Unique<T(==,!new)>(s: seq<T>): (r: seq<T>)
    ensures forall x :: x in r <==> x in s
    ensures Distinct(r)
    ensures |r| <= |s|
  {
    if s == [] then []
    else
      var init := s[..|s| - 1];
      assert s == init + [s[|s| - 1]];
      var u := Unique(init);
      if s[|s| - 1] in u then u else u + [s[|s| - 1]]
  }

  /** `unique` yields at most one value exactly when all values of the column are equal. */
  lemma UniqueAtMostOne<T(!new)>(s: seq<T>)
    ensures |Unique(s)| <= 1 <==> forall i, j :: 0 <= i < |s| && 0 <= j < |s| ==> s[i] == s[j]
  {
    var u := Unique(s);
    if |u| <= 1 {
      forall i, j | 0 <= i < |s| && 0 <= j < |s|
        ensures s[i] == s[j]
      {
        assert s[i] in u && s[j] in u;
      }
    } else {
      assert u[0] != u[1];
      assert u[0] in s && u[1] in s;
      var i :| 0 <= i < |s| && s[i] == u[0];
      var j :| 0 <= j < |s| && s[j] == u[1];
      assert s[i] != s[j];
    }
  }

  /** A table object whose rows are replaced in place (a pandas frame passed by reference). */
  class Table<R> {
    var rows: seq<R>

    constructor (rows: seq<R>)
      ensures this.rows == rows
    {
      this.rows := rows;
    }
  }
}
