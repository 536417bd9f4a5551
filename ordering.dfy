/**
 * The orderings SQLite applies for ORDER BY, and a stable sort under a total
 * preorder that stands for the engine's sorter. Ties keep their storage order,
 * one of the orders SQLite is free to return.
 */
module Ordering {

  /** Text collation BINARY: lexicographic comparison, character by character. */
  predicate StrLeq(a: string, b: string)
  {
    if a == [] then true
    else if b == [] then false
    else if a[0] != b[0] then a[0] < b[0]
    else StrLeq(a[1..], b[1..])
  }

  lemma {:induction false} StrLeqTotal(a: string, b: string)
    ensures StrLeq(a, b) || StrLeq(b, a)
  {
    if a != [] && b != [] && a[0] == b[0] {
      StrLeqTotal(a[1..], b[1..]);
    }
  }

  lemma {:induction false} StrLeqTransitive(a: string, b: string, c: string)
    requires StrLeq(a, b) && StrLeq(b, c)
    ensures StrLeq(a, c)
  {
    if a != [] && b != [] && c != [] && a[0] == b[0] == c[0] {
      StrLeqTransitive(a[1..], b[1..], c[1..]);
    }
  }

  ghost predicate TotalPreorder<T(!new)>(leq: (T, T) -> bool)
  {
    (forall a, b :: leq(a, b) || leq(b, a)) &&
    (forall a, b, c :: leq(a, b) && leq(b, c) ==> leq(a, c))
  }

  predicate SortedBy<T>(s: seq<T>, leq: (T, T) -> bool)
  {
    forall i, j :: 0 <= i < j < |s| ==> leq(s[i], s[j])
  }

  /** Puts x before the first element it is not after. */
  function InsertBy<T>(x: T, s: seq<T>, leq: (T, T) -> bool): seq<T>
  {
    if s == [] then [x]
    else if leq(x, s[0]) then [x] + s
    else [s[0]] + InsertBy(x, s[1..], leq)
  }

  function SortBy<T>(s: seq<T>, leq: (T, T) -> bool): seq<T>
  {
    if s == [] then [] else InsertBy(s[0], SortBy(s[1..], leq), leq)
  }

  lemma {:induction false} InsertByPermutes<T>(x: T, s: seq<T>, leq: (T, T) -> bool)
    ensures multiset(InsertBy(x, s, leq)) == multiset(s) + multiset{x}
  {
    if s != [] && !leq(x, s[0]) {
      InsertByPermutes(x, s[1..], leq);
      assert s == [s[0]] + s[1..];
    }
  }

  lemma {:induction false} InsertBySorted<T(!new)>(x: T, s: seq<T>, leq: (T, T) -> bool)
    requires TotalPreorder(leq)
    requires SortedBy(s, leq)
    ensures SortedBy(InsertBy(x, s, leq), leq)
  {
    if s != [] && !leq(x, s[0]) {
      var rest := InsertBy(x, s[1..], leq);
      InsertBySorted(x, s[1..], leq);
      InsertByPermutes(x, s[1..], leq);
      var r := [s[0]] + rest;
      forall j | 0 < j < |r|
        ensures leq(r[0], r[j])
      {
        assert r[j] in multiset(rest);
        assert r[j] == x || r[j] in s[1..];
      }
    }
  }

  lemma {:induction false} SortedLength<T>(s: seq<T>, leq: (T, T) -> bool)
    ensures |SortBy(s, leq)| == |s|
  {
    if s != [] {
      SortedLength(s[1..], leq);
      InsertByPermutes(s[0], SortBy(s[1..], leq), leq);
      assert |multiset(InsertBy(s[0], SortBy(s[1..], leq), leq))| == |SortBy(s[1..], leq)| + 1;
    }
  }

  /** Sorting yields an ordered permutation of its input. */
  lemma {:induction false} SortByCorrect<T(!new)>(s: seq<T>, leq: (T, T) -> bool)
    requires TotalPreorder(leq)
    ensures SortedBy(SortBy(s, leq), leq)
    ensures multiset(SortBy(s, leq)) == multiset(s)
  {
    if s != [] {
      SortByCorrect(s[1..], leq);
      InsertBySorted(s[0], SortBy(s[1..], leq), leq);
      InsertByPermutes(s[0], SortBy(s[1..], leq), leq);
      assert s == [s[0]] + s[1..];
    }
  }
}
