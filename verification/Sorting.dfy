// Python's `sorted` with a key order: stable insertion of each element before the ones not below it.
module Sorting {
  import opened Common

  ghost predicate Total<T(!new)>(leq: (T, T) -> bool) { forall x, y :: leq(x, y) || leq(y, x) }

  ghost predicate Transitive<T(!new)>(leq: (T, T) -> bool) { forall x, y, z :: leq(x, y) && leq(y, z) ==> leq(x, z) }

  ghost predicate Sorted<T>(s: seq<T>, leq: (T, T) -> bool) { forall i, j :: 0 <= i < j < |s| ==> leq(s[i], s[j]) }

  function Insert<T>(x: T, sorted: seq<T>, leq: (T, T) -> bool): seq<T> {
    if sorted == [] || leq(x, sorted[0]) then [x] + sorted
    else [sorted[0]] + Insert(x, sorted[1..], leq)
  }

  function SortBy<T>(s: seq<T>, leq: (T, T) -> bool): seq<T> {
    if s == [] then [] else Insert(s[0], SortBy(s[1..], leq), leq)
  }

  lemma {:induction false} InsertPermutes<T>(x: T, sorted: seq<T>, leq: (T, T) -> bool)
    ensures multiset(Insert(x, sorted, leq)) == multiset{x} + multiset(sorted)
  {
    if sorted != [] && !leq(x, sorted[0]) {
      assert sorted == [sorted[0]] + sorted[1..];
      InsertPermutes(x, sorted[1..], leq);
    }
  }

  lemma {:induction false} SortPermutes<T>(s: seq<T>, leq: (T, T) -> bool)
    ensures multiset(SortBy(s, leq)) == multiset(s)
    ensures |SortBy(s, leq)| == |s|
    ensures forall x :: x in SortBy(s, leq) <==> x in s
  {
    if s != [] {
      assert s == [s[0]] + s[1..];
      SortPermutes(s[1..], leq);
      InsertPermutes(s[0], SortBy(s[1..], leq), leq);
    }
    assert |multiset(SortBy(s, leq))| == |multiset(s)|;
    assert forall x :: x in SortBy(s, leq) <==> x in multiset(SortBy(s, leq));
  }

  lemma {:induction false} InsertSorts<T(!new)>(x: T, sorted: seq<T>, leq: (T, T) -> bool)
    requires Total(leq) && Transitive(leq) && Sorted(sorted, leq)
    ensures Sorted(Insert(x, sorted, leq), leq)
  {
    if sorted != [] && !leq(x, sorted[0]) {
      InsertSorts(x, sorted[1..], leq);
      InsertPermutes(x, sorted[1..], leq);
      var rest := Insert(x, sorted[1..], leq);
      forall j | 0 <= j < |rest| ensures leq(sorted[0], rest[j]) {
        assert rest[j] in multiset(rest);
        if rest[j] != x { assert rest[j] in sorted[1..]; }
      }
    }
  }

  lemma {:induction false} SortSorts<T(!new)>(s: seq<T>, leq: (T, T) -> bool)
    requires Total(leq) && Transitive(leq)
    ensures Sorted(SortBy(s, leq), leq)
  {
    if s != [] {
      SortSorts(s[1..], leq);
      InsertSorts(s[0], SortBy(s[1..], leq), leq);
    }
  }

  // Whatever satisfies p ties.
  ghost predicate AllTie<T(!new)>(p: T -> bool, leq: (T, T) -> bool) { forall x, y :: p(x) && p(y) ==> leq(x, y) }

  lemma FilterFirst<T(!new)>(x: T, s: seq<T>, p: T -> bool)
    ensures Filter([x] + s, p) == (if p(x) then [x] else []) + Filter(s, p)
  {
    assert ([x] + s)[1..] == s;
  }

  lemma {:induction false} InsertKeepsTies<T(!new)>(x: T, sorted: seq<T>, leq: (T, T) -> bool, p: T -> bool)
    requires AllTie(p, leq)
    ensures Filter(Insert(x, sorted, leq), p) == (if p(x) then [x] else []) + Filter(sorted, p)
  {
    if sorted == [] || leq(x, sorted[0]) {
      FilterFirst(x, sorted, p);
    } else {
      var rest := sorted[1..];
      InsertKeepsTies(x, rest, leq, p);
      FilterFirst(sorted[0], Insert(x, rest, leq), p);
      FilterFirst(sorted[0], rest, p);
      assert sorted == [sorted[0]] + rest;
      assert !(p(x) && p(sorted[0]));
    }
  }

  /** Sorting is stable: elements that tie stay in the order in which they were listed. */
  lemma {:induction false} SortIsStable<T(!new)>(s: seq<T>, leq: (T, T) -> bool, p: T -> bool)
    requires AllTie(p, leq)
    ensures Filter(SortBy(s, leq), p) == Filter(s, p)
  {
    if s != [] {
      SortIsStable(s[1..], leq, p);
      InsertKeepsTies(s[0], SortBy(s[1..], leq), leq, p);
    }
  }
}
