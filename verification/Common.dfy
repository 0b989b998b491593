// Failure-carrying results shared by the models, and a few facts about sequences.
module Common {
  datatype Option<+T> = None | Some(value: T)

  datatype Result<+T, +E> = Success(value: T) | Failure(error: E)

  // The elements of s that satisfy p, in their original order.
  function Filter<T(!new)>(s: seq<T>, p: T -> bool): (r: seq<T>)
    ensures forall x :: x in r <==> x in s && p(x)
    ensures |r| <= |s|
  {
    if s == [] then []
    else (if p(s[0]) then [s[0]] else []) + Filter(s[1..], p)
  }

  // No two positions hold the same value.
  ghost predicate Distinct<T>(s: seq<T>) {
    forall i, j :: 0 <= i < j < |s| ==> s[i] != s[j]
  }

  /** The set of a list's values is as large as the list exactly when they are distinct. */
  lemma {:induction false} DistinctSize<T>(s: seq<T>)
    ensures |set x | x in s| <= |s|
    ensures |set x | x in s| == |s| <==> Distinct(s)
  {
    if s != [] {
      var rest := s[1..];
      DistinctSize(rest);
      assert (set x | x in s) == {s[0]} + set x | x in rest;
      if Distinct(s) {
        forall i, j | 0 <= i < j < |rest| ensures rest[i] != rest[j] { assert s[i + 1] != s[j + 1]; }
        forall j | 0 <= j < |rest| ensures rest[j] != s[0] { assert s[0] != s[j + 1]; }
      } else {
        var i, j :| 0 <= i < j < |s| && s[i] == s[j];
        assert if i == 0 then rest[j - 1] == s[0] else rest[i - 1] == rest[j - 1];
      }
    }
  }

  function Reversed<T>(s: seq<T>): (r: seq<T>)
    ensures |r| == |s|
    ensures forall i :: 0 <= i < |s| ==> r[i] == s[|s| - 1 - i]
  {
    if s == [] then [] else Reversed(s[1..]) + [s[0]]
  }

  function MapSeq<A, B>(s: seq<A>, f: A -> B): (r: seq<B>)
    ensures |r| == |s|
    ensures forall i :: 0 <= i < |s| ==> r[i] == f(s[i])
  {
    seq(|s|, i requires 0 <= i < |s| => f(s[i]))
  }

  // The positions at which s satisfies p.
  ghost function Places<T>(s: seq<T>, p: T -> bool): set<nat> { set i: nat | i < |s| && p(s[i]) }

  lemma PlacesGrow<T>(s: seq<T>, next: T, p: T -> bool)
    ensures |Places(s + [next], p)| == |Places(s, p)| + if p(next) then 1 else 0
  {
    var more := s + [next];
    assert |s| !in Places(s, p);
    if p(next) {
      assert Places(more, p) == Places(s, p) + {|s|};
    } else {
      assert Places(more, p) == Places(s, p);
    }
  }

  // at lists the positions of s that satisfy p, in order, and r what stands there.
  ghost predicate KeepsPlaces<T>(s: seq<T>, p: T -> bool, r: seq<T>, at: seq<nat>) {
    && |at| == |r| && (forall k :: 0 <= k < |at| ==> at[k] < |s| && p(s[at[k]]) && r[k] == s[at[k]])
    && (forall k, m :: 0 <= k < m < |at| ==> at[k] < at[m])
    && (forall i :: 0 <= i < |s| && p(s[i]) ==> i in at)
  }

  lemma OneMorePlace<T>(s: seq<T>, next: T, p: T -> bool, r: seq<T>, at: seq<nat>)
    requires KeepsPlaces(s, p, r, at)
    ensures if p(next) then KeepsPlaces(s + [next], p, r + [next], at + [|s|]) else KeepsPlaces(s + [next], p, r, at)
  {
    var more := s + [next];
    assert forall i :: 0 <= i < |s| ==> more[i] == s[i];
    if p(next) {
      var longer := at + [|s|];
      assert longer[|at|] == |s|;
      forall i | 0 <= i < |more| && p(more[i]) ensures i in longer {
        if i < |s| { assert i in at; }
      }
    }
  }

  lemma {:induction false} FilterKeepsPlaces<T(!new)>(s: seq<T>, p: T -> bool) returns (at: seq<nat>)
    ensures KeepsPlaces(s, p, Filter(s, p), at)
  {
    at := [];
    if s != [] {
      var last := |s| - 1;
      var init := s[..last];
      assert s == init + [s[last]];
      at := FilterKeepsPlaces(init, p);
      FilterSplits(init, s[last], p);
      OneMorePlace(init, s[last], p, Filter(init, p), at);
      if p(s[last]) { at := at + [last]; }
    }
  }

  lemma {:induction false} FilterSplits<T(!new)>(s: seq<T>, next: T, p: T -> bool)
    ensures Filter(s + [next], p) == Filter(s, p) + if p(next) then [next] else []
  {
    if s != [] {
      assert (s + [next])[1..] == s[1..] + [next];
      FilterSplits(s[1..], next, p);
    }
  }

  /** Filtering keeps one element for each position that satisfies p. */
  lemma {:induction false} FilterCounts<T(!new)>(s: seq<T>, p: T -> bool)
    ensures |Filter(s, p)| == |Places(s, p)|
  {
    if s == [] {
      assert Places(s, p) == {};
    } else {
      var init, last := s[..|s| - 1], s[|s| - 1];
      assert s == init + [last];
      FilterCounts(init, p);
      FilterSplits(init, last, p);
      PlacesGrow(init, last, p);
    }
  }
}
