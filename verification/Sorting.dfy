/**
 Python's `sorted(items, key=…)`: a stable sort. The order is given by `before`, which says that the
 key of its first argument is smaller than the key of the second.
 */
module Sorting {
  import opened Sequences

  /** `before` compares keys of a totally ordered kind. */
  ghost predicate StrictWeak<T(!new)>(before: (T, T) -> bool) {
    && (forall a, b :: before(a, b) ==> !before(b, a))
    && (forall a, b, c :: !before(b, a) && !before(c, b) ==> !before(c, a))
  }

  /** Puts `x` behind everything that does not have a greater key. */
  function Insert<T>(s: seq<T>, x: T, before: (T, T) -> bool): seq<T> {
    if s == [] then [x]
    else if before(x, s[|s| - 1]) then Insert(s[..|s| - 1], x, before) + [s[|s| - 1]]
    else s + [x]
  }

  function Sort<T>(s: seq<T>, before: (T, T) -> bool): seq<T> {
    if s == [] then [] else Insert(Sort(s[..|s| - 1], before), s[|s| - 1], before)
  }

  ghost predicate Sorted<T>(s: seq<T>, before: (T, T) -> bool) {
    forall i, j :: 0 <= i < j < |s| ==> !before(s[j], s[i])
  }

  lemma {:induction false} InsertKeepsItems<T>(s: seq<T>, x: T, before: (T, T) -> bool)
    ensures multiset(Insert(s, x, before)) == multiset(s) + multiset{x}
    decreases |s|
  {
    if s != [] && before(x, s[|s| - 1]) {
      InsertKeepsItems(s[..|s| - 1], x, before);
      assert s == s[..|s| - 1] + [s[|s| - 1]];
    }
  }

  lemma {:induction false} SortKeepsItems<T>(s: seq<T>, before: (T, T) -> bool)
    ensures multiset(Sort(s, before)) == multiset(s)
    ensures |Sort(s, before)| == |s|
    decreases |s|
  {
    if s != [] {
      var init := s[..|s| - 1];
      SortKeepsItems(init, before);
      InsertKeepsItems(Sort(init, before), s[|s| - 1], before);
      assert s == init + [s[|s| - 1]];
    }
    assert |Sort(s, before)| == |multiset(Sort(s, before))| == |multiset(s)|;
  }

  lemma SameItems<T>(s: seq<T>, t: seq<T>)
    requires multiset(s) == multiset(t)
    ensures |s| == |t|
    ensures forall x :: x in s <==> x in t
  {
    assert |s| == |multiset(s)| && |t| == |multiset(t)|;
    forall x
      ensures x in s <==> x in t
    {
      assert x in s <==> x in multiset(s);
      assert x in t <==> x in multiset(t);
    }
  }

  lemma {:induction false} InsertSorts<T(!new)>(s: seq<T>, x: T, before: (T, T) -> bool)
    requires StrictWeak(before) && Sorted(s, before)
    ensures Sorted(Insert(s, x, before), before)
    decreases |s|
  {
    if s != [] {
      var init, last := s[..|s| - 1], s[|s| - 1];
      if before(x, last) {
        InsertSorts(init, x, before);
        var r := Insert(init, x, before);
        InsertKeepsItems(init, x, before);
        forall i | 0 <= i < |r|
          ensures !before(last, r[i])
        {
          assert r[i] in multiset(r);
          assert r[i] == x || r[i] in multiset(init);
          assert r[i] == x || r[i] in init;
        }
      } else {
        forall i | 0 <= i < |s|
          ensures !before(x, s[i])
        {
          assert i < |s| - 1 ==> !before(last, s[i]);
        }
      }
    }
  }

  lemma {:induction false} SortSorts<T(!new)>(s: seq<T>, before: (T, T) -> bool)
    requires StrictWeak(before)
    ensures Sorted(Sort(s, before), before)
    decreases |s|
  {
    if s != [] {
      SortSorts(s[..|s| - 1], before);
      InsertSorts(Sort(s[..|s| - 1], before), s[|s| - 1], before);
    }
  }

  lemma {:induction false} InsertIsStable<T>(s: seq<T>, x: T, before: (T, T) -> bool, q: T -> bool)
    requires forall a :: a in s && q(a) && q(x) ==> !before(x, a)
    ensures Filter(Insert(s, x, before), q) == Filter(s, q) + (if q(x) then [x] else [])
    decreases |s|
  {
    if s != [] {
      var init, last := s[..|s| - 1], s[|s| - 1];
      if before(x, last) {
        InsertIsStable(init, x, before, q);
        FilterSnoc(Insert(init, x, before), last, q);
      } else {
        FilterSnoc(s, x, q);
      }
    }
  }

  /** The sort is stable: items of equal keys keep their order. */
  lemma {:induction false} SortIsStable<T(!new)>(s: seq<T>, before: (T, T) -> bool, q: T -> bool)
    requires forall a, b :: q(a) && q(b) ==> !before(a, b)
    ensures Filter(Sort(s, before), q) == Filter(s, q)
    decreases |s|
  {
    if s != [] {
      var init, last := s[..|s| - 1], s[|s| - 1];
      SortIsStable(init, before, q);
      InsertIsStable(Sort(init, before), last, before, q);
    }
  }

  /** `r` holds between any two items in the order in which they stand. */
  ghost predicate Pairwise<T>(s: seq<T>, r: (T, T) -> bool) {
    forall i, j :: 0 <= i < j < |s| ==> r(s[i], s[j])
  }

  /** A relation that never holds both ways admits one order of given items at most. */
  lemma {:induction false} OrderIsUnique<T(!new)>(s: seq<T>, t: seq<T>, r: (T, T) -> bool)
    requires multiset(s) == multiset(t)
    requires Pairwise(s, r) && Pairwise(t, r)
    requires forall a, b :: a in s && b in s && r(a, b) ==> !r(b, a)
    ensures s == t
    decreases |s|
  {
    SameItems(s, t);
    if s != [] {
      FirstIsUnique(s, t, r);
      RestOfItems(s);
      RestOfItems(t);
      forall x | x in s[1..]
        ensures x in s
      {
      }
      OrderIsUnique(s[1..], t[1..], r);
    }
  }

  lemma RestOfItems<T>(s: seq<T>)
    requires s != []
    ensures multiset(s[1..]) == multiset(s) - multiset{s[0]}
  {
    assert s == [s[0]] + s[1..];
  }

  lemma FirstIsUnique<T(!new)>(s: seq<T>, t: seq<T>, r: (T, T) -> bool)
    requires s != [] && t != [] && forall x :: x in s <==> x in t
    requires Pairwise(s, r) && Pairwise(t, r)
    requires forall a, b :: a in s && b in s && r(a, b) ==> !r(b, a)
    ensures s[0] == t[0]
  {
    assert s[0] in t && t[0] in s;
    var i :| 0 <= i < |t| && t[i] == s[0];
    var j :| 0 <= j < |s| && s[j] == t[0];
    assert i > 0 ==> r(t[0], s[0]);
    assert j > 0 ==> r(s[0], t[0]);
  }

  /** A sequence that is sorted already comes out as it went in. */
  lemma {:induction false} SortOfSorted<T>(s: seq<T>, before: (T, T) -> bool)
    requires Sorted(s, before)
    ensures Sort(s, before) == s
    decreases |s|
  {
    if s != [] {
      SortOfSorted(s[..|s| - 1], before);
      if |s| > 1 {
        assert !before(s[|s| - 1], s[|s| - 2]);
      }
    }
  }

  lemma {:induction false} InsertAtFront<T>(s: seq<T>, x: T, before: (T, T) -> bool)
    requires forall i :: 0 <= i < |s| ==> before(x, s[i])
    ensures Insert(s, x, before) == [x] + s
    decreases |s|
  {
    if s != [] {
      InsertAtFront(s[..|s| - 1], x, before);
    }
  }

  /** Sorted the other way round, a strictly sorted sequence is reversed. */
  lemma {:induction false} SortReversed<T>(s: seq<T>, after: (T, T) -> bool)
    requires forall i, j :: 0 <= i < j < |s| ==> after(s[j], s[i])
    ensures Sort(s, after) == Reverse(s)
    decreases |s|
  {
    if s != [] {
      var init, last := s[..|s| - 1], s[|s| - 1];
      SortReversed(init, after);
      forall i | 0 <= i < |init|
        ensures after(last, Reverse(init)[i])
      {
        ReverseAt(init, i);
      }
      InsertAtFront(Reverse(init), last, after);
    }
  }

  /** Where the keys of different items differ, sorted means strictly sorted. */
  lemma SortedIsPairwise<T(!new)>(s: seq<T>, before: (T, T) -> bool)
    requires Sorted(s, before) && Distinct(s)
    requires forall a, b :: a in s && b in s && a != b ==> before(a, b) || before(b, a)
    ensures Pairwise(s, before)
  {
    forall i, j | 0 <= i < j < |s|
      ensures before(s[i], s[j])
    {
      assert s[i] != s[j];
    }
  }

  /** Items of parts that are in order, part by part and between the parts, are in order. */
  lemma {:induction false} PairwiseConcat<T>(parts: seq<seq<T>>, r: (T, T) -> bool)
    requires forall k :: 0 <= k < |parts| ==> Pairwise(parts[k], r)
    requires forall k, l, i, j :: 0 <= k < l < |parts| && 0 <= i < |parts[k]| && 0 <= j < |parts[l]| ==>
               r(parts[k][i], parts[l][j])
    ensures Pairwise(Concat(parts), r)
    decreases |parts|
  {
    if parts != [] {
      var init, last := parts[..|parts| - 1], parts[|parts| - 1];
      PairwiseConcat(init, r);
      forall i, j | 0 <= i < |Concat(init)| && 0 <= j < |last|
        ensures r(Concat(init)[i], last[j])
      {
        var k, m := PartOf(init, i);
        assert r(parts[k][m], parts[|parts| - 1][j]);
      }
      PairwiseAppend(Concat(init), last, r);
    }
  }

  lemma PairwiseAppend<T>(s: seq<T>, t: seq<T>, r: (T, T) -> bool)
    requires Pairwise(s, r) && Pairwise(t, r)
    requires forall i, j :: 0 <= i < |s| && 0 <= j < |t| ==> r(s[i], t[j])
    ensures Pairwise(s + t, r)
  {
  }

  /** The part an item of the concatenation comes from, and its place in that part. */
  lemma {:induction false} PartOf<T>(parts: seq<seq<T>>, i: nat) returns (k: nat, m: nat)
    requires i < |Concat(parts)|
    ensures k < |parts| && m < |parts[k]| && parts[k][m] == Concat(parts)[i]
    decreases |parts|
  {
    var init := parts[..|parts| - 1];
    if i < |Concat(init)| {
      k, m := PartOf(init, i);
    } else {
      k, m := |parts| - 1, i - |Concat(init)|;
    }
  }
}
