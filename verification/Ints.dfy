// Sorted lists of integers.
module Ints {

  ghost predicate Increasing(s: seq<int>) {
    forall i, j :: 0 <= i < j < |s| ==> s[i] < s[j]
  }

  ghost predicate Ordered(s: seq<int>) {
    forall i, j :: 0 <= i < j < |s| ==> s[i] <= s[j]
  }

  function InsertNew(x: int, s: seq<int>): (r: seq<int>)
    requires Increasing(s)
    ensures Increasing(r)
    ensures forall y :: y in r <==> y == x || y in s
  {
    if s == [] || x < s[0] then [x] + s
    else if x == s[0] then s
    else
      assert s == [s[0]] + s[1..] && forall y :: y in s[1..] ==> s[0] < y;
      var rest := InsertNew(x, s[1..]);
      assert forall i :: 0 <= i < |rest| ==> s[0] < rest[i] by {
        forall i | 0 <= i < |rest| ensures s[0] < rest[i] { assert rest[i] in rest; }
      }
      [s[0]] + rest
  }

  // sorted(set(xs))
  function SortedSet(xs: seq<int>): (r: seq<int>)
    ensures Increasing(r)
    ensures forall y :: y in r <==> y in xs
  {
    if xs == [] then []
    else
      assert xs == [xs[0]] + xs[1..];
      InsertNew(xs[0], SortedSet(xs[1..]))
  }

  function Insert(x: int, s: seq<int>): (r: seq<int>)
    requires Ordered(s)
    ensures Ordered(r) && |r| == |s| + 1
    ensures forall y :: y in r <==> y == x || y in s
  {
    if s == [] || x <= s[0] then [x] + s
    else
      assert s == [s[0]] + s[1..] && forall y :: y in s[1..] ==> s[0] <= y;
      var rest := Insert(x, s[1..]);
      assert forall i :: 0 <= i < |rest| ==> s[0] <= rest[i] by {
        forall i | 0 <= i < |rest| ensures s[0] <= rest[i] { assert rest[i] in rest; }
      }
      [s[0]] + rest
  }

  // sorted(xs)
  function Sorted(xs: seq<int>): (r: seq<int>)
    ensures Ordered(r) && |r| == |xs|
    ensures forall y :: y in r <==> y in xs
  {
    if xs == [] then []
    else
      assert xs == [xs[0]] + xs[1..];
      Insert(xs[0], Sorted(xs[1..]))
  }

  lemma {:induction false} InsertKeeps(x: int, s: seq<int>)
    requires Ordered(s)
    ensures multiset(Insert(x, s)) == multiset(s) + multiset{x}
  {
    if s == [] || x <= s[0] {
    } else {
      InsertKeeps(x, s[1..]);
      assert s == [s[0]] + s[1..];
    }
  }

  lemma HeadCounts(xs: seq<int>)
    requires xs != []
    ensures multiset(xs) == multiset(xs[1..]) + multiset{xs[0]}
  {
    assert xs == [xs[0]] + xs[1..];
  }

  lemma {:induction false} SortedKeeps(xs: seq<int>)
    ensures multiset(Sorted(xs)) == multiset(xs)
  {
    if xs == [] {
    } else {
      SortedKeeps(xs[1..]);
      InsertKeeps(xs[0], Sorted(xs[1..]));
      HeadCounts(xs);
    }
  }

  lemma {:induction false} SortedOfOrdered(s: seq<int>)
    requires Ordered(s)
    ensures Sorted(s) == s
  {
    if s == [] {
    } else {
      SortedOfOrdered(s[1..]);
    }
  }

  lemma {:induction false} SortedSetOfIncreasing(s: seq<int>)
    requires Increasing(s)
    ensures SortedSet(s) == s
  {
    if s == [] {
    } else {
      SortedSetOfIncreasing(s[1..]);
    }
  }

  // Sorting a list without repeats leaves none.
  lemma SortedDistinct(xs: seq<int>)
    requires forall i, j :: 0 <= i < j < |xs| ==> xs[i] != xs[j]
    ensures Increasing(Sorted(xs))
  {
    SortedKeeps(xs);
    var r := Sorted(xs);
    forall i, j | 0 <= i < j < |r|
      ensures r[i] < r[j]
    {
      if r[i] == r[j] {
        TwiceCounts(r, i, j);
        OnceCounts(xs, r[i]);
        assert false;
      }
    }
  }

  lemma TwiceCounts(s: seq<int>, i: nat, j: nat)
    requires i < j < |s| && s[i] == s[j]
    ensures multiset(s)[s[i]] >= 2
  {
    assert s == s[..i] + [s[i]] + s[i + 1..j] + [s[j]] + s[j + 1..];
  }

  lemma {:induction false} OnceCounts(s: seq<int>, x: int)
    requires forall i, j :: 0 <= i < j < |s| ==> s[i] != s[j]
    ensures multiset(s)[x] <= 1
  {
    if s == [] {
    } else {
      OnceCounts(s[1..], x);
      assert s == [s[0]] + s[1..];
      if s[0] == x {
        assert x !in s[1..];
      }
    }
  }

  // [x for x in xs if x in keep]
  function Filter(xs: seq<int>, keep: set<int>): seq<int> {
    if xs == [] then []
    else
      var before := Filter(xs[..|xs| - 1], keep);
      if xs[|xs| - 1] in keep then before + [xs[|xs| - 1]] else before
  }

  lemma {:induction false} FilterHas(xs: seq<int>, keep: set<int>)
    ensures forall y :: y in Filter(xs, keep) <==> y in xs && y in keep
  {
    if xs == [] {
    } else {
      FilterHas(xs[..|xs| - 1], keep);
      assert xs == xs[..|xs| - 1] + [xs[|xs| - 1]];
    }
  }

  lemma {:induction false} FilterAll(xs: seq<int>, keep: set<int>)
    requires forall i :: 0 <= i < |xs| ==> xs[i] in keep
    ensures Filter(xs, keep) == xs
  {
    if xs == [] {
    } else {
      FilterAll(xs[..|xs| - 1], keep);
      assert xs == xs[..|xs| - 1] + [xs[|xs| - 1]];
    }
  }

  function Elements(xs: seq<int>): (r: set<int>)
    ensures forall y :: y in r <==> y in xs
  {
    set y | y in xs
  }
}
