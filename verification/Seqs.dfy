// Sequences without repeats, positions in them, and ranges of integers.
module Seqs {

  ghost predicate Distinct<T>(s: seq<T>) {
    forall i, j :: 0 <= i < j < |s| ==> s[i] != s[j]
  }

  // The first position of an element.
  function IndexOf<T(==)>(s: seq<T>, x: T): (i: nat)
    requires x in s
    ensures i < |s| && s[i] == x
  {
    if s[0] == x then 0 else 1 + IndexOf(s[1..], x)
  }

  // The last position of a key in a list of pairs, or -1.
  function KeyIndex<K(==), V>(d: seq<(K, V)>, key: K): (i: int)
    ensures -1 <= i < |d|
    ensures i >= 0 ==> d[i].0 == key
    ensures i < 0 ==> forall k :: 0 <= k < |d| ==> d[k].0 != key
  {
    if d == [] then -1
    else if d[|d| - 1].0 == key then |d| - 1
    else KeyIndex(d[..|d| - 1], key)
  }

  // parts[0] + parts[1] + ... + parts[k - 1]
  ghost function Joined<T>(parts: seq<seq<T>>, k: nat): seq<T>
    requires k <= |parts|
  {
    if k == 0 then [] else Joined(parts, k - 1) + parts[k - 1]
  }

  // Part i is what lies between cuts i and i + 1.
  ghost predicate Between<T>(s: seq<T>, cuts: seq<nat>, parts: seq<seq<T>>, i: nat)
    requires |cuts| == |parts| + 1 && i < |parts|
  {
    cuts[i] <= cuts[i + 1] <= |s| && parts[i] == s[cuts[i]..cuts[i + 1]]
  }

  // The parts between successive cuts, joined, are the list.
  lemma {:induction false} CutsJoin<T>(s: seq<T>, cuts: seq<nat>, parts: seq<seq<T>>, k: nat)
    requires |cuts| == |parts| + 1 && k <= |parts| && cuts[0] == 0
    requires forall i :: 0 <= i < |parts| ==> Between(s, cuts, parts, i)
    ensures cuts[k] <= |s| && Joined(parts, k) == s[..cuts[k]]
  {
    if k == 0 {
    } else {
      CutsJoin(s, cuts, parts, k - 1);
      assert Between(s, cuts, parts, k - 1);
      assert s[..cuts[k]] == s[..cuts[k - 1]] + s[cuts[k - 1]..cuts[k]];
    }
  }

  // lo, lo + 1, ..., lo + n - 1
  function Range(lo: int, n: nat): (r: seq<int>)
    ensures |r| == n
  {
    seq(n, i => lo + i)
  }
}
