// Contiguous axes of a strided tensor, and what the flags say about its offset map.
module Strides {
  import opened Arith

  function Numel(sizes: seq<nat>): nat {
    if sizes == [] then 1 else sizes[0] * Numel(sizes[1..])
  }

  // Row-major strides: the number of elements behind each axis.
  function RowMajor(sizes: seq<nat>): (r: seq<nat>)
    ensures |r| == |sizes|
  {
    if sizes == [] then [] else [Numel(sizes[1..])] + RowMajor(sizes[1..])
  }

  lemma {:induction false} RowMajorAt(sizes: seq<nat>, i: nat)
    requires i < |sizes|
    ensures RowMajor(sizes)[i] == Numel(sizes[i + 1..])
  {
    if i == 0 {
    } else {
      RowMajorAt(sizes[1..], i - 1);
      assert sizes[1..][i..] == sizes[i + 1..];
    }
  }

  lemma {:induction false} RowMajorStep(sizes: seq<nat>, i: nat)
    requires i + 1 < |sizes|
    ensures RowMajor(sizes)[i] == sizes[i + 1] * RowMajor(sizes)[i + 1]
  {
    var tail := sizes[1..];
    assert RowMajor(sizes)[i + 1] == RowMajor(tail)[i];
    if i == 0 {
      assert Numel(tail) == tail[0] * Numel(tail[1..]);
    } else {
      RowMajorStep(tail, i - 1);
    }
  }

  method ContiguousStride(sizes: seq<nat>) returns (stride: array<nat>)
    requires sizes != []
    ensures fresh(stride) && stride.Length == |sizes|
    ensures forall k :: 0 <= k < |sizes| ==> stride[k] == RowMajor(sizes)[k]
  {
    var ndim := |sizes|;
    stride := new nat[ndim](_ => 1);
    RowMajorAt(sizes, ndim - 1);
    var i := ndim - 2;
    while i >= 0
      invariant -1 <= i <= ndim - 2
      invariant forall k :: i < k < ndim ==> stride[k] == RowMajor(sizes)[k]
    {
      RowMajorStep(sizes, i);
      stride[i] := stride[i + 1] * sizes[i + 1];
      i := i - 1;
    }
  }

  method IsContiguousAxes(sizes: seq<nat>, strides: seq<int>) returns (result: array<bool>)
    requires |sizes| == |strides|
    ensures result.Length == |sizes|
    ensures forall i :: 0 <= i < |sizes| ==> result[i] == (strides[i] == RowMajor(sizes)[i])
  {
    result := new bool[|sizes|](_ => false);
    if |sizes| == 0 {
      return;
    }
    var contiguous := ContiguousStride(sizes);
    for j := 0 to |sizes|
      invariant forall k :: 0 <= k < |sizes| ==> contiguous[k] == RowMajor(sizes)[k]
      invariant forall k :: 0 <= k < j ==> result[k] == (strides[k] == RowMajor(sizes)[k])
    {
      result[j] := strides[j] == contiguous[j];
    }
  }

  // ---------- The offset map ----------

  ghost predicate InBounds(idx: seq<nat>, sizes: seq<nat>) {
    |idx| == |sizes| && forall i :: 0 <= i < |sizes| ==> idx[i] < sizes[i]
  }

  function Offset(idx: seq<nat>, strides: seq<int>): int
    requires |idx| == |strides|
  {
    if idx == [] then 0 else idx[0] * strides[0] + Offset(idx[1..], strides[1..])
  }

  lemma {:induction false} OffsetInRange(idx: seq<nat>, sizes: seq<nat>)
    requires InBounds(idx, sizes)
    ensures 0 <= Offset(idx, RowMajor(sizes)) < Numel(sizes)
  {
    if sizes == [] {
    } else {
      OffsetInRange(idx[1..], sizes[1..]);
      assert RowMajor(sizes)[1..] == RowMajor(sizes[1..]);
      RowBound(idx[0], Offset(idx[1..], RowMajor(sizes[1..])), sizes[0], Numel(sizes[1..]));
    }
  }

  // The index tuple at a row-major position.
  ghost function Unravel(k: nat, sizes: seq<nat>): (idx: seq<nat>)
    requires k < Numel(sizes)
    ensures |idx| == |sizes|
  {
    if sizes == [] then []
    else
      var rest := Numel(sizes[1..]);
      RowOfFlat(k, sizes[0], rest);
      DivModParts(k, rest);
      [k / rest] + Unravel(k % rest, sizes[1..])
  }

  lemma {:induction false} UnravelOffset(k: nat, sizes: seq<nat>)
    requires k < Numel(sizes)
    ensures InBounds(Unravel(k, sizes), sizes) && Offset(Unravel(k, sizes), RowMajor(sizes)) == k
  {
    if sizes == [] {
    } else {
      var rest := Numel(sizes[1..]);
      RowOfFlat(k, sizes[0], rest);
      DivModParts(k, rest);
      UnravelOffset(k % rest, sizes[1..]);
      var idx := Unravel(k, sizes);
      assert idx[1..] == Unravel(k % rest, sizes[1..]);
      assert RowMajor(sizes)[1..] == RowMajor(sizes[1..]);
      assert forall i :: 1 <= i < |sizes| ==> idx[i] == idx[1..][i - 1] && sizes[i] == sizes[1..][i - 1];
    }
  }

  lemma TopDigitsDiffer(a: nat, b: nat, x: nat, y: nat, stride: int, rest: nat)
    requires x < rest && y < rest <= stride && a * stride + x == b * stride + y
    ensures a == b && x == y
  {
    DivModUnique(a, x, stride);
    DivModUnique(b, y, stride);
  }

  // All axes but the first flagged, and a first stride that clears the rest: no two tuples collide.
  lemma OffsetInjective(a: seq<nat>, b: seq<nat>, sizes: seq<nat>, strides: seq<int>)
    requires InBounds(a, sizes) && InBounds(b, sizes) && |strides| == |sizes|
    requires forall i :: 1 <= i < |sizes| ==> strides[i] == RowMajor(sizes)[i]
    requires sizes != [] ==> strides[0] >= Numel(sizes[1..])
    requires Offset(a, strides) == Offset(b, strides)
    ensures a == b
  {
    if sizes != [] {
      var inner := RowMajor(sizes[1..]);
      assert strides[1..] == inner;
      OffsetInRange(a[1..], sizes[1..]);
      OffsetInRange(b[1..], sizes[1..]);
      TopDigitsDiffer(a[0], b[0], Offset(a[1..], inner), Offset(b[1..], inner), strides[0], Numel(sizes[1..]));
      InnerInjective(a[1..], b[1..], sizes[1..]);
      assert a == [a[0]] + a[1..] && b == [b[0]] + b[1..];
    }
  }

  lemma {:induction false} InnerInjective(a: seq<nat>, b: seq<nat>, sizes: seq<nat>)
    requires InBounds(a, sizes) && InBounds(b, sizes) && Offset(a, RowMajor(sizes)) == Offset(b, RowMajor(sizes))
    ensures a == b
  {
    if sizes == [] {
    } else {
      var inner := RowMajor(sizes[1..]);
      assert RowMajor(sizes)[1..] == inner;
      OffsetInRange(a[1..], sizes[1..]);
      OffsetInRange(b[1..], sizes[1..]);
      TopDigitsDiffer(a[0], b[0], Offset(a[1..], inner), Offset(b[1..], inner), Numel(sizes[1..]), Numel(sizes[1..]));
      InnerInjective(a[1..], b[1..], sizes[1..]);
      assert a == [a[0]] + a[1..] && b == [b[0]] + b[1..];
    }
  }

  // All axes flagged: the offset map is a bijection from index tuples onto [0, numel).
  lemma AllFlaggedIsBijection(sizes: seq<nat>, strides: seq<int>)
    requires |strides| == |sizes| && forall i :: 0 <= i < |sizes| ==> strides[i] == RowMajor(sizes)[i]
    ensures forall idx :: InBounds(idx, sizes) ==> 0 <= Offset(idx, strides) < Numel(sizes)
    ensures forall a, b :: InBounds(a, sizes) && InBounds(b, sizes) && Offset(a, strides) == Offset(b, strides) ==>
              a == b
    ensures forall k: nat :: k < Numel(sizes) ==>
              InBounds(Unravel(k, sizes), sizes) && Offset(Unravel(k, sizes), strides) == k
  {
    assert strides == RowMajor(sizes);
    forall idx | InBounds(idx, sizes)
      ensures 0 <= Offset(idx, strides) < Numel(sizes)
    {
      OffsetInRange(idx, sizes);
    }
    forall a, b | InBounds(a, sizes) && InBounds(b, sizes) && Offset(a, strides) == Offset(b, strides)
      ensures a == b
    {
      InnerInjective(a, b, sizes);
    }
    forall k: nat | k < Numel(sizes)
      ensures InBounds(Unravel(k, sizes), sizes) && Offset(Unravel(k, sizes), strides) == k
    {
      UnravelOffset(k, sizes);
    }
  }

  // ---------- When the tensor is laid out row-major ----------

  ghost function UnitTuple(n: nat, i: nat): (idx: seq<nat>)
    ensures |idx| == n
  {
    seq(n, k => if k == i then 1 else 0)
  }

  lemma {:induction false} OffsetOfZeroes(n: nat, i: nat, strides: seq<int>)
    requires |strides| == n && i >= n
    ensures Offset(UnitTuple(n, i), strides) == 0
    decreases n
  {
    if n == 0 {
    } else {
      assert UnitTuple(n, i)[1..] == UnitTuple(n - 1, i);
      OffsetOfZeroes(n - 1, i, strides[1..]);
    }
  }

  lemma {:induction false} OffsetOfUnit(n: nat, i: nat, strides: seq<int>)
    requires |strides| == n && i < n
    ensures Offset(UnitTuple(n, i), strides) == strides[i]
    decreases n
  {
    var tail := UnitTuple(n, i)[1..];
    if i == 0 {
      assert tail == UnitTuple(n - 1, n - 1);
      OffsetOfZeroes(n - 1, n - 1, strides[1..]);
    } else {
      assert tail == UnitTuple(n - 1, i - 1);
      OffsetOfUnit(n - 1, i - 1, strides[1..]);
    }
  }

  lemma {:induction false} SameOffset(idx: seq<nat>, s: seq<int>, t: seq<int>)
    requires |idx| == |s| == |t| && forall i :: 0 <= i < |idx| ==> idx[i] == 0 || s[i] == t[i]
    ensures Offset(idx, s) == Offset(idx, t)
  {
    if idx == [] {
    } else {
      SameOffset(idx[1..], s[1..], t[1..]);
    }
  }

  // With positive sizes, elements lie in row-major order exactly when every axis longer than one is
  // flagged. An axis of length one may go unflagged and change nothing.
  lemma RowMajorExactlyWhen(sizes: seq<nat>, strides: seq<int>)
    requires |strides| == |sizes| && forall i :: 0 <= i < |sizes| ==> sizes[i] > 0
    ensures (forall idx :: InBounds(idx, sizes) ==> Offset(idx, strides) == Offset(idx, RowMajor(sizes))) <==>
            (forall i :: 0 <= i < |sizes| && sizes[i] > 1 ==> strides[i] == RowMajor(sizes)[i])
  {
    var n := |sizes|;
    if forall i :: 0 <= i < n && sizes[i] > 1 ==> strides[i] == RowMajor(sizes)[i] {
      forall idx | InBounds(idx, sizes)
        ensures Offset(idx, strides) == Offset(idx, RowMajor(sizes))
      {
        SameOffset(idx, strides, RowMajor(sizes));
      }
    } else {
      var i :| 0 <= i < n && sizes[i] > 1 && strides[i] != RowMajor(sizes)[i];
      OffsetOfUnit(n, i, strides);
      OffsetOfUnit(n, i, RowMajor(sizes));
      assert InBounds(UnitTuple(n, i), sizes);
    }
  }

  // Sizes 2, 1, 3 with strides 3, 7, 1: the middle axis is not flagged, yet the layout is row-major.
  lemma UnitAxisUnflagged(idx: seq<nat>)
    requires InBounds(idx, [2, 1, 3])
    ensures RowMajor([2, 1, 3]) == [3, 3, 1] && RowMajor([2, 1, 3])[1] != [3, 7, 1][1]
    ensures Offset(idx, [3, 7, 1]) == Offset(idx, RowMajor([2, 1, 3]))
  {
    var sizes: seq<nat> := [2, 1, 3];
    assert sizes[1..] == [1, 3] && [1, 3][1..] == [3] && [3][1..] == [];
    assert Numel([3]) == 3 && Numel([1, 3]) == 3;
    assert RowMajor([3]) == [1] && RowMajor([1, 3]) == [3, 1];
    SameOffset(idx, [3, 7, 1], RowMajor(sizes));
  }
}
