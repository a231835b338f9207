// Matching of RDMA devices between two hosts, one group of endpoints per pair of NUMA nodes.
module Topology {
  import opened Text
  import opened Seqs
  import opened Assignment
  import Arith

  // What ep.get("latency") finds: no key, None, an infinite or NaN number, or a finite one.
  datatype Latency = Absent | Null | NonFinite | Finite(us: real)

  datatype Endpoint = Endpoint(srcDev: string, dstDev: string, srcNuma: int, dstNuma: int, latency: Latency)

  ghost predicate AllFinite(pairs: seq<Endpoint>) {
    forall e :: e in pairs ==> e.latency.Finite?
  }

  // ---------- Device lists ----------

  predicate Before(a: string, b: string) {
    b != [] && (a == [] || a[0] < b[0] || (a[0] == b[0] && Before(a[1..], b[1..])))
  }

  // The order of characters: a is a proper beginning of b, or smaller at the first difference.
  lemma {:induction false} BeforeIs(a: string, b: string)
    ensures Before(a, b) <==>
            || a < b
            || exists i: nat :: FirstDifference(a, b, i) && a[i] < b[i]
  {
    if a == [] || b == [] || a[0] != b[0] {
      if a != [] && b != [] {
        assert FirstDifference(a, b, 0);
        if i: nat :| FirstDifference(a, b, i) && a[i] < b[i] {
          HeadsAgree(a, b, i);
        }
      }
    } else {
      BeforeIs(a[1..], b[1..]);
      assert a == [a[0]] + a[1..] && b == [b[0]] + b[1..];
      assert a < b <==> a[1..] < b[1..];
      DifferenceShifts(a, b);
    }
  }

  ghost predicate FirstDifference(a: string, b: string, i: nat) {
    i < |a| && i < |b| && a[..i] == b[..i] && a[i] != b[i]
  }

  lemma HeadsAgree(a: string, b: string, i: nat)
    requires FirstDifference(a, b, i)
    ensures i > 0 ==> a[0] == b[0]
  {
    if i > 0 {
      assert a[..i][0] == b[..i][0];
    }
  }

  lemma DifferenceShifts(a: string, b: string)
    requires a != [] && b != [] && a[0] == b[0]
    ensures (exists i: nat :: FirstDifference(a, b, i) && a[i] < b[i]) <==>
            exists i: nat :: FirstDifference(a[1..], b[1..], i) && a[1..][i] < b[1..][i]
  {
    if i: nat :| FirstDifference(a, b, i) && a[i] < b[i] {
      HeadsAgree(a, b, i);
      assert i > 0 && a[1..][..i - 1] == a[..i][1..] && b[1..][..i - 1] == b[..i][1..];
      assert FirstDifference(a[1..], b[1..], i - 1);
    }
    if i: nat :| FirstDifference(a[1..], b[1..], i) && a[1..][i] < b[1..][i] {
      assert a[..i + 1] == [a[0]] + a[1..][..i] && b[..i + 1] == [b[0]] + b[1..][..i];
      assert FirstDifference(a, b, i + 1);
    }
  }

  lemma {:induction false} BeforeOrAfter(a: string, b: string)
    ensures Before(a, b) || a == b || Before(b, a)
  {
    if a == [] || b == [] || a[0] != b[0] {
    } else {
      BeforeOrAfter(a[1..], b[1..]);
      assert a == [a[0]] + a[1..] && b == [b[0]] + b[1..];
    }
  }

  lemma {:induction false} BeforeIsTransitive(a: string, b: string, c: string)
    requires Before(a, b) && Before(b, c)
    ensures Before(a, c)
  {
    if a == [] || a[0] < b[0] || b[0] < c[0] {
    } else {
      BeforeIsTransitive(a[1..], b[1..], c[1..]);
    }
  }

  ghost predicate InOrder(s: seq<string>) {
    forall i, j :: 0 <= i < j < |s| ==> Before(s[i], s[j])
  }

  lemma {:induction false} PlaceKeepsOrder(x: string, s: seq<string>)
    requires x !in s && Distinct(s) && InOrder(s)
    ensures InOrder(Place(x, s))
  {
    if s == [] {
    } else if Before(x, s[0]) {
      forall j | 1 <= j < |s|
        ensures Before(x, s[j])
      {
        BeforeIsTransitive(x, s[0], s[j]);
      }
    } else {
      var rest := Place(x, s[1..]);
      PlaceKeepsOrder(x, s[1..]);
      BeforeOrAfter(x, s[0]);
      forall j | 0 <= j < |rest|
        ensures Before(s[0], rest[j])
      {
        assert rest[j] in rest;
      }
    }
  }

  function Place(x: string, s: seq<string>): (r: seq<string>)
    requires x !in s && Distinct(s)
    ensures Distinct(r) && |r| == |s| + 1
    ensures forall y :: y in r <==> y == x || y in s
  {
    if s == [] || Before(x, s[0]) then [x] + s
    else
      assert s == [s[0]] + s[1..] && s[0] !in s[1..];
      [s[0]] + Place(x, s[1..])
  }

  // sorted(set(names))
  function SortedSet(names: seq<string>): (r: seq<string>)
    ensures Distinct(r)
    ensures forall x :: x in r <==> x in names
  {
    if names == [] then []
    else
      var rest := SortedSet(names[1..]);
      assert names == [names[0]] + names[1..];
      if names[0] in rest then rest else Place(names[0], rest)
  }

  // The names are in the order of characters.
  lemma {:induction false} SortedSetInOrder(names: seq<string>)
    ensures InOrder(SortedSet(names))
  {
    if names == [] {
    } else {
      SortedSetInOrder(names[1..]);
      if names[0] !in SortedSet(names[1..]) {
        PlaceKeepsOrder(names[0], SortedSet(names[1..]));
      }
    }
  }

  lemma DevicesInOrder(pairs: seq<Endpoint>)
    ensures InOrder(SrcDevices(pairs)) && InOrder(DstDevices(pairs))
  {
    SortedSetInOrder(SrcNames(pairs));
    SortedSetInOrder(DstNames(pairs));
  }

  function SrcNames(pairs: seq<Endpoint>): seq<string> {
    seq(|pairs|, i requires 0 <= i < |pairs| => pairs[i].srcDev)
  }

  function DstNames(pairs: seq<Endpoint>): seq<string> {
    seq(|pairs|, i requires 0 <= i < |pairs| => pairs[i].dstDev)
  }

  function SrcDevices(pairs: seq<Endpoint>): (r: seq<string>)
    ensures Distinct(r)
    ensures forall e :: e in pairs ==> e.srcDev in r
  {
    var names := SrcNames(pairs);
    assert forall i :: 0 <= i < |pairs| ==> names[i] == pairs[i].srcDev;
    SortedSet(names)
  }

  function DstDevices(pairs: seq<Endpoint>): (r: seq<string>)
    ensures Distinct(r)
    ensures forall e :: e in pairs ==> e.dstDev in r
  {
    var names := DstNames(pairs);
    assert forall i :: 0 <= i < |pairs| ==> names[i] == pairs[i].dstDev;
    SortedSet(names)
  }

  function Side(pairs: seq<Endpoint>): nat {
    Arith.Max(|SrcDevices(pairs)|, |DstDevices(pairs)|)
  }

  // ---------- Matchings, in terms of endpoints ----------

  // A later measurement of a device pair replaces an earlier one.
  function LastMeasured(pairs: seq<Endpoint>, s: string, d: string): (r: Option<Endpoint>)
    ensures r.Some? ==> r.value in pairs && r.value.srcDev == s && r.value.dstDev == d
    ensures r.None? ==> forall e :: e in pairs ==> e.srcDev != s || e.dstDev != d
  {
    if pairs == [] then None
    else
      var e := pairs[|pairs| - 1];
      assert pairs == pairs[..|pairs| - 1] + [e];
      if e.srcDev == s && e.dstDev == d then Some(e) else LastMeasured(pairs[..|pairs| - 1], s, d)
  }

  // Standing measurements that use no source and no destination twice.
  ghost predicate Matching(pairs: seq<Endpoint>, m: seq<Endpoint>) {
    && (forall i :: 0 <= i < |m| ==> LastMeasured(pairs, m[i].srcDev, m[i].dstDev) == Some(m[i]))
    && (forall i, j :: 0 <= i < j < |m| ==> m[i].srcDev != m[j].srcDev && m[i].dstDev != m[j].dstDev)
  }

  ghost function TotalLatency(m: seq<Endpoint>): real
    requires AllFinite(m)
  {
    if m == [] then 0.0 else TotalLatency(m[..|m| - 1]) + m[|m| - 1].latency.us
  }

  lemma MatchingIsFinite(pairs: seq<Endpoint>, m: seq<Endpoint>)
    requires AllFinite(pairs) && Matching(pairs, m)
    ensures AllFinite(m)
  {
    forall e | e in m
      ensures e.latency.Finite?
    {
      var i :| 0 <= i < |m| && m[i] == e;
      assert LastMeasured(pairs, e.srcDev, e.dstDev) == Some(m[i]);
    }
  }

  // As many pairs as any matching has, at the least total latency such a matching can have.
  ghost predicate BestMatching(pairs: seq<Endpoint>, best: seq<Endpoint>) {
    && Matching(pairs, best) && AllFinite(best)
    && forall m :: Matching(pairs, m) && AllFinite(m) ==>
         |m| <= |best| && (|m| == |best| ==> TotalLatency(best) <= TotalLatency(m))
  }

  ghost predicate CoversAll(pairs: seq<Endpoint>, m: seq<Endpoint>) {
    |m| == |SrcDevices(pairs)| == |DstDevices(pairs)|
  }

  ghost predicate HasPerfectMatching(pairs: seq<Endpoint>) {
    exists m :: Matching(pairs, m) && CoversAll(pairs, m)
  }

  // No two latencies are so far apart that dropping one of n pairs could pay off.
  ghost predicate ComparableOn(pairs: seq<Endpoint>, n: nat)
    requires AllFinite(pairs)
  {
    forall e, f :: e in pairs && f in pairs ==> SpreadFits(n, f.latency.us, e.latency.us)
  }

  ghost predicate Comparable(pairs: seq<Endpoint>)
    requires AllFinite(pairs)
  {
    ComparableOn(pairs, Side(pairs))
  }

  // ---------- From endpoints to the padded grid ----------

  // src and dst list every device of the group once.
  ghost predicate Lists(pairs: seq<Endpoint>, src: seq<string>, dst: seq<string>) {
    && AllFinite(pairs) && Distinct(src) && Distinct(dst)
    && forall e :: e in pairs ==> e.srcDev in src && e.dstDev in dst
  }

  ghost function CellOf(pairs: seq<Endpoint>, src: seq<string>, dst: seq<string>, i: nat, j: nat): Option<real>
    requires AllFinite(pairs)
  {
    if i < |src| && j < |dst| then
      match LastMeasured(pairs, src[i], dst[j])
      case Some(e) => Some(e.latency.us)
      case None => None
    else None
  }

  ghost function GridOf(pairs: seq<Endpoint>, src: seq<string>, dst: seq<string>): (g: Grid)
    requires AllFinite(pairs)
    ensures |g| == Arith.Max(|src|, |dst|) && SquareGrid(g)
    ensures forall i, j :: 0 <= i < |g| && 0 <= j < |g| ==> g[i][j] == CellOf(pairs, src, dst, i, j)
  {
    var n := Arith.Max(|src|, |dst|);
    seq(n, i requires 0 <= i < n => seq(n, j requires 0 <= j < n => CellOf(pairs, src, dst, i, j)))
  }

  // Every occupied row belongs to an entry of m.
  ghost predicate Occupies(src: seq<string>, dst: seq<string>, m: seq<Endpoint>, rows: seq<int>) {
    forall i :: 0 <= i < |rows| && rows[i] >= 0 ==>
      && i < |src| && rows[i] < |dst|
      && exists k :: 0 <= k < |m| && m[k].srcDev == src[i] && m[k].dstDev == dst[rows[i]]
  }

  lemma OccupiesMore(src: seq<string>, dst: seq<string>, m: seq<Endpoint>, rows: seq<int>, i: nat, j: nat)
    requires m != [] && Occupies(src, dst, m[..|m| - 1], rows)
    requires i < |src| && i < |rows| && j < |dst| && m[|m| - 1].srcDev == src[i] && m[|m| - 1].dstDev == dst[j]
    ensures Occupies(src, dst, m, rows[i := j])
  {
    var init, filled := m[..|m| - 1], rows[i := j];
    forall r | 0 <= r < |filled| && filled[r] >= 0
      ensures r < |src| && filled[r] < |dst|
      ensures exists k :: 0 <= k < |m| && m[k].srcDev == src[r] && m[k].dstDev == dst[filled[r]]
    {
      if r != i {
        var k :| 0 <= k < |init| && init[k].srcDev == src[r] && init[k].dstDev == dst[rows[r]];
        assert m[k] == init[k];
      }
    }
  }

  // The rows of the grid that a matching of endpoints occupies.
  lemma {:induction false} RowsOf(pairs: seq<Endpoint>, src: seq<string>, dst: seq<string>, m: seq<Endpoint>)
    returns (rows: seq<int>)
    requires Lists(pairs, src, dst) && Matching(pairs, m) && AllFinite(m)
    ensures GridMatching(GridOf(pairs, src, dst), rows)
    ensures Matched(rows, |rows|) == |m|
    ensures LatencySum(GridOf(pairs, src, dst), rows, |rows|) == TotalLatency(m)
    ensures Occupies(src, dst, m, rows)
  {
    var g := GridOf(pairs, src, dst);
    if m == [] {
      rows := seq(|g|, i => -1);
      EmptyRows(g, rows, |g|);
    } else {
      var init, e := m[..|m| - 1], m[|m| - 1];
      rows := RowsOf(pairs, src, dst, init);
      assert LastMeasured(pairs, e.srcDev, e.dstDev) == Some(e);
      var i, j := IndexOf(src, e.srcDev), IndexOf(dst, e.dstDev);
      assert rows[i] < 0 && j !in rows;
      assert g[i][j] == CellOf(pairs, src, dst, i, j);
      FillMatching(g, rows, i, j, |g|);
      OccupiesMore(src, dst, m, rows, i, j);
      rows := rows[i := j];
    }
  }

  lemma {:induction false} EmptyRows(g: Grid, rows: seq<int>, k: nat)
    requires SquareGrid(g) && |rows| == |g| && k <= |g|
    requires forall i :: 0 <= i < |rows| ==> rows[i] == -1
    ensures GridMatching(g, rows)
    ensures Matched(rows, k) == 0 && LatencySum(g, rows, k) == 0.0
  {
    if k == 0 {
    } else {
      EmptyRows(g, rows, k - 1);
    }
  }

  lemma {:induction false} FillMatching(g: Grid, m: seq<int>, i: nat, j: nat, k: nat)
    requires SquareGrid(g) && GridMatching(g, m) && k <= |m|
    requires i < |m| && m[i] < 0 && j < |m| && j !in m && g[i][j].Some?
    ensures GridMatching(g, m[i := j])
    ensures Matched(m[i := j], k) == Matched(m, k) + (if i < k then 1 else 0)
    ensures LatencySum(g, m[i := j], k) == LatencySum(g, m, k) + (if i < k then g[i][j].value else 0.0)
  {
    if k == 0 {
    } else {
      FillMatching(g, m, i, j, k - 1);
    }
  }

  lemma {:induction false} Extremes(pairs: seq<Endpoint>) returns (lo: Endpoint, hi: Endpoint)
    requires AllFinite(pairs) && pairs != []
    ensures lo in pairs && hi in pairs
    ensures forall e :: e in pairs ==> lo.latency.us <= e.latency.us <= hi.latency.us
  {
    var last := pairs[|pairs| - 1];
    lo, hi := last, last;
    if |pairs| == 1 {
    } else {
      var init := pairs[..|pairs| - 1];
      assert pairs == init + [last];
      lo, hi := Extremes(init);
      if last.latency.us < lo.latency.us {
        lo := last;
      }
      if last.latency.us > hi.latency.us {
        hi := last;
      }
    }
  }

  lemma LatenciesWithin(pairs: seq<Endpoint>, src: seq<string>, dst: seq<string>, lo: real, hi: real)
    requires AllFinite(pairs) && forall e :: e in pairs ==> lo <= e.latency.us <= hi
    ensures Within(GridOf(pairs, src, dst), lo, hi)
  {
    var g: Grid := GridOf(pairs, src, dst);
    forall i: int, j: int | 0 <= i < |g| && 0 <= j < |g| && g[i][j].Some?
      ensures lo <= g[i][j].value <= hi
    {
      assert g[i][j] == CellOf(pairs, src, dst, i, j);
    }
  }

  // Filtering an optimal assignment beats every matching of the measured pairs.
  lemma KeptIsBest(pairs: seq<Endpoint>, src: seq<string>, dst: seq<string>, p: seq<int>, m: seq<Endpoint>)
    requires pairs != [] && Lists(pairs, src, dst) && ComparableOn(pairs, Arith.Max(|src|, |dst|))
    requires Minimal(Cost(GridOf(pairs, src, dst)), p)
    requires Matching(pairs, m) && AllFinite(m)
    ensures |m| <= Matched(KeepMeasured(GridOf(pairs, src, dst), p), Arith.Max(|src|, |dst|))
    ensures |m| == Matched(KeepMeasured(GridOf(pairs, src, dst), p), Arith.Max(|src|, |dst|)) ==>
              LatencySum(GridOf(pairs, src, dst), KeepMeasured(GridOf(pairs, src, dst), p), Arith.Max(|src|, |dst|)) <=
              TotalLatency(m)
  {
    var g := GridOf(pairs, src, dst);
    var rows := RowsOf(pairs, src, dst, m);
    var lo, hi := Extremes(pairs);
    LatenciesWithin(pairs, src, dst, lo.latency.us, hi.latency.us);
    FilteredIsBest(g, p, rows, lo.latency.us, hi.latency.us);
  }

  // ---------- solve_partition_group ----------

  function MinEntry(s: seq<real>): (r: real)
    requires s != []
    ensures r in s && forall x :: x in s ==> r <= x
  {
    if |s| == 1 then s[0]
    else
      assert s == [s[0]] + s[1..];
      var r := MinEntry(s[1..]);
      if s[0] < r then s[0] else r
  }

  function MaxEntry(s: seq<real>): (r: real)
    requires s != []
    ensures r in s && forall x :: x in s ==> x <= r
  {
    if |s| == 1 then s[0]
    else
      assert s == [s[0]] + s[1..];
      var r := MaxEntry(s[1..]);
      if s[0] > r then s[0] else r
  }

  function Flatten(c: Matrix): (s: seq<real>)
    ensures c != [] && c[0] != [] ==> s != []
  {
    if c == [] then [] else c[0] + Flatten(c[1..])
  }

  // (cost - min) / (max - min + 1e-6)
  function Normalised(c: Matrix): (d: Matrix)
    requires c != [] && (forall i :: 0 <= i < |c| ==> |c[i]| == |c|)
    ensures |d| == |c| && (forall i :: 0 <= i < |d| ==> |d[i]| == |d|)
    ensures exists lo, den :: Scaled(c, d, lo, den)
  {
    var all := Flatten(c);
    var lo, hi := MinEntry(all), MaxEntry(all);
    var den := hi - lo + 0.000001;
    var d := seq(|c|, i requires 0 <= i < |c| => seq(|c|, j requires 0 <= j < |c| => (c[i][j] - lo) / den));
    assert Scaled(c, d, lo, den);
    d
  }

  lemma {:induction false} FlattenHas(c: Matrix, i: nat, j: nat)
    requires i < |c| && j < |c[i]|
    ensures c[i][j] in Flatten(c)
  {
    if i == 0 {
      assert c[0][j] in c[0];
    } else {
      FlattenHas(c[1..], i - 1, j);
    }
  }

  lemma UnitQuotient(x: real, den: real)
    requires 0.0 <= x < den
    ensures 0.0 <= x / den < 1.0
  {
    DivTimes(x, den);
    if x / den >= 1.0 {
      MulMonotone(1.0, x / den, den);
    }
  }

  lemma NormalisedAt(c: Matrix, i: nat, j: nat)
    requires c != [] && (forall k :: 0 <= k < |c| ==> |c[k]| == |c|) && i < |c| && j < |c|
    ensures var all := Flatten(c);
            Normalised(c)[i][j] == (c[i][j] - MinEntry(all)) / (MaxEntry(all) - MinEntry(all) + 0.000001)
  {
  }

  lemma UnitEntry(x: real, lo: real, hi: real)
    requires lo <= x <= hi
    ensures 0.0 <= (x - lo) / (hi - lo + 0.000001) < 1.0
    ensures x == lo ==> (x - lo) / (hi - lo + 0.000001) == 0.0
  {
    UnitQuotient(x - lo, hi - lo + 0.000001);
  }

  lemma LeastEntry(c: Matrix, i: nat, j: nat)
    requires c != [] && (forall k :: 0 <= k < |c| ==> |c[k]| == |c|) && i < |c| && j < |c|
    requires forall k, l :: 0 <= k < |c| && 0 <= l < |c| ==> c[i][j] <= c[k][l]
    ensures c[i][j] == MinEntry(Flatten(c))
  {
    FlattenHas(c, i, j);
    var k, l := FlattenFrom(c, MinEntry(Flatten(c)));
  }

  // The normalised costs lie in [0, 1).
  lemma NormalisedInUnit(c: Matrix, i: nat, j: nat)
    requires c != [] && (forall k :: 0 <= k < |c| ==> |c[k]| == |c|) && i < |c| && j < |c|
    ensures 0.0 <= Normalised(c)[i][j] < 1.0
  {
    FlattenHas(c, i, j);
    UnitEntry(c[i][j], MinEntry(Flatten(c)), MaxEntry(Flatten(c)));
    NormalisedAt(c, i, j);
  }

  // The least cost becomes 0.
  lemma LeastBecomesZero(c: Matrix, i: nat, j: nat)
    requires c != [] && (forall k :: 0 <= k < |c| ==> |c[k]| == |c|) && i < |c| && j < |c|
    requires forall k, l :: 0 <= k < |c| && 0 <= l < |c| ==> c[i][j] <= c[k][l]
    ensures Normalised(c)[i][j] == 0.0
  {
    FlattenHas(c, i, j);
    LeastEntry(c, i, j);
    UnitEntry(c[i][j], MinEntry(Flatten(c)), MaxEntry(Flatten(c)));
    NormalisedAt(c, i, j);
  }

  lemma {:induction false} FlattenFrom(c: Matrix, x: real) returns (k: nat, l: nat)
    requires x in Flatten(c)
    ensures k < |c| && l < |c[k]| && c[k][l] == x
  {
    if x in c[0] {
      k := 0;
      l :| 0 <= l < |c[0]| && c[0][l] == x;
    } else {
      k, l := FlattenFrom(c[1..], x);
      k := k + 1;
    }
  }

  // ---------- What the pass over an assignment appends ----------

  // The standing measurement that row i of the assignment falls on.
  ghost function Pick(pairs: seq<Endpoint>, src: seq<string>, dst: seq<string>, p: seq<int>, i: nat): Option<Endpoint>
    requires i < |p| && p[i] >= 0
  {
    if i < |src| && p[i] < |dst| then LastMeasured(pairs, src[i], dst[p[i]]) else None
  }

  // The picks of the first k rows, in row order.
  ghost function Picks(pairs: seq<Endpoint>, src: seq<string>, dst: seq<string>, p: seq<int>, k: nat): seq<Endpoint>
    requires k <= |p| && Permutation(p)
  {
    if k == 0 then []
    else
      var before := Picks(pairs, src, dst, p, k - 1);
      match Pick(pairs, src, dst, p, k - 1)
      case Some(e) => before + [e]
      case None => before
  }

  // Where a pick comes from.
  lemma {:induction false} PickedRow(pairs: seq<Endpoint>, src: seq<string>, dst: seq<string>, p: seq<int>, k: nat,
                                     i: nat)
    returns (r: nat)
    requires k <= |p| && Permutation(p) && i < |Picks(pairs, src, dst, p, k)|
    ensures r < k && Pick(pairs, src, dst, p, r) == Some(Picks(pairs, src, dst, p, k)[i])
  {
    if i < |Picks(pairs, src, dst, p, k - 1)| {
      r := PickedRow(pairs, src, dst, p, k - 1, i);
    } else {
      r := k - 1;
    }
  }

  lemma PicksApart(pairs: seq<Endpoint>, src: seq<string>, dst: seq<string>, p: seq<int>, r: nat, k: nat)
    requires Distinct(src) && Distinct(dst) && r < k < |p| && Permutation(p)
    requires Pick(pairs, src, dst, p, r).Some? && Pick(pairs, src, dst, p, k).Some?
    ensures var d, e := Pick(pairs, src, dst, p, r).value, Pick(pairs, src, dst, p, k).value;
            d.srcDev != e.srcDev && d.dstDev != e.dstDev
  {
    assert p[r] != p[k];
  }

  lemma MatchingMore(pairs: seq<Endpoint>, m: seq<Endpoint>, e: Endpoint)
    requires Matching(pairs, m) && LastMeasured(pairs, e.srcDev, e.dstDev) == Some(e)
    requires forall i :: 0 <= i < |m| ==> m[i].srcDev != e.srcDev && m[i].dstDev != e.dstDev
    ensures Matching(pairs, m + [e])
  {
  }

  lemma {:induction false} PicksMatch(pairs: seq<Endpoint>, src: seq<string>, dst: seq<string>, p: seq<int>, k: nat)
    requires Distinct(src) && Distinct(dst) && k <= |p| && Permutation(p)
    ensures Matching(pairs, Picks(pairs, src, dst, p, k))
  {
    if k > 0 && Pick(pairs, src, dst, p, k - 1).Some? {
      PicksMatch(pairs, src, dst, p, k - 1);
      var before, e := Picks(pairs, src, dst, p, k - 1), Pick(pairs, src, dst, p, k - 1).value;
      forall i | 0 <= i < |before|
        ensures before[i].srcDev != e.srcDev && before[i].dstDev != e.dstDev
      {
        var r := PickedRow(pairs, src, dst, p, k - 1, i);
        PicksApart(pairs, src, dst, p, r, k - 1);
      }
      MatchingMore(pairs, before, e);
    } else if k > 0 {
      PicksMatch(pairs, src, dst, p, k - 1);
    }
  }

  // A row is kept exactly if it picks, at the latency picked.
  lemma KeptRow(pairs: seq<Endpoint>, src: seq<string>, dst: seq<string>, p: seq<int>, i: nat)
    requires AllFinite(pairs) && |p| == Arith.Max(|src|, |dst|) && Permutation(p) && i < |p|
    ensures var g, kept := GridOf(pairs, src, dst), KeepMeasured(GridOf(pairs, src, dst), p);
            match Pick(pairs, src, dst, p, i)
            case Some(e) => e.latency.Finite? && kept[i] == p[i] && g[i][p[i]] == Some(e.latency.us)
            case None => kept[i] < 0
  {
    assert GridOf(pairs, src, dst)[i][p[i]] == CellOf(pairs, src, dst, i, p[i]);
  }

  lemma TotalOfMore(m: seq<Endpoint>, e: Endpoint)
    requires AllFinite(m) && e.latency.Finite?
    ensures AllFinite(m + [e]) && TotalLatency(m + [e]) == TotalLatency(m) + e.latency.us
  {
    assert (m + [e])[..|m|] == m;
  }

  // One more row adds its latency on both sides.
  lemma RowAdds(g: Grid, kept: seq<int>, m: seq<Endpoint>, pick: Option<Endpoint>, k: nat)
    requires SquareGrid(g) && GridMatching(g, kept) && k < |kept| && AllFinite(m)
    requires TotalLatency(m) == LatencySum(g, kept, k)
    requires match pick
             case Some(e) => e.latency.Finite? && kept[k] >= 0 && g[k][kept[k]] == Some(e.latency.us)
             case None => kept[k] < 0
    ensures var more := if pick.Some? then m + [pick.value] else m;
            AllFinite(more) && TotalLatency(more) == LatencySum(g, kept, k + 1)
  {
    if pick.Some? {
      TotalOfMore(m, pick.value);
    }
  }

  lemma {:induction false} PicksFinite(pairs: seq<Endpoint>, src: seq<string>, dst: seq<string>, p: seq<int>, k: nat)
    requires AllFinite(pairs) && |p| == Arith.Max(|src|, |dst|) && Permutation(p) && k <= |p|
    ensures AllFinite(Picks(pairs, src, dst, p, k))
    ensures |Picks(pairs, src, dst, p, k)| == Matched(KeepMeasured(GridOf(pairs, src, dst), p), k)
  {
    if k == 0 {
    } else {
      PicksFinite(pairs, src, dst, p, k - 1);
      KeptRow(pairs, src, dst, p, k - 1);
    }
  }

  lemma {:induction false} PicksSums(pairs: seq<Endpoint>, src: seq<string>, dst: seq<string>, p: seq<int>, k: nat)
    requires AllFinite(pairs) && |p| == Arith.Max(|src|, |dst|) && Permutation(p) && k <= |p|
    ensures var picks := Picks(pairs, src, dst, p, k);
            var kept := KeepMeasured(GridOf(pairs, src, dst), p);
            && AllFinite(picks) && |picks| == Matched(kept, k)
            && TotalLatency(picks) == LatencySum(GridOf(pairs, src, dst), kept, k)
  {
    PicksFinite(pairs, src, dst, p, k);
    if k == 0 {
    } else {
      PicksSums(pairs, src, dst, p, k - 1);
      KeptRow(pairs, src, dst, p, k - 1);
      var g := GridOf(pairs, src, dst);
      RowAdds(g, KeepMeasured(g, p), Picks(pairs, src, dst, p, k - 1), Pick(pairs, src, dst, p, k - 1), k - 1);
    }
  }

  // All rows picked something.
  ghost predicate AllPicked(pairs: seq<Endpoint>, src: seq<string>, dst: seq<string>, p: seq<int>)
    requires Permutation(p)
  {
    forall i :: 0 <= i < |p| ==> Pick(pairs, src, dst, p, i).Some?
  }

  lemma AllPickedIs(pairs: seq<Endpoint>, src: seq<string>, dst: seq<string>, p: seq<int>)
    requires AllFinite(pairs) && |p| == Arith.Max(|src|, |dst|) && Permutation(p)
    ensures AllPicked(pairs, src, dst, p) <==>
            Matched(KeepMeasured(GridOf(pairs, src, dst), p), |p|) == |p|
  {
    var g := GridOf(pairs, src, dst);
    AllMatched(KeepMeasured(g, p), |p|);
    forall i | 0 <= i < |p|
      ensures KeepMeasured(g, p)[i] >= 0 <==> Pick(pairs, src, dst, p, i).Some?
    {
      assert g[i][p[i]] == CellOf(pairs, src, dst, i, p[i]);
    }
  }

  lemma AllPickedCovers(src: seq<string>, dst: seq<string>, pairs: seq<Endpoint>, p: seq<int>)
    requires |p| == Arith.Max(|src|, |dst|) && Permutation(p) && AllPicked(pairs, src, dst, p)
    ensures |p| == |src| == |dst|
  {
    var n := |p|;
    if n > 0 {
      assert Pick(pairs, src, dst, p, n - 1).Some?;
      Surjective(p, n - 1);
      var i :| 0 <= i < n && p[i] == n - 1;
      assert Pick(pairs, src, dst, p, i).Some?;
    }
  }

  // Cell (i, j) of the cost table, from the measurement seen for it.
  ghost predicate CostCell(seen: Option<Endpoint>, cost: real) {
    match seen
    case Some(e) => e.latency.Finite? && cost == e.latency.us
    case None => cost == SENTINEL
  }

  // Cell (i, j) of the other two tables.
  ghost predicate MeasuredCell(seen: Option<Endpoint>, valid: bool, latencyMap: map<(int, int), Endpoint>,
                               i: int, j: int)
  {
    match seen
    case Some(e) => valid && (i, j) in latencyMap && latencyMap[(i, j)] == e
    case None => !valid
  }

  lemma LastMeasuredStep(pairs: seq<Endpoint>, k: nat, s: string, d: string)
    requires k < |pairs|
    ensures LastMeasured(pairs[..k + 1], s, d) ==
            if pairs[k].srcDev == s && pairs[k].dstDev == d then Some(pairs[k]) else LastMeasured(pairs[..k], s, d)
  {
    assert pairs[..k + 1][..k] == pairs[..k];
  }

  // The cost table after these endpoints; the sentinel outside the devices.
  ghost predicate CostsOf(cost: array2<real>, pairs: seq<Endpoint>, src: seq<string>, dst: seq<string>)
    requires cost.Length0 == cost.Length1 == Arith.Max(|src|, |dst|)
    reads cost
  {
    && (forall i, j :: 0 <= i < |src| && 0 <= j < |dst| ==> CostCell(LastMeasured(pairs, src[i], dst[j]), cost[i, j]))
    && (forall i, j :: 0 <= i < cost.Length0 && 0 <= j < cost.Length1 && (i >= |src| || j >= |dst|) ==>
          cost[i, j] == SENTINEL)
  }

  ghost predicate MeasuredOf(valid: array2<bool>, latencyMap: map<(int, int), Endpoint>, pairs: seq<Endpoint>,
                             src: seq<string>, dst: seq<string>)
    requires valid.Length0 == valid.Length1 == Arith.Max(|src|, |dst|)
    reads valid
  {
    forall i, j :: 0 <= i < |src| && 0 <= j < |dst| ==>
      MeasuredCell(LastMeasured(pairs, src[i], dst[j]), valid[i, j], latencyMap, i, j)
  }

  // Cell (i, j) is the cell of endpoint k.
  ghost predicate CellFor(pairs: seq<Endpoint>, src: seq<string>, dst: seq<string>, k: nat, i: nat, j: nat) {
    && k < |pairs| && Distinct(src) && Distinct(dst) && i < |src| && j < |dst|
    && src[i] == pairs[k].srcDev && dst[j] == pairs[k].dstDev
  }

  method WriteCost(cost: array2<real>, i: nat, j: nat, us: real,
                   ghost pairs: seq<Endpoint>, ghost src: seq<string>, ghost dst: seq<string>, ghost k: nat)
    requires cost.Length0 == cost.Length1 == Arith.Max(|src|, |dst|)
    requires CellFor(pairs, src, dst, k, i, j) && pairs[k].latency == Finite(us) && CostsOf(cost, pairs[..k], src, dst)
    modifies cost
    ensures CostsOf(cost, pairs[..k + 1], src, dst)
  {
    cost[i, j] := us;
    forall a, b | 0 <= a < |src| && 0 <= b < |dst|
      ensures CostCell(LastMeasured(pairs[..k + 1], src[a], dst[b]), cost[a, b])
    {
      LastMeasuredStep(pairs, k, src[a], dst[b]);
    }
  }

  method WriteMeasured(valid: array2<bool>, latencyMap: map<(int, int), Endpoint>, i: nat, j: nat, ep: Endpoint,
                       ghost pairs: seq<Endpoint>, ghost src: seq<string>, ghost dst: seq<string>, ghost k: nat)
    returns (m: map<(int, int), Endpoint>)
    requires valid.Length0 == valid.Length1 == Arith.Max(|src|, |dst|)
    requires CellFor(pairs, src, dst, k, i, j) && pairs[k] == ep && MeasuredOf(valid, latencyMap, pairs[..k], src, dst)
    modifies valid
    ensures MeasuredOf(valid, m, pairs[..k + 1], src, dst)
  {
    valid[i, j] := true;
    m := latencyMap[(i, j) := ep];
    forall a, b | 0 <= a < |src| && 0 <= b < |dst|
      ensures MeasuredCell(LastMeasured(pairs[..k + 1], src[a], dst[b]), valid[a, b], m, a, b)
    {
      LastMeasuredStep(pairs, k, src[a], dst[b]);
    }
  }

  method FillTables(pairs: seq<Endpoint>, srcDevs: seq<string>, dstDevs: seq<string>)
    returns (cost: array2<real>, valid: array2<bool>, latencyMap: map<(int, int), Endpoint>)
    requires AllFinite(pairs) && Distinct(srcDevs) && Distinct(dstDevs)
    requires forall e :: e in pairs ==> e.srcDev in srcDevs && e.dstDev in dstDevs
    ensures cost.Length0 == cost.Length1 == valid.Length0 == valid.Length1 == Arith.Max(|srcDevs|, |dstDevs|)
    ensures CostsOf(cost, pairs, srcDevs, dstDevs)
    ensures MeasuredOf(valid, latencyMap, pairs, srcDevs, dstDevs)
  {
    var n := Arith.Max(|srcDevs|, |dstDevs|);
    cost := new real[n, n]((_, _) => SENTINEL);
    valid := new bool[n, n]((_, _) => false);
    latencyMap := map[];
    for k := 0 to |pairs|
      invariant CostsOf(cost, pairs[..k], srcDevs, dstDevs)
      invariant MeasuredOf(valid, latencyMap, pairs[..k], srcDevs, dstDevs)
    {
      var ep := pairs[k];
      var i, j := IndexOf(srcDevs, ep.srcDev), IndexOf(dstDevs, ep.dstDev);
      WriteCost(cost, i, j, ep.latency.us, pairs, srcDevs, dstDevs, k);
      latencyMap := WriteMeasured(valid, latencyMap, i, j, ep, pairs, srcDevs, dstDevs, k);
    }
    assert pairs[..|pairs|] == pairs;
  }

  method Snapshot(cost: array2<real>) returns (c: Matrix)
    requires cost.Length0 == cost.Length1
    ensures |c| == cost.Length0 && Square(c)
    ensures forall i, j :: 0 <= i < |c| && 0 <= j < |c| ==> c[i][j] == cost[i, j]
  {
    var n := cost.Length0;
    c := seq(n, i requires 0 <= i < n reads cost => seq(n, j requires 0 <= j < n reads cost => cost[i, j]));
  }

  lemma CostFilled(pairs: seq<Endpoint>, src: seq<string>, dst: seq<string>, c: Matrix)
    requires AllFinite(pairs) && |c| == Arith.Max(|src|, |dst|) && Square(c)
    requires forall i, j :: 0 <= i < |c| && 0 <= j < |c| ==>
               var cell := CellOf(pairs, src, dst, i, j);
               c[i][j] == if cell.Some? then cell.value else SENTINEL
    ensures c == Cost(GridOf(pairs, src, dst))
  {
    var d := Cost(GridOf(pairs, src, dst));
    forall i | 0 <= i < |c|
      ensures c[i] == d[i]
    {
    }
  }

  lemma TablesCost(pairs: seq<Endpoint>, src: seq<string>, dst: seq<string>, cost: array2<real>, c: Matrix)
    requires AllFinite(pairs) && Square(c)
    requires |c| == cost.Length0 == cost.Length1 == Arith.Max(|src|, |dst|) && CostsOf(cost, pairs, src, dst)
    requires forall i, j :: 0 <= i < |c| && 0 <= j < |c| ==> c[i][j] == cost[i, j]
    ensures c == Cost(GridOf(pairs, src, dst))
  {
    CostFilled(pairs, src, dst, c);
  }

  // Normalise, then solve: the columns found are optimal for the costs themselves.
  method AssignColumns(c: Matrix, solver: Matrix -> seq<int>) returns (p: seq<int>)
    requires Square(c) && c != [] && SolvesAssignment(solver)
    ensures Minimal(c, p)
  {
    var norm := Normalised(c);
    p := solver(norm);
    ghost var lo, den :| Scaled(c, norm, lo, den);
    ScalingKeepsMinimum(c, norm, lo, den, p);
  }

  // The pass over (row, column): a measured pair is appended; an unmeasured one ends a complete matching.
  method CollectMatched(ghost pairs: seq<Endpoint>, allowPartial: bool, p: seq<int>, srcDevs: seq<string>,
                        dstDevs: seq<string>, valid: array2<bool>, latencyMap: map<(int, int), Endpoint>)
    returns (matched: seq<Endpoint>)
    requires |p| == valid.Length0 == valid.Length1 == Arith.Max(|srcDevs|, |dstDevs|) && Permutation(p)
    requires MeasuredOf(valid, latencyMap, pairs, srcDevs, dstDevs)
    ensures matched == if allowPartial || AllPicked(pairs, srcDevs, dstDevs, p)
                       then Picks(pairs, srcDevs, dstDevs, p, |p|) else []
  {
    matched := [];
    for i := 0 to |p|
      invariant matched == Picks(pairs, srcDevs, dstDevs, p, i)
      invariant allowPartial || forall r :: 0 <= r < i ==> Pick(pairs, srcDevs, dstDevs, p, r).Some?
    {
      var j := p[i];
      if i < |srcDevs| && j < |dstDevs| && valid[i, j] {
        matched := matched + [latencyMap[(i, j)]];
      } else if !allowPartial {
        assert Pick(pairs, srcDevs, dstDevs, p, i).None?;
        return [];
      }
    }
  }

  lemma PicksAreBest(pairs: seq<Endpoint>, src: seq<string>, dst: seq<string>, p: seq<int>)
    requires pairs != [] && Lists(pairs, src, dst) && ComparableOn(pairs, Arith.Max(|src|, |dst|))
    requires Minimal(Cost(GridOf(pairs, src, dst)), p)
    ensures BestMatching(pairs, Picks(pairs, src, dst, p, |p|))
  {
    var picks := Picks(pairs, src, dst, p, |p|);
    PicksMatch(pairs, src, dst, p, |p|);
    PicksSums(pairs, src, dst, p, |p|);
    forall m | Matching(pairs, m) && AllFinite(m)
      ensures |m| <= |picks| && (|m| == |picks| ==> TotalLatency(picks) <= TotalLatency(m))
    {
      KeptIsBest(pairs, src, dst, p, m);
    }
  }

  lemma PerfectIsKept(pairs: seq<Endpoint>, src: seq<string>, dst: seq<string>, p: seq<int>)
    requires pairs != [] && Lists(pairs, src, dst) && ComparableOn(pairs, Arith.Max(|src|, |dst|))
    requires Minimal(Cost(GridOf(pairs, src, dst)), p)
    requires src == SrcDevices(pairs) && dst == DstDevices(pairs) && HasPerfectMatching(pairs)
    ensures Matched(KeepMeasured(GridOf(pairs, src, dst), p), |p|) == |p|
  {
    var m :| Matching(pairs, m) && CoversAll(pairs, m);
    MatchingIsFinite(pairs, m);
    KeptIsBest(pairs, src, dst, p, m);
  }

  // What the group's result is worth, for the assignment the solver found.
  lemma GroupSolved(pairs: seq<Endpoint>, src: seq<string>, dst: seq<string>, allowPartial: bool, p: seq<int>,
                    matched: seq<Endpoint>)
    requires AllFinite(pairs) && pairs != [] && src == SrcDevices(pairs) && dst == DstDevices(pairs)
    requires Minimal(Cost(GridOf(pairs, src, dst)), p)
    requires matched == if allowPartial || AllPicked(pairs, src, dst, p)
                        then Picks(pairs, src, dst, p, |p|) else []
    ensures Matching(pairs, matched)
    ensures !allowPartial ==> matched == [] || CoversAll(pairs, matched)
    ensures Comparable(pairs) && (allowPartial || matched != []) ==> BestMatching(pairs, matched)
    ensures Comparable(pairs) && !allowPartial ==> (matched != [] <==> HasPerfectMatching(pairs))
  {
    PicksMatch(pairs, src, dst, p, |p|);
    PicksSums(pairs, src, dst, p, |p|);
    AllPickedIs(pairs, src, dst, p);
    if Comparable(pairs) {
      PicksAreBest(pairs, src, dst, p);
    }
    if AllPicked(pairs, src, dst, p) {
      AllPickedCovers(src, dst, pairs, p);
      assert pairs[0] in pairs && pairs[0].srcDev in src;
    } else if !allowPartial && Comparable(pairs) && HasPerfectMatching(pairs) {
      PerfectIsKept(pairs, src, dst, p);
    }
  }

  // The result of a group, for some optimal assignment of the padded costs.
  ghost predicate SolvedBy(pairs: seq<Endpoint>, allowPartial: bool, matched: seq<Endpoint>)
    requires AllFinite(pairs)
  {
    var src, dst := SrcDevices(pairs), DstDevices(pairs);
    exists p :: Minimal(Cost(GridOf(pairs, src, dst)), p) &&
      matched == if allowPartial || AllPicked(pairs, src, dst, p) then Picks(pairs, src, dst, p, |p|) else []
  }

  method AssignGroup(pairs: seq<Endpoint>, allowPartial: bool, solver: Matrix -> seq<int>)
    returns (matched: seq<Endpoint>)
    requires AllFinite(pairs) && SolvesAssignment(solver)
    ensures if pairs == [] then matched == [] else SolvedBy(pairs, allowPartial, matched)
  {
    var srcDevs, dstDevs := SrcDevices(pairs), DstDevices(pairs);
    var n := Arith.Max(|srcDevs|, |dstDevs|);
    var cost, valid, latencyMap := FillTables(pairs, srcDevs, dstDevs);
    if n == 0 {
      OnlyTheEmptyMatching(pairs);
      return [];
    }
    var c := Snapshot(cost);
    TablesCost(pairs, srcDevs, dstDevs, cost, c);
    var p := AssignColumns(c, solver);
    assert pairs != [] by {
      DevicesOfNothing(pairs);
    }
    matched := CollectMatched(pairs, allowPartial, p, srcDevs, dstDevs, valid, latencyMap);
  }

  lemma DevicesOfNothing(pairs: seq<Endpoint>)
    ensures pairs == [] ==> Side(pairs) == 0
  {
  }

  method SolvePartitionGroup(pairs: seq<Endpoint>, allowPartial: bool, solver: Matrix -> seq<int>)
    returns (matched: seq<Endpoint>)
    requires AllFinite(pairs) && SolvesAssignment(solver)
    ensures Matching(pairs, matched)
    ensures !allowPartial ==> matched == [] || CoversAll(pairs, matched)
    ensures Comparable(pairs) && (allowPartial || matched != []) ==> BestMatching(pairs, matched)
    ensures Comparable(pairs) && !allowPartial ==> (matched != [] <==> pairs != [] && HasPerfectMatching(pairs))
  {
    matched := AssignGroup(pairs, allowPartial, solver);
    if pairs == [] {
      DevicesOfNothing(pairs);
      OnlyTheEmptyMatching(pairs);
    } else {
      var src, dst := SrcDevices(pairs), DstDevices(pairs);
      ghost var p :| Minimal(Cost(GridOf(pairs, src, dst)), p) &&
        matched == if allowPartial || AllPicked(pairs, src, dst, p) then Picks(pairs, src, dst, p, |p|) else [];
      GroupSolved(pairs, src, dst, allowPartial, p, matched);
    }
  }

  lemma OnlyTheEmptyMatching(pairs: seq<Endpoint>)
    requires Side(pairs) == 0
    ensures pairs == [] && BestMatching(pairs, [])
  {
    assert forall i :: 0 <= i < |pairs| ==> pairs[i] in pairs;
    assert forall m: seq<Endpoint> :: Matching(pairs, m) && m != [] ==>
        LastMeasured(pairs, m[0].srcDev, m[0].dstDev) == Some(m[0]);
  }

  // ---------- Endpoints that lose a pair ----------

  // An optimal assignment pays one sentinel per unmatched row, so what it picks is cheapest in that sense.
  lemma PicksAreCheapest(pairs: seq<Endpoint>, src: seq<string>, dst: seq<string>, p: seq<int>, m: seq<Endpoint>)
    requires Lists(pairs, src, dst) && Minimal(Cost(GridOf(pairs, src, dst)), p) && Matching(pairs, m) && AllFinite(m)
    requires forall e :: e in pairs ==> e.latency.us <= SENTINEL
    ensures var picks := Picks(pairs, src, dst, p, |p|);
            && |picks| <= |p| && |m| <= |p| && AllFinite(picks)
            && TotalLatency(picks) + SENTINEL * (|p| - |picks|) as real <=
               TotalLatency(m) + SENTINEL * (|p| - |m|) as real
  {
    var g := GridOf(pairs, src, dst);
    var rows := RowsOf(pairs, src, dst, m);
    var q := Extend(Cost(g), rows);
    MatchingCost(g, rows, |p|);
    KeepMeasuredCost(g, p, |p|);
    MatchingCost(g, KeepMeasured(g, p), |p|);
    PicksSums(pairs, src, dst, p, |p|);
  }

  // Source a reaches c dearly and d cheaply, source b reaches only d, dearly; matching both sources
  // costs more than the cheap pair and a sentinel.
  ghost predicate WidePath(pairs: seq<Endpoint>, ac: Endpoint, ad: Endpoint, bd: Endpoint) {
    && AllFinite(pairs) && ac in pairs && ad in pairs && bd in pairs
    && (forall e :: e in pairs ==> e == ac || e == ad || e == bd)
    && ac.srcDev == ad.srcDev && ad.dstDev == bd.dstDev && ac.srcDev != bd.srcDev && ac.dstDev != bd.dstDev
    && ac.latency.us <= SENTINEL && ad.latency.us <= SENTINEL && bd.latency.us <= SENTINEL
    && ad.latency.us + SENTINEL < ac.latency.us + bd.latency.us
  }

  lemma WideMeasured(pairs: seq<Endpoint>, ac: Endpoint, ad: Endpoint, bd: Endpoint, e: Endpoint)
    requires WidePath(pairs, ac, ad, bd) && e in pairs
    ensures LastMeasured(pairs, e.srcDev, e.dstDev) == Some(e)
  {
  }

  lemma WideMember(pairs: seq<Endpoint>, ac: Endpoint, ad: Endpoint, bd: Endpoint, m: seq<Endpoint>, i: nat)
    requires WidePath(pairs, ac, ad, bd) && Matching(pairs, m) && i < |m|
    ensures m[i] == ac || m[i] == ad || m[i] == bd
  {
    assert LastMeasured(pairs, m[i].srcDev, m[i].dstDev) == Some(m[i]);
  }

  lemma AtMostTwo(pairs: seq<Endpoint>, ac: Endpoint, ad: Endpoint, bd: Endpoint, m: seq<Endpoint>)
    requires WidePath(pairs, ac, ad, bd) && Matching(pairs, m)
    ensures |m| <= 2
  {
    if |m| > 2 {
      WideMember(pairs, ac, ad, bd, m, 0);
      WideMember(pairs, ac, ad, bd, m, 1);
      WideMember(pairs, ac, ad, bd, m, 2);
    }
  }

  lemma WideMatching(pairs: seq<Endpoint>, ac: Endpoint, ad: Endpoint, bd: Endpoint, m: seq<Endpoint>)
    requires WidePath(pairs, ac, ad, bd) && Matching(pairs, m) && AllFinite(m) && |m| == 2
    ensures TotalLatency(m) == ac.latency.us + bd.latency.us
  {
    WideMember(pairs, ac, ad, bd, m, 0);
    WideMember(pairs, ac, ad, bd, m, 1);
    TotalOfTwo(m);
  }

  lemma TotalOfOne(m: seq<Endpoint>)
    requires AllFinite(m) && |m| == 1
    ensures m[0] in m && TotalLatency(m) == m[0].latency.us
  {
    assert m[..0] == [];
  }

  lemma TotalOfTwo(m: seq<Endpoint>)
    requires AllFinite(m) && |m| == 2
    ensures m[0] in m && m[1] in m && TotalLatency(m) == m[0].latency.us + m[1].latency.us
  {
    TotalOfOne(m[..1]);
  }

  lemma WidePicks(pairs: seq<Endpoint>, ac: Endpoint, ad: Endpoint, bd: Endpoint,
                  src: seq<string>, dst: seq<string>, p: seq<int>)
    requires WidePath(pairs, ac, ad, bd) && Lists(pairs, src, dst) && Minimal(Cost(GridOf(pairs, src, dst)), p)
    ensures |Picks(pairs, src, dst, p, |p|)| <= 1
  {
    var picks, cheap := Picks(pairs, src, dst, p, |p|), [ad];
    WideMeasured(pairs, ac, ad, bd, ad);
    PicksMatch(pairs, src, dst, p, |p|);
    PicksAreCheapest(pairs, src, dst, p, cheap);
    TotalOfOne(cheap);
    AtMostTwo(pairs, ac, ad, bd, picks);
    OneSentinelLess(|p|, ac.latency.us + bd.latency.us, ad.latency.us);
    if |picks| == 2 {
      WideMatching(pairs, ac, ad, bd, picks);
    }
  }

  lemma OneSentinelLess(n: nat, dear: real, cheap: real)
    requires cheap + SENTINEL < dear
    ensures n >= 2 ==> dear + SENTINEL * (n - 2) as real > cheap + SENTINEL * (n - 1) as real
  {
    assert n >= 2 ==> (n - 1) as real == (n - 2) as real + 1.0;
  }

  lemma AllPickedCount(pairs: seq<Endpoint>, src: seq<string>, dst: seq<string>, p: seq<int>)
    requires AllFinite(pairs) && |p| == Arith.Max(|src|, |dst|) && Permutation(p) && AllPicked(pairs, src, dst, p)
    ensures |Picks(pairs, src, dst, p, |p|)| == |p|
  {
    AllPickedIs(pairs, src, dst, p);
    PicksSums(pairs, src, dst, p, |p|);
  }

  lemma TwoDevices(src: seq<string>, a: string, b: string)
    requires a in src && b in src && a != b
    ensures |src| >= 2
  {
    var i, j := IndexOf(src, a), IndexOf(src, b);
    assert i != j;
  }

  lemma WideMatched(pairs: seq<Endpoint>, ac: Endpoint, ad: Endpoint, bd: Endpoint)
    requires WidePath(pairs, ac, ad, bd)
    ensures Matching(pairs, [ac, bd])
  {
    WideMeasured(pairs, ac, ad, bd, ac);
    WideMeasured(pairs, ac, ad, bd, bd);
  }

  lemma WideResult(pairs: seq<Endpoint>, ac: Endpoint, ad: Endpoint, bd: Endpoint,
                   src: seq<string>, dst: seq<string>, p: seq<int>)
    requires WidePath(pairs, ac, ad, bd) && Lists(pairs, src, dst) && Minimal(Cost(GridOf(pairs, src, dst)), p)
    ensures |Picks(pairs, src, dst, p, |p|)| <= 1 && !AllPicked(pairs, src, dst, p)
  {
    WidePicks(pairs, ac, ad, bd, src, dst, p);
    TwoDevices(src, ac.srcDev, bd.srcDev);
    if AllPicked(pairs, src, dst, p) {
      AllPickedCount(pairs, src, dst, p);
    }
  }

  // Whatever optimal assignment the solver returns, partial mode keeps at most one pair and complete
  // mode none, although both sources can be matched.
  lemma WideLosesAPair(pairs: seq<Endpoint>, ac: Endpoint, ad: Endpoint, bd: Endpoint, allowPartial: bool,
                       matched: seq<Endpoint>)
    requires WidePath(pairs, ac, ad, bd) && SolvedBy(pairs, allowPartial, matched)
    ensures Matching(pairs, [ac, bd]) && |matched| <= 1 && (!allowPartial ==> matched == [])
  {
    WideMatched(pairs, ac, ad, bd);
    var src, dst := SrcDevices(pairs), DstDevices(pairs);
    var p :| Minimal(Cost(GridOf(pairs, src, dst)), p) &&
      matched == if allowPartial || AllPicked(pairs, src, dst, p) then Picks(pairs, src, dst, p, |p|) else [];
    WideResult(pairs, ac, ad, bd, src, dst, p);
  }

  const A_TO_C := Endpoint("a", "c", 0, 0, Finite(600000000.0))
  const A_TO_D := Endpoint("a", "d", 0, 0, Finite(0.0))
  const B_TO_D := Endpoint("b", "d", 0, 0, Finite(600000000.0))

  // Some result of a group exists: the solver's contract can be met on its costs.
  lemma SolvedBySome(pairs: seq<Endpoint>, allowPartial: bool) returns (matched: seq<Endpoint>)
    requires AllFinite(pairs)
    ensures SolvedBy(pairs, allowPartial, matched)
  {
    var src, dst := SrcDevices(pairs), DstDevices(pairs);
    var p := MinimalExists(Cost(GridOf(pairs, src, dst)));
    matched := if allowPartial || AllPicked(pairs, src, dst, p) then Picks(pairs, src, dst, p, |p|) else [];
  }

  // Latencies of 600000000 and 0 between two sources and two destinations lose a pair, whichever optimal
  // assignment is used; there is one.
  lemma WideInstance(allowPartial: bool) returns (some: seq<Endpoint>)
    ensures AllFinite([A_TO_C, A_TO_D, B_TO_D]) && SolvedBy([A_TO_C, A_TO_D, B_TO_D], allowPartial, some)
    ensures Matching([A_TO_C, A_TO_D, B_TO_D], [A_TO_C, B_TO_D])
    ensures forall matched :: SolvedBy([A_TO_C, A_TO_D, B_TO_D], allowPartial, matched) ==>
              |matched| <= 1 && (!allowPartial ==> matched == [])
  {
    some := SolvedBySome([A_TO_C, A_TO_D, B_TO_D], allowPartial);
    forall matched | SolvedBy([A_TO_C, A_TO_D, B_TO_D], allowPartial, matched)
      ensures |matched| <= 1 && (!allowPartial ==> matched == [])
    {
      WideLoses(allowPartial, matched);
    }
    WideLoses(allowPartial, some);
  }

  lemma WideLoses(allowPartial: bool, matched: seq<Endpoint>)
    requires AllFinite([A_TO_C, A_TO_D, B_TO_D]) && SolvedBy([A_TO_C, A_TO_D, B_TO_D], allowPartial, matched)
    ensures Matching([A_TO_C, A_TO_D, B_TO_D], [A_TO_C, B_TO_D]) && |matched| <= 1 && (!allowPartial ==> matched == [])
  {
    assert "a" != "b" by {
      assert "a"[0] != "b"[0];
    }
    assert "c" != "d" by {
      assert "c"[0] != "d"[0];
    }
    WideLosesAPair([A_TO_C, A_TO_D, B_TO_D], A_TO_C, A_TO_D, B_TO_D, allowPartial, matched);
  }
}
