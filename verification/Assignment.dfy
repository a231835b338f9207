// Minimum-cost assignment on a square grid of latencies padded with a sentinel, and what
// filtering the sentinels out of an optimal assignment leaves behind.
module Assignment {
  import opened Text

  // Entry (i, j) is the latency measured between source i and destination j, if there is one.
  type Grid = seq<seq<Option<real>>>

  type Matrix = seq<seq<real>>

  // Cost written where no latency was measured.
  const SENTINEL: real := 1000000000.0

  ghost predicate SquareGrid(g: Grid) {
    forall i :: 0 <= i < |g| ==> |g[i]| == |g|
  }

  ghost predicate Square(c: Matrix) {
    forall i :: 0 <= i < |c| ==> |c[i]| == |c|
  }

  // The padded cost matrix.
  ghost function Cost(g: Grid): (c: Matrix)
    requires SquareGrid(g)
    ensures Square(c) && |c| == |g|
    ensures forall i, j :: 0 <= i < |g| && 0 <= j < |g| ==>
              c[i][j] == (if g[i][j].Some? then g[i][j].value else SENTINEL)
  {
    seq(|g|, i requires 0 <= i < |g| =>
      seq(|g|, j requires 0 <= j < |g| => if g[i][j].Some? then g[i][j].value else SENTINEL))
  }

  // Row i takes column m[i]; a negative entry leaves the row free. No column is taken twice.
  ghost predicate Partial(m: seq<int>) {
    && (forall i :: 0 <= i < |m| ==> m[i] < |m|)
    && (forall i, j :: 0 <= i < j < |m| && m[i] >= 0 ==> m[i] != m[j])
  }

  ghost predicate Permutation(p: seq<int>) {
    Partial(p) && forall i :: 0 <= i < |p| ==> p[i] >= 0
  }

  // Total cost of the first k rows, a free row costing the sentinel.
  ghost function RowSum(c: Matrix, m: seq<int>, k: nat): real
    requires Square(c) && |m| == |c| && Partial(m) && k <= |m|
  {
    if k == 0 then 0.0
    else RowSum(c, m, k - 1) + (if m[k - 1] < 0 then SENTINEL else c[k - 1][m[k - 1]])
  }

  ghost predicate Minimal(c: Matrix, p: seq<int>)
    requires Square(c)
  {
    && |p| == |c| && Permutation(p)
    && forall q :: |q| == |c| && Permutation(q) ==> RowSum(c, p, |c|) <= RowSum(c, q, |c|)
  }

  // The contract of scipy's linear_sum_assignment on a square matrix: the column of each row in
  // some assignment of least total cost.
  ghost predicate SolvesAssignment(solver: Matrix -> seq<int>) {
    forall c: Matrix :: Square(c) ==> Minimal(c, solver(c))
  }

  // ---------- Normalising the costs keeps the optimal assignments ----------

  ghost predicate Scaled(c: Matrix, d: Matrix, lo: real, den: real)
    requires Square(c) && Square(d) && |c| == |d|
  {
    den > 0.0 && forall i, j :: 0 <= i < |c| && 0 <= j < |c| ==> d[i][j] == (c[i][j] - lo) / den
  }

  lemma MulDistributes(a: real, b: real, x: real)
    ensures (a + b) * x == a * x + b * x
  {
  }

  lemma MulMonotone(a: real, b: real, x: real)
    requires a <= b && x >= 0.0
    ensures a * x <= b * x
  {
  }

  lemma DivTimes(a: real, den: real)
    requires den > 0.0
    ensures (a / den) * den == a
  {
  }

  // A product by name, so that its factors are not taken apart.
  ghost function Product(x: real, den: real): real {
    x * den
  }

  // x added k times, which keeps the sums below linear.
  ghost function Times(x: real, k: nat): real {
    if k == 0 then 0.0 else Times(x, k - 1) + x
  }

  lemma {:induction false} TimesIsProduct(x: real, k: nat)
    ensures Times(x, k) == Product(x, k as real)
  {
    if k == 0 {
    } else {
      TimesIsProduct(x, k - 1);
      MulDistributes((k - 1) as real, 1.0, x);
    }
  }

  lemma {:induction false} ScaledSum(c: Matrix, d: Matrix, lo: real, den: real, p: seq<int>, k: nat)
    requires Square(c) && Square(d) && |c| == |d| == |p| && Permutation(p) && k <= |p|
    requires Scaled(c, d, lo, den)
    ensures Product(RowSum(d, p, k), den) == RowSum(c, p, k) - Times(lo, k)
  {
    if k == 0 {
    } else {
      ScaledSum(c, d, lo, den, p, k - 1);
      var x := d[k - 1][p[k - 1]];
      DivTimes(c[k - 1][p[k - 1]] - lo, den);
      MulDistributes(RowSum(d, p, k - 1), x, den);
    }
  }

  lemma SameOrder(a: real, b: real, x: real, y: real, shift: real, den: real)
    requires Product(a, den) == x - shift && Product(b, den) == y - shift && a <= b && den > 0.0
    ensures x <= y
  {
    MulMonotone(a, b, den);
  }

  lemma ScaledOrder(c: Matrix, d: Matrix, lo: real, den: real, p: seq<int>, q: seq<int>)
    requires Square(c) && Square(d) && |c| == |d| == |p| == |q| && Scaled(c, d, lo, den)
    requires Permutation(p) && Permutation(q) && RowSum(d, p, |d|) <= RowSum(d, q, |d|)
    ensures RowSum(c, p, |c|) <= RowSum(c, q, |c|)
  {
    var n := |c|;
    ScaledSum(c, d, lo, den, p, n);
    ScaledSum(c, d, lo, den, q, n);
    SameOrder(RowSum(d, p, n), RowSum(d, q, n), RowSum(c, p, n), RowSum(c, q, n), Times(lo, n), den);
  }

  // Every permutation picks as many entries as there are rows, so an increasing affine map of
  // the costs has the same optimal assignments.
  lemma ScalingKeepsMinimum(c: Matrix, d: Matrix, lo: real, den: real, p: seq<int>)
    requires Square(c) && Square(d) && |c| == |d| && Scaled(c, d, lo, den)
    requires Minimal(d, p)
    ensures Minimal(c, p)
  {
    forall q | |q| == |c| && Permutation(q)
      ensures RowSum(c, p, |c|) <= RowSum(c, q, |c|)
    {
      ScaledOrder(c, d, lo, den, p, q);
    }
  }

  // ---------- Every matching extends to a permutation at no extra cost ----------

  ghost function UsedColumns(m: seq<int>): set<int> {
    if m == [] then {} else UsedColumns(m[..|m| - 1]) + (if m[|m| - 1] >= 0 then {m[|m| - 1]} else {})
  }

  ghost function FreeRows(m: seq<int>): (f: nat)
    ensures f <= |m|
  {
    if m == [] then 0 else FreeRows(m[..|m| - 1]) + (if m[|m| - 1] >= 0 then 0 else 1)
  }

  ghost predicate Injective(m: seq<int>) {
    forall i, j :: 0 <= i < j < |m| && m[i] >= 0 ==> m[i] != m[j]
  }

  lemma {:induction false} UsedColumnsAre(m: seq<int>)
    ensures forall x :: x in UsedColumns(m) <==> x in m && x >= 0
    ensures |UsedColumns(m)| <= |m| - FreeRows(m)
  {
    if m == [] {
    } else {
      var r := m[..|m| - 1];
      UsedColumnsAre(r);
      assert m == r + [m[|m| - 1]];
    }
  }

  lemma {:induction false} UsedColumnsCount(m: seq<int>)
    requires Injective(m)
    ensures |UsedColumns(m)| == |m| - FreeRows(m)
  {
    if m == [] {
    } else {
      var r, x := m[..|m| - 1], m[|m| - 1];
      UsedColumnsCount(r);
      UsedColumnsAre(r);
      assert x >= 0 ==> x !in r;
    }
  }

  lemma {:induction false} ManyColumns(n: nat, s: set<int>)
    requires forall j :: 0 <= j < n ==> j in s
    ensures |s| >= n
  {
    if n == 0 {
    } else {
      ManyColumns(n - 1, s - {n - 1});
    }
  }

  lemma {:induction false} FewColumns(n: nat, s: set<int>)
    requires forall j :: j in s ==> 0 <= j < n
    ensures |s| <= n
  {
    if n == 0 {
      assert forall j :: j !in s;
    } else {
      FewColumns(n - 1, s - {n - 1});
    }
  }

  // A permutation takes every column.
  lemma Surjective(p: seq<int>, j: nat)
    requires Permutation(p) && j < |p|
    ensures exists i :: 0 <= i < |p| && p[i] == j
  {
    UsedColumnsAre(p);
    UsedColumnsCount(p);
    if j !in UsedColumns(p) {
      FewColumns(|p|, UsedColumns(p) + {j});
      if FreeRows(p) > 0 {
        SomeFreeRow(p);
      }
      assert false;
    }
  }

  lemma {:induction false} SomeFreeRow(m: seq<int>)
    requires FreeRows(m) > 0
    ensures exists i :: 0 <= i < |m| && m[i] < 0
  {
    if m[|m| - 1] < 0 {
    } else {
      SomeFreeRow(m[..|m| - 1]);
      var i :| 0 <= i < |m| - 1 && m[..|m| - 1][i] < 0;
      assert m[i] < 0;
    }
  }

  lemma {:induction false} NoFreeRow(m: seq<int>)
    requires FreeRows(m) == 0
    ensures forall i :: 0 <= i < |m| ==> m[i] >= 0
  {
    if m == [] {
    } else {
      NoFreeRow(m[..|m| - 1]);
      assert forall i :: 0 <= i < |m| - 1 ==> m[i] == m[..|m| - 1][i];
    }
  }

  lemma {:induction false} FillRow(m: seq<int>, i: nat, j: nat)
    requires i < |m| && m[i] < 0
    ensures FreeRows(m[i := j]) == FreeRows(m) - 1
  {
    var r := m[..|m| - 1];
    if i == |m| - 1 {
      assert m[i := j][..|m| - 1] == r;
    } else {
      FillRow(r, i, j);
      assert m[i := j][..|m| - 1] == r[i := j];
    }
  }

  lemma {:induction false} FillRowSum(c: Matrix, m: seq<int>, i: nat, j: nat, k: nat)
    requires Square(c) && |m| == |c| && Partial(m) && k <= |m|
    requires i < |m| && m[i] < 0 && j < |m| && j !in m
    ensures Partial(m[i := j])
    ensures RowSum(c, m[i := j], k) == RowSum(c, m, k) + (if i < k then c[i][j] - SENTINEL else 0.0)
  {
    if k == 0 {
    } else {
      FillRowSum(c, m, i, j, k - 1);
    }
  }

  ghost predicate BelowSentinel(c: Matrix)
    requires Square(c)
  {
    forall i, j :: 0 <= i < |c| && 0 <= j < |c| ==> c[i][j] <= SENTINEL
  }

  lemma {:induction false} Extend(c: Matrix, m: seq<int>) returns (p: seq<int>)
    requires Square(c) && |m| == |c| && Partial(m) && BelowSentinel(c)
    ensures |p| == |c| && Permutation(p)
    ensures RowSum(c, p, |c|) <= RowSum(c, m, |c|)
    decreases FreeRows(m)
  {
    if FreeRows(m) == 0 {
      NoFreeRow(m);
      p := m;
    } else {
      SomeFreeRow(m);
      var i :| 0 <= i < |m| && m[i] < 0;
      UsedColumnsAre(m);
      if forall j :: 0 <= j < |m| ==> j in UsedColumns(m) {
        ManyColumns(|m|, UsedColumns(m));
        assert false;
      }
      var j :| 0 <= j < |m| && j !in UsedColumns(m);
      FillRow(m, i, j);
      FillRowSum(c, m, i, j, |c|);
      p := Extend(c, m[i := j]);
    }
  }

  // ---------- Matchings of a grid ----------

  ghost predicate GridMatching(g: Grid, m: seq<int>)
    requires SquareGrid(g)
  {
    && |m| == |g| && Partial(m)
    && forall i :: 0 <= i < |m| && m[i] >= 0 ==> g[i][m[i]].Some?
  }

  // Number of matched rows among the first k.
  ghost function Matched(m: seq<int>, k: nat): (n: nat)
    requires k <= |m|
    ensures n <= k
  {
    if k == 0 then 0 else Matched(m, k - 1) + (if m[k - 1] >= 0 then 1 else 0)
  }

  // Total latency of the matched rows among the first k.
  ghost function LatencySum(g: Grid, m: seq<int>, k: nat): real
    requires SquareGrid(g) && GridMatching(g, m) && k <= |m|
  {
    if k == 0 then 0.0
    else LatencySum(g, m, k - 1) + (if m[k - 1] >= 0 then g[k - 1][m[k - 1]].value else 0.0)
  }

  lemma {:induction false} MatchingCost(g: Grid, m: seq<int>, k: nat)
    requires SquareGrid(g) && GridMatching(g, m) && k <= |m|
    ensures RowSum(Cost(g), m, k) == LatencySum(g, m, k) + SENTINEL * (k - Matched(m, k)) as real
  {
    if k == 0 {
    } else {
      MatchingCost(g, m, k - 1);
    }
  }

  // Keep the rows of an assignment that fall on a measured latency.
  ghost function KeepMeasured(g: Grid, p: seq<int>): (m: seq<int>)
    requires SquareGrid(g) && |p| == |g| && Permutation(p)
    ensures GridMatching(g, m)
    ensures forall i :: 0 <= i < |p| ==> m[i] == (if g[i][p[i]].Some? then p[i] else -1)
  {
    seq(|p|, i requires 0 <= i < |p| => if g[i][p[i]].Some? then p[i] else -1)
  }

  lemma {:induction false} KeepMeasuredCost(g: Grid, p: seq<int>, k: nat)
    requires SquareGrid(g) && |p| == |g| && Permutation(p) && k <= |p|
    ensures RowSum(Cost(g), p, k) == RowSum(Cost(g), KeepMeasured(g, p), k)
  {
    if k == 0 {
    } else {
      KeepMeasuredCost(g, p, k - 1);
    }
  }

  ghost predicate Within(g: Grid, lo: real, hi: real) {
    SquareGrid(g) && forall i, j :: 0 <= i < |g| && 0 <= j < |g| && g[i][j].Some? ==> lo <= g[i][j].value <= hi
  }

  lemma {:induction false} LatencySumBounds(g: Grid, m: seq<int>, k: nat, lo: real, hi: real)
    requires Within(g, lo, hi) && GridMatching(g, m) && k <= |m|
    ensures Times(lo, Matched(m, k)) <= LatencySum(g, m, k) <= Times(hi, Matched(m, k))
  {
    if k == 0 {
    } else {
      LatencySumBounds(g, m, k - 1, lo, hi);
    }
  }

  // One sentinel outweighs the latency spread of n rows; a single row has only one assignment.
  ghost predicate SpreadFits(n: nat, lo: real, hi: real) {
    n <= 1 || n as real * (hi - lo) + lo < SENTINEL
  }

  lemma SpreadBelowSentinel(n: nat, lo: real, hi: real)
    requires n > 1 && lo <= hi && SpreadFits(n, lo, hi)
    ensures hi < SENTINEL
  {
    AtLeastItself(n as real, hi - lo);
  }

  lemma AtLeastItself(y: real, z: real)
    requires y >= 1.0 && z >= 0.0
    ensures z <= y * z
  {
    MulMonotone(0.0, y - 1.0, z);
    MulDistributes(y - 1.0, 1.0, z);
  }

  lemma MorePairsPay(n: real, x: real, y: real, lo: real, d: real, z: real)
    requires 1.0 <= y <= x <= n && d >= 0.0 && n * d < z
    ensures (lo + d) * x - (x - y) * lo < (lo + z) * y
  {
    MulMonotone(x, n, d);
    MulMonotone(0.0, n, d);
    AtLeastItself(y, z);
    MulDistributes(lo, d, x);
    MulDistributes(lo, z, y);
    MulDistributes(x - y, y, lo);
  }

  // x pairs of the dearest kind cost less than w of the cheapest and x - w sentinels, when one
  // sentinel clears the spread.
  lemma SentinelClears(n: real, x: real, w: real, lo: real, hi: real, top: real)
    requires 0.0 <= w && w + 1.0 <= x <= n && lo <= hi && n * (hi - lo) + lo < top
    ensures Product(hi, x) - Product(lo, w) < Product(top, x - w)
  {
    MorePairsPay(n, x, x - w, lo, hi - lo, top - lo);
    assert lo + (hi - lo) == hi && lo + (top - lo) == top && x - (x - w) == w;
  }

  // One more pair always pays: a larger matching costs less than a smaller one.
  lemma LargerIsCheaper(n: nat, a: nat, b: nat, lo: real, hi: real)
    requires a < b <= n && n > 1 && lo <= hi && SpreadFits(n, lo, hi)
    ensures Times(hi, b) - Times(lo, a) < SENTINEL * (b - a) as real
  {
    TimesIsProduct(hi, b);
    TimesIsProduct(lo, a);
    assert (b - a) as real == b as real - a as real;
    SentinelClears(n as real, b as real, a as real, lo, hi, SENTINEL);
  }

  // Main result on grids: an optimal assignment of the padded costs, filtered, is a matching of
  // most pairs, and of least total latency among those.
  lemma FilteredIsBest(g: Grid, p: seq<int>, m: seq<int>, lo: real, hi: real)
    requires Within(g, lo, hi) && lo <= hi && SpreadFits(|g|, lo, hi)
    requires Minimal(Cost(g), p) && GridMatching(g, m)
    ensures Matched(m, |m|) <= Matched(KeepMeasured(g, p), |m|)
    ensures Matched(m, |m|) == Matched(KeepMeasured(g, p), |m|) ==>
              LatencySum(g, KeepMeasured(g, p), |m|) <= LatencySum(g, m, |m|)
  {
    var n := |g|;
    var kept := KeepMeasured(g, p);
    if n <= 1 {
      return;
    }
    SpreadBelowSentinel(n, lo, hi);
    var q := Extend(Cost(g), m);
    KeepMeasuredCost(g, p, n);
    MatchingCost(g, kept, n);
    MatchingCost(g, m, n);
    LatencySumBounds(g, kept, n, lo, hi);
    LatencySumBounds(g, m, n, lo, hi);
    var a, b := Matched(kept, n), Matched(m, n);
    if a < b {
      LargerIsCheaper(n, a, b, lo, hi);
    }
  }

  // ---------- An optimal assignment always exists ----------

  // All sequences of k columns below n.
  ghost function Columns(n: nat, k: nat): (r: set<seq<int>>)
    ensures forall s :: s in r <==> |s| == k && forall i :: 0 <= i < k ==> 0 <= s[i] < n
  {
    if k == 0 then {[]}
    else
      var prev := Columns(n, k - 1);
      var next := set s: seq<int>, j: int | s in prev && 0 <= j < n :: s + [j];
      assert forall s: seq<int> :: |s| == k && (forall i :: 0 <= i < k ==> 0 <= s[i] < n) ==> s in next by {
        forall s: seq<int> | |s| == k && (forall i :: 0 <= i < k ==> 0 <= s[i] < n)
          ensures s in next
        {
          assert s[..k - 1] in prev;
          assert s == s[..k - 1] + [s[k - 1]];
        }
      }
      next
  }

  lemma {:induction false} CheapestOf(c: Matrix, s: set<seq<int>>) returns (p: seq<int>)
    requires Square(c) && s != {}
    requires forall q :: q in s ==> |q| == |c| && Permutation(q)
    ensures p in s && |p| == |c| && Permutation(p)
    ensures forall q :: q in s && |q| == |c| && Permutation(q) ==> RowSum(c, p, |c|) <= RowSum(c, q, |c|)
    decreases |s|
  {
    var x :| x in s;
    if s == {x} {
      p := x;
    } else {
      var y := CheapestOf(c, s - {x});
      p := if RowSum(c, x, |c|) <= RowSum(c, y, |c|) then x else y;
    }
  }

  lemma MinimalExists(c: Matrix) returns (p: seq<int>)
    requires Square(c)
    ensures Minimal(c, p)
  {
    var n := |c|;
    var all := set s | s in Columns(n, n) && Permutation(s);
    var identity := seq(n, i => i);
    assert identity in all;
    p := CheapestOf(c, all);
    forall q | |q| == n && Permutation(q)
      ensures RowSum(c, p, n) <= RowSum(c, q, n)
    {
      assert q in all;
    }
  }

  ghost function SomeMinimal(c: Matrix): (p: seq<int>)
    ensures Square(c) ==> Minimal(c, p)
  {
    if Square(c) then
      assert exists p :: Minimal(c, p) by { var p := MinimalExists(c); }
      var p :| Minimal(c, p);
      p
    else []
  }

  // The solver contract can be met.
  lemma SolverExists()
    ensures exists solver :: SolvesAssignment(solver)
  {
    assert SolvesAssignment(c => SomeMinimal(c));
  }

  // ---------- The bound on the spread is exact ----------

  // Source i reaches destination i at latency hi and destination i + 1 at latency lo.
  ghost function PathGrid(n: nat, lo: real, hi: real): (g: Grid)
    ensures |g| == n && SquareGrid(g)
    ensures forall i, j :: 0 <= i < n && 0 <= j < n ==>
              g[i][j] == (if j == i then Some(hi) else if j == i + 1 then Some(lo) else None)
  {
    seq(n, i requires 0 <= i < n =>
      seq(n, j requires 0 <= j < n => if j == i then Some(hi) else if j == i + 1 then Some(lo) else None))
  }

  // No optimal assignment of any grid of this size and latency range loses a pair.
  ghost predicate NeverLosesAPair(n: nat, lo: real, hi: real) {
    forall g: Grid, p: seq<int>, m: seq<int> ::
      |g| == n && Within(g, lo, hi) && Minimal(Cost(g), p) && GridMatching(g, m) ==>
        Matched(m, n) <= Matched(KeepMeasured(g, p), n)
  }

  lemma {:induction false} AllMatched(m: seq<int>, k: nat)
    requires k <= |m|
    ensures Matched(m, k) == k <==> forall i :: 0 <= i < k ==> m[i] >= 0
  {
    if k == 0 {
    } else {
      AllMatched(m, k - 1);
    }
  }

  // From the last row up, a permutation on measured pairs of the path can only be the identity.
  lemma {:induction false} PathIsRigid(n: nat, lo: real, hi: real, p: seq<int>, k: nat)
    requires |p| == n && Permutation(p) && k <= n
    requires forall i :: 0 <= i < n ==> PathGrid(n, lo, hi)[i][p[i]].Some?
    ensures forall i :: n - k <= i < n ==> p[i] == i
  {
    if k == 0 {
    } else {
      PathIsRigid(n, lo, hi, p, k - 1);
      var i := n - k;
      assert PathGrid(n, lo, hi)[i][p[i]].Some?;
      assert i + 1 < n ==> p[i + 1] == i + 1;
    }
  }

  lemma {:induction false} IdentitySum(n: nat, lo: real, hi: real, identity: seq<int>, k: nat)
    requires k <= n == |identity| && forall i :: 0 <= i < n ==> identity[i] == i
    ensures Permutation(identity) && RowSum(Cost(PathGrid(n, lo, hi)), identity, k) == Times(hi, k)
  {
    if k == 0 {
    } else {
      IdentitySum(n, lo, hi, identity, k - 1);
    }
  }

  lemma {:induction false} ShiftSum(n: nat, lo: real, hi: real, shift: seq<int>, k: nat)
    requires 2 <= n == |shift| && k <= n && forall i :: 0 <= i < n ==> shift[i] == if i + 1 < n then i + 1 else 0
    ensures Permutation(shift)
    ensures RowSum(Cost(PathGrid(n, lo, hi)), shift, k) == if k < n then Times(lo, k) else Times(lo, n - 1) + SENTINEL
  {
    if k == 0 {
    } else {
      ShiftSum(n, lo, hi, shift, k - 1);
    }
  }

  lemma SpreadTooWide(n: nat, lo: real, hi: real)
    requires !SpreadFits(n, lo, hi)
    ensures Times(hi, n) >= Times(lo, n - 1) + SENTINEL
  {
    TimesIsProduct(hi, n);
    TimesIsProduct(lo, n - 1);
    var y := (n - 1) as real;
    MulDistributes(y, 1.0, lo);
    MulDistributes(hi - lo, lo, y + 1.0);
    assert n as real == y + 1.0;
  }

  lemma PathOptimum(n: nat, lo: real, hi: real) returns (p: seq<int>)
    requires !SpreadFits(n, lo, hi)
    ensures Minimal(Cost(PathGrid(n, lo, hi)), p)
    ensures exists i :: 0 <= i < n && p[i] != i
  {
    var identity := seq(n, i => i);
    var shift := seq(n, i => if i + 1 < n then i + 1 else 0);
    IdentitySum(n, lo, hi, identity, n);
    ShiftSum(n, lo, hi, shift, n);
    SpreadTooWide(n, lo, hi);
    p := MinimalExists(Cost(PathGrid(n, lo, hi)));
    if p == identity {
      p := shift;
      assert p[0] != 0;
    }
  }

  lemma OffPathMissesOne(n: nat, lo: real, hi: real, p: seq<int>, i: nat)
    requires |p| == n && Permutation(p) && i < n && p[i] != i
    ensures Matched(KeepMeasured(PathGrid(n, lo, hi), p), n) < n
  {
    AllMatched(KeepMeasured(PathGrid(n, lo, hi), p), n);
    if Matched(KeepMeasured(PathGrid(n, lo, hi), p), n) == n {
      PathIsRigid(n, lo, hi, p, n);
      assert false;
    }
  }

  lemma PathMatchesAll(n: nat, lo: real, hi: real, m: seq<int>)
    requires lo <= hi && |m| == n && forall i :: 0 <= i < n ==> m[i] == i
    ensures Within(PathGrid(n, lo, hi), lo, hi) && GridMatching(PathGrid(n, lo, hi), m) && Matched(m, n) == n
  {
    AllMatched(m, n);
  }

  // On the path, all n pairs can be matched, and an optimal assignment falls on fewer.
  lemma PathLosesAPair(n: nat, lo: real, hi: real) returns (p: seq<int>, m: seq<int>)
    requires lo <= hi && !SpreadFits(n, lo, hi)
    ensures var g := PathGrid(n, lo, hi);
            && Within(g, lo, hi) && GridMatching(g, m) && Matched(m, n) == n
            && Minimal(Cost(g), p) && Matched(KeepMeasured(g, p), n) < n
    ensures !NeverLosesAPair(n, lo, hi)
  {
    p := PathOptimum(n, lo, hi);
    var i :| 0 <= i < n && p[i] != i;
    OffPathMissesOne(n, lo, hi, p, i);
    m := seq(n, i => i);
    PathMatchesAll(n, lo, hi, m);
    LostPairRefutes(PathGrid(n, lo, hi), p, m, lo, hi);
  }

  lemma LostPairRefutes(g: Grid, p: seq<int>, m: seq<int>, lo: real, hi: real)
    requires Within(g, lo, hi) && Minimal(Cost(g), p) && GridMatching(g, m)
    requires Matched(KeepMeasured(g, p), |g|) < Matched(m, |g|)
    ensures !NeverLosesAPair(|g|, lo, hi)
  {
  }

  // The partial mode keeps the most pairs on every grid of n rows with latencies in [lo, hi] exactly
  // when there is one row or one sentinel outweighs the spread of n latencies.
  lemma SpreadBoundIsExact(n: nat, lo: real, hi: real)
    requires lo <= hi
    ensures NeverLosesAPair(n, lo, hi) <==> SpreadFits(n, lo, hi)
  {
    if SpreadFits(n, lo, hi) {
      forall g: Grid, p: seq<int>, m: seq<int> |
        |g| == n && Within(g, lo, hi) && Minimal(Cost(g), p) && GridMatching(g, m)
        ensures Matched(m, n) <= Matched(KeepMeasured(g, p), n)
      {
        FilteredIsBest(g, p, m, lo, hi);
      }
    } else {
      var p, m := PathLosesAPair(n, lo, hi);
    }
  }
}
