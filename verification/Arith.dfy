// Least and greatest numbers, and facts about products, quotients and remainders.
module Arith {

  function Min(a: nat, b: nat): nat {
    if a < b then a else b
  }

  function Max(a: nat, b: nat): nat {
    if a < b then b else a
  }

  function MaxOf(s: seq<nat>): (m: nat)
    ensures forall i :: 0 <= i < |s| ==> s[i] <= m
    ensures s != [] ==> m in s
  {
    if s == [] then 0
    else
      assert s == s[..|s| - 1] + [s[|s| - 1]];
      Max(MaxOf(s[..|s| - 1]), s[|s| - 1])
  }

  // ceil(n / unit) * unit
  function RoundUp(n: nat, unit: nat): nat
    requires unit > 0
  {
    (n + unit - 1) / unit * unit
  }

  lemma MulMonotone(a: int, b: int, n: nat)
    requires a <= b
    ensures a * n <= b * n
  {
  }

  lemma MulAtLeast(d: int, n: nat)
    requires d >= 1
    ensures d * n >= n
  {
    MulMonotone(1, d, n);
  }

  lemma QuotientAtMost(a: int, b: int, q: int, r: int, n: nat)
    requires a * n + b == q * n + r && b >= 0 && r < n
    ensures a <= q
  {
    assert (a - q) * n == a * n - q * n;
    if a > q {
      MulAtLeast(a - q, n);
    }
  }

  // The quotient and remainder of a number written as q * n + r.
  lemma DivModUnique(q: int, r: int, n: nat)
    requires 0 <= r < n
    ensures (q * n + r) / n == q && (q * n + r) % n == r
  {
    var k := q * n + r;
    var a, b := k / n, k % n;
    assert k == a * n + b;
    QuotientAtMost(a, b, q, r, n);
    QuotientAtMost(q, r, a, b, n);
  }

  lemma DivModParts(k: nat, n: nat)
    requires n > 0
    ensures (k / n) * n + k % n == k && 0 <= k % n < n && k / n >= 0
  {
  }

  lemma DivMonotone(m: nat, n: nat, d: nat)
    requires d > 0 && m <= n
    ensures m / d <= n / d
  {
    DivModParts(m, d);
    DivModParts(n, d);
    QuotientAtMost(m / d, m % d + (n - m), n / d, n % d, d);
  }

  // Row i, column j of a rows-by-cols table lies inside it.
  lemma RowBound(i: nat, j: nat, rows: nat, cols: nat)
    requires i < rows && j < cols
    ensures i * cols + j < rows * cols
    ensures (i + 1) * cols == i * cols + cols <= rows * cols
  {
    MulMonotone(i + 1, rows, cols);
  }

  // A flat index of a rows-by-cols table has a row and a column.
  lemma RowOfFlat(k: nat, rows: nat, cols: nat)
    requires k < rows * cols
    ensures cols > 0 && k / cols < rows && k % cols < cols
  {
    assert cols == 0 ==> rows * cols == 0;
    DivModParts(k, cols);
    assert (k / cols - rows) * cols == (k / cols) * cols - rows * cols;
    if k / cols >= rows {
      MulMonotone(0, k / cols - rows, cols);
    }
  }
}
