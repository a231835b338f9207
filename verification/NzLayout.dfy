// The NZ layouts: three conversions of row-major matrices into column blocks of fixed width, as
// permutations of flat contents.
module NzLayout {
  import opened Text
  import opened Arith

  // ---------- Flat indices of a rank-3 tensor (p, q, n) ----------

  function At3(j: nat, i: nat, c: nat, q: nat, n: nat): nat {
    (j * q + i) * n + c
  }

  lemma At3Bound(j: nat, i: nat, c: nat, p: nat, q: nat, n: nat)
    requires j < p && i < q && c < n
    ensures At3(j, i, c, q, n) < p * q * n
  {
    RowBound(j, i, p, q);
    RowBound(j * q + i, c, p * q, n);
  }

  lemma Decode3(j: nat, i: nat, c: nat, q: nat, n: nat)
    requires i < q && c < n
    ensures var k := At3(j, i, c, q, n);
            k % n == c && k / n % q == i && k / n / q == j
  {
    DivModUnique(j * q + i, c, n);
    DivModUnique(j, i, q);
  }

  lemma Encode3(k: nat, p: nat, q: nat, n: nat)
    requires k < p * q * n
    ensures n > 0 && q > 0 && k % n < n && k / n % q < q && 0 <= k / n / q < p
    ensures At3(k / n / q, k / n % q, k % n, q, n) == k
  {
    RowOfFlat(k, p * q, n);
    DivModParts(k, n);
    RowOfFlat(k / n, p, q);
    DivModParts(k / n, q);
  }

  // ---------- Transposing the outer two axes ----------

  // Contents of x.transpose(0, 1) for x of shape (p, q, n).
  function Transposed(data: seq<int>, p: nat, q: nat, n: nat): (r: seq<int>)
    requires |data| == p * q * n
    ensures |r| == |data|
  {
    seq(|data|, k requires 0 <= k < |data| => TransposedElement(data, p, q, n, k))
  }

  function TransposedElement(data: seq<int>, p: nat, q: nat, n: nat, k: nat): int
    requires |data| == p * q * n && k < |data|
  {
    SwapCount(p, q, n);
    Encode3(k, q, p, n);
    At3Bound(k / n % p, k / n / p, k % n, p, q, n);
    data[At3(k / n % p, k / n / p, k % n, q, n)]
  }

  lemma SwapCount(p: nat, q: nat, n: nat)
    ensures p * q * n == q * p * n
  {
  }

  lemma TransposedAt(data: seq<int>, p: nat, q: nat, n: nat, i: nat, j: nat, c: nat)
    requires |data| == p * q * n && i < p && j < q && c < n
    ensures At3(j, i, c, p, n) < |data| && At3(i, j, c, q, n) < |data|
    ensures Transposed(data, p, q, n)[At3(j, i, c, p, n)] == data[At3(i, j, c, q, n)]
  {
    SwapCount(p, q, n);
    At3Bound(i, j, c, p, q, n);
    At3Bound(j, i, c, q, p, n);
    Decode3(j, i, c, p, n);
  }

  // Transposing back recovers the contents: the index map is a bijection and this is its inverse.
  lemma TransposedTwice(data: seq<int>, p: nat, q: nat, n: nat)
    requires |data| == p * q * n
    ensures |Transposed(data, p, q, n)| == q * p * n
    ensures Transposed(Transposed(data, p, q, n), q, p, n) == data
  {
    SwapCount(p, q, n);
    var once := Transposed(data, p, q, n);
    forall k | 0 <= k < |data|
      ensures Transposed(once, q, p, n)[k] == data[k]
    {
      Encode3(k, p, q, n);
      TransposedAt(data, p, q, n, k / n / q, k / n % q, k % n);
    }
  }

  // ---------- Padding ----------

  function Aligned(x: nat): (r: nat)
    ensures x <= r < x + 16 && r % 16 == 0 && (x % 16 == 0 ==> r == x)
  {
    RoundUp(x, 16)
  }

  // Zeroes below and to the right, up to height by width.
  function Padded(data: seq<int>, rows: nat, cols: nat, height: nat, width: nat): (r: seq<int>)
    requires |data| == rows * cols
    ensures |r| == height * width
  {
    seq(height * width, k requires 0 <= k < height * width => PaddedElement(data, rows, cols, height, width, k))
  }

  function PaddedElement(data: seq<int>, rows: nat, cols: nat, height: nat, width: nat, k: nat): int
    requires |data| == rows * cols && k < height * width
  {
    RowOfFlat(k, height, width);
    DivModParts(k, width);
    Cell(data, rows, cols, k / width, k % width)
  }

  // Row i, column x of the padded matrix.
  function Cell(data: seq<int>, rows: nat, cols: nat, i: nat, x: nat): int
    requires |data| == rows * cols
  {
    if i < rows && x < cols then
      RowBound(i, x, rows, cols);
      data[i * cols + x]
    else 0
  }

  lemma PaddedAt(data: seq<int>, rows: nat, cols: nat, height: nat, width: nat, i: nat, x: nat)
    requires |data| == rows * cols && i < height && x < width
    ensures i * width + x < height * width
    ensures Padded(data, rows, cols, height, width)[i * width + x] == Cell(data, rows, cols, i, x)
  {
    RowBound(i, x, height, width);
    DivModUnique(i, x, width);
  }

  function Cropped(padded: seq<int>, rows: nat, cols: nat, height: nat, width: nat): seq<int>
    requires |padded| == height * width && rows <= height && cols <= width
  {
    seq(rows * cols, k requires 0 <= k < rows * cols => CroppedElement(padded, rows, cols, height, width, k))
  }

  function CroppedElement(padded: seq<int>, rows: nat, cols: nat, height: nat, width: nat, k: nat): int
    requires |padded| == height * width && rows <= height && cols <= width && k < rows * cols
  {
    RowOfFlat(k, rows, cols);
    DivModParts(k, cols);
    RowBound(k / cols, k % cols, height, width);
    padded[k / cols * width + k % cols]
  }

  lemma CropUndoesPad(data: seq<int>, rows: nat, cols: nat, height: nat, width: nat)
    requires |data| == rows * cols && rows <= height && cols <= width
    ensures Cropped(Padded(data, rows, cols, height, width), rows, cols, height, width) == data
  {
    forall k | 0 <= k < |data|
      ensures Cropped(Padded(data, rows, cols, height, width), rows, cols, height, width)[k] == data[k]
    {
      RowOfFlat(k, rows, cols);
      DivModParts(k, cols);
      PaddedAt(data, rows, cols, height, width, k / cols, k % cols);
    }
  }

  lemma PadToItself(data: seq<int>, rows: nat, cols: nat)
    requires |data| == rows * cols
    ensures Padded(data, rows, cols, rows, cols) == data
  {
    forall k | 0 <= k < |data|
      ensures Padded(data, rows, cols, rows, cols)[k] == data[k]
    {
      RowOfFlat(k, rows, cols);
      DivModParts(k, cols);
    }
  }

  // ---------- nd_to_nz_2d ----------

  lemma Blocks(rows: nat, cols: nat)
    requires cols % 16 == 0
    ensures rows * cols == rows * (cols / 16) * 16
  {
    var b := cols / 16;
    assert rows * (b * 16) == rows * b * 16;
  }

  // Contents of the (1, cols / 16, rows, 16) tensor made from a matrix, rows and cols rounded up.
  function NdToNz2d(data: seq<int>, rows: nat, cols: nat): (r: seq<int>)
    requires |data| == rows * cols
    ensures |r| == Aligned(rows) * Aligned(cols)
  {
    Blocks(Aligned(rows), Aligned(cols));
    Transposed(Padded(data, rows, cols, Aligned(rows), Aligned(cols)), Aligned(rows), Aligned(cols) / 16, 16)
  }

  lemma SplitColumn(i: nat, x: nat, cols: nat)
    requires cols % 16 == 0
    ensures At3(i, x / 16, x % 16, cols / 16, 16) == i * cols + x
  {
    var b := cols / 16;
    assert i * (b * 16) == i * b * 16;
  }

  // Row i, column x of the matrix lies in block x / 16, row i, column x % 16; padding is zero.
  lemma NzAt(data: seq<int>, rows: nat, cols: nat, i: nat, x: nat)
    requires |data| == rows * cols && i < Aligned(rows) && x < Aligned(cols)
    ensures At3(x / 16, i, x % 16, Aligned(rows), 16) < Aligned(rows) * Aligned(cols)
    ensures NdToNz2d(data, rows, cols)[At3(x / 16, i, x % 16, Aligned(rows), 16)] == Cell(data, rows, cols, i, x)
  {
    var height, width := Aligned(rows), Aligned(cols);
    Blocks(height, width);
    TransposedAt(Padded(data, rows, cols, height, width), height, width / 16, 16, i, x / 16, x % 16);
    SplitColumn(i, x, width);
    PaddedAt(data, rows, cols, height, width, i, x);
  }

  // Block x / 16, row i, column x % 16.
  ghost function NzEntry(data: seq<int>, rows: nat, cols: nat, i: nat, x: nat): int
    requires |data| == rows * cols && i < Aligned(rows) && x < Aligned(cols)
  {
    NzAt(data, rows, cols, i, x);
    NdToNz2d(data, rows, cols)[At3(x / 16, i, x % 16, Aligned(rows), 16)]
  }

  // Row i, column x of the matrix.
  ghost function Element(data: seq<int>, rows: nat, cols: nat, i: nat, x: nat): int
    requires |data| == rows * cols && i < rows && x < cols
  {
    RowBound(i, x, rows, cols);
    data[i * cols + x]
  }

  // It holds the matrix element, and zero outside the matrix.
  lemma NzHolds(data: seq<int>, rows: nat, cols: nat, i: nat, x: nat)
    requires |data| == rows * cols && i < Aligned(rows) && x < Aligned(cols)
    ensures NzEntry(data, rows, cols, i, x) == if i < rows && x < cols then Element(data, rows, cols, i, x) else 0
  {
    NzAt(data, rows, cols, i, x);
  }

  function FromNz(nz: seq<int>, rows: nat, cols: nat): seq<int>
    requires |nz| == Aligned(rows) * Aligned(cols)
  {
    Blocks(Aligned(rows), Aligned(cols));
    SwapCount(Aligned(rows), Aligned(cols) / 16, 16);
    Cropped(Transposed(nz, Aligned(cols) / 16, Aligned(rows), 16), rows, cols, Aligned(rows), Aligned(cols))
  }

  // The matrix can be read back.
  lemma NzRoundTrip(data: seq<int>, rows: nat, cols: nat)
    requires |data| == rows * cols
    ensures FromNz(NdToNz2d(data, rows, cols), rows, cols) == data
  {
    var height, width := Aligned(rows), Aligned(cols);
    Blocks(height, width);
    TransposedTwice(Padded(data, rows, cols, height, width), height, width / 16, 16);
    CropUndoesPad(data, rows, cols, height, width);
  }

  // ---------- nd_to_nz_spec ----------

  // Flat element k of the layout, read from the padded matrix.
  lemma NzElement(data: seq<int>, rows: nat, cols: nat, height: nat, width: nat, k: nat)
    requires |data| == rows * cols && height == Aligned(rows) && width == Aligned(cols) && k < height * width
    ensures height > 0 && 0 <= k / 16 % height < height && 0 <= k / 16 / height * 16 + k % 16 < width
    ensures NdToNz2d(data, rows, cols)[k] == Cell(data, rows, cols, k / 16 % height, k / 16 / height * 16 + k % 16)
  {
    Blocks(height, width);
    SwapCount(height, width / 16, 16);
    Encode3(k, width / 16, height, 16);
    BlockColumn(k / 16 / height, k % 16, width);
    NzAt(data, rows, cols, k / 16 % height, k / 16 / height * 16 + k % 16);
  }

  // Flat element k of buffer.reshape((height, width / 16, 16)).permute(1, 0, 2)
  function BlockElement(buffer: array2<int>, k: nat): int
    requires buffer.Length1 % 16 == 0 && k < buffer.Length0 * buffer.Length1
    reads buffer
  {
    Blocks(buffer.Length0, buffer.Length1);
    SwapCount(buffer.Length0, buffer.Length1 / 16, 16);
    Encode3(k, buffer.Length1 / 16, buffer.Length0, 16);
    BlockColumn(k / 16 / buffer.Length0, k % 16, buffer.Length1);
    buffer[k / 16 % buffer.Length0, k / 16 / buffer.Length0 * 16 + k % 16]
  }

  // The same contents from a zeroed buffer the matrix is written into.
  method NdToNzSpec(data: seq<int>, rows: nat, cols: nat) returns (nz: array<int>)
    requires |data| == rows * cols
    ensures nz[..] == NdToNz2d(data, rows, cols)
  {
    var tokensPad, lenPad := (rows + 15) / 16 * 16, (cols + 15) / 16 * 16;
    assert tokensPad == Aligned(rows) && lenPad == Aligned(cols);
    var buffer := WriteBuffer(data, rows, cols, tokensPad, lenPad);
    nz := ReadBlocks(buffer);
    forall k | 0 <= k < nz.Length
      ensures nz[k] == NdToNz2d(data, rows, cols)[k]
    {
      NzElement(data, rows, cols, tokensPad, lenPad, k);
    }
  }

  method ReadBlocks(buffer: array2<int>) returns (nz: array<int>)
    requires buffer.Length1 % 16 == 0
    ensures fresh(nz) && nz.Length == buffer.Length0 * buffer.Length1
    ensures forall k :: 0 <= k < nz.Length ==> nz[k] == BlockElement(buffer, k)
  {
    var n := buffer.Length0 * buffer.Length1;
    nz := new int[n](k requires 0 <= k < n reads buffer => BlockElement(buffer, k));
  }

  method WriteBuffer(data: seq<int>, rows: nat, cols: nat, height: nat, width: nat) returns (buffer: array2<int>)
    requires |data| == rows * cols && rows <= height && cols <= width
    ensures fresh(buffer) && buffer.Length0 == height && buffer.Length1 == width
    ensures forall i, x :: 0 <= i < height && 0 <= x < width ==> buffer[i, x] == Cell(data, rows, cols, i, x)
  {
    buffer := new int[height, width]((_, _) => 0);
    forall i, x | 0 <= i < rows && 0 <= x < cols {
      buffer[i, x] := Cell(data, rows, cols, i, x);
    }
  }

  lemma BlockColumn(j: nat, c: nat, cols: nat)
    requires cols % 16 == 0 && j < cols / 16 && c < 16
    ensures j * 16 + c < cols && (j * 16 + c) / 16 == j && (j * 16 + c) % 16 == c
  {
  }

  // ---------- trans_nd_to_nz ----------

  function CeilDiv(x: nat, n: nat): nat
    requires n > 0
  {
    DivModParts(x + n - 1, n);
    (x + n - 1) / n
  }

  // Contents of x.permute(2, 0, 1, 3) for x of shape (m1, m0, n1, n0).
  function Permuted(data: seq<int>, m1: nat, m0: nat, n1: nat, n0: nat): (r: seq<int>)
    requires |data| == m1 * m0 * n1 * n0
    ensures |r| == |data|
  {
    seq(|data|, k requires 0 <= k < |data| => PermutedElement(data, m1, m0, n1, n0, k))
  }

  function PermutedElement(data: seq<int>, m1: nat, m0: nat, n1: nat, n0: nat, k: nat): int
    requires |data| == m1 * m0 * n1 * n0 && k < |data|
  {
    Encode4(k, m1, m0, n1, n0);
    var c, row, j := k % n0, k / n0 / m0 % m1 * m0 + k / n0 % m0, k / n0 / m0 / m1;
    At3Bound(row, j, c, m1 * m0, n1, n0);
    data[(row * n1 + j) * n0 + c]
  }

  lemma TwoLevels(j: nat, m1: nat, i1: nat, m0: nat, i0: nat)
    ensures (j * m1 + i1) * m0 + i0 == j * (m1 * m0) + (i1 * m0 + i0)
  {
  }

  // Row number i1 * m0 + i0 of block j, split in three or in two.
  lemma SplitRow(f: nat, m1: nat, m0: nat, n1: nat)
    requires f < n1 * m1 * m0
    ensures m0 > 0 && m1 > 0 && 0 <= f / m0 / m1 < n1
    ensures 0 <= f / m0 % m1 * m0 + f % m0 < m1 * m0
    ensures f / m0 % m1 * m0 + f % m0 == f % (m1 * m0) && f / m0 / m1 == f / (m1 * m0)
  {
    RowOfFlat(f, n1 * m1, m0);
    DivModParts(f, m0);
    RowOfFlat(f / m0, n1, m1);
    DivModParts(f / m0, m1);
    var j, i1, i0 := f / m0 / m1, f / m0 % m1, f % m0;
    RowBound(i1, i0, m1, m0);
    TwoLevels(j, m1, i1, m0, i0);
    DivModUnique(j, i1 * m0 + i0, m1 * m0);
  }

  lemma Regroup(m1: nat, m0: nat, n1: nat, n0: nat)
    ensures m1 * m0 * n1 * n0 == n1 * m1 * m0 * n0
  {
    var rows := m1 * m0;
    assert rows * n1 == n1 * rows;
    assert n1 * (m1 * m0) == n1 * m1 * m0;
  }

  lemma Encode4(k: nat, m1: nat, m0: nat, n1: nat, n0: nat)
    requires k < m1 * m0 * n1 * n0
    ensures n0 > 0 && m0 > 0 && m1 > 0 && 0 <= k / n0 / m0 / m1 < n1 && k % n0 < n0
    ensures 0 <= k / n0 / m0 % m1 * m0 + k / n0 % m0 < m1 * m0
    ensures k / n0 / m0 % m1 * m0 + k / n0 % m0 == k / n0 % (m1 * m0)
    ensures k / n0 / m0 / m1 == k / n0 / (m1 * m0)
  {
    Regroup(m1, m0, n1, n0);
    RowOfFlat(k, n1 * m1 * m0, n0);
    DivModParts(k, n0);
    SplitRow(k / n0, m1, m0, n1);
  }

  // Splitting the rows into tiles does not show in the flat contents.
  lemma PermutedIsTransposed(data: seq<int>, m1: nat, m0: nat, n1: nat, n0: nat)
    requires |data| == m1 * m0 * n1 * n0
    ensures Permuted(data, m1, m0, n1, n0) == Transposed(data, m1 * m0, n1, n0)
  {
    forall k | 0 <= k < |data|
      ensures Permuted(data, m1, m0, n1, n0)[k] == Transposed(data, m1 * m0, n1, n0)[k]
    {
      Encode4(k, m1, m0, n1, n0);
    }
  }

  function Product(shape: seq<nat>): nat {
    if shape == [] then 1 else Product(shape[..|shape| - 1]) * shape[|shape| - 1]
  }

  // The elements of a shape are those of its first part times those of the rest.
  lemma {:induction false} ProductOfParts(a: seq<nat>, b: seq<nat>)
    ensures Product(a + b) == Product(a) * Product(b) && Product([]) == 1
    ensures forall n: nat :: Product([n]) == n
  {
    if b == [] {
      assert a + b == a;
    } else {
      var init, n := b[..|b| - 1], b[|b| - 1];
      ProductOfParts(a, init);
      assert (a + b)[..|a + b| - 1] == a + init;
      assert Product(a) * Product(init) * n == Product(a) * (Product(init) * n);
    }
    forall n: nat
      ensures Product([n]) == n
    {
      assert [n][..0] == [];
    }
  }

  datatype Error = AssertionError | ReshapeError

  // A tensor of rank at least 2 as its last-two-axes matrices, in order. The batch axes lead in both
  // layouts, so the conversion goes matrix by matrix; the reshape keeps the number of elements or fails.
  function TransBlocks(blocks: seq<seq<int>>, a: nat, b: nat, b0: nat): Result<seq<seq<int>>, Error>
    requires b0 > 0 && forall q :: 0 <= q < |blocks| ==> |blocks[q]| == a * b
  {
    var m1, n1 := CeilDiv(a, 16), CeilDiv(b, b0);
    if |blocks| * (a * b) != |blocks| * (m1 * 16 * n1 * b0) then Err(ReshapeError)
    else
      ScaleByBatch(|blocks|, a * b, m1 * 16 * n1 * b0);
      Ok(seq(|blocks|, q requires 0 <= q < |blocks| => Permuted(blocks[q], m1, 16, n1, b0)))
  }

  function TransNdToNz(shape: seq<nat>, int8: bool, blocks: seq<seq<int>>): Result<seq<seq<int>>, Error>
    requires |shape| >= 2 ==> IsTensor(shape, blocks)
  {
    if |shape| < 2 then Err(AssertionError)
    else TransBlocks(blocks, shape[|shape| - 2], shape[|shape| - 1], if int8 then 32 else 16)
  }

  predicate IsTensor(shape: seq<nat>, blocks: seq<seq<int>>)
    requires |shape| >= 2
  {
    && |blocks| == Product(shape[..|shape| - 2])
    && forall q :: 0 <= q < |blocks| ==> |blocks[q]| == shape[|shape| - 2] * shape[|shape| - 1]
  }

  // Rounding up both sides of a non-empty rectangle keeps its area only if both were aligned.
  lemma SameArea(a: nat, b: nat, height: nat, width: nat)
    requires a <= height && b <= width && 0 < a && 0 < b
    ensures a * b == height * width <==> a == height && b == width
  {
    assert height * width == a * b + (height - a) * b + height * (width - b);
    MulMonotone(0, height - a, b);
    MulMonotone(0, width - b, height);
    if a < height {
      MulAtLeast(height - a, b);
    } else if b < width {
      MulAtLeast(width - b, height);
    }
  }

  lemma CeilDivTiles(x: nat, n: nat)
    requires n > 0
    ensures x <= CeilDiv(x, n) * n && (CeilDiv(x, n) * n == x <==> x % n == 0)
  {
    DivModParts(x + n - 1, n);
    DivModParts(x, n);
    if x % n == 0 {
      DivModUnique(x / n, n - 1, n);
    }
    if CeilDiv(x, n) * n == x {
      DivModUnique(CeilDiv(x, n), 0, n);
    }
  }

  lemma ScaleByBatch(batch: nat, x: nat, y: nat)
    ensures batch * x == batch * y <==> batch == 0 || x == y
  {
    if x < y {
      assert batch * y == batch * x + (y - x) * batch;
      MulAtLeast(y - x, batch);
    } else if y < x {
      assert batch * x == batch * y + (x - y) * batch;
      MulAtLeast(x - y, batch);
    }
  }

  lemma TileArea(m1: nat, n1: nat, b0: nat)
    ensures m1 * 16 * n1 * b0 == (m1 * 16) * (n1 * b0)
  {
  }

  lemma TilesFit(a: nat, b: nat, m1: nat, n1: nat, b0: nat)
    requires a <= m1 * 16 && b <= n1 * b0 && (a == 0 ==> m1 == 0) && (b == 0 ==> n1 == 0)
    ensures a * b == m1 * 16 * n1 * b0 <==> a * b == 0 || (a == m1 * 16 && b == n1 * b0)
  {
    TileArea(m1, n1, b0);
    if a > 0 && b > 0 {
      MulAtLeast(a, b);
      SameArea(a, b, m1 * 16, n1 * b0);
    }
  }

  lemma TilesFitWhen(a: nat, b: nat, b0: nat, batch: nat)
    requires b0 == 16 || b0 == 32
    ensures batch * (a * b) == batch * (CeilDiv(a, 16) * 16 * CeilDiv(b, b0) * b0) <==>
            batch == 0 || a * b == 0 || (a % 16 == 0 && b % b0 == 0)
  {
    var m1, n1 := CeilDiv(a, 16), CeilDiv(b, b0);
    CeilDivTiles(a, 16);
    CeilDivTiles(b, b0);
    TilesFit(a, b, m1, n1, b0);
    ScaleByBatch(batch, a * b, m1 * 16 * n1 * b0);
  }

  // The reshape is possible exactly for tensors with no element and for tile-aligned matrices.
  lemma TransSucceedsWhen(shape: seq<nat>, int8: bool, blocks: seq<seq<int>>)
    requires |shape| >= 2 && IsTensor(shape, blocks)
    ensures var a, b := shape[|shape| - 2], shape[|shape| - 1];
            TransNdToNz(shape, int8, blocks).Ok? <==>
            blocks == [] || a * b == 0 || (a % 16 == 0 && b % (if int8 then 32 else 16) == 0)
  {
    TilesFitWhen(shape[|shape| - 2], shape[|shape| - 1], if int8 then 32 else 16, |blocks|);
  }

  lemma AlignedBlock(data: seq<int>, m1: nat, n1: nat)
    requires |data| == m1 * 16 * n1 * 16
    ensures |data| == (m1 * 16) * (n1 * 16)
    ensures Permuted(data, m1, 16, n1, 16) == NdToNz2d(data, m1 * 16, n1 * 16)
  {
    TileArea(m1, n1, 16);
    PermutedIsTransposed(data, m1, 16, n1, 16);
    PadToItself(data, m1 * 16, n1 * 16);
  }

  lemma BlockAt(blocks: seq<seq<int>>, a: nat, b: nat, q: nat)
    requires q < |blocks| && (forall k :: 0 <= k < |blocks| ==> |blocks[k]| == a * b)
    requires CeilDiv(a, 16) * 16 == a && CeilDiv(b, 16) * 16 == b
    ensures |blocks[q]| == CeilDiv(a, 16) * 16 * CeilDiv(b, 16) * 16
    ensures var r := TransBlocks(blocks, a, b, 16);
            r.Ok? && |r.value| == |blocks| && r.value[q] == Permuted(blocks[q], CeilDiv(a, 16), 16, CeilDiv(b, 16), 16)
  {
    TileArea(CeilDiv(a, 16), CeilDiv(b, 16), 16);
  }

  // On 16-aligned matrices that are not int8 the flat contents are those of nd_to_nz_2d.
  lemma TransAgreesWith2d(shape: seq<nat>, blocks: seq<seq<int>>, q: nat)
    requires |shape| >= 2 && IsTensor(shape, blocks) && q < |blocks|
    requires shape[|shape| - 2] % 16 == 0 && shape[|shape| - 1] % 16 == 0
    ensures var r := TransNdToNz(shape, false, blocks);
            r.Ok? && |r.value| == |blocks| && r.value[q] == NdToNz2d(blocks[q], shape[|shape| - 2], shape[|shape| - 1])
  {
    var a, b := shape[|shape| - 2], shape[|shape| - 1];
    var m1, n1 := CeilDiv(a, 16), CeilDiv(b, 16);
    CeilDivTiles(a, 16);
    CeilDivTiles(b, 16);
    TileArea(m1, n1, 16);
    AlignedBlock(blocks[q], m1, n1);
    BlockAt(blocks, m1 * 16, n1 * 16, q);
  }

  // Whatever the tile, a converted matrix can be read back.
  lemma TransRoundTrip(shape: seq<nat>, int8: bool, blocks: seq<seq<int>>, q: nat)
    requires |shape| >= 2 && IsTensor(shape, blocks) && q < |blocks| && TransNdToNz(shape, int8, blocks).Ok?
    ensures var nz := TransNdToNz(shape, int8, blocks).value;
            var height, b0 := CeilDiv(shape[|shape| - 2], 16) * 16, if int8 then 32 else 16;
            var n1 := CeilDiv(shape[|shape| - 1], b0);
            && |nz| == |blocks| && |nz[q]| == n1 * height * b0
            && Transposed(nz[q], n1, height, b0) == blocks[q]
  {
    var a, b, b0 := shape[|shape| - 2], shape[|shape| - 1], if int8 then 32 else 16;
    var m1, n1 := CeilDiv(a, 16), CeilDiv(b, b0);
    ScaleByBatch(|blocks|, a * b, m1 * 16 * n1 * b0);
    PermutedIsTransposed(blocks[q], m1, 16, n1, b0);
    TransposedTwice(blocks[q], m1 * 16, n1, b0);
  }
}
