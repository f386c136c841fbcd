/// Facts about Euclidean division used to move between a flat board index
/// and its (row, column) or (x, y) coordinates.
module Arith {
  /// A quotient and remainder pair is unique.
  lemma DivModUnique(n: int, d: int, q: int, r: int)
    requires d > 0 && 0 <= r < d && n == q * d + r
    ensures n / d == q && n % d == r
  {
    var q', r' := n / d, n % d;
    assert n == q' * d + r';
    assert (q - q') * d == r' - r;
    if q > q' {
      assert (q - q') * d >= d by { MulAtLeast(q - q', d); }
    } else if q < q' {
      assert (q' - q) * d >= d by { MulAtLeast(q' - q, d); }
    }
  }

  lemma MulAtLeast(k: int, d: int)
    requires k >= 1 && d > 0
    ensures k * d >= d
  {
  }

  /// A side is at most its square.
  lemma SquareAtLeast(n: nat)
    ensures n <= n * n
  {
    if n > 0 {
      MulAtLeast(n, n);
    }
  }

  /// The index of (row, column) on a board of width `size`.
  lemma IndexOf(row: int, col: int, size: int)
    requires size > 0 && 0 <= col < size
    ensures (row * size + col) / size == row && (row * size + col) % size == col
  {
    DivModUnique(row * size + col, size, row, col);
  }

  /// An index below size*size has a row below size.
  lemma RowBound(p: int, size: int)
    requires size > 0 && 0 <= p < size * size
    ensures 0 <= p / size < size
  {
    var row := p / size;
    assert p == row * size + p % size;
  }

  lemma MulNonNegative(a: int, b: int)
    requires a >= 0 && b >= 0
    ensures a * b >= 0
  {
  }

  lemma MulMono(a: int, b: int, c: int)
    requires 0 <= a <= b && c >= 0
    ensures a * c <= b * c
  {
  }

  /// A row and column inside the board give an index inside the board.
  lemma IndexBound(row: int, col: int, size: int)
    requires size > 0 && 0 <= row < size && 0 <= col < size
    ensures 0 <= row * size + col < size * size
  {
    MulMono(row, size - 1, size);
    assert (size - 1) * size == size * size - size;
  }

  /// Moving one step to the right stays on the row unless it is the last column.
  lemma StepRight(p: int, size: int)
    requires size > 0 && p >= 0 && p % size < size - 1
    ensures (p + 1) / size == p / size && (p + 1) % size == p % size + 1
  {
    DivModUnique(p + 1, size, p / size, p % size + 1);
  }

  /// Moving one step to the left stays on the row unless it is the first column.
  lemma StepLeft(p: int, size: int)
    requires size > 0 && p >= 1 && p % size > 0
    ensures (p - 1) / size == p / size && (p - 1) % size == p % size - 1
  {
    DivModUnique(p - 1, size, p / size, p % size - 1);
  }

  /// Moving one row up keeps the column.
  lemma StepUp(p: int, size: int)
    requires size > 0 && p >= 0
    ensures (p + size) / size == p / size + 1 && (p + size) % size == p % size
  {
    DivModUnique(p + size, size, p / size + 1, p % size);
  }

  /// The row test of `get_adjacent_points`: `p < size*size - size` holds
  /// exactly below the top row.
  lemma BelowTopRow(p: int, size: int)
    requires size > 0 && 0 <= p < size * size
    ensures p < size * size - size <==> p / size < size - 1
  {
    var row, col := p / size, p % size;
    assert p == row * size + col;
    RowBound(p, size);
    if row < size - 1 {
      MulMono(row, size - 2, size);
      assert (size - 2) * size == size * size - 2 * size;
    } else {
      assert row == size - 1;
      assert row * size == size * size - size;
    }
  }
}
