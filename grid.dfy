/// Orthogonal adjacency on a square grid stored as a flat array of `len`
/// points with rows of `size` points.
module Grid {
  import opened Arith

  /// The neighbours of `point` in the order down, up, left, right, each only
  /// when it is on the board; rows do not wrap.
  function Adjacent(point: nat, size: nat, len: nat): seq<nat>
    requires 0 < size <= len
  {
    (if point >= size then [point - size] else [])
    + (if point < len - size then [point + size] else [])
    + (if point % size > 0 then [point - 1] else [])
    + (if point % size < size - 1 then [point + 1] else [])
  }

  /// Two points are orthogonal neighbours: same row and neighbouring
  /// columns, or same column and neighbouring rows.
  predicate Orthogonal(p: nat, q: nat, size: nat)
    requires size > 0
  {
    (p / size == q / size && (p % size == q % size + 1 || q % size == p % size + 1))
    || (p % size == q % size && (p / size == q / size + 1 || q / size == p / size + 1))
  }

  /// On a square board `Adjacent` lists exactly the orthogonal neighbours
  /// that lie on the board.
  lemma AdjacentIsOrthogonal(p: nat, q: nat, size: nat)
    requires size > 0 && p < size * size && q < size * size
    ensures q in Adjacent(p, size, size * size) <==> Orthogonal(p, q, size)
  {
    if q in Adjacent(p, size, size * size) {
      AdjacentGivesOrthogonal(p, q, size);
    }
    if Orthogonal(p, q, size) {
      OrthogonalGivesAdjacent(p, q, size);
    }
  }

  lemma AdjacentGivesOrthogonal(p: nat, q: nat, size: nat)
    requires size > 0 && p < size * size && q < size * size
    requires q in Adjacent(p, size, size * size)
    ensures Orthogonal(p, q, size)
  {
    var len := size * size;
    if p >= size && q == p - size {
      StepUp(q, size);
    } else if p < len - size && q == p + size {
      StepUp(p, size);
    } else if p % size > 0 && q == p - 1 {
      StepLeft(p, size);
    } else {
      StepRight(p, size);
    }
  }

  lemma OrthogonalGivesAdjacent(p: nat, q: nat, size: nat)
    requires size > 0 && p < size * size && q < size * size
    requires Orthogonal(p, q, size)
    ensures q in Adjacent(p, size, size * size)
  {
    var len := size * size;
    var pr, pc, qr, qc := p / size, p % size, q / size, q % size;
    if pr == qr && pc == qc + 1 {
      SameRow(p, q, size);
    } else if pr == qr && qc == pc + 1 {
      SameRow(p, q, size);
    } else if pc == qc && pr == qr + 1 {
      SameColumn(q, p, size);
      assert q == p - size;
    } else {
      SameColumn(p, q, size);
      BelowTopRow(p, size);
      RowBound(q, size);
      assert q == p + size;
    }
  }

  /// Two points of one row differ by their column difference.
  lemma SameRow(p: nat, q: nat, size: nat)
    requires size > 0 && p / size == q / size
    ensures q - p == q % size - p % size
  {
  }

  /// A point one row above another in the same column is `size` further on.
  lemma SameColumn(p: nat, q: nat, size: nat)
    requires size > 0 && p % size == q % size && q / size == p / size + 1
    ensures q == p + size
  {
    StepUp(p, size);
    DivModUnique(q, size, q / size, q % size);
    assert q == q / size * size + q % size;
    assert p + size == (p + size) / size * size + (p + size) % size;
  }

  /// No point is its own neighbour.
  lemma NotSelfAdjacent(p: nat, q: nat, size: nat, len: nat)
    requires 0 < size <= len && q in Adjacent(p, size, len)
    ensures q != p
  {
  }

  /// Adjacency is symmetric.
  lemma AdjacentSymmetric(p: nat, q: nat, size: nat)
    requires size > 0 && p < size * size && q < size * size
    ensures q in Adjacent(p, size, size * size) <==> p in Adjacent(q, size, size * size)
  {
    AdjacentIsOrthogonal(p, q, size);
    AdjacentIsOrthogonal(q, p, size);
  }

  /// On a square board every neighbour is on the board, the neighbours are
  /// distinct, and there are 4 minus the number of board edges the point
  /// touches: 2 in a corner, 3 on an edge, 4 inside.
  lemma AdjacentShape(p: nat, size: nat)
    requires size >= 1 && p < size * size
    ensures forall q :: q in Adjacent(p, size, size * size) ==> q < size * size
    ensures forall i, j :: 0 <= i < j < |Adjacent(p, size, size * size)| ==>
      Adjacent(p, size, size * size)[i] != Adjacent(p, size, size * size)[j]
    ensures |Adjacent(p, size, size * size)| == 4 - EdgesTouched(p, size)
  {
    var len := size * size;
    RowBound(p, size);
    BelowTopRow(p, size);
    if p % size < size - 1 {
      LastColumnBound(p, size);
    }
    assert p >= size <==> p / size != 0 by { FirstRow(p, size); }
  }

  /// A point that is not in the last column has its right neighbour on the board.
  lemma LastColumnBound(p: nat, size: nat)
    requires size > 0 && p < size * size && p % size < size - 1
    ensures p + 1 < size * size
  {
    StepRight(p, size);
    RowBound(p, size);
    IndexBound(p / size, p % size + 1, size);
    assert p + 1 == (p + 1) / size * size + (p + 1) % size;
  }

  /// The bottom row is the first `size` points.
  lemma FirstRow(p: nat, size: nat)
    requires size > 0
    ensures p >= size <==> p / size != 0
  {
    if p < size {
      DivModUnique(p, size, 0, p);
    } else {
      assert p == p / size * size + p % size;
    }
  }

  /// How many of the four board edges the point lies on.
  function EdgesTouched(p: nat, size: nat): nat
    requires size > 0
  {
    (if p / size == 0 then 1 else 0) + (if p / size == size - 1 then 1 else 0)
    + (if p % size == 0 then 1 else 0) + (if p % size == size - 1 then 1 else 0)
  }
}
