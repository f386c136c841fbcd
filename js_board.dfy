/// go.js: the board of the JavaScript engine. `board[x][y]` is a point
/// record or `null` for an offline point. The model stores the `n` columns
/// one after another, so `board[x][y]` is entry `x * n + y` of a flat
/// sequence, and a point is named by that index. North is `y + 1`, east
/// `x + 1`.
module JsBoards {
  import opened Wrappers
  import opened Arith
  import opened Grid
  import opened Groups

  /// A point's `color`: `null` (a character `createBoard` does not know),
  /// "empty", "black" or "white".
  datatype Color = NoColor | Empty | Black | White

  /// The two players, "black" and "white".
  type Stone = c: Color | c == Black || c == White witness Black

  /// `player === "white" ? "black" : "white"`.
  function Opponent(player: Color): (r: Stone)
    ensures player == Black ==> r == White
    ensures player == White ==> r == Black
  {
    if player == White then Black else White
  }

  /// `player === "black" ? "white" : "black"`, the form `getSurroundMove`
  /// uses; for a player it is the same.
  function OtherSide(player: Color): (r: Stone)
    ensures (player == Black || player == White) ==> r == Opponent(player)
  {
    if player == Black then White else Black
  }

  /// A chain id: "" for none, or `${x},${y}` of the chain's first point.
  datatype ChainId = NoChain | ChainAt(x: nat, y: nat)

  /// A point record: its colour, its chain id and its liberty list
  /// (`null` or an array of points, named here by index).
  datatype PointState = PointState(color: Color, chain: ChainId, liberties: Option<seq<nat>>)

  /// One entry of the board: `None` is `null`, an offline point.
  type Cell = Option<PointState>

  /// The board has `n` columns of `n` entries.
  predicate Shaped(board: seq<Cell>, n: nat)
  {
    |board| == n * n
  }

  /// The point at index `i` is on the board and holds a record.
  predicate Live(board: seq<Cell>, i: int)
  {
    0 <= i < |board| && board[i].Some?
  }

  /// What `board[x]?.[y]` gives: `undefined` off the grid, `null` at an
  /// offline point, or the record.
  datatype Lookup = Undefined | Null | Found(p: PointState)

  function LookupOf(c: Cell): Lookup
  {
    match c
    case None => Null
    case Some(p) => Found(p)
  }

  /// `board[x]?.[y]`.
  function At(board: seq<Cell>, n: nat, x: int, y: int): (r: Lookup)
    requires Shaped(board, n)
    ensures r == Undefined <==> !(0 <= x < n && 0 <= y < n)
    ensures 0 <= x < n && 0 <= y < n ==> x * n + y < |board| && r == LookupOf(board[x * n + y])
  {
    if 0 <= x < n && 0 <= y < n then
      IndexBound(x, y, n);
      LookupOf(board[x * n + y])
    else Undefined
  }

  /// The four entries of `findNeighbors`.
  datatype Neighbor = Neighbor(north: Lookup, east: Lookup, south: Lookup, west: Lookup)

  /// `findNeighbors`: north `(x, y + 1)`, east `(x + 1, y)`, south
  /// `(x, y - 1)`, west `(x - 1, y)`.
  function FindNeighbors(board: seq<Cell>, n: nat, x: int, y: int): Neighbor
    requires Shaped(board, n)
  {
    Neighbor(At(board, n, x, y + 1), At(board, n, x + 1, y), At(board, n, x, y - 1), At(board, n, x - 1, y))
  }

  /// The index of `(x, y)` when `board[x]?.[y]` is a record, as a list of
  /// zero or one points.
  function Present(board: seq<Cell>, n: nat, x: int, y: int): (r: seq<nat>)
    requires Shaped(board, n)
    ensures r == if At(board, n, x, y).Found? then [x * n + y] else []
    ensures forall q :: q in r ==> Live(board, q)
  {
    if At(board, n, x, y).Found? then [x * n + y] else []
  }

  /// `getArrayFromNeighbor(findNeighbors(board, x, y))`: the neighbours
  /// that are records (neither `undefined` nor `null`), north, east,
  /// south, west.
  function NeighborPoints(board: seq<Cell>, n: nat, x: int, y: int): seq<nat>
    requires Shaped(board, n)
  {
    Present(board, n, x, y + 1) + Present(board, n, x + 1, y) + Present(board, n, x, y - 1) + Present(board, n, x - 1, y)
  }

  /// The neighbours of point `i`.
  function Neighbors(board: seq<Cell>, n: nat, i: nat): (r: seq<nat>)
    requires Shaped(board, n) && i < |board|
    ensures forall q :: q in r ==> Live(board, q)
  {
    NeighborPoints(board, n, i / n, i % n)
  }

  /// The neighbours `findNeighbors` returns are the records among the
  /// orthogonal neighbours of the grid, the same ones Rust's
  /// `get_adjacent_points` lists: the grid does not wrap.
  lemma NeighborsAreAdjacent(board: seq<Cell>, n: nat, i: nat)
    requires Shaped(board, n) && i < |board|
    ensures n > 0
    ensures forall q: nat :: q in Neighbors(board, n, i) <==> q in Adjacent(i, n, |board|) && Live(board, q)
  {
    assert n > 0;
    forall q: nat ensures q in Neighbors(board, n, i) <==> q in Adjacent(i, n, |board|) && Live(board, q) {
      NeighborAt(board, n, i, q);
    }
  }

  /// One point `q` of `NeighborsAreAdjacent`, direction by direction.
  lemma NeighborAt(board: seq<Cell>, n: nat, i: nat, q: nat)
    requires Shaped(board, n) && i < |board|
    ensures n > 0 && (q in Neighbors(board, n, i) <==> q in Adjacent(i, n, |board|) && Live(board, q))
  {
    assert n > 0;
    MulAtLeast(n, n);
    var x, y := i / n, i % n;
    NorthPoint(board, n, i, q);
    EastPoint(board, n, i, q);
    SouthPoint(board, n, i, q);
    WestPoint(board, n, i, q);
    NeighborsSplit(board, n, i);
    AdjacentSplit(i, n, |board|);
    InFourKept(Present(board, n, x, y + 1), Present(board, n, x + 1, y), Present(board, n, x, y - 1), Present(board, n, x - 1, y),
               if i >= n then [i - n] else [], if i < |board| - n then [i + n] else [],
               if i % n > 0 then [i - 1] else [], if i % n < n - 1 then [i + 1] else [], q, Live(board, q));
  }

  /// `Neighbors` lists north, east, south and west in turn.
  lemma NeighborsSplit(board: seq<Cell>, n: nat, i: nat)
    requires Shaped(board, n) && i < |board|
    ensures n > 0
    ensures Neighbors(board, n, i)
         == Present(board, n, i / n, i % n + 1) + Present(board, n, i / n + 1, i % n)
          + Present(board, n, i / n, i % n - 1) + Present(board, n, i / n - 1, i % n)
  {
  }

  /// `Adjacent` lists the point below, above, left and right in turn.
  lemma AdjacentSplit(p: nat, size: nat, len: nat)
    requires 0 < size <= len
    ensures Adjacent(p, size, len)
         == (if p >= size then [p - size] else []) + (if p < len - size then [p + size] else [])
          + (if p % size > 0 then [p - 1] else []) + (if p % size < size - 1 then [p + 1] else [])
  {
  }

  /// North of point `i` is `i + 1`, unless `i` is in the last row.
  lemma NorthPoint(board: seq<Cell>, n: nat, i: nat, q: nat)
    requires Shaped(board, n) && i < |board|
    ensures n > 0
    ensures q in Present(board, n, i / n, i % n + 1) <==> q in (if i % n < n - 1 then [i + 1] else []) && Live(board, q)
  {
    assert n > 0;
    RowBound(i, n);
    assert i / n * n + (i % n + 1) == i + 1;
  }

  /// East of point `i` is `i + n`, unless `i` is in the last column.
  lemma EastPoint(board: seq<Cell>, n: nat, i: nat, q: nat)
    requires Shaped(board, n) && i < |board|
    ensures n > 0
    ensures q in Present(board, n, i / n + 1, i % n) <==> q in (if i < |board| - n then [i + n] else []) && Live(board, q)
  {
    assert n > 0;
    RowBound(i, n);
    BelowTopRow(i, n);
    var x, y := i / n, i % n;
    assert i == x * n + y;
    assert (x + 1) * n + y == i + n;
  }

  /// South of point `i` is `i - 1`, unless `i` is in the first row.
  lemma SouthPoint(board: seq<Cell>, n: nat, i: nat, q: nat)
    requires Shaped(board, n) && i < |board|
    ensures n > 0
    ensures q in Present(board, n, i / n, i % n - 1) <==> q in (if i % n > 0 then [i - 1] else []) && Live(board, q)
  {
    assert n > 0;
    RowBound(i, n);
    assert i / n * n + (i % n - 1) == i - 1;
  }

  /// West of point `i` is `i - n`, unless `i` is in the first column.
  lemma WestPoint(board: seq<Cell>, n: nat, i: nat, q: nat)
    requires Shaped(board, n) && i < |board|
    ensures n > 0
    ensures q in Present(board, n, i / n - 1, i % n) <==> q in (if i >= n then [i - n] else []) && Live(board, q)
  {
    assert n > 0;
    RowBound(i, n);
    FirstRow(i, n);
    var x, y := i / n, i % n;
    assert i == x * n + y;
    assert (x - 1) * n + y == i - n;
  }

  /// Membership in four concatenated sequences.
  lemma InFour<T>(a: seq<T>, b: seq<T>, c: seq<T>, d: seq<T>, q: T)
    ensures q in a + b + c + d <==> q in a || q in b || q in c || q in d
  {
    assert q in a + b + c + d <==> q in a + b + c || q in d;
    assert q in a + b + c <==> q in a + b || q in c;
  }

  /// Four sequences that each list what another four list when `keep`
  /// holds, in another order, list together what those four list.
  lemma InFourKept<T>(n1: seq<T>, n2: seq<T>, n3: seq<T>, n4: seq<T>, a1: seq<T>, a2: seq<T>, a3: seq<T>, a4: seq<T>, q: T, keep: bool)
    requires (q in n1 <==> q in a4 && keep) && (q in n2 <==> q in a2 && keep)
    requires (q in n3 <==> q in a3 && keep) && (q in n4 <==> q in a1 && keep)
    ensures q in n1 + n2 + n3 + n4 <==> q in a1 + a2 + a3 + a4 && keep
  {
    InFour(n1, n2, n3, n4, q);
    InFour(a1, a2, a3, a4, q);
  }

  /// The code of an entry, as the Rust engine numbers point states: a
  /// record's colour Empty 1, Black 2, White 3 (0 for no colour), `null`
  /// Offline 4.
  function Code(c: Cell): (k: int)
    ensures c.None? <==> k == 4
  {
    match c
    case None => 4
    case Some(p) =>
      match p.color
      case NoColor => 0
      case Empty => 1
      case Black => 2
      case White => 3
  }

  /// The codes of the whole board, so that the chains of go.js are the
  /// groups of `Groups`: two records are in one chain when a path of
  /// records of their colour joins them.
  function Codes(board: seq<Cell>): (cells: seq<int>)
    ensures |cells| == |board| && forall i :: 0 <= i < |board| ==> cells[i] == Code(board[i])
  {
    seq(|board|, i requires 0 <= i < |board| => Code(board[i]))
  }

  /// Two records have the same code exactly when they have the same colour.
  lemma CodeIsColor(a: Cell, b: Cell)
    requires a.Some?
    ensures Code(a) == Code(b) <==> b.Some? && a.value.color == b.value.color
  {
  }

  /// Only the colours of the records, and which entries are `null`,
  /// decide the codes.
  predicate SameColors(a: seq<Cell>, b: seq<Cell>)
  {
    |a| == |b| && forall i :: 0 <= i < |a| ==> (a[i].None? <==> b[i].None?) && (a[i].Some? ==> a[i].value.color == b[i].value.color)
  }

  lemma SameColorsSameCodes(a: seq<Cell>, b: seq<Cell>)
    requires SameColors(a, b)
    ensures Codes(a) == Codes(b)
  {
  }

  /// `board[x]?.[y]?.color`: the colour of a record, or `undefined`.
  function ColorAt(l: Lookup): Option<Color>
  {
    if l.Found? then Some(l.p.color) else None
  }

  /// The colour at index `i`, when it holds a record.
  function ColorOf(board: seq<Cell>, i: nat): Option<Color>
  {
    if Live(board, i) then Some(board[i].value.color) else None
  }

  // ---------------------------------------------------------------------
  // Scans of the board

  /// The indices below `k` whose flag is set, in increasing order.
  function Kept(keep: seq<bool>, k: nat): seq<nat>
    requires k <= |keep|
  {
    if k == 0 then [] else Kept(keep, k - 1) + (if keep[k - 1] then [k - 1] else [])
  }

  lemma KeptStep(keep: seq<bool>, k: nat)
    requires k < |keep|
    ensures Kept(keep, k + 1) == Kept(keep, k) + (if keep[k] then [k] else [])
  {
  }

  /// Exactly the flagged indices, increasing, each once.
  lemma {:induction false} KeptAre(keep: seq<bool>, k: nat)
    requires k <= |keep|
    ensures var r := Kept(keep, k);
      (forall i, j :: 0 <= i < j < |r| ==> r[i] < r[j])
      && (forall q: nat :: q in r <==> q < k && keep[q])
  {
    if k > 0 {
      KeptAre(keep, k - 1);
      var r0 := Kept(keep, k - 1);
      var r := Kept(keep, k);
      forall i, j | 0 <= i < j < |r| ensures r[i] < r[j] {
        if j == |r0| {
          assert r[i] == r0[i] && r0[i] in r0;
        }
      }
    }
  }
}
