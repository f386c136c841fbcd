/// `is_self_capture` by liberty counts (is_self_capture.rs and the older copy
/// in lib.rs): a move is refused as suicide unless a neighbour is Empty, a
/// friendly neighbour's group keeps another liberty, or an enemy neighbour's
/// group is down to its last liberty.
module SelfCapture {
  import opened Players
  import opened PointStates
  import opened Boards
  import opened Grid
  import opened Groups
  import opened AdjacentPoints
  import opened CountLiberties

  /// The number of liberties of the group through `a`.
  ghost function LibertyCount(cells: seq<int>, size: nat, a: nat): nat
    requires Square(cells, size)
  {
    |Liberties(cells, size, Group(cells, size, a))|
  }

  /// The neighbour `a` gives no way out for a move of `player`: it is not
  /// Empty, and a friendly group through it has at most one liberty while
  /// an enemy group through it has more than one.
  ghost predicate NoEscapeByCount(cells: seq<int>, size: nat, player: Player, a: nat)
    requires Square(cells, size) && a < |cells|
  {
    && cells[a] != Empty.AsU8()
    && (cells[a] == player.AsU8() ==> LibertyCount(cells, size, a) <= 1)
    && (cells[a] == player.Not().AsU8() ==> LibertyCount(cells, size, a) > 1)
  }

  /// Playing `point` as `player` is self capture by liberty counts: no
  /// neighbour gives a way out. A point whose neighbours are all Offline is
  /// self capture.
  ghost predicate SelfCaptureByCount(cells: seq<int>, size: nat, player: Player, point: nat)
    requires Square(cells, size) && point < |cells|
  {
    forall a :: a in Adjacent(point, size, |cells|) ==> a < |cells| && NoEscapeByCount(cells, size, player, a)
  }

  /// The scan over the neighbours of `point`, for the side `activePlayer`.
  method ScanSelfCapture(activePlayer: Player, point: nat, board: Board) returns (r: bool)
    requires WellFormed(board) && point < |board.board|
    ensures r <==> SelfCaptureByCount(board.board, board.size, activePlayer, point)
  {
    var cells, size := board.board, board.size;
    BoardIsSquare(board);
    var adjacent := GetAdjacentPoints(point, board);
    AdjacentInBounds(cells, size, point);
    for i := 0 to |adjacent|
      invariant forall j :: 0 <= j < i ==> adjacent[j] < |cells| && NoEscapeByCount(cells, size, activePlayer, adjacent[j])
    {
      var a := adjacent[i];
      assert a in adjacent;
      if cells[a] == Empty.AsU8() {
        return false;
      } else if cells[a] == activePlayer.AsU8() {
        var count := CountLibertiesOfGroup(a, board);
        if count > 1 {
          return false;
        }
      } else if cells[a] == activePlayer.Not().AsU8() {
        var count := CountLibertiesOfGroup(a, board);
        if count <= 1 {
          return false;
        }
      }
    }
    forall a | a in adjacent ensures a < |cells| && NoEscapeByCount(cells, size, activePlayer, a) {
      var j :| 0 <= j < |adjacent| && adjacent[j] == a;
    }
    return true;
  }

  /// is_self_capture.rs: the scan for the side to move.
  method IsSelfCapture(point: nat, board: Board) returns (r: bool)
    requires WellFormed(board) && point < |board.board|
    ensures r <==> SelfCaptureByCount(board.board, board.size, board.player, point)
  {
    r := ScanSelfCapture(board.player, point, board);
  }
}
