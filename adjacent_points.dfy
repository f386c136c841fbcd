/// `get_adjacent_points`: the orthogonal neighbours of a point of a board.
module AdjacentPoints {
  import opened Boards
  import opened Grid

  /// The neighbours of `point`, down, up, left, right. The point states are
  /// not looked at, so Offline neighbours are returned too.
  function GetAdjacentPoints(point: nat, board: Board): (r: seq<nat>)
    requires 0 < board.size <= |board.board|
    ensures WellFormed(board) && point < |board.board| ==>
      forall q: nat :: q < |board.board| ==> (q in r <==> Orthogonal(point, q, board.size))
    ensures WellFormed(board) && point < |board.board| ==>
      (forall q :: q in r ==> q < |board.board|)
      && (forall i, j :: 0 <= i < j < |r| ==> r[i] != r[j])
      && |r| == 4 - EdgesTouched(point, board.size)
  {
    var r := Adjacent(point, board.size, |board.board|);
    if WellFormed(board) && point < |board.board| then
      assert forall q: nat :: q < |board.board| ==> (q in r <==> Orthogonal(point, q, board.size)) by {
        forall q: nat | q < |board.board| ensures q in r <==> Orthogonal(point, q, board.size) {
          AdjacentIsOrthogonal(point, q, board.size);
        }
      }
      AdjacentShape(point, board.size);
      r
    else r
  }
}
