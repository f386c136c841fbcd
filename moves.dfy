/// `make_move`, `pass_move` and the superko test of violates_superko.rs.
module Moves {
  import opened Wrappers
  import opened Players
  import opened Boards

  /// `make_move` as written: the contents are copied, the side to move
  /// flips, and `point` is never used, so no stone is placed. The komi is
  /// carried over (the record make_move.rs builds has no komi field).
  function MakeMove(point: nat, board: Board): (r: Board)
    ensures r.board == board.board && r.size == board.size && r.komi == board.komi
    ensures r.player == board.player.Not() && r.player != board.player
  {
    Board(board.board, board.size, board.player.Not(), board.komi)
  }

  /// `pass_move`: the same position with the other side to move.
  function PassMove(board: Board): (r: Board)
    ensures r.board == board.board && r.size == board.size && r.komi == board.komi
    ensures r.player == board.player.Not() && r.player != board.player
  {
    Board(board.board, board.size, board.player.Not(), board.komi)
  }

  /// The move played does not matter, and playing one is passing.
  lemma MakeMoveIsPass(p: nat, q: nat, board: Board)
    ensures MakeMove(p, board) == MakeMove(q, board) == PassMove(board)
  {
  }

  /// Two moves in a row give back the starting record.
  lemma MakeMoveTwice(p: nat, q: nat, board: Board)
    ensures MakeMove(q, MakeMove(p, board)) == board
  {
    NotInvolutive(board.player);
  }

  /// violates_superko.rs: the position after `make_move` has been seen
  /// before. Because no stone is placed this asks whether the current
  /// position is in the history, whatever the point.
  function ViolatesSuperko(point: nat, board: Board, history: BoardHistory): (r: bool)
    ensures r <==> board.board in history
  {
    MakeMove(point, board).board in history
  }

  /// The test of get_legal_moves.rs: no history means no superko check.
  function ViolatesSuperkoIfKnown(point: nat, board: Board, history: Option<BoardHistory>): (r: bool)
    ensures history.None? ==> !r
    ensures history.Some? ==> (r <==> ViolatesSuperko(point, board, history.value))
  {
    match history
    case None => false
    case Some(s) => MakeMove(point, board).board in s
  }
}
