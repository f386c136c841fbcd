/// The board record shared by the Rust engine: a flat array of point codes
/// indexed `row * size + column` with row 0 at the bottom, the side to move
/// and the komi.
module Boards {
  import opened Players

  /// A `u8`.
  type Byte = x: int | 0 <= x < 256

  datatype Board = Board(board: seq<Byte>, size: nat, player: Player, komi: real)

  /// Every position the game has been in (a `HashSet<Box<[u8]>>`).
  type BoardHistory = set<seq<Byte>>

  /// The board holds `size * size` points.
  predicate WellFormed(b: Board)
  {
    |b.board| == b.size * b.size
  }
}
