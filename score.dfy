/// score.rs: the stone balance of a position minus the komi.
module Score {
  import opened PointStates
  import opened Boards

  /// What one point adds to the stone balance: +1 for Black, -1 for White,
  /// nothing for Empty, Offline or an unfilled point.
  function StoneWeight(code: int): int
  {
    if code == Black.AsU8() then 1 else if code == White.AsU8() then -1 else 0
  }

  /// The stone balance of the first points of a board, summed from the
  /// front.
  function StoneBalance(cells: seq<int>): int
  {
    if cells == [] then 0 else StoneBalance(cells[..|cells| - 1]) + StoneWeight(cells[|cells| - 1])
  }

  /// The balance is the number of Black stones less the number of White
  /// stones.
  lemma {:induction false} StoneBalanceCounts(cells: seq<int>)
    ensures StoneBalance(cells) == multiset(cells)[Black.AsU8()] as int - multiset(cells)[White.AsU8()] as int
  {
    if cells != [] {
      var front := cells[..|cells| - 1];
      StoneBalanceCounts(front);
      assert cells == front + [cells[|cells| - 1]];
      assert multiset(cells) == multiset(front) + multiset{cells[|cells| - 1]};
    }
  }

  /// A board without stones balances to zero.
  lemma {:induction false} NoStonesBalance(cells: seq<int>)
    requires forall i :: 0 <= i < |cells| ==> cells[i] != Black.AsU8() && cells[i] != White.AsU8()
    ensures StoneBalance(cells) == 0
  {
    if cells != [] {
      NoStonesBalance(cells[..|cells| - 1]);
    }
  }

  /// `score`: +1 per Black stone, -1 per White stone, minus the komi once.
  /// The side to move plays no part.
  method Score(board: Board) returns (r: real)
    ensures r == StoneBalance(board.board) as real - board.komi
  {
    var cells := board.board;
    var baseScore: real := 0.0;
    for point := 0 to |cells|
      invariant baseScore == StoneBalance(cells[..point]) as real
    {
      assert cells[..point + 1][..point] == cells[..point];
      if cells[point] == Black.AsU8() {
        baseScore := baseScore + 1.0;
      } else if cells[point] == White.AsU8() {
        baseScore := baseScore - 1.0;
      }
    }
    assert cells[..|cells|] == cells;
    return baseScore - board.komi;
  }
}
