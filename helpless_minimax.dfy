/// helpless_minimax_strategy.rs: a depth-5 search that assumes the helpless
/// player passes every turn. Each of its passes is worth a speed bonus of
/// 0.01 to it, and each move of the other side costs that side 0.01 plus an
/// atari penalty. Because `make_move` places no stone, every position of the
/// search has the points of the root: the side that moves can only add to
/// the helpless player's bonus, so it passes at once, and the search value
/// is the root's score with at most one speed step.
module HelplessMinimax {
  import opened Wrappers
  import opened ExtReals
  import opened Players
  import opened PointStates
  import opened Boards
  import opened Grid
  import opened Groups
  import opened BitSets
  import opened AdjacentPoints
  import opened CountLiberties
  import opened IsInAtari
  import opened Moves
  import opened LegalMoves
  import opened FinalScore

  /// The search depth of `helpless_minimax_strategy`.
  const HelplessDepth: nat := 5

  /// The bonus the helpless player earns per turn of the search.
  const SpeedStep: real := 0.01

  /// The atari penalty of a move with no Empty neighbour.
  const EyePenalty: real := 1000.0

  /// The atari penalty of a stone that would be in atari.
  const AtariPenaltyValue: real := 20.0

  /// `score`: the final score with the speed penalty counted for the
  /// helpless player: added when that is Black, subtracted when White.
  ghost function HelplessScore(board: Board, speedPenalty: real, helpless: Player): real
    requires WellFormed(board)
  {
    if helpless == Player.Black then Outcome(board) + speedPenalty else Outcome(board) - speedPenalty
  }

  /// `score`, computed.
  method Score(board: Board, speedPenalty: real, helpless: Player) returns (r: real)
    requires WellFormed(board) && |board.board| <= UsizeBits
    ensures helpless == Player.Black ==> r - speedPenalty == Outcome(board)
    ensures helpless == Player.White ==> r + speedPenalty == Outcome(board)
  {
    var resultScore := FinalScore.FinalScore(board);
    match helpless
    case Black => r := resultScore + speedPenalty;
    case White => r := resultScore - speedPenalty;
  }

  /// The first point of `adjacent` that is Empty on `cells`.
  function FirstEmpty(adjacent: seq<nat>, cells: seq<int>): (r: Option<nat>)
    ensures r.Some? ==> r.value in adjacent && r.value < |cells| && cells[r.value] == Empty.AsU8()
    ensures r.Some? ==> exists k :: (0 <= k < |adjacent| && adjacent[k] == r.value
      && forall j :: 0 <= j < k ==> !(adjacent[j] < |cells| && cells[adjacent[j]] == Empty.AsU8()))
    ensures r.None? <==> forall j :: 0 <= j < |adjacent| ==> !(adjacent[j] < |cells| && cells[adjacent[j]] == Empty.AsU8())
  {
    if adjacent == [] then Option.None
    else if adjacent[0] < |cells| && cells[adjacent[0]] == Empty.AsU8() then Some(adjacent[0])
    else
      var r := FirstEmpty(adjacent[1..], cells);
      assert forall j :: 1 <= j < |adjacent| ==> adjacent[j] == adjacent[1..][j - 1];
      if r.Some? then
        var k :| 0 <= k < |adjacent[1..]| && adjacent[1..][k] == r.value
          && forall j :: 0 <= j < k ==> !(adjacent[1..][j] < |cells| && cells[adjacent[1..][j]] == Empty.AsU8());
        assert adjacent[k + 1] == r.value;
        r
      else r
  }

  /// The penalty `atari_penalty` gives, stated on the board: 1000 without
  /// an Empty neighbour; otherwise, with `s` the first Empty neighbour,
  /// 20 when the group of `point` has no liberty but `s` and 0 when it has.
  ghost function PenaltyOf(point: nat, board: Board): real
    requires WellFormed(board) && point < |board.board|
  {
    BoardIsSquare(board);
    match FirstEmpty(GetAdjacentPoints(point, board), board.board)
    case None => EyePenalty
    case Some(s) =>
      if Liberties(board.board, board.size, Group(board.board, board.size, point)) <= {s} then AtariPenaltyValue else 0.0
  }

  /// `atari_penalty`: the first Empty neighbour in the order
  /// `get_adjacent_points` lists them is the known liberty of the atari
  /// test on the position after the move.
  method AtariPenalty(point: nat, board: Board) returns (penalty: real)
    requires WellFormed(board) && point < |board.board| <= UsizeBits
    ensures penalty == PenaltyOf(point, board)
    ensures penalty == 0.0 || penalty == AtariPenaltyValue || penalty == EyePenalty
  {
    BoardIsSquare(board);
    var adjacent := GetAdjacentPoints(point, board);
    AdjacentInBounds(board.board, board.size, point);
    assert adjacent == Adjacent(point, board.size, |board.board|);
    forall j | 0 <= j < |adjacent| ensures adjacent[j] < |board.board| {
      assert adjacent[j] in adjacent;
    }
    var knownLiberty: Option<nat> := Option.None;
    var i := 0;
    while i < |adjacent|
      invariant 0 <= i <= |adjacent|
      invariant forall j :: 0 <= j < i ==> board.board[adjacent[j]] != Empty.AsU8()
      invariant knownLiberty.Some? ==> knownLiberty == FirstEmpty(adjacent, board.board)
      invariant knownLiberty.None? && i == |adjacent| ==> FirstEmpty(adjacent, board.board).None?
      decreases |adjacent| - i, if knownLiberty.None? then 1 else 0
    {
      if board.board[adjacent[i]] == Empty.AsU8() {
        knownLiberty := Some(adjacent[i]);
        FirstEmptyAt(adjacent, board.board, i);
        break;
      }
      i := i + 1;
    }
    match knownLiberty
    case None =>
      penalty := EyePenalty;
    case Some(s) =>
      var next := MakeMove(point, board);
      var inAtari := InAtari(point, next, s);
      penalty := if inAtari then AtariPenaltyValue else 0.0;
  }

  /// When the first `k` entries are not Empty and entry `k` is, entry `k`
  /// is the first Empty one.
  lemma {:induction false} FirstEmptyAt(adjacent: seq<nat>, cells: seq<int>, k: nat)
    requires k < |adjacent| && adjacent[k] < |cells| && cells[adjacent[k]] == Empty.AsU8()
    requires forall j :: 0 <= j < k ==> !(adjacent[j] < |cells| && cells[adjacent[j]] == Empty.AsU8())
    ensures FirstEmpty(adjacent, cells) == Some(adjacent[k])
  {
    if k > 0 {
      FirstEmptyAt(adjacent[1..], cells, k - 1);
    }
  }

  /// Every move the search considers is on an Empty point, and there the
  /// atari test walks the Empty region: the point itself is a liberty of
  /// that region other than the known one, so the penalty is never 20. A
  /// move scores 1000 without an Empty neighbour and 0 with one.
  lemma EmptyPointPenalty(point: nat, board: Board)
    requires WellFormed(board) && point < |board.board| && board.board[point] == Empty.AsU8()
    ensures PenaltyOf(point, board) == if FirstEmpty(GetAdjacentPoints(point, board), board.board).None? then EyePenalty else 0.0
  {
    BoardIsSquare(board);
    var cells, size := board.board, board.size;
    match FirstEmpty(GetAdjacentPoints(point, board), cells)
    case None =>
    case Some(s) =>
      GroupContainsSelf(cells, size, point);
      GroupStep(cells, size, point, point, s);
      AdjacentSymmetric(point, s, size);
      assert point in Liberties(cells, size, Group(cells, size, point));
  }

  /// The value of the position after one move or pass from `board`: the
  /// side to move there is `board.player.Not()`, and it earns one speed
  /// step when it is the helpless player.
  ghost function ReplyValue(board: Board, helpless: Player): real
    requires WellFormed(board)
  {
    HelplessScore(board, if board.player.Not() == helpless then SpeedStep else 0.0, helpless)
  }

  /// `minimax_helpless`. Below depth 1 the score. The helpless player
  /// passes for one more speed step. The other side maximises (Black) or
  /// minimises (White) over its legal moves, each costing it a speed step
  /// and the atari penalty, and over the score of passing now; since every
  /// move is worse for it than passing, the value is the score.
  method MinimaxHelpless(board: Board, history: BoardHistory, depth: nat, helpless: Player, speedPenalty: real)
    returns (r: real)
    requires WellFormed(board) && |board.board| <= UsizeBits
    ensures r == HelplessScore(board, speedPenalty + (if depth >= 1 && board.player == helpless then SpeedStep else 0.0), helpless)
    decreases depth
  {
    if depth < 1 {
      r := Score(board, speedPenalty, helpless);
      return;
    }
    var deeperHistory := history + {board.board};
    if board.player == helpless {
      var next := PassMove(board);
      OutcomeIgnoresPlayer(board, next);
      r := MinimaxHelpless(next, deeperHistory, depth - 1, helpless, speedPenalty + SpeedStep);
      return;
    }
    var legalMoves := GetLegalMoves(board, Some(history));
    ghost var legal := legalMoves.Elements();
    var points := Drain(legalMoves);
    if board.player == Player.Black {
      var bestScore := NegInf;
      for i := 0 to |points|
        invariant bestScore == NegInf || (bestScore.Fin? && bestScore.v < HelplessScore(board, speedPenalty, helpless))
      {
        assert points[i] in legal;
        var minimaxScore := MoveValue(board, deeperHistory, depth, helpless, speedPenalty, points[i]);
        bestScore := Max(bestScore, Fin(minimaxScore));
      }
      var passScore := Score(board, speedPenalty, helpless);
      var best := Max(bestScore, Fin(passScore));
      r := best.v;
    } else {
      var bestScore := PosInf;
      for i := 0 to |points|
        invariant bestScore == PosInf || (bestScore.Fin? && bestScore.v > HelplessScore(board, speedPenalty, helpless))
      {
        assert points[i] in legal;
        var minimaxScore := MoveValue(board, deeperHistory, depth, helpless, speedPenalty, points[i]);
        bestScore := Min(bestScore, Fin(minimaxScore));
      }
      var passScore := Score(board, speedPenalty, helpless);
      var best := Min(bestScore, Fin(passScore));
      r := best.v;
    }
  }

  /// One move of the side that is not helpless, searched one level down:
  /// strictly worse for that side than passing now, by at least a speed
  /// step.
  method MoveValue(board: Board, deeperHistory: BoardHistory, depth: nat, helpless: Player, speedPenalty: real, point: nat)
    returns (minimaxScore: real)
    requires WellFormed(board) && |board.board| <= UsizeBits && point < |board.board|
    requires depth >= 1 && board.player != helpless
    ensures helpless == Player.White ==> minimaxScore <= HelplessScore(board, speedPenalty + SpeedStep, helpless)
    ensures helpless == Player.Black ==> minimaxScore >= HelplessScore(board, speedPenalty + SpeedStep, helpless)
    decreases depth, 0
  {
    var penalty := AtariPenalty(point, board);
    var next := MakeMove(point, board);
    OutcomeIgnoresPlayer(board, next);
    minimaxScore := MinimaxHelpless(next, deeperHistory, depth - 1, helpless, speedPenalty + SpeedStep + penalty);
  }

  /// `helpless_minimax_strategy`: one entry per point and one for passing.
  /// A legal point gets the search value of the position after it, every
  /// other point −∞. The pass entry is searched the same way when the
  /// opponent has not passed; when it has, it is the final score if that is
  /// positive and −∞ otherwise.
  method HelplessMinimaxStrategy(board: Board, history: BoardHistory, opponentPassed: bool, helpless: Player)
    returns (result: seq<ExtReal>)
    requires WellFormed(board) && |board.board| <= UsizeBits
    ensures |result| == |board.board| + 1
    ensures forall p :: 0 <= p < |board.board| ==>
      result[p] == if p in LegalSet(board, Some(history)) then Fin(ReplyValue(board, helpless)) else NegInf
    ensures !opponentPassed ==> result[|board.board|] == Fin(ReplyValue(board, helpless))
    ensures opponentPassed ==> result[|board.board|] == if Outcome(board) > 0.0 then Fin(Outcome(board)) else NegInf
  {
    var len := |board.board|;
    result := seq(len + 1, _ => NegInf);
    var legalMoves := GetLegalMoves(board, Some(history));
    ghost var legal := legalMoves.Elements();
    var points := Drain(legalMoves);
    for i := 0 to |points|
      invariant |result| == len + 1 && result[len] == NegInf
      invariant forall p :: 0 <= p < len ==> result[p] == if p in points[..i] then Fin(ReplyValue(board, helpless)) else NegInf
    {
      var point := points[i];
      assert point in legal;
      var next := MakeMove(point, board);
      OutcomeIgnoresPlayer(board, next);
      var value := MinimaxHelpless(next, history, HelplessDepth, helpless, 0.0);
      result := result[point := Fin(value)];
      TakeStep(points, i);
    }
    assert points[..|points|] == points;
    if !opponentPassed {
      var next := PassMove(board);
      OutcomeIgnoresPlayer(board, next);
      var value := MinimaxHelpless(next, history, HelplessDepth, helpless, 0.0);
      result := result[len := Fin(value)];
    } else {
      var passResult := FinalScore.FinalScore(board);
      if passResult > 0.0 {
        result := result[len := Fin(passResult)];
      }
    }
  }
}
