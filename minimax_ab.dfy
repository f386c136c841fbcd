/// minimax_ab_strategy.rs: a depth-7 alpha-beta search scored with
/// `final_score`. Because `make_move` places no stone, every position the
/// search reaches has the points of the root, so the search value is the
/// root's final score at every depth, whatever the pruning does.
module MinimaxAb {
  import opened Wrappers
  import opened ExtReals
  import opened Players
  import opened Boards
  import opened Groups
  import opened BitSets
  import opened CountLiberties
  import opened Moves
  import opened LegalMoves
  import opened FinalScore

  /// The Empty points of a board.
  ghost function EmptyPoints(cells: seq<int>): set<nat>
  {
    set p: nat | p < |cells| && cells[p] == EmptyCode
  }

  /// `get_points_in_territory`: the union of the regions flooded from every
  /// Empty point not yet covered. The flood's verdict is thrown away, so the
  /// result is every Empty point, for either player.
  method GetPointsInTerritory(board: Board, player: Player) returns (territory: BitSet)
    requires WellFormed(board) && |board.board| <= UsizeBits
    ensures fresh(territory) && territory.Valid()
    ensures territory.Elements() == EmptyPoints(board.board)
  {
    var cells := board.board;
    territory := new BitSet();
    var seenStones := if player == Player.Black then SeenStones.Black else SeenStones.White;
    for point := 0 to |cells|
      invariant fresh(territory) && territory.Valid()
      invariant forall q :: q in territory.Elements() ==> q < |cells| && cells[q] == EmptyCode
      invariant forall q: nat :: q < point && cells[q] == EmptyCode ==> q in territory.Elements()
    {
      if cells[point] == EmptyCode && !territory.Contains(point) {
        BoardIsSquare(board);
        var group := new BitSet();
        var value, seen := ScoreGroupTerritory(point, board, group, seenStones);
        seenStones := seen;
        forall q | q in group.Elements() ensures q < |cells| && cells[q] == EmptyCode {
          GroupValue(cells, board.size, point, q);
        }
        territory.UnionWith(group);
      }
    }
    assert territory.Elements() == EmptyPoints(cells);
  }

  /// A point White searches: a legal point that captures.
  ghost predicate WhiteSearched(board: Board, history: BoardHistory, p: nat)
    requires WellFormed(board)
  {
    && p < |board.board|
    && (BoardIsSquare(board); Legal(board, Some(history), p) && Captures(board.board, board.size, board.player, p))
  }

  /// The points below `k` that White searches.
  ghost function SearchedBelow(board: Board, history: BoardHistory, k: nat): set<nat>
    requires WellFormed(board)
  {
    set p: nat | p < k && WhiteSearched(board, history, p)
  }

  lemma SearchedStep(board: Board, history: BoardHistory, k: nat)
    requires WellFormed(board)
    ensures SearchedBelow(board, history, k + 1)
      == SearchedBelow(board, history, k) + (if WhiteSearched(board, history, k) then {k} else {})
  {
  }

  /// The loop of White's move list that keeps the capturing legal moves.
  method CaptureMoves(board: Board, history: BoardHistory, legalMoves: BitSet) returns (captureMoves: BitSet)
    requires WellFormed(board) && |board.board| <= UsizeBits
    requires legalMoves.Valid() && legalMoves.Elements() == LegalSet(board, Some(history))
    ensures fresh(captureMoves) && captureMoves.Valid()
    ensures forall p: nat :: p in captureMoves.Elements() <==> WhiteSearched(board, history, p)
  {
    captureMoves := new BitSet();
    for point := 0 to |board.board|
      invariant captureMoves.Valid() && fresh(captureMoves)
      invariant captureMoves.Elements() == SearchedBelow(board, history, point)
    {
      KeepIfCapture(board, history, legalMoves, captureMoves, point);
      SearchedStep(board, history, point);
    }
    forall p: nat ensures p in captureMoves.Elements() <==> WhiteSearched(board, history, p) {
      assert p in SearchedBelow(board, history, |board.board|) <==> p < |board.board| && WhiteSearched(board, history, p);
    }
  }

  /// One step of that loop: `point` is added when it is legal and captures.
  method KeepIfCapture(board: Board, history: BoardHistory, legalMoves: BitSet, captureMoves: BitSet, point: nat)
    requires WellFormed(board) && point < |board.board| <= UsizeBits
    requires legalMoves.Valid() && legalMoves.Elements() == LegalSet(board, Some(history))
    requires captureMoves.Valid() && captureMoves != legalMoves
    modifies captureMoves
    ensures captureMoves.Valid()
    ensures captureMoves.Elements() == old(captureMoves.Elements()) + (if WhiteSearched(board, history, point) then {point} else {})
  {
    if legalMoves.Contains(point) {
      var captures := CapturesEnemyGroup(point, board);
      if captures {
        captureMoves.Insert(point);
      }
    }
  }

  /// White's move list: the legal moves outside Black's territory, plus
  /// the legal moves that capture. The territory is every Empty point and
  /// every legal point is Empty, so only the capturing moves are left.
  method WhiteCandidates(board: Board, history: BoardHistory) returns (moves: BitSet)
    requires WellFormed(board) && |board.board| <= UsizeBits
    ensures fresh(moves) && moves.Valid()
    ensures forall p: nat :: p in moves.Elements() <==> WhiteSearched(board, history, p)
  {
    moves := GetLegalMoves(board, Some(history));
    ghost var legal := moves.Elements();
    var captureMoves := CaptureMoves(board, history, moves);
    var territory := GetPointsInTerritory(board, Player.Black);
    forall p | p in legal ensures p in territory.Elements() {
    }
    var outside := territory.Complement();
    moves.IntersectWith(outside);
    assert moves.Elements() == {};
    moves.UnionWith(captureMoves);
  }

  /// `minimax_alphabeta`: below depth 1 the final score; otherwise Black
  /// maximises and White minimises over its move list, starting from the
  /// current score and stopping once `beta <= alpha`.
  method MinimaxAlphaBeta(board: Board, history: BoardHistory, depth: nat, alpha: ExtReal, beta: ExtReal)
    returns (r: real)
    requires WellFormed(board) && |board.board| <= UsizeBits
    ensures r == Outcome(board)
    decreases depth
  {
    if depth < 1 {
      r := FinalScore.FinalScore(board);
      return;
    }
    var deeperHistory := history + {board.board};
    var alpha, beta := alpha, beta;
    var bestScore := FinalScore.FinalScore(board);
    if board.player == Player.Black {
      var legalMoves := GetLegalMoves(board, Some(history));
      var points := Drain(legalMoves);
      for i := 0 to |points|
        invariant bestScore == Outcome(board)
      {
        var next := MakeMove(points[i], board);
        OutcomeIgnoresPlayer(board, next);
        var minimaxScore := MinimaxAlphaBeta(next, deeperHistory, depth - 1, alpha, beta);
        bestScore := if bestScore >= minimaxScore then bestScore else minimaxScore;
        alpha := Max(alpha, Fin(bestScore));
        if Le(beta, alpha) {
          break;
        }
      }
    } else {
      var legalMoves := WhiteCandidates(board, history);
      var points := Drain(legalMoves);
      for i := 0 to |points|
        invariant bestScore == Outcome(board)
      {
        var next := MakeMove(points[i], board);
        OutcomeIgnoresPlayer(board, next);
        var minimaxScore := MinimaxAlphaBeta(next, deeperHistory, depth - 1, alpha, beta);
        bestScore := if bestScore <= minimaxScore then bestScore else minimaxScore;
        beta := Min(beta, Fin(bestScore));
        if Le(beta, alpha) {
          break;
        }
      }
    }
    return bestScore;
  }

  /// The search depth of `minimax_ab_strategy`.
  const MinimaxDepth: nat := 7

  /// `minimax_ab_strategy`: one entry per point and one for passing. A
  /// legal point gets the search value of the position after it, every
  /// other point −∞; the pass entry is the final score when that is
  /// positive (searched after a pass when the opponent has not passed, the
  /// score itself when it has) and −∞ otherwise.
  method MinimaxAbStrategy(board: Board, history: BoardHistory, opponentPassed: bool) returns (result: seq<ExtReal>)
    requires WellFormed(board) && |board.board| <= UsizeBits
    ensures |result| == |board.board| + 1
    ensures forall p :: 0 <= p < |board.board| ==>
      result[p] == if p in LegalSet(board, Some(history)) then Fin(Outcome(board)) else NegInf
    ensures result[|board.board|] == if Outcome(board) > 0.0 then Fin(Outcome(board)) else NegInf
  {
    var len := |board.board|;
    result := seq(len + 1, _ => NegInf);
    var legalMoves := GetLegalMoves(board, Some(history));
    ghost var legal := legalMoves.Elements();
    var points := Drain(legalMoves);
    for i := 0 to |points|
      invariant |result| == len + 1 && result[len] == NegInf
      invariant forall p :: 0 <= p < len ==> result[p] == if p in points[..i] then Fin(Outcome(board)) else NegInf
    {
      var point := points[i];
      assert point in legal;
      var next := MakeMove(point, board);
      OutcomeIgnoresPlayer(board, next);
      var value := MinimaxAlphaBeta(next, history, MinimaxDepth, NegInf, PosInf);
      result := result[point := Fin(value)];
      TakeStep(points, i);
    }
    assert points[..|points|] == points;
    var resultScore := FinalScore.FinalScore(board);
    if !opponentPassed {
      if resultScore > 0.0 {
        var next := PassMove(board);
        OutcomeIgnoresPlayer(board, next);
        var value := MinimaxAlphaBeta(next, history, MinimaxDepth, NegInf, PosInf);
        result := result[len := Fin(value)];
      }
    } else {
      if resultScore > 0.0 {
        result := result[len := Fin(resultScore)];
      }
    }
  }
}
