/// lib.rs: the older entry point `get_analysis`, which marks each point
/// legal (3.5) or illegal (minus infinity) with the liberty-count
/// self-capture test and no superko test.
module LibAnalysis {
  import opened Wrappers
  import opened Arith
  import opened Players
  import opened PointStates
  import opened Boards
  import opened Groups
  import opened ExtReals
  import opened CountLiberties
  import opened SelfCapture
  import opened LegalMoves

  /// `usize::isqrt`: the largest root whose square does not exceed `n`.
  function Isqrt(n: nat): (r: nat)
    ensures r * r <= n < (r + 1) * (r + 1)
  {
    IsqrtFrom(n, 0)
  }

  function IsqrtFrom(n: nat, r: nat): (s: nat)
    requires r * r <= n
    ensures s * s <= n < (s + 1) * (s + 1)
    decreases n - r * r
  {
    if (r + 1) * (r + 1) <= n then IsqrtFrom(n, r + 1) else r
  }

  /// The root of a perfect square is its side.
  lemma IsqrtOfSquare(size: nat)
    ensures Isqrt(size * size) == size
  {
    RootUnique(Isqrt(size * size), size);
  }

  /// Only `size` lies between the roots of `size * size` and its successor.
  lemma RootUnique(r: nat, size: nat)
    requires r * r <= size * size < (r + 1) * (r + 1)
    ensures r == size
  {
    if r < size {
      SquareMono(r + 1, size);
    } else if r > size {
      SquareMono(size + 1, r);
    }
  }

  lemma SquareMono(a: nat, b: nat)
    requires a <= b
    ensures a * a <= b * b
  {
    MulMono(a, b, a);
    MulMono(a, b, b);
  }

  /// The verdict of lib.rs's `get_legal_moves` for one point: Empty and not
  /// self capture by liberty counts. Its `violates_superko` always answers
  /// false, so the history plays no part.
  ghost predicate LibLegal(activePlayer: Player, board: Board, point: nat)
    requires WellFormed(board) && point < |board.board|
  {
    BoardIsSquare(board);
    board.board[point] == Empty.AsU8() && !SelfCaptureByCount(board.board, board.size, activePlayer, point)
  }

  /// lib.rs's `get_legal_moves`: one verdict per point.
  method LibGetLegalMoves(activePlayer: Player, board: Board, history: BoardHistory) returns (result: seq<bool>)
    requires WellFormed(board)
    ensures |result| == |board.board|
    ensures forall p :: 0 <= p < |result| ==> (result[p] <==> LibLegal(activePlayer, board, p))
  {
    var cells := board.board;
    result := [];
    for point := 0 to |cells|
      invariant |result| == point
      invariant forall p :: 0 <= p < point ==> (result[p] <==> LibLegal(activePlayer, board, p))
    {
      if cells[point] != Empty.AsU8() {
        result := result + [false];
      } else {
        var selfCapture := ScanSelfCapture(activePlayer, point, board);
        if selfCapture {
          result := result + [false];
        } else {
          // `violates_superko` of lib.rs returns false.
          result := result + [true];
        }
      }
    }
  }

  /// The position the analysis looks at: the last element of the history,
  /// with side `isqrt(len)`, Black to move and no komi.
  function CurrentBoard(boardHistory: seq<seq<Byte>>): (b: Board)
    requires |boardHistory| > 0
    ensures b.board == boardHistory[|boardHistory| - 1] && b.player == Player.Black
    ensures b.size * b.size <= |b.board| < (b.size + 1) * (b.size + 1)
  {
    var current := boardHistory[|boardHistory| - 1];
    Board(current, Isqrt(|current|), Player.Black, 0.0)
  }

  /// `get_analysis`: exactly one value per point, 3.5 for a legal point and
  /// minus infinity otherwise, and no pass entry. The history must not be
  /// empty (`unwrap` of its last element), and its last board must be
  /// square.
  method GetAnalysis(boardHistory: seq<seq<Byte>>) returns (result: seq<ExtReal>)
    requires |boardHistory| > 0
    requires WellFormed(CurrentBoard(boardHistory))
    ensures |result| == |boardHistory[|boardHistory| - 1]|
    ensures forall p :: 0 <= p < |result| ==>
      result[p] == (if LibLegal(Player.Black, CurrentBoard(boardHistory), p) then Fin(3.5) else NegInf)
  {
    var history: BoardHistory := {};
    for i := 0 to |boardHistory|
      invariant history == set j | 0 <= j < i :: boardHistory[j]
    {
      history := history + {boardHistory[i]};
    }
    var board := CurrentBoard(boardHistory);
    var moves := LibGetLegalMoves(Player.Black, board, history);
    result := [];
    for p := 0 to |moves|
      invariant |result| == p
      invariant forall q :: 0 <= q < p ==> result[q] == (if moves[q] then Fin(3.5) else NegInf)
    {
      if moves[p] {
        result := result + [Fin(3.5)];
      } else {
        result := result + [NegInf];
      }
    }
  }

  /// Without a history the two legality rules agree: lib.rs's liberty-count
  /// rule for the side to move picks out exactly the points of
  /// get_legal_moves.rs.
  lemma LibLegalAgrees(board: Board, point: nat)
    requires WellFormed(board) && point < |board.board|
    ensures LibLegal(board.player, board, point) <==> point in LegalSet(board, None)
  {
    BoardIsSquare(board);
    if board.board[point] == Empty.AsU8() {
      SelfCaptureTestsAgree(board.board, board.size, board.player, point);
    }
  }
}
