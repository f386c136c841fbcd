/// get_legal_moves.rs: the legal points of a board as a `BitSet`, using the
/// atari test relative to the point played.
module LegalMoves {
  import opened Wrappers
  import opened Players
  import opened PointStates
  import opened Boards
  import opened Grid
  import opened Groups
  import opened BitSets
  import opened AdjacentPoints
  import opened CountLiberties
  import opened IsInAtari
  import opened Moves
  import opened SelfCapture

  /// The group through `a` has no liberty but `point`.
  ghost predicate AtariAt(cells: seq<int>, size: nat, a: nat, point: nat)
    requires Square(cells, size)
  {
    Liberties(cells, size, Group(cells, size, a)) <= {point}
  }

  /// Playing `point` takes the last liberty of a neighbouring enemy group.
  ghost predicate Captures(cells: seq<int>, size: nat, player: Player, point: nat)
    requires Square(cells, size) && point < |cells|
  {
    exists a :: a in Adjacent(point, size, |cells|) && EnemyInAtari(cells, size, player, a, point)
  }

  /// Point `a` holds an enemy stone whose group has no liberty but `point`.
  ghost predicate EnemyInAtari(cells: seq<int>, size: nat, player: Player, a: nat, point: nat)
    requires Square(cells, size)
  {
    a < |cells| && cells[a] == player.Not().AsU8() && AtariAt(cells, size, a, point)
  }

  /// Playing `point` is self capture by the atari test: no neighbour is
  /// Empty and every friendly neighbour's group has no liberty but `point`.
  /// Enemy neighbours are not looked at.
  ghost predicate SelfCaptureByAtari(cells: seq<int>, size: nat, player: Player, point: nat)
    requires Square(cells, size) && point < |cells|
  {
    forall a :: a in Adjacent(point, size, |cells|) ==>
      a < |cells| && cells[a] != Empty.AsU8() && (cells[a] == player.AsU8() ==> AtariAt(cells, size, a, point))
  }

  /// The legality rule: an Empty point that captures without repeating a
  /// position is legal; otherwise an Empty point is legal unless it is self
  /// capture.
  ghost predicate Legal(board: Board, history: Option<BoardHistory>, point: nat)
    requires WellFormed(board) && point < |board.board|
  {
    BoardIsSquare(board);
    && board.board[point] == Empty.AsU8()
    && ((Captures(board.board, board.size, board.player, point) && !ViolatesSuperkoIfKnown(point, board, history))
        || !SelfCaptureByAtari(board.board, board.size, board.player, point))
  }

  /// `captures_enemy_group`: some enemy neighbour is in atari relative to
  /// `point`.
  method CapturesEnemyGroup(point: nat, board: Board) returns (r: bool)
    requires WellFormed(board) && point < |board.board| <= UsizeBits
    ensures r <==> Captures(board.board, board.size, board.player, point)
  {
    var cells, size := board.board, board.size;
    BoardIsSquare(board);
    var adjacent := GetAdjacentPoints(point, board);
    AdjacentInBounds(cells, size, point);
    for i := 0 to |adjacent|
      invariant forall j :: 0 <= j < i ==> !EnemyInAtari(cells, size, board.player, adjacent[j], point)
    {
      var a := adjacent[i];
      assert a in adjacent;
      if cells[a] == board.player.Not().AsU8() {
        var atari := InAtari(a, board, point);
        if atari {
          assert EnemyInAtari(cells, size, board.player, a, point);
          return true;
        }
      }
      assert !EnemyInAtari(cells, size, board.player, a, point);
    }
    forall a | a in adjacent ensures !EnemyInAtari(cells, size, board.player, a, point) {
      var j :| 0 <= j < |adjacent| && adjacent[j] == a;
    }
    return false;
  }

  /// `is_self_capture` of get_legal_moves.rs.
  method IsSelfCaptureByAtari(point: nat, board: Board) returns (r: bool)
    requires WellFormed(board) && point < |board.board| <= UsizeBits
    ensures r <==> SelfCaptureByAtari(board.board, board.size, board.player, point)
  {
    var cells, size := board.board, board.size;
    BoardIsSquare(board);
    var adjacent := GetAdjacentPoints(point, board);
    AdjacentInBounds(cells, size, point);
    for i := 0 to |adjacent|
      invariant forall j :: 0 <= j < i ==>
        (&& adjacent[j] < |cells| && cells[adjacent[j]] != Empty.AsU8()
         && (cells[adjacent[j]] == board.player.AsU8() ==> AtariAt(cells, size, adjacent[j], point)))
    {
      var a := adjacent[i];
      assert a in adjacent;
      if cells[a] == Empty.AsU8() {
        return false;
      } else if cells[a] == board.player.AsU8() {
        var atari := InAtari(a, board, point);
        if !atari {
          return false;
        }
      }
    }
    forall a | a in adjacent
      ensures a < |cells| && cells[a] != Empty.AsU8() && (cells[a] == board.player.AsU8() ==> AtariAt(cells, size, a, point))
    {
      var j :| 0 <= j < |adjacent| && adjacent[j] == a;
    }
    return true;
  }

  /// The set of legal points.
  ghost function LegalSet(board: Board, history: Option<BoardHistory>): set<nat>
    requires WellFormed(board)
  {
    set p: nat | p < |board.board| && Legal(board, history, p)
  }

  /// The legal points below `k`.
  ghost function LegalBelow(board: Board, history: Option<BoardHistory>, k: nat): set<nat>
    requires WellFormed(board)
  {
    set p: nat | p < k && p < |board.board| && Legal(board, history, p)
  }

  lemma LegalBelowStep(board: Board, history: Option<BoardHistory>, k: nat)
    requires WellFormed(board) && k < |board.board|
    ensures LegalBelow(board, history, k + 1)
      == LegalBelow(board, history, k) + (if Legal(board, history, k) then {k} else {})
  {
  }

  /// `get_legal_moves`: the legal points as a new `BitSet`. The board must
  /// fit in one word.
  method GetLegalMoves(board: Board, history: Option<BoardHistory>) returns (result: BitSet)
    requires WellFormed(board) && |board.board| <= UsizeBits
    ensures fresh(result) && result.Valid()
    ensures result.Elements() == LegalSet(board, history)
  {
    var cells := board.board;
    result := new BitSet();
    for point := 0 to |cells|
      invariant result.Valid()
      invariant result.Elements() == LegalBelow(board, history, point)
    {
      InsertIfLegal(board, history, result, point);
      LegalBelowStep(board, history, point);
    }
    assert LegalBelow(board, history, |cells|) == LegalSet(board, history);
  }

  /// One step of that loop: `point` is added exactly when it is legal.
  method InsertIfLegal(board: Board, history: Option<BoardHistory>, result: BitSet, point: nat)
    requires WellFormed(board) && point < |board.board| <= UsizeBits && result.Valid()
    modifies result
    ensures result.Valid()
    ensures result.Elements() == old(result.Elements()) + (if Legal(board, history, point) then {point} else {})
  {
    var cells := board.board;
    if cells[point] != Empty.AsU8() {
    } else {
      var captures := CapturesEnemyGroup(point, board);
      if captures && !ViolatesSuperkoIfKnown(point, board, history) {
        result.Insert(point);
      } else {
        var selfCapture := IsSelfCaptureByAtari(point, board);
        if !selfCapture {
          result.Insert(point);
        }
      }
    }
  }

  /// A point is never legal when it holds a stone or is Offline.
  lemma OccupiedIsIllegal(board: Board, history: Option<BoardHistory>, point: nat)
    requires WellFormed(board) && point < |board.board| && board.board[point] != Empty.AsU8()
    ensures point !in LegalSet(board, history)
  {
  }

  /// Next to an Empty `point`, a stone's group has `point` as a liberty, so
  /// being in atari relative to `point` is having at most one liberty.
  lemma AtariAtIsCount(cells: seq<int>, size: nat, point: nat, a: nat)
    requires Square(cells, size) && point < |cells| && cells[point] == Empty.AsU8()
    requires a in Adjacent(point, size, |cells|) && a < |cells|
    ensures AtariAt(cells, size, a, point) <==> |Liberties(cells, size, Group(cells, size, a))| <= 1
  {
    AdjacentSymmetric(point, a, size);
    GroupContainsSelf(cells, size, a);
    assert point in Liberties(cells, size, Group(cells, size, a));
    AtariIsOneLiberty(Liberties(cells, size, Group(cells, size, a)), point);
  }

  /// The two self-capture tests agree on an Empty point: the liberty-count
  /// test of is_self_capture.rs is the atari test of get_legal_moves.rs
  /// together with "captures nothing".
  lemma SelfCaptureTestsAgree(cells: seq<int>, size: nat, player: Player, point: nat)
    requires Square(cells, size) && point < |cells| && cells[point] == Empty.AsU8()
    ensures SelfCaptureByCount(cells, size, player, point)
      <==> SelfCaptureByAtari(cells, size, player, point) && !Captures(cells, size, player, point)
  {
    AdjacentInBounds(cells, size, point);
    forall a | a in Adjacent(point, size, |cells|)
      ensures AtariAt(cells, size, a, point) <==> LibertyCount(cells, size, a) <= 1
    {
      AtariAtIsCount(cells, size, point, a);
    }
  }
}
