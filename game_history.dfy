/// Game.ts: one game against the host. The object keeps every board seen
/// and whether the opponent passed last. The host's calls are inputs:
/// what `ns.go.makeMove` and `ns.go.passTurn` answer, and the boards
/// `getBoardFromAPI` reads afterwards.
module GameHistory {
  import opened Wrappers
  import opened Boards
  import opened HostBoards

  /// `CurrentTurn` of getCurrentTurn.ts.
  datatype CurrentTurn = Inactive | Black | White

  /// The opponent's answer: its `type` and coordinates.
  datatype OpponentMove = OpponentMove(kind: string, x: Option<int>, y: Option<int>)

  /// How the host's `makeMove` call goes: it throws at once, its promise is
  /// rejected after the first board was read, or the opponent answers.
  datatype HostMove = ThrowsAtCall(error: string) | RejectsLater(error: string) | Replies(reply: OpponentMove)

  /// The opponent placed a stone.
  predicate Answered(m: OpponentMove)
  {
    m.kind == "move" && m.x.Some? && m.y.Some?
  }

  /// The marker the host puts before the reason a move was refused.
  const Marker: string := "go.makeMove: "

  predicate MarkerAt(e: string, k: nat)
  {
    k + |Marker| <= |e| && e[k..k + |Marker|] == Marker
  }

  /// The last start of the marker below `n`.
  function LastMarker(e: string, n: nat): (r: Option<nat>)
    ensures r.Some? ==> r.value < n && MarkerAt(e, r.value) && forall j :: r.value < j < n ==> !MarkerAt(e, j)
    ensures r.None? ==> forall j :: 0 <= j < n ==> !MarkerAt(e, j)
  {
    if n == 0 then None else if MarkerAt(e, n - 1) then Some(n - 1) else LastMarker(e, n - 1)
  }

  /// A character `.` does not match in a JavaScript regular expression.
  predicate LineTerminator(c: char)
  {
    c == '\n' || c == '\r' || c == '\U{2028}' || c == '\U{2029}'
  }

  /// The end of the line that starts at `k`.
  function LineEnd(e: string, k: nat): (r: nat)
    requires k <= |e|
    ensures k <= r <= |e| && (r == |e| || LineTerminator(e[r]))
    ensures forall j :: k <= j < r ==> !LineTerminator(e[j])
    decreases |e| - k
  {
    if k == |e| || LineTerminator(e[k]) then k else LineEnd(e, k + 1)
  }

  /// `e.replace(/[\s\S]*go\.makeMove: (.*)[\s\S]*/, "$1")`: the text after
  /// the last marker up to the end of its line, or `e` itself when the
  /// marker does not occur.
  function ErrorText(e: string): (s: string)
    ensures (forall j :: 0 <= j < |e| ==> !MarkerAt(e, j)) ==> s == e
    ensures (exists j :: 0 <= j < |e| && MarkerAt(e, j)) ==>
      (exists k :: (0 <= k && MarkerAt(e, k) && (forall j :: k < j < |e| ==> !MarkerAt(e, j))
        && s == e[k + |Marker|..LineEnd(e, k + |Marker|)]))
    ensures (exists j :: 0 <= j < |e| && MarkerAt(e, j)) ==> forall j :: 0 <= j < |s| ==> !LineTerminator(s[j])
  {
    match LastMarker(e, |e|)
    case None => e
    case Some(k) => e[k + |Marker|..LineEnd(e, k + |Marker|)]
  }

  lemma {:induction false} LastMarkerIs(e: string, n: nat, k: nat)
    requires k < n && MarkerAt(e, k) && forall j :: k < j < n ==> !MarkerAt(e, j)
    ensures LastMarker(e, n) == Some(k)
  {
    if n - 1 != k {
      LastMarkerIs(e, n - 1, k);
    }
  }

  lemma {:induction false} LineEndIs(e: string, k: nat, r: nat)
    requires k <= r <= |e| && (r == |e| || LineTerminator(e[r])) && forall j :: k <= j < r ==> !LineTerminator(e[j])
    ensures LineEnd(e, k) == r
    decreases r - k
  {
    if k < r {
      LineEndIs(e, k + 1, r);
    }
  }

  lemma MarkerHead(e: string, j: nat)
    ensures MarkerAt(e, j) ==> e[j] == 'g'
  {
    if MarkerAt(e, j) {
      assert e[j] == e[j..j + |Marker|][0];
    }
  }

  /// The message of a move the host refuses because the point is taken.
  const ExampleError: string := "ERROR\n" + Marker + ExampleReason

  const ExampleReason: string := "occupied\nStack:"

  lemma ExampleMarker()
    ensures LastMarker(ExampleError, |ExampleError|) == Some(6)
  {
    var e := ExampleError;
    assert e[6..6 + |Marker|] == Marker;
    forall j | 6 < j < |e| ensures !MarkerAt(e, j) {
      NoLaterMarker(j);
    }
    LastMarkerIs(e, |e|, 6);
  }

  /// No marker starts after the one at 6: inside that marker no later
  /// character is a `g`, and past it the marker does not fit before a
  /// character that is not one.
  lemma NoLaterMarker(j: nat)
    requires 6 < j < |ExampleError|
    ensures !MarkerAt(ExampleError, j)
  {
    var e := ExampleError;
    MarkerHead(e, j);
    if MarkerAt(e, j) {
      if j < 6 + |Marker| {
        assert e[j] == Marker[j - 6];
        SingleG(j - 6);
      }
    }
  }

  /// The marker has one `g`, its first character.
  lemma SingleG(k: nat)
    requires 0 < k < |Marker|
    ensures Marker[k] != 'g'
  {
  }

  /// A refused move's message, trimmed to its reason.
  lemma ErrorTextExample()
    ensures ErrorText(ExampleError) == "occupied"
  {
    ExampleMarker();
    LineEndIs(ExampleError, 19, 27);
    assert ExampleError[19..27] == "occupied";
  }

  class Game {
    const boardSize: nat
    const komi: real
    var boardHistory: seq<seq<Byte>>
    var turn: CurrentTurn
    var opponentPassed: bool

    /// There is always a current board.
    ghost predicate Valid()
      reads this
    {
      |boardHistory| > 0
    }

    /// The constructor, given the host's board and komi: the history holds
    /// that one board, Black is to move and nobody has passed.
    constructor(boardSize: nat, initial: seq<Byte>, komi: real)
      ensures Valid() && boardHistory == [initial] && turn == Black && !opponentPassed
      ensures this.boardSize == boardSize && this.komi == komi
    {
      this.boardSize := boardSize;
      this.komi := komi;
      boardHistory := [initial];
      turn := Black;
      opponentPassed := false;
    }

    /// `getBoard`: the last board of the history.
    function GetBoard(): (b: seq<Byte>)
      reads this
      requires Valid()
      ensures b in boardHistory && b == boardHistory[|boardHistory| - 1]
    {
      boardHistory[|boardHistory| - 1]
    }

    /// `getPoint(row, column)`: entry `boardSize * row + column` of the
    /// current board, `undefined` (None) off its end.
    function GetPoint(row: nat, column: nat): (p: Option<Byte>)
      reads this
      requires Valid()
      ensures p.Some? <==> boardSize * row + column < |GetBoard()|
      ensures p.Some? ==> p.value == GetBoard()[boardSize * row + column]
    {
      var i := boardSize * row + column;
      if i < |GetBoard()| then Some(GetBoard()[i]) else None
    }

    /// On a board read from the host, `getPoint(row, column)` is character
    /// `row` of the host's string `column`: the host's strings are columns.
    lemma GetPointOfHostBoard(rows: seq<string>, row: nat, column: nat)
      requires Valid() && GetBoard() == HostBoard(rows) && boardSize == |rows| && HostValid(rows)
      requires row < boardSize && column < boardSize && row < |rows[column]|
      ensures GetPoint(row, column) == Some(BoardFromString.CharCode(rows[column][row]).value)
    {
      Transposed(rows, column, row);
    }

    /// `makeMove(row, column)`: the host is called with (column, row). A
    /// call that throws records nothing; otherwise the board after the move
    /// is appended, and the board after the opponent's answer is appended
    /// too when the opponent placed a stone. A pass sets `opponentPassed`,
    /// a stone clears it, any other answer leaves it. A failure is shown
    /// as its reason and not raised again.
    method MakeMove(row: int, column: int, host: HostMove, boardAfterBlackMoved: seq<Byte>, boardAfterWhiteMoved: seq<Byte>)
      returns (hostCall: (int, int), toast: Option<string>)
      requires Valid()
      modifies this
      ensures Valid() && turn == old(turn)
      ensures hostCall == (column, row)
      ensures host.ThrowsAtCall? ==>
        boardHistory == old(boardHistory) && opponentPassed == old(opponentPassed) && toast == Some(ErrorText(host.error))
      ensures host.RejectsLater? ==>
        boardHistory == old(boardHistory) + [boardAfterBlackMoved] && opponentPassed == old(opponentPassed)
        && toast == Some(ErrorText(host.error))
      ensures host.Replies? && Answered(host.reply) ==>
        boardHistory == old(boardHistory) + [boardAfterBlackMoved, boardAfterWhiteMoved] && !opponentPassed && toast == None
      ensures host.Replies? && !Answered(host.reply) ==>
        boardHistory == old(boardHistory) + [boardAfterBlackMoved] && toast == None
        && opponentPassed == (if host.reply.kind == "pass" then true else old(opponentPassed))
    {
      hostCall := (column, row);
      match host
      case ThrowsAtCall(e) =>
        return hostCall, Some(ErrorText(e));
      case RejectsLater(e) =>
        boardHistory := boardHistory + [boardAfterBlackMoved];
        return hostCall, Some(ErrorText(e));
      case Replies(opponentMove) =>
        boardHistory := boardHistory + [boardAfterBlackMoved];
        if Answered(opponentMove) {
          opponentPassed := false;
          boardHistory := boardHistory + [boardAfterWhiteMoved];
        } else if opponentMove.kind == "pass" {
          opponentPassed := true;
        }
        return hostCall, None;
    }

    /// `passTurn`: the board after the opponent's answer is appended only
    /// when the opponent placed a stone; `opponentPassed` is left alone;
    /// the game is over when the host has no current player.
    method PassTurn(opponentMove: OpponentMove, boardAfterWhiteMoved: seq<Byte>, currentPlayer: string)
      returns (gameOver: bool)
      requires Valid()
      modifies this
      ensures Valid() && turn == old(turn) && opponentPassed == old(opponentPassed)
      ensures boardHistory == old(boardHistory) + (if Answered(opponentMove) then [boardAfterWhiteMoved] else [])
      ensures gameOver <==> currentPlayer == "None"
    {
      if Answered(opponentMove) {
        boardHistory := boardHistory + [boardAfterWhiteMoved];
      }
      if currentPlayer == "None" {
        return true;
      }
      return false;
    }
  }
}
