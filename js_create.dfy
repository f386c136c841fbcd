/// go.js: `createBoard`, the board built from the host's strings.
module JsCreate {
  import opened Wrappers
  import opened Arith
  import opened JsBoards
  import opened JsChains

  /// `color[x][y]`, `undefined` past the end of a string.
  function CharAt(color: seq<string>, x: nat, y: nat): Option<char>
    requires x < |color|
  {
    if y < |color[x]| then Some(color[x][y]) else None
  }

  /// The colour `createBoard` gives a character: `O` white, `X` black, `.`
  /// empty, anything else (and a missing character) `null`.
  function ColorOfChar(c: Option<char>): (r: Color)
    ensures r == White <==> c == Some('O')
    ensures r == Black <==> c == Some('X')
    ensures r == Empty <==> c == Some('.')
  {
    match c
    case Some('O') => White
    case Some('X') => Black
    case Some('.') => Empty
    case _ => NoColor
  }

  /// The entry `createBoard` makes for `(x, y)` before its chains are
  /// found: `null` for `#`, otherwise a record of that colour with no
  /// chain id and no liberties.
  function InitialCell(color: seq<string>, x: nat, y: nat): (c: Cell)
    requires x < |color|
    ensures c.None? <==> CharAt(color, x, y) == Some('#')
  {
    var ch := CharAt(color, x, y);
    if ch == Some('#') then None else Some(PointState(ColorOfChar(ch), NoChain, None))
  }

  /// The whole board before `updateChains`, column `x` at `x * n`.
  function Initial(color: seq<string>): (board: seq<Cell>)
    ensures Shaped(board, |color|)
  {
    var n := |color|;
    seq(n * n, i requires 0 <= i < n * n => RowBound(i, n); InitialCell(color, i / n, i % n))
  }

  /// Entry `x * n + y` of the board is the entry for `(x, y)`.
  lemma InitialAt(color: seq<string>, x: nat, y: nat)
    requires x < |color| && y < |color|
    ensures x * |color| + y < |Initial(color)| && Initial(color)[x * |color| + y] == InitialCell(color, x, y)
  {
    IndexBound(x, y, |color|);
    IndexOf(x, y, |color|);
  }

  /// `createBoard`: an `n` by `n` board for `n` strings, every record
  /// labelled with its chain. Only the characters decide the colours, and
  /// the board is settled.
  method CreateBoard(color: seq<string>) returns (board: array<Cell>, n: nat)
    ensures n == |color| && fresh(board) && Shaped(board[..], n)
    ensures SameColors(board[..], Initial(color)) && Settled(board[..], n)
  {
    n := |color|;
    board := new Cell[n * n];
    for x := 0 to n
      invariant forall i :: 0 <= i < x * n && i < board.Length ==> board[i] == Initial(color)[i]
    {
      for y := 0 to n
        invariant forall i :: 0 <= i < x * n + y && i < board.Length ==> board[i] == Initial(color)[i]
      {
        IndexBound(x, y, n);
        InitialAt(color, x, y);
        var ch := if y < |color[x]| then Some(color[x][y]) else None;
        if ch != Some('#') {
          var pointState := PointState(NoColor, NoChain, None);
          if ch == Some('O') {
            pointState := pointState.(color := White);
          } else if ch == Some('X') {
            pointState := pointState.(color := Black);
          } else if ch == Some('.') {
            pointState := pointState.(color := Empty);
          }
          board[x * n + y] := Some(pointState);
        } else {
          board[x * n + y] := None;
        }
      }
      assert x * n + n == (x + 1) * n;
    }
    assert board[..] == Initial(color);
    UpdateChains(board, n, true);
  }
}
