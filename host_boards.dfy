/// getBoardFromAPI.ts and game.ts: the host's board, one string per column,
/// transposed into the flat layout. Character `j` of string `i` is the
/// point `j * size + i`.
module HostBoards {
  import opened Wrappers
  import opened Arith
  import opened Boards
  import opened BoardFromString
  import opened Decimal

  /// Every character of every string is a board character.
  predicate HostValid(rows: seq<string>)
  {
    forall i, j :: 0 <= i < |rows| && 0 <= j < |rows[i]| ==> CharCode(rows[i][j]).Some?
  }

  /// Point `idx` of the host's board: character `idx / size` of string
  /// `idx % size`, or 0 when that string is too short.
  function HostCell(rows: seq<string>, idx: nat): Byte
    requires idx < |rows| * |rows|
  {
    var size := |rows|;
    var i, j := idx % size, idx / size;
    if j < |rows[i]| && CharCode(rows[i][j]).Some? then CharCode(rows[i][j]).value else 0
  }

  /// The board the host's strings describe.
  function HostBoard(rows: seq<string>): (b: seq<Byte>)
    ensures |b| == |rows| * |rows|
  {
    seq(|rows| * |rows|, idx requires 0 <= idx < |rows| * |rows| => HostCell(rows, idx))
  }

  /// Character `j` of string `i` goes to point `j * size + i`.
  lemma Transposed(rows: seq<string>, i: nat, j: nat)
    requires HostValid(rows) && i < |rows| && j < |rows| && j < |rows[i]|
    ensures j * |rows| + i < |rows| * |rows|
    ensures HostBoard(rows)[j * |rows| + i] == CharCode(rows[i][j]).value
  {
    IndexBound(j, i, |rows|);
    IndexOf(j, i, |rows|);
  }

  /// On square input every point is written: none stays 0.
  lemma SquareFillsEveryPoint(rows: seq<string>, idx: nat)
    requires HostValid(rows) && idx < |rows| * |rows|
    requires forall i :: 0 <= i < |rows| ==> |rows[i]| == |rows|
    ensures HostBoard(rows)[idx] != 0
  {
    RowBound(idx, |rows|);
  }

  /// The message of the exception on a character that is not a board
  /// character.
  function InvalidPointMessage(point: char, position: int): string
  {
    "Invalid point data " + [point] + " at position " + IntToString(position)
  }

  /// The loop has read string `i` up to character `j` when `(i, j)` comes
  /// before `(row, column)` in reading order.
  predicate ReadBefore(i: int, j: int, row: int, column: int)
  {
    i < row || (i == row && j < column)
  }

  /// Character `j` of string `i` is the first character, in reading order,
  /// that is not a board character.
  predicate FirstInvalid(rows: seq<string>, i: int, j: int)
  {
    && 0 <= i < |rows| && 0 <= j < |rows[i]| && CharCode(rows[i][j]).None?
    && forall i', j' :: 0 <= i' < |rows| && 0 <= j' < |rows[i']| && ReadBefore(i', j', i, j) ==> CharCode(rows[i'][j']).Some?
  }

  /// There is at most one first invalid character.
  lemma FirstInvalidUnique(rows: seq<string>, i: int, j: int, k: int, l: int)
    requires FirstInvalid(rows, i, j) && FirstInvalid(rows, k, l)
    ensures i == k && j == l
  {
  }

  /// Strings that are not all valid have a first invalid character.
  lemma {:induction false} FirstInvalidExists(rows: seq<string>)
    requires !HostValid(rows)
    ensures exists i, j :: FirstInvalid(rows, i, j)
  {
    var i, j :| 0 <= i < |rows| && 0 <= j < |rows[i]| && CharCode(rows[i][j]).None?;
    var k, l := FirstInvalidFrom(rows, i, j);
  }

  /// The first invalid character at or before an invalid character `(i, j)`.
  lemma {:induction false} FirstInvalidFrom(rows: seq<string>, i: nat, j: nat) returns (k: nat, l: nat)
    requires i < |rows| && j < |rows[i]| && CharCode(rows[i][j]).None?
    ensures FirstInvalid(rows, k, l)
    decreases i, j
  {
    if i' :| 0 <= i' < i && exists j' :: 0 <= j' < |rows[i']| && CharCode(rows[i'][j']).None? {
      var j' :| 0 <= j' < |rows[i']| && CharCode(rows[i'][j']).None?;
      k, l := FirstInvalidFrom(rows, i', j');
    } else if j' :| 0 <= j' < j && CharCode(rows[i][j']).None? {
      k, l := FirstInvalidFrom(rows, i, j');
    } else {
      k, l := i, j;
    }
  }

  /// The strings read so far are valid and `buffer` holds their points;
  /// every other point is still 0.
  ghost predicate Partial(buffer: seq<Byte>, rows: seq<string>, row: nat, column: nat)
  {
    && |buffer| == |rows| * |rows|
    && (forall i, j :: 0 <= i < |rows| && 0 <= j < |rows[i]| && ReadBefore(i, j, row, column) ==> CharCode(rows[i][j]).Some?)
    && (forall idx :: 0 <= idx < |buffer| ==>
          buffer[idx] == if ReadBefore(idx % |rows|, idx / |rows|, row, column) then HostCell(rows, idx) else 0)
  }

  /// The loop stops at the first invalid character.
  lemma StopsAtFirstInvalid(buffer: seq<Byte>, rows: seq<string>, i: nat, j: nat)
    requires i < |rows| && j < |rows[i]| && CharCode(rows[i][j]).None? && Partial(buffer, rows, i, j)
    ensures FirstInvalid(rows, i, j)
  {
  }

  /// Writing a valid character `j` of string `i` at `j * size + i`, when
  /// that is a point, reads one more character.
  lemma WriteStep(buffer: seq<Byte>, rows: seq<string>, i: nat, j: nat)
    requires i < |rows| && j < |rows[i]| && CharCode(rows[i][j]).Some? && Partial(buffer, rows, i, j)
    ensures Partial(if j * |rows| + i < |rows| * |rows| then buffer[j * |rows| + i := CharCode(rows[i][j]).value] else buffer,
                    rows, i, j + 1)
  {
    var size := |rows|;
    var target := j * size + i;
    var next := if target < size * size then buffer[target := CharCode(rows[i][j]).value] else buffer;
    forall idx | 0 <= idx < size * size
      ensures next[idx] == if ReadBefore(idx % size, idx / size, i, j + 1) then HostCell(rows, idx) else 0
    {
      WriteStepAt(buffer, rows, i, j, idx);
    }
  }

  /// The point `idx` after that write.
  lemma WriteStepAt(buffer: seq<Byte>, rows: seq<string>, i: nat, j: nat, idx: nat)
    requires i < |rows| && j < |rows[i]| && CharCode(rows[i][j]).Some? && Partial(buffer, rows, i, j)
    requires idx < |rows| * |rows|
    ensures var target := j * |rows| + i;
      var next := if target < |rows| * |rows| then buffer[target := CharCode(rows[i][j]).value] else buffer;
      next[idx] == if ReadBefore(idx % |rows|, idx / |rows|, i, j + 1) then HostCell(rows, idx) else 0
  {
    var size := |rows|;
    SameIndex(idx, i, j, size);
    if idx == j * size + i {
      assert HostCell(rows, idx) == CharCode(rows[i][j]).value;
    }
  }

  /// A point of the board is `j * size + i` exactly when it is character `j`
  /// of string `i`.
  lemma SameIndex(idx: nat, i: nat, j: nat, size: nat)
    requires i < size
    ensures idx == j * size + i <==> (idx % size == i && idx / size == j)
  {
    if idx == j * size + i {
      DivModUnique(idx, size, j, i);
    }
  }

  /// Finishing one string and starting the next.
  lemma NextRow(buffer: seq<Byte>, rows: seq<string>, i: nat)
    requires i < |rows| && Partial(buffer, rows, i, |rows[i]|)
    ensures Partial(buffer, rows, i + 1, 0)
  {
    var size := |rows|;
    forall idx | 0 <= idx < size * size
      ensures buffer[idx] == if ReadBefore(idx % size, idx / size, i + 1, 0) then HostCell(rows, idx) else 0
    {
      NextRowAt(buffer, rows, i, idx);
    }
  }

  /// The point `idx` when string `i` is finished.
  lemma NextRowAt(buffer: seq<Byte>, rows: seq<string>, i: nat, idx: nat)
    requires i < |rows| && Partial(buffer, rows, i, |rows[i]|) && idx < |rows| * |rows|
    ensures buffer[idx] == if ReadBefore(idx % |rows|, idx / |rows|, i + 1, 0) then HostCell(rows, idx) else 0
  {
    var size := |rows|;
    if idx % size == i && idx / size >= |rows[i]| {
      assert HostCell(rows, idx) == 0;
    }
  }

  /// After the last string the buffer is the host board.
  lemma AllRead(buffer: seq<Byte>, rows: seq<string>)
    requires Partial(buffer, rows, |rows|, 0)
    ensures HostValid(rows) && buffer == HostBoard(rows)
  {
    var size := |rows|;
    forall idx | 0 <= idx < size * size ensures buffer[idx] == HostBoard(rows)[idx] {
      RowBound(idx, size);
    }
  }

  /// `board[pointNumber] = code` for character `j` of string `i`: the
  /// write lands only when the index is on the board, as a `Uint8Array`
  /// ignores any other.
  method WritePoint(board: array<Byte>, rows: seq<string>, i: nat, j: nat, pointNumber: int, code: Byte)
    requires board.Length == |rows| * |rows| && i < |rows| && j < |rows[i]|
    requires CharCode(rows[i][j]) == Some(code) && pointNumber == j * |rows| + i
    requires Partial(board[..], rows, i, j)
    modifies board
    ensures Partial(board[..], rows, i, j + 1)
  {
    WriteStep(board[..], rows, i, j);
    MulNonNegative(j, |rows|);
    ghost var before := board[..];
    if pointNumber < board.Length {
      board[pointNumber] := code;
      assert board[..] == before[pointNumber := code];
    }
  }

  /// `getBoardFromAPI`, on the strings the host returned: the transposed
  /// board, or an exception naming the first character, in reading order,
  /// that is not a board character. A string longer than the board writes past its end, which a
  /// `Uint8Array` ignores.
  method GetBoardFromApi(rows: seq<string>) returns (r: Result<seq<Byte>>)
    ensures r.Ok? <==> HostValid(rows)
    ensures r.Ok? ==> r.value == HostBoard(rows)
    ensures r.Err? ==> exists i, j :: FirstInvalid(rows, i, j) && r.error == InvalidPointMessage(rows[i][j], j * |rows| + i)
  {
    var boardSize := |rows|;
    var board := new Byte[boardSize * boardSize](_ => 0);
    for row := 0 to |rows|
      invariant board.Length == boardSize * boardSize
      invariant Partial(board[..], rows, row, 0)
    {
      var str := rows[row];
      for column := 0 to |str|
        invariant board.Length == boardSize * boardSize
        invariant Partial(board[..], rows, row, column)
      {
        var pointNumber := column * boardSize + row;
        var point := str[column];
        match CharCode(point)
        case None =>
          StopsAtFirstInvalid(board[..], rows, row, column);
          return Err(InvalidPointMessage(point, pointNumber));
        case Some(code) =>
          WritePoint(board, rows, row, column, pointNumber, code);
      }
      NextRow(board[..], rows, row);
    }
    AllRead(board[..], rows);
    return Ok(board[..]);
  }

  /// The constructor of game.ts's `Game`: only five strings are accepted,
  /// and the strings are read as `getBoardFromAPI` reads them, with a row
  /// counter that starts at 1. Its error message gives `row * column - 1`
  /// as the position, not the index written.
  method FiveByFive(rows: seq<string>) returns (r: Result<seq<Byte>>)
    ensures r.Ok? <==> |rows| == 5 && HostValid(rows)
    ensures r.Ok? ==> r.value == HostBoard(rows)
    ensures |rows| != 5 ==> r == Err("Only 5x5 boards are currently supported")
    ensures |rows| == 5 && r.Err? ==> exists i, j :: FirstInvalid(rows, i, j) && r.error == InvalidPointMessage(rows[i][j], (i + 1) * j - 1)
  {
    var boardSize := |rows|;
    if boardSize != 5 {
      return Err("Only 5x5 boards are currently supported");
    }
    r := ReadFive(rows);
  }

  /// The reading loop of that constructor, on five strings.
  method ReadFive(rows: seq<string>) returns (r: Result<seq<Byte>>)
    requires |rows| == 5
    ensures r.Ok? <==> HostValid(rows)
    ensures r.Ok? ==> r.value == HostBoard(rows)
    ensures r.Err? ==> exists i, j :: FirstInvalid(rows, i, j) && r.error == InvalidPointMessage(rows[i][j], (i + 1) * j - 1)
  {
    var state := new Byte[25](_ => 0);
    var row := 1;
    for i := 0 to |rows|
      invariant row == i + 1
      invariant state.Length == 25
      invariant Partial(state[..], rows, i, 0)
    {
      var failure := ReadFiveString(state, rows, i, row);
      if failure.Some? {
        return Err(failure.value);
      }
      NextRow(state[..], rows, i);
      row := row + 1;
    }
    AllRead(state[..], rows);
    return Ok(state[..]);
  }

  /// The inner loop of that constructor, over string `i`, read as row
  /// `row`: the message at the first invalid character, or the string
  /// read.
  method ReadFiveString(state: array<Byte>, rows: seq<string>, i: nat, row: int) returns (failure: Option<string>)
    requires |rows| == 5 && i < 5 && row == i + 1 && state.Length == 25
    requires Partial(state[..], rows, i, 0)
    modifies state
    ensures failure.None? ==> Partial(state[..], rows, i, |rows[i]|)
    ensures failure.Some? ==> exists j :: FirstInvalid(rows, i, j) && failure.value == InvalidPointMessage(rows[i][j], (i + 1) * j - 1)
  {
    var str := rows[i];
    for column := 0 to |str|
      invariant Partial(state[..], rows, i, column)
    {
      var pointNumber := (column * 5) + row - 1;
      var point := str[column];
      match CharCode(point)
      case None =>
        StopsAtFirstInvalid(state[..], rows, i, column);
        return Some(InvalidPointMessage(point, row * column - 1));
      case Some(code) =>
        WritePoint(state, rows, i, column, pointNumber, code);
    }
    return None;
  }
}
