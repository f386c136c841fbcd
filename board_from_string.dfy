/// board_from_string.rs: a board read from text, top row first. The n-th
/// accepted character lands on the point mirrored from `n` across the
/// middle row, so the first text line becomes the top row of the flat
/// layout (row 0 at the bottom).
module BoardFromString {
  import opened Wrappers
  import opened Arith
  import opened PointStates
  import opened Boards

  /// The code of a board character: '.' Empty, 'X' Black, 'O' White,
  /// '#' Offline; every other character has none.
  function CharCode(c: char): (r: Option<Byte>)
    ensures r.Some? <==> (c == '.' || c == 'X' || c == 'O' || c == '#')
    ensures r.Some? ==> 1 <= r.value <= 4
  {
    if c == '.' then Some(Empty.AsU8())
    else if c == 'X' then Some(Black.AsU8())
    else if c == 'O' then Some(White.AsU8())
    else if c == '#' then Some(Offline.AsU8())
    else None
  }

  /// Distinct accepted characters get distinct codes, and each code is the
  /// point state the character names.
  lemma CharCodeInjective(c: char, d: char)
    requires CharCode(c).Some? && CharCode(c) == CharCode(d)
    ensures c == d
  {
  }

  /// Where the n-th accepted character goes: same column, row counted from
  /// the top.
  function Location(n: nat, size: nat): (loc: nat)
    requires n < size * size
    ensures loc < size * size
    ensures loc % size == n % size && loc / size == size - 1 - n / size
  {
    var column := n % size;
    var row := (size * size - n - 1) / size;
    RowBound(n, size);
    var r := n / size;
    assert size * size - n - 1 == (size - 1 - r) * size + (size - 1 - column);
    DivModUnique(size * size - n - 1, size, size - 1 - r, size - 1 - column);
    IndexOf(row, column, size);
    IndexBound(row, column, size);
    row * size + column
  }

  /// Mirroring twice gives the point back, so `Location` is a bijection of
  /// the points of the board.
  lemma LocationInvolution(n: nat, size: nat)
    requires n < size * size
    ensures Location(Location(n, size), size) == n
  {
    var m := Location(n, size);
    var back := Location(m, size);
    assert back == (back / size) * size + back % size;
    assert n == (n / size) * size + n % size;
  }

  lemma LocationInjective(n: nat, m: nat, size: nat)
    requires n < size * size && m < size * size && Location(n, size) == Location(m, size)
    ensures n == m
  {
    LocationInvolution(n, size);
    LocationInvolution(m, size);
  }

  /// The first character goes to the left end of the top row.
  lemma FirstCharacterTopLeft(size: nat)
    requires size > 0
    ensures Location(0, size) == (size - 1) * size
  {
    var loc := Location(0, size);
    assert loc == (loc / size) * size + loc % size;
  }

  /// The codes of the accepted characters of `text`, in order.
  function Accepted(text: string): (codes: seq<Byte>)
    ensures |codes| <= |text|
  {
    if text == [] then []
    else
      var front := Accepted(text[..|text| - 1]);
      match CharCode(text[|text| - 1])
      case Some(code) => front + [code]
      case None => front
  }

  /// The codes accepted from a prefix are a prefix of those of the text.
  lemma {:induction false} AcceptedPrefix(text: string, i: nat)
    requires i <= |text|
    ensures Accepted(text[..i]) <= Accepted(text)
    decreases |text| - i
  {
    if i < |text| {
      AcceptedPrefix(text, i + 1);
      assert text[..i + 1][..i] == text[..i];
    } else {
      assert text[..i] == text;
    }
  }

  /// The contents of point `loc` of the board read from `text`: the code of
  /// the character that was mapped there, or 0 when text ran out first.
  function Cell(text: string, size: nat, loc: nat): Byte
    requires loc < size * size
  {
    var n := Location(loc, size);
    var codes := Accepted(text);
    if n < |codes| then codes[n] else 0
  }

  /// The board read from `text`.
  function ParsedBoard(text: string, size: nat): (b: seq<Byte>)
    ensures |b| == size * size
  {
    seq(size * size, loc requires 0 <= loc < size * size => Cell(text, size, loc))
  }

  /// The n-th accepted character, for n below the point count, is the
  /// contents of `Location(n)`.
  lemma ParsedCharacter(text: string, size: nat, n: nat)
    requires n < size * size && n < |Accepted(text)|
    ensures ParsedBoard(text, size)[Location(n, size)] == Accepted(text)[n]
  {
    LocationInvolution(n, size);
  }

  /// Points no accepted character reached stay 0.
  lemma UnfilledStaysZero(text: string, size: nat, loc: nat)
    requires loc < size * size && |Accepted(text)| <= Location(loc, size)
    ensures ParsedBoard(text, size)[loc] == 0
  {
  }

  /// Reading stops after `size * size` accepted characters: whatever
  /// follows changes nothing.
  lemma ExtraTextIgnored(text: string, more: string, size: nat)
    requires |Accepted(text)| >= size * size
    ensures ParsedBoard(text + more, size) == ParsedBoard(text, size)
  {
    AcceptedPrefix(text + more, |text|);
    assert (text + more)[..|text|] == text;
    forall loc | 0 <= loc < size * size
      ensures Cell(text + more, size, loc) == Cell(text, size, loc)
    {
    }
  }

  /// Once `n` characters are accepted from `text`, the content of `loc` is
  /// its entry in the final board as soon as `n` covers its source.
  lemma CellSettled(text: string, i: nat, size: nat, loc: nat)
    requires i <= |text| && loc < size * size
    requires Location(loc, size) < |Accepted(text[..i])|
    ensures Cell(text[..i], size, loc) == Cell(text, size, loc)
  {
    AcceptedPrefix(text, i);
  }

  /// One accepted character written at `Location(n)` extends the partial
  /// board read so far.
  lemma ParseStep(front: string, c: char, size: nat, n: nat, loc: nat)
    requires n == |Accepted(front)| && n < size * size && CharCode(c).Some?
    requires loc < size * size
    ensures Accepted(front + [c]) == Accepted(front) + [CharCode(c).value]
    ensures Cell(front + [c], size, loc)
      == (if loc == Location(n, size) then CharCode(c).value else Cell(front, size, loc))
  {
    assert (front + [c])[..|front + [c]| - 1] == front;
    LocationInvolution(n, size);
    if loc != Location(n, size) {
      LocationInvolution(loc, size);
    }
  }

  /// A character that is not a board character is skipped.
  lemma ParseSkip(front: string, c: char, size: nat)
    requires CharCode(c).None?
    ensures Accepted(front + [c]) == Accepted(front)
    ensures ParsedBoard(front + [c], size) == ParsedBoard(front, size)
  {
    assert (front + [c])[..|front + [c]| - 1] == front;
  }

  /// A board character read as the n-th one is written at `Location(n)`.
  lemma ParseStepBoard(front: string, c: char, size: nat, n: nat)
    requires n == |Accepted(front)| && n < size * size && CharCode(c).Some?
    ensures Accepted(front + [c]) == Accepted(front) + [CharCode(c).value]
    ensures ParsedBoard(front + [c], size) == ParsedBoard(front, size)[Location(n, size) := CharCode(c).value]
  {
    var next := ParsedBoard(front + [c], size);
    var written := ParsedBoard(front, size)[Location(n, size) := CharCode(c).value];
    forall loc | 0 <= loc < size * size ensures next[loc] == written[loc] {
      ParseStep(front, c, size, n, loc);
    }
  }

  /// Once a prefix of the text has filled every point, the board read from
  /// the prefix is the board read from the text.
  lemma PrefixFillsBoard(text: string, i: nat, size: nat)
    requires i <= |text| && |Accepted(text[..i])| >= size * size
    ensures ParsedBoard(text[..i], size) == ParsedBoard(text, size)
  {
    forall loc | 0 <= loc < size * size ensures Cell(text[..i], size, loc) == Cell(text, size, loc) {
      CellSettled(text, i, size, loc);
    }
  }

  /// `board_from_string`: a zeroed buffer of `size * size` points, filled
  /// one accepted character at a time until it is full.
  method BoardFromStr(text: string, size: nat) returns (result: seq<Byte>)
    ensures result == ParsedBoard(text, size)
  {
    var numberOfPoints := size * size;
    var buffer := new Byte[numberOfPoints](_ => 0);
    var n: nat := 0;
    assert buffer[..] == ParsedBoard(text[..0], size);
    for i := 0 to |text|
      invariant n == |Accepted(text[..i])| && n <= numberOfPoints
      invariant buffer[..] == ParsedBoard(text[..i], size)
    {
      if n >= numberOfPoints {
        PrefixFillsBoard(text, i, size);
        return buffer[..];
      }
      var letter := text[i];
      assert text[..i + 1] == text[..i] + [letter];
      match CharCode(letter)
      case Some(code) =>
        var column := n % size;
        var row := (numberOfPoints - n - 1) / size;
        var location := row * size + column;
        assert location == Location(n, size);
        ParseStepBoard(text[..i], letter, size, n);
        buffer[location] := code;
        n := n + 1;
      case None =>
        ParseSkip(text[..i], letter, size);
    }
    assert text[..|text|] == text;
    return buffer[..];
  }
}
