/// tests/utils.ts: `boardFromText`, the TypeScript form of
/// `board_from_string`. It skips only newlines, throws on every other
/// unknown character and does not stop at `size * size`: a character past
/// the last point is written to a negative index of the `Uint8Array`,
/// which JavaScript ignores.
module BoardFromText {
  import opened Wrappers
  import opened Arith
  import opened Boards
  import opened BoardFromString

  /// A character `boardFromText` accepts: a newline or a board character.
  predicate TextChar(c: char)
  {
    c == '\n' || CharCode(c).Some?
  }

  /// Past the last point the location formula, with JavaScript's flooring
  /// division, is negative.
  lemma PastTheEndIsNegative(n: nat, size: nat)
    requires size > 0 && n >= size * size
    ensures ((size * size - n - 1) / size) * size + n % size < 0
  {
    var q := (size * size - n - 1) / size;
    assert q * size <= size * size - n - 1 < 0;
    assert q <= -1;
    MulAtLeast(-q, size);
    assert (-q) * size == -(q * size);
  }

  /// A character accepted after the board is full changes no point.
  lemma PastTheEndChangesNothing(front: string, c: char, size: nat, loc: nat)
    requires |Accepted(front)| >= size * size && CharCode(c).Some? && loc < size * size
    ensures Accepted(front + [c]) == Accepted(front) + [CharCode(c).value]
    ensures Cell(front + [c], size, loc) == Cell(front, size, loc)
  {
    assert (front + [c])[..|front + [c]| - 1] == front;
  }

  /// `buffer` holds the board read from `text` so far.
  ghost predicate Holds(buffer: seq<Byte>, text: string, size: nat)
  {
    |buffer| == size * size && forall loc :: 0 <= loc < |buffer| ==> buffer[loc] == Cell(text, size, loc)
  }

  /// A newline changes nothing.
  lemma NewlineStep(front: string, buffer: seq<Byte>, size: nat)
    requires Holds(buffer, front, size)
    ensures Accepted(front + ['\n']) == Accepted(front)
    ensures Holds(buffer, front + ['\n'], size)
  {
    assert (front + ['\n'])[..|front|] == front;
  }

  /// One accepted character: the board read so far gains it at `location`
  /// when that is a point of the board, and nothing otherwise.
  lemma TextStep(front: string, c: char, buffer: seq<Byte>, size: nat, n: nat, location: int)
    requires n == |Accepted(front)| && CharCode(c).Some? && Holds(buffer, front, size)
    requires location == if size > 0 then ((size * size - n - 1) / size) * size + n % size else -1
    ensures Accepted(front + [c]) == Accepted(front) + [CharCode(c).value]
    ensures Holds(if 0 <= location < size * size then buffer[location := CharCode(c).value] else buffer, front + [c], size)
  {
    assert (front + [c])[..|front|] == front;
    forall loc | 0 <= loc < size * size
      ensures Cell(front + [c], size, loc)
        == (if 0 <= location < size * size && loc == location then CharCode(c).value else Cell(front, size, loc))
    {
      if n < size * size {
        assert location == Location(n, size);
        ParseStep(front, c, size, n, loc);
      } else {
        if size > 0 {
          PastTheEndIsNegative(n, size);
        }
        PastTheEndChangesNothing(front, c, size, loc);
      }
    }
  }

  /// `boardFromText`: an error on the first character that is neither a
  /// newline nor a board character; otherwise exactly the board
  /// `board_from_string` reads from the same text.
  method BoardFromTextTs(text: string, size: nat) returns (r: Result<seq<Byte>>)
    ensures r.Err? <==> exists k :: 0 <= k < |text| && !TextChar(text[k])
    ensures r.Err? ==> r.error == "Board string in test is invalid"
    ensures r.Ok? ==> r.value == ParsedBoard(text, size)
  {
    var numberOfPoints := size * size;
    var output := new Byte[numberOfPoints](_ => 0);
    var n: nat := 0;
    for i := 0 to |text|
      invariant forall k :: 0 <= k < i ==> TextChar(text[k])
      invariant n == |Accepted(text[..i])|
      invariant Holds(output[..], text[..i], size)
    {
      var letter := text[i];
      assert text[..i + 1] == text[..i] + [letter];
      // `n % 0` is NaN in JavaScript, and a NaN index writes nothing.
      var location: int := if size > 0 then ((numberOfPoints - n - 1) / size) * size + n % size else -1;
      if letter == '\n' {
        NewlineStep(text[..i], output[..], size);
        continue;
      }
      match CharCode(letter)
      case None =>
        return Err("Board string in test is invalid");
      case Some(code) =>
        TextStep(text[..i], letter, output[..], size, n, location);
        if 0 <= location < numberOfPoints {
          output[location] := code;
        }
        n := n + 1;
    }
    assert text[..|text|] == text;
    return Ok(output[..]);
  }
}
