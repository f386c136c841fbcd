/// moveString.ts: the name of a point, a column letter from an alphabet
/// without 'i' and the row number counted from 1 at the bottom.
module MoveStrings {
  import opened Decimal

  const GoAlphabet: string := "abcdefghjklmnopqrstuvwxyz"

  /// `${goAlphabet[column]}${row + 1}`; a column past the alphabet prints
  /// as "undefined".
  function MoveString(moveNumber: nat, boardSize: nat): (s: string)
    requires boardSize > 0
  {
    var column := moveNumber % boardSize;
    var row := moveNumber / boardSize;
    (if column < |GoAlphabet| then [GoAlphabet[column]] else "undefined") + NatToString(row + 1)
  }

  /// The alphabet skips 'i' and has 25 distinct letters.
  lemma AlphabetSkipsI()
    ensures |GoAlphabet| == 25 && 'i' !in GoAlphabet
    ensures forall a, b :: 0 <= a < b < |GoAlphabet| ==> GoAlphabet[a] < GoAlphabet[b]
  {
  }

  /// The bottom-left point is "a1" and the top-right of a 5x5 board "e5".
  lemma Corners()
    ensures MoveString(0, 5) == "a1"
    ensures MoveString(24, 5) == "e5"
  {
    assert NatToString(1) == "1";
    assert NatToString(5) == "5";
  }

  lemma {:induction false} NatToStringInjective(n: nat, m: nat)
    requires NatToString(n) == NatToString(m)
    ensures n == m
  {
    if n >= 10 && m >= 10 {
      var s := NatToString(n);
      assert s[..|s| - 1] == NatToString(n / 10) && NatToString(m / 10) == s[..|s| - 1];
      NatToStringInjective(n / 10, m / 10);
      assert "0123456789"[n % 10] == "0123456789"[m % 10];
    } else if n < 10 && m < 10 {
      assert "0123456789"[n] == "0123456789"[m];
    }
  }

  /// On a board of at most 25 columns every column has a letter.
  lemma MoveStringShape(n: nat, boardSize: nat)
    requires 0 < boardSize <= 25
    ensures MoveString(n, boardSize) == [GoAlphabet[n % boardSize]] + NatToString(n / boardSize + 1)
  {
  }

  /// On a board of at most 25 columns different points get different
  /// names.
  lemma MoveStringInjective(n: nat, m: nat, boardSize: nat)
    requires 0 < boardSize <= 25 && n < boardSize * boardSize && m < boardSize * boardSize
    requires MoveString(n, boardSize) == MoveString(m, boardSize)
    ensures n == m
  {
    AlphabetSkipsI();
    MoveStringShape(n, boardSize);
    MoveStringShape(m, boardSize);
    var s := MoveString(n, boardSize);
    var cn, cm := n % boardSize, m % boardSize;
    assert GoAlphabet[cn] == s[0] == GoAlphabet[cm];
    assert s[1..] == NatToString(n / boardSize + 1) == NatToString(m / boardSize + 1);
    NatToStringInjective(n / boardSize + 1, m / boardSize + 1);
    SameQuotient(n, m, boardSize);
  }

  lemma SameQuotient(n: nat, m: nat, d: nat)
    requires d > 0 && n / d == m / d && n % d == m % d
    ensures n == m
  {
    assert n == (n / d) * d + n % d;
    assert m == (m / d) * d + m % d;
  }
}
