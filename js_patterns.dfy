/// go.js: the 3×3 shape patterns, their rotations and mirror images, and
/// the scan of the board for points whose surroundings match one
/// (`threeByThreePatterns`, `expandAllThreeByThreePatterns`,
/// `rotate90Degrees`, `verticalMirror`, `horizontalMirror`,
/// `getNeighborhood`, `checkMatch`, `matches`, `findAnyMatchedPatterns`).
module JsPatterns {
  import opened Wrappers
  import opened Arith
  import opened JsBoards
  import opened JsLiberties

  /// A pattern: rows of tokens, one row per column `x - 1`, `x`, `x + 1`.
  type Pattern = seq<string>

  /// `threeByThreePatterns`: 'X' and 'O' are the player's and the
  /// opponent's stones, 'x' and 'o' anything but the opponent's and the
  /// player's stone, '.' an empty point, ' ' an offline point, '?'
  /// anything.
  const ThreeByThreePatterns: seq<Pattern> := [
    ["XOX", "...", "???"],
    ["XO.", "...", "?.?"],
    ["XO?", "X..", "o.?"],
    [".O.", "X..", "..."],
    ["XO?", "O.x", "?x?"],
    ["XO?", "O.X", "???"],
    ["?X?", "O.O", "xxx"],
    ["OX?", "x.O", "???"],
    ["X.?", "O.?", "   "],
    ["OX?", "X.O", "   "],
    ["?X?", "o.O", "   "],
    ["?XO", "o.o", "   "],
    ["?OX", "X.O", "   "]
  ]

  // ---------------------------------------------------------------------
  // Grids of three rows of three

  /// Three rows of three entries.
  predicate Square3<T>(g: seq<seq<T>>)
  {
    |g| == 3 && |g[0]| == 3 && |g[1]| == 3 && |g[2]| == 3
  }

  /// Every grid of a list is three by three.
  predicate AllSquare3<T>(gs: seq<seq<seq<T>>>)
  {
    forall i :: 0 <= i < |gs| ==> Square3(gs[i])
  }

  lemma BasePatternsSquare()
    ensures |ThreeByThreePatterns| == 13 && AllSquare3(ThreeByThreePatterns)
  {
  }

  /// `rotate90Degrees`: row `i` is column `i` read from the last row up,
  /// a quarter turn.
  function Rotate90<T>(g: seq<seq<T>>): (r: seq<seq<T>>)
    requires Square3(g)
    ensures Square3(r) && forall i, j :: 0 <= i < 3 && 0 <= j < 3 ==> r[i][j] == g[2 - j][i]
  {
    [[g[2][0], g[1][0], g[0][0]], [g[2][1], g[1][1], g[0][1]], [g[2][2], g[1][2], g[0][2]]]
  }

  /// `verticalMirror`: the rows in reverse order.
  function VerticalMirror<T>(g: seq<seq<T>>): (r: seq<seq<T>>)
    requires Square3(g)
    ensures Square3(r) && forall i, j :: 0 <= i < 3 && 0 <= j < 3 ==> r[i][j] == g[2 - i][j]
  {
    [g[2], g[1], g[0]]
  }

  /// A row reversed: `row.split("").reverse()`.
  function Reverse<T>(s: seq<T>): (r: seq<T>)
    ensures |r| == |s| && forall i :: 0 <= i < |s| ==> r[i] == s[|s| - 1 - i]
  {
    if s == [] then [] else Reverse(s[1..]) + [s[0]]
  }

  /// `horizontalMirror` as intended: every row reversed
  /// (`row.split("").reverse().join("")`).
  function HorizontalMirror<T>(g: seq<seq<T>>): (r: seq<seq<T>>)
    requires Square3(g)
    ensures Square3(r) && forall i, j :: 0 <= i < 3 && 0 <= j < 3 ==> r[i][j] == g[i][2 - j]
  {
    [Reverse(g[0]), Reverse(g[1]), Reverse(g[2])]
  }

  /// Four quarter turns give the pattern back.
  lemma RotateFourTimes<T>(g: seq<seq<T>>)
    requires Square3(g)
    ensures Rotate90(Rotate90(Rotate90(Rotate90(g)))) == g
  {
    var r := Rotate90(Rotate90(Rotate90(Rotate90(g))));
    forall i | 0 <= i < 3 ensures r[i] == g[i] {
      assert forall j :: 0 <= j < 3 ==> r[i][j] == g[i][j];
    }
  }

  /// Mirroring the rows twice gives the pattern back.
  lemma VerticalMirrorInvolution<T>(g: seq<seq<T>>)
    requires Square3(g)
    ensures VerticalMirror(VerticalMirror(g)) == g
  {
  }

  /// Mirroring the columns twice gives the pattern back.
  lemma HorizontalMirrorInvolution<T>(g: seq<seq<T>>)
    requires Square3(g)
    ensures HorizontalMirror(HorizontalMirror(g)) == g
  {
    var r := HorizontalMirror(HorizontalMirror(g));
    forall i | 0 <= i < 3 ensures r[i] == g[i] {
      assert forall j :: 0 <= j < 3 ==> r[i][j] == g[i][j];
    }
  }

  // ---------------------------------------------------------------------
  // matches and checkMatch

  /// `matches(stringPoint, point, player)`; a token outside the pattern
  /// alphabet falls through the `switch` and gives `undefined` (`None`).
  function Matches(token: char, point: Lookup, player: Stone): (r: Option<bool>)
    ensures r.None? <==> token !in "XOxo. ?"
  {
    var color := ColorAt(point);
    var mine: Color := player;
    var theirs: Color := Opponent(player);
    match token
    case 'X' => Some(color == Some(mine))
    case 'O' => Some(color == Some(theirs))
    case 'x' => Some(color != Some(theirs))
    case 'o' => Some(color != Some(mine))
    case '.' => Some(color == Some(Empty))
    case ' ' => Some(point == Null)
    case '?' => Some(true)
    case _ => None
  }

  /// The token accepts the point: `matches` returned a truthy value.
  predicate Accepts(token: char, point: Lookup, player: Stone)
  {
    Matches(token, point, player) == Some(true)
  }

  /// What each token means. 'X' and 'O' take a stone of that side only,
  /// 'x' and 'o' are their complements, so they also take empty, offline
  /// and off-board points; ' ' takes an offline point but not a point off
  /// the board; '.' takes only an empty record; '?' takes everything.
  lemma TokenMeanings(point: Lookup, player: Stone)
    ensures Accepts('X', point, player) <==> point.Found? && point.p.color == player
    ensures Accepts('O', point, player) <==> point.Found? && point.p.color == Opponent(player)
    ensures Accepts('x', point, player) <==> !Accepts('O', point, player)
    ensures Accepts('o', point, player) <==> !Accepts('X', point, player)
    ensures Accepts('.', point, player) <==> point.Found? && point.p.color == Empty
    ensures Accepts(' ', point, player) <==> point == Null
    ensures Accepts('?', point, player)
    ensures !point.Found? ==> Accepts('x', point, player) && Accepts('o', point, player)
  {
  }

  /// `.flat()` and `join("").split("")` of rows.
  function Flatten<T>(rows: seq<seq<T>>): (r: seq<T>)
  {
    if rows == [] then [] else rows[0] + Flatten(rows[1..])
  }

  lemma FlattenThree<T>(rows: seq<seq<T>>)
    requires |rows| == 3
    ensures Flatten(rows) == rows[0] + rows[1] + rows[2]
  {
    assert Flatten(rows) == rows[0] + Flatten(rows[1..]);
    assert Flatten(rows[1..]) == rows[1] + Flatten(rows[2..]);
    assert Flatten(rows[2..]) == rows[2] + Flatten(rows[3..]);
    assert rows[3..] == [];
  }

  /// `neighborhoodArray[index]`: `undefined` past the ninth point.
  function PointAt(points: seq<Lookup>, i: nat): Lookup
  {
    if i < |points| then points[i] else Undefined
  }

  /// `checkMatch(neighborhood, pattern, player)`: every token of the
  /// pattern, read row after row, accepts the point at its position in
  /// the neighbourhood read the same way.
  function CheckMatch(neighborhood: seq<seq<Lookup>>, pattern: Pattern, player: Stone): bool
  {
    var tokens := Flatten(pattern);
    var points := Flatten(neighborhood);
    forall i :: 0 <= i < |tokens| ==> Accepts(tokens[i], PointAt(points, i), player)
  }

  /// For a three by three pattern and neighbourhood, matching is
  /// position by position.
  lemma CheckMatchCells(nb: seq<seq<Lookup>>, p: Pattern, player: Stone)
    requires Square3(nb) && Square3(p)
    ensures CheckMatch(nb, p, player) <==> forall i, j :: 0 <= i < 3 && 0 <= j < 3 ==> Accepts(p[i][j], nb[i][j], player)
  {
    var tokens, points := Flatten(p), Flatten(nb);
    FlattenThree(p);
    FlattenThree(nb);
    assert |tokens| == 9 && |points| == 9;
    assert forall i, j :: 0 <= i < 3 && 0 <= j < 3 ==> tokens[3 * i + j] == p[i][j] && points[3 * i + j] == nb[i][j];
    if forall i, j :: 0 <= i < 3 && 0 <= j < 3 ==> Accepts(p[i][j], nb[i][j], player) {
      forall k | 0 <= k < 9 ensures Accepts(tokens[k], PointAt(points, k), player) {
        assert k == 3 * (k / 3) + k % 3;
      }
    }
  }

  /// A rotated pattern matches exactly the rotated neighbourhoods.
  lemma RotatedMatch(nb: seq<seq<Lookup>>, p: Pattern, player: Stone)
    requires Square3(nb) && Square3(p)
    ensures CheckMatch(Rotate90(nb), Rotate90(p), player) <==> CheckMatch(nb, p, player)
  {
    CheckMatchCells(nb, p, player);
    CheckMatchCells(Rotate90(nb), Rotate90(p), player);
    if CheckMatch(Rotate90(nb), Rotate90(p), player) {
      forall i, j | 0 <= i < 3 && 0 <= j < 3 ensures Accepts(p[i][j], nb[i][j], player) {
        assert Rotate90(p)[j][2 - i] == p[i][j];
      }
    }
  }

  /// A pattern with its rows reversed matches exactly the neighbourhoods
  /// with their rows reversed.
  lemma VerticalMirrorMatch(nb: seq<seq<Lookup>>, p: Pattern, player: Stone)
    requires Square3(nb) && Square3(p)
    ensures CheckMatch(VerticalMirror(nb), VerticalMirror(p), player) <==> CheckMatch(nb, p, player)
  {
    CheckMatchCells(nb, p, player);
    CheckMatchCells(VerticalMirror(nb), VerticalMirror(p), player);
    if CheckMatch(VerticalMirror(nb), VerticalMirror(p), player) {
      forall i, j | 0 <= i < 3 && 0 <= j < 3 ensures Accepts(p[i][j], nb[i][j], player) {
        assert VerticalMirror(p)[2 - i][j] == p[i][j];
      }
    }
  }

  /// The corrected horizontal mirror matches exactly the neighbourhoods
  /// mirrored the same way.
  lemma HorizontalMirrorMatch(nb: seq<seq<Lookup>>, p: Pattern, player: Stone)
    requires Square3(nb) && Square3(p)
    ensures CheckMatch(HorizontalMirror(nb), HorizontalMirror(p), player) <==> CheckMatch(nb, p, player)
  {
    CheckMatchCells(nb, p, player);
    CheckMatchCells(HorizontalMirror(nb), HorizontalMirror(p), player);
    if CheckMatch(HorizontalMirror(nb), HorizontalMirror(p), player) {
      forall i, j | 0 <= i < 3 && 0 <= j < 3 ensures Accepts(p[i][j], nb[i][j], player) {
        assert HorizontalMirror(p)[i][2 - j] == p[i][j];
      }
    }
  }

  // ---------------------------------------------------------------------
  // horizontalMirror as written

  /// `Array.prototype.join()` with its default separator ",".
  function JoinWithCommas(s: seq<char>): (r: string)
    ensures |s| >= 2 ==> |r| >= 2 && r[0] == s[0] && r[1] == ','
  {
    if |s| <= 1 then s else [s[0], ','] + JoinWithCommas(s[1..])
  }

  /// `horizontalMirror` as written: `row.split("").reverse().join()` puts
  /// a comma between the characters, so "abc" becomes "c,b,a".
  function HorizontalMirrorAsWritten(p: Pattern): (r: Pattern)
    requires Square3(p)
    ensures |r| == 3
  {
    [JoinWithCommas(Reverse(p[0])), JoinWithCommas(Reverse(p[1])), JoinWithCommas(Reverse(p[2]))]
  }

  /// Such a pattern never matches: its second token is ',', for which
  /// `matches` gives `undefined`, whatever the neighbourhood.
  lemma AsWrittenNeverMatches(nb: seq<seq<Lookup>>, p: Pattern, player: Stone)
    requires Square3(p)
    ensures !CheckMatch(nb, HorizontalMirrorAsWritten(p), player)
  {
    var m := HorizontalMirrorAsWritten(p);
    var tokens := Flatten(m);
    FlattenThree(m);
    assert tokens[1] == ',';
    assert !Accepts(tokens[1], PointAt(Flatten(nb), 1), player);
  }

  // ---------------------------------------------------------------------
  // expandAllThreeByThreePatterns

  function RotateAll(ps: seq<Pattern>): (r: seq<Pattern>)
    requires AllSquare3(ps)
    ensures |r| == |ps| && AllSquare3(r) && forall i :: 0 <= i < |ps| ==> r[i] == Rotate90(ps[i])
  {
    seq(|ps|, i requires 0 <= i < |ps| => Rotate90(ps[i]))
  }

  function VerticalMirrorAll(ps: seq<Pattern>): (r: seq<Pattern>)
    requires AllSquare3(ps)
    ensures |r| == |ps| && AllSquare3(r) && forall i :: 0 <= i < |ps| ==> r[i] == VerticalMirror(ps[i])
  {
    seq(|ps|, i requires 0 <= i < |ps| => VerticalMirror(ps[i]))
  }

  function HorizontalMirrorAll(ps: seq<Pattern>): (r: seq<Pattern>)
    requires AllSquare3(ps)
    ensures |r| == |ps| && AllSquare3(r) && forall i :: 0 <= i < |ps| ==> r[i] == HorizontalMirror(ps[i])
  {
    seq(|ps|, i requires 0 <= i < |ps| => HorizontalMirror(ps[i]))
  }

  /// Patterns and their three other quarter turns, then the vertical
  /// mirror images of all of those.
  function Variants(base: seq<Pattern>): (r: seq<Pattern>)
    requires AllSquare3(base)
    ensures |r| == 8 * |base| && AllSquare3(r)
  {
    var once := RotateAll(base);
    var twice := RotateAll(once);
    var rotated := base + once + twice + RotateAll(twice);
    rotated + VerticalMirrorAll(rotated)
  }

  /// The 104 variants of the thirteen base patterns.
  function MirroredPatterns(): (r: seq<Pattern>)
    ensures |r| == 104 && AllSquare3(r)
  {
    BasePatternsSquare();
    Variants(ThreeByThreePatterns)
  }

  /// `expandAllThreeByThreePatterns` with the corrected mirror: those 104
  /// patterns and their horizontal mirror images, 208 in all.
  function ExpandAll(): (r: seq<Pattern>)
    ensures |r| == 208 && AllSquare3(r)
    ensures r[..104] == MirroredPatterns()
  {
    var mirrored := MirroredPatterns();
    mirrored + HorizontalMirrorAll(mirrored)
  }

  /// `expandAllThreeByThreePatterns` as written.
  function ExpandAllAsWritten(): (r: seq<Pattern>)
    ensures |r| == 208 && r[..104] == MirroredPatterns()
    ensures forall i :: 104 <= i < 208 ==> r[i] == HorizontalMirrorAsWritten(MirroredPatterns()[i - 104])
  {
    var mirrored := MirroredPatterns();
    mirrored + seq(104, i requires 0 <= i < 104 => HorizontalMirrorAsWritten(mirrored[i]))
  }

  /// With the corrected mirror the set is closed under mirroring: the
  /// mirror image of every pattern is one of the patterns.
  lemma ExpandAllMirrorClosed(i: nat)
    requires i < 208
    ensures HorizontalMirror(ExpandAll()[i]) in ExpandAll()
  {
    var all := ExpandAll();
    var mirrored := MirroredPatterns();
    if i < 104 {
      assert all[104 + i] == HorizontalMirror(mirrored[i]) == HorizontalMirror(all[i]);
    } else {
      HorizontalMirrorInvolution(mirrored[i - 104]);
      assert all[i - 104] == mirrored[i - 104];
    }
  }

  /// `patterns.find((pattern) => checkMatch(neighborhood, pattern, player))`
  /// found one.
  predicate AnyMatch(nb: seq<seq<Lookup>>, patterns: seq<Pattern>, player: Stone)
  {
    exists i :: 0 <= i < |patterns| && CheckMatch(nb, patterns[i], player)
  }

  /// As written, only the first 104 patterns can ever match.
  lemma AsWrittenMatchesOnlyUnmirrored(nb: seq<seq<Lookup>>, player: Stone)
    ensures AnyMatch(nb, ExpandAllAsWritten(), player) <==> AnyMatch(nb, MirroredPatterns(), player)
  {
    var all := ExpandAllAsWritten();
    var mirrored := MirroredPatterns();
    if AnyMatch(nb, all, player) {
      var i :| 0 <= i < |all| && CheckMatch(nb, all[i], player);
      if i >= 104 {
        AsWrittenNeverMatches(nb, mirrored[i - 104], player);
      }
      assert all[i] == mirrored[i];
    }
    if AnyMatch(nb, mirrored, player) {
      var i :| 0 <= i < |mirrored| && CheckMatch(nb, mirrored[i], player);
      assert all[i] == mirrored[i];
    }
  }

  /// `g` turned `k` quarter turns.
  function RotateTimes<T>(g: seq<seq<T>>, k: nat): (r: seq<seq<T>>)
    requires Square3(g)
    ensures Square3(r)
  {
    if k == 0 then g else Rotate90(RotateTimes(g, k - 1))
  }

  /// Where each turned and each vertically mirrored base pattern sits in
  /// the variants of thirteen patterns.
  lemma VariantAt(base: seq<Pattern>, a: nat, j: nat)
    requires AllSquare3(base) && |base| == 13 && a < 4 && j < 13
    ensures Variants(base)[13 * a + j] == RotateTimes(base[j], a)
    ensures Variants(base)[52 + 13 * a + j] == VerticalMirror(RotateTimes(base[j], a))
  {
    var once := RotateAll(base);
    var twice := RotateAll(once);
    var thrice := RotateAll(twice);
    var rotated := base + once + twice + thrice;
    assert Variants(base) == rotated + VerticalMirrorAll(rotated);
    var g := base[j];
    assert rotated[13 * a + j] == RotateTimes(g, a) by {
      if a == 0 {
        assert rotated[j] == base[j];
      } else if a == 1 {
        assert rotated[13 + j] == once[j];
      } else if a == 2 {
        assert rotated[26 + j] == twice[j];
      } else {
        assert rotated[39 + j] == thrice[j];
      }
    }
  }

  /// Two more quarter turns, counted round the four.
  lemma HalfTurnAhead<T>(g: seq<seq<T>>, a: nat)
    requires Square3(g) && a < 4
    ensures RotateTimes(g, (a + 2) % 4) == Rotate90(Rotate90(RotateTimes(g, a)))
  {
    if a == 2 {
      RotateFourTimes(g);
    } else if a == 3 {
      RotateFourTimes(Rotate90(g));
    }
  }

  /// The horizontal mirror is a half turn followed by the vertical mirror.
  lemma MirrorIsHalfTurnMirror<T>(g: seq<seq<T>>)
    requires Square3(g)
    ensures HorizontalMirror(g) == VerticalMirror(Rotate90(Rotate90(g)))
  {
    var h, v := HorizontalMirror(g), VerticalMirror(Rotate90(Rotate90(g)));
    forall i | 0 <= i < 3 ensures h[i] == v[i] {
      assert forall j :: 0 <= j < 3 ==> h[i][j] == v[i][j];
    }
  }

  /// Both mirrors together are a half turn.
  lemma BothMirrorsHalfTurn<T>(g: seq<seq<T>>)
    requires Square3(g)
    ensures HorizontalMirror(VerticalMirror(g)) == Rotate90(Rotate90(g))
  {
    var h, r := HorizontalMirror(VerticalMirror(g)), Rotate90(Rotate90(g));
    forall i | 0 <= i < 3 ensures h[i] == r[i] {
      assert forall j :: 0 <= j < 3 ==> h[i][j] == r[i][j];
    }
  }

  /// The four turns and their vertical mirrors are already closed under
  /// the horizontal mirror: it maps the `a`-th turn of a base pattern to
  /// the vertical mirror of its `(a + 2)`-th turn, and back.
  lemma VariantsMirrorClosed(base: seq<Pattern>, k: nat) returns (k': nat)
    requires AllSquare3(base) && |base| == 13 && k < 104
    ensures k' < 104 && Variants(base)[k'] == HorizontalMirror(Variants(base)[k])
  {
    var m := Variants(base);
    var half := if k < 52 then k else k - 52;
    var a, j := half / 13, half % 13;
    assert half == 13 * a + j;
    var b := (a + 2) % 4;
    var g := base[j];
    VariantAt(base, a, j);
    VariantAt(base, b, j);
    HalfTurnAhead(g, a);
    if k < 52 {
      MirrorIsHalfTurnMirror(RotateTimes(g, a));
      k' := 52 + 13 * b + j;
    } else {
      BothMirrorsHalfTurn(RotateTimes(g, a));
      k' := 13 * b + j;
    }
  }

  /// The corrected expansion accepts exactly the neighbourhoods the 104
  /// patterns accept: its second half adds nothing.
  lemma CorrectedMatchesUnmirrored(nb: seq<seq<Lookup>>, player: Stone)
    ensures AnyMatch(nb, ExpandAll(), player) <==> AnyMatch(nb, MirroredPatterns(), player)
  {
    BasePatternsSquare();
    VariantsMirrorMatches(nb, ThreeByThreePatterns, player);
  }

  /// Adding the mirror images to the variants of thirteen patterns adds
  /// no match.
  lemma VariantsMirrorMatches(nb: seq<seq<Lookup>>, base: seq<Pattern>, player: Stone)
    requires AllSquare3(base) && |base| == 13
    ensures var m := Variants(base);
      AnyMatch(nb, m + HorizontalMirrorAll(m), player) <==> AnyMatch(nb, m, player)
  {
    var m := Variants(base);
    var all := m + HorizontalMirrorAll(m);
    if AnyMatch(nb, all, player) {
      var i :| 0 <= i < |all| && CheckMatch(nb, all[i], player);
      if i < 104 {
        assert all[i] == m[i];
      } else {
        assert all[i] == HorizontalMirror(m[i - 104]);
        var k := VariantsMirrorClosed(base, i - 104);
        assert CheckMatch(nb, m[k], player);
      }
    }
    if AnyMatch(nb, m, player) {
      var i :| 0 <= i < |m| && CheckMatch(nb, m[i], player);
      assert all[i] == m[i];
    }
  }

  /// So the comma-joined mirror images lose nothing: the expansion as
  /// written and the corrected one accept the same neighbourhoods.
  lemma SameMatches(nb: seq<seq<Lookup>>, player: Stone)
    ensures AnyMatch(nb, ExpandAll(), player) <==> AnyMatch(nb, ExpandAllAsWritten(), player)
  {
    CorrectedMatchesUnmirrored(nb, player);
    AsWrittenMatchesOnlyUnmirrored(nb, player);
  }

  /// With the corrected mirror a variant matches at some neighbourhood
  /// exactly when its mirror image matches at the mirrored neighbourhood.
  lemma ExpandAllMirrorMatches(nb: seq<seq<Lookup>>, player: Stone)
    requires Square3(nb)
    ensures AnyMatch(nb, ExpandAll(), player) <==> AnyMatch(HorizontalMirror(nb), ExpandAll(), player)
  {
    var all := ExpandAll();
    var m := HorizontalMirror(nb);
    if AnyMatch(nb, all, player) {
      var i :| 0 <= i < |all| && CheckMatch(nb, all[i], player);
      HorizontalMirrorMatch(nb, all[i], player);
      ExpandAllMirrorClosed(i);
    }
    if AnyMatch(m, all, player) {
      var i :| 0 <= i < |all| && CheckMatch(m, all[i], player);
      HorizontalMirrorInvolution(nb);
      HorizontalMirrorMatch(m, all[i], player);
      ExpandAllMirrorClosed(i);
    }
  }

  // ---------------------------------------------------------------------
  // getNeighborhood and findAnyMatchedPatterns

  /// `getNeighborhood(board, x, y)`: the points around `(x, y)`, rows
  /// `x - 1`, `x`, `x + 1`, columns `y - 1`, `y`, `y + 1`; `undefined`
  /// off the board and `null` at an offline point.
  function GetNeighborhood(board: seq<Cell>, n: nat, x: int, y: int): (r: seq<seq<Lookup>>)
    requires Shaped(board, n)
    ensures Square3(r) && r[1][1] == At(board, n, x, y)
    ensures forall i, j :: 0 <= i < 3 && 0 <= j < 3 ==> r[i][j] == At(board, n, x + i - 1, y + j - 1)
  {
    [[At(board, n, x - 1, y - 1), At(board, n, x - 1, y), At(board, n, x - 1, y + 1)],
     [At(board, n, x, y - 1), At(board, n, x, y), At(board, n, x, y + 1)],
     [At(board, n, x + 1, y - 1), At(board, n, x + 1, y), At(board, n, x + 1, y + 1)]]
  }

  /// Whether `findAnyMatchedPatterns` keeps point `i`: some pattern
  /// matches around it, it is available, and in smart mode the stone
  /// would have more than one liberty.
  predicate PatternMove(board: seq<Cell>, n: nat, player: Stone, patterns: seq<Pattern>, availableSpaces: seq<nat>, smart: bool, i: nat)
    requires Shaped(board, n) && i < |board|
  {
    AnyMatch(GetNeighborhood(board, n, i / n, i % n), patterns, player)
    && i in availableSpaces
    && (!smart || |EffectiveLiberties(board, n, i, player)| > 1)
  }

  /// `PatternMove` at every point of the board.
  function PatternFlags(board: seq<Cell>, n: nat, player: Stone, patterns: seq<Pattern>, availableSpaces: seq<nat>, smart: bool): (r: seq<bool>)
    requires Shaped(board, n)
    ensures |r| == |board|
  {
    seq(|board|, i requires 0 <= i < |board| => PatternMove(board, n, player, patterns, availableSpaces, smart, i))
  }

  /// One step of the scan, at point `(x, y)`.
  lemma PatternScanStep(board: seq<Cell>, n: nat, player: Stone, patterns: seq<Pattern>, availableSpaces: seq<nat>, smart: bool, x: nat, y: nat)
    requires Shaped(board, n) && x < n && y < n
    ensures x * n + y < |board|
    ensures var flags := PatternFlags(board, n, player, patterns, availableSpaces, smart);
      var p := x * n + y;
      Kept(flags, p + 1) == Kept(flags, p)
        + (if AnyMatch(GetNeighborhood(board, n, x, y), patterns, player)
              && p in availableSpaces
              && (!smart || |EffectiveLiberties(board, n, p, player)| > 1)
           then [p] else [])
  {
    var p := x * n + y;
    IndexBound(x, y, n);
    IndexOf(x, y, n);
    PatternFlagStep(board, n, player, patterns, availableSpaces, smart, p);
    assert GetNeighborhood(board, n, p / n, p % n) == GetNeighborhood(board, n, x, y);
  }

  /// One step of the scan, at point `p`.
  lemma PatternFlagStep(board: seq<Cell>, n: nat, player: Stone, patterns: seq<Pattern>, availableSpaces: seq<nat>, smart: bool, p: nat)
    requires Shaped(board, n) && p < |board|
    ensures var flags := PatternFlags(board, n, player, patterns, availableSpaces, smart);
      Kept(flags, p + 1) == Kept(flags, p) + (if PatternMove(board, n, player, patterns, availableSpaces, smart, p) then [p] else [])
  {
    KeptStep(PatternFlags(board, n, player, patterns, availableSpaces, smart), p);
  }

  /// The points the scan keeps, in scan order.
  function PatternMoves(board: seq<Cell>, n: nat, player: Stone, patterns: seq<Pattern>, availableSpaces: seq<nat>, smart: bool): seq<nat>
    requires Shaped(board, n)
  {
    Kept(PatternFlags(board, n, player, patterns, availableSpaces, smart), |board|)
  }

  /// The scan keeps, in increasing order and each once, exactly the
  /// points `PatternMove` accepts; every one is an available point.
  lemma PatternMovesAre(board: seq<Cell>, n: nat, player: Stone, patterns: seq<Pattern>, availableSpaces: seq<nat>, smart: bool)
    requires Shaped(board, n)
    ensures var r := PatternMoves(board, n, player, patterns, availableSpaces, smart);
      (forall i, j :: 0 <= i < j < |r| ==> r[i] < r[j])
      && (forall q: nat :: q in r <==> q < |board| && PatternMove(board, n, player, patterns, availableSpaces, smart, q))
      && (forall q :: q in r ==> q in availableSpaces)
  {
    KeptAre(PatternFlags(board, n, player, patterns, availableSpaces, smart), |board|);
  }

  /// `findAnyMatchedPatterns(board, player, availableSpaces, smart)`.
  method FindAnyMatchedPatterns(board: seq<Cell>, n: nat, player: Stone, availableSpaces: seq<nat>, smart: bool)
    returns (moves: seq<nat>)
    requires Shaped(board, n) && n > 0
    ensures moves == PatternMoves(board, n, player, ExpandAll(), availableSpaces, smart)
    ensures moves == PatternMoves(board, n, player, ExpandAllAsWritten(), availableSpaces, smart)
  {
    var patterns := ExpandAll();
    ghost var flags := PatternFlags(board, n, player, patterns, availableSpaces, smart);
    var boardSize := n;
    moves := [];
    var x := 0;
    while x < boardSize
      invariant 0 <= x <= n && x * n <= |board| && moves == Kept(flags, x * n)
    {
      MulMono(x + 1, n, n);
      assert x * n + n == (x + 1) * n;
      moves := ScanPatternColumn(board, n, player, patterns, availableSpaces, smart, x, moves);
      x := x + 1;
    }
    PatternMovesAsWritten(board, n, player, availableSpaces, smart);
  }

  /// The scan keeps the same points with the expansion as written as with
  /// the corrected one.
  lemma PatternMovesAsWritten(board: seq<Cell>, n: nat, player: Stone, availableSpaces: seq<nat>, smart: bool)
    requires Shaped(board, n)
    ensures PatternMoves(board, n, player, ExpandAll(), availableSpaces, smart)
      == PatternMoves(board, n, player, ExpandAllAsWritten(), availableSpaces, smart)
  {
    forall i | 0 <= i < |board|
      ensures SameAround(board, n, player, ExpandAll(), ExpandAllAsWritten(), i)
    {
      SameMatches(GetNeighborhood(board, n, i / n, i % n), player);
    }
    PatternMovesAgree(board, n, player, ExpandAll(), ExpandAllAsWritten(), availableSpaces, smart);
  }

  /// Two lists of patterns accept the neighbourhood of point `i` alike.
  predicate SameAround(board: seq<Cell>, n: nat, player: Stone, ps: seq<Pattern>, qs: seq<Pattern>, i: nat)
    requires Shaped(board, n) && i < |board|
  {
    var nb := GetNeighborhood(board, n, i / n, i % n);
    AnyMatch(nb, ps, player) <==> AnyMatch(nb, qs, player)
  }

  /// Pattern lists that accept every neighbourhood alike keep the same
  /// points.
  lemma PatternMovesAgree(board: seq<Cell>, n: nat, player: Stone, ps: seq<Pattern>, qs: seq<Pattern>, availableSpaces: seq<nat>, smart: bool)
    requires Shaped(board, n) && forall i :: 0 <= i < |board| ==> SameAround(board, n, player, ps, qs, i)
    ensures PatternMoves(board, n, player, ps, availableSpaces, smart) == PatternMoves(board, n, player, qs, availableSpaces, smart)
  {
    var a := PatternFlags(board, n, player, ps, availableSpaces, smart);
    var b := PatternFlags(board, n, player, qs, availableSpaces, smart);
    forall i | 0 <= i < |board| ensures a[i] == b[i] {
      assert SameAround(board, n, player, ps, qs, i);
    }
    assert a == b;
  }

  /// The inner loop of `findAnyMatchedPatterns`, over column `x`.
  method ScanPatternColumn(board: seq<Cell>, n: nat, player: Stone, patterns: seq<Pattern>, availableSpaces: seq<nat>, smart: bool, x: nat, moves0: seq<nat>)
    returns (moves: seq<nat>)
    requires Shaped(board, n) && x < n && x * n + n <= |board| && moves0 == Kept(PatternFlags(board, n, player, patterns, availableSpaces, smart), x * n)
    ensures moves == Kept(PatternFlags(board, n, player, patterns, availableSpaces, smart), x * n + n)
  {
    moves := moves0;
    var y := 0;
    while y < n
      invariant 0 <= y <= n && moves == Kept(PatternFlags(board, n, player, patterns, availableSpaces, smart), x * n + y)
    {
      var p := x * n + y;
      PatternScanStep(board, n, player, patterns, availableSpaces, smart, x, y);
      var neighborhood := GetNeighborhood(board, n, x, y);
      var matchedPattern := AnyMatch(neighborhood, patterns, player);
      if matchedPattern && p in availableSpaces && (!smart || |EffectiveLiberties(board, n, p, player)| > 1) {
        moves := moves + [p];
      }
      y := y + 1;
    }
  }
}
