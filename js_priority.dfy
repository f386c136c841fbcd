/// go.js: `getMoveOptions`, the scoring of `getPriorityMove` and the choice
/// `getMove` makes among the scored points.
///
/// The score table of `getPriorityMove` is `boardLength` columns of
/// `boardLength` entries, flattened by `[].concat(...scores)` column after
/// column; here it is one array indexed by `x * n + y`, which is that
/// flattened order.
module JsPriority {
  import opened Wrappers
  import opened Arith
  import opened JsBoards
  import opened JsCaptures
  import opened JsEyes
  import opened JsPatterns
  import opened JsMoves

  // ---------------------------------------------------------------------
  // getMoveOptions

  /// The getters of `getMoveOptions`, each evaluated; a getter that
  /// yields `null` (or `undefined`) is `[]`, which `getPriorityMove`
  /// treats the same way.
  datatype MoveOptions = MoveOptions(
    surround: seq<Move>, defend: seq<Move>, pattern: seq<nat>,
    eyeMove: seq<EyeMove>, eyeBlock2: seq<EyeMove>, eyeBlock1: seq<EyeMove>,
    corner: seq<nat>, jump: seq<nat>, expansion: seq<nat>, endGameAvailable: bool)

  /// Every point `findDisputedTerritory` returns is a record of the board.
  lemma AvailableLive(board: seq<Cell>, n: nat, player: Stone, smart: bool, valid: set<nat>)
    requires Shaped(board, n) && n > 0
    ensures AllLive(board, DisputedTerritory(board, n, player, smart, valid))
  {
    forall q | q in DisputedTerritory(board, n, player, smart, valid) ensures Live(board, q) {
      DisputedTerritoryIs(board, n, player, smart, valid, q);
    }
  }

  /// The getters of `getMoveOptions` over the available spaces
  /// `availableSpaces`.
  ghost function OptionsFrom(board: seq<Cell>, n: nat, player: Stone, smart: bool, opponentPassed: bool, availableSpaces: seq<nat>): (o: MoveOptions)
    requires Shaped(board, n) && n > 0 && AllLive(board, availableSpaces)
  {
    var contestedPoints := DisputedTerritoryMoves(board, n, availableSpaces, 99);
    var expansionMoves := ExpansionMoves(board, n, availableSpaces);
    var endGameAvailable := |contestedPoints| == 0 && opponentPassed;
    var surround := SurroundMoves(board, n, player, availableSpaces, smart);
    MoveOptions(
      if surround.Some? then surround.value else [],
      DefendMoves(board, n, player, availableSpaces),
      if endGameAvailable then [] else PatternMoves(board, n, player, ExpandAll(), availableSpaces, smart),
      if endGameAvailable then [] else EyeCreationMoves(board, n, player, availableSpaces, 99),
      if endGameAvailable then [] else EyeBlockingMoves2(board, n, player, availableSpaces),
      if endGameAvailable then [] else EyeBlockingMoves1(board, n, player, availableSpaces),
      CornerMoves(board, n),
      JumpMoves(board, n, player, expansionMoves),
      expansionMoves,
      endGameAvailable)
  }

  /// `getMoveOptions(board, player, smart, opponentMove)`, with
  /// `opponentMove === "pass"` as `opponentPassed` and the host's legal
  /// points as `valid`: every option names a point of the board, every
  /// defend move gains liberties, and when the game may end the pattern,
  /// eye and eye-blocking lists are empty.
  ghost function GetMoveOptions(board: seq<Cell>, n: nat, player: Stone, smart: bool, opponentPassed: bool, valid: set<nat>): (o: MoveOptions)
    requires Shaped(board, n) && n > 0
    ensures OptionsFit(o, n * n) && DefendsGain(o)
    ensures o.endGameAvailable ==> opponentPassed && o.pattern == [] && o.eyeMove == [] && o.eyeBlock2 == [] && o.eyeBlock1 == []
    ensures o.endGameAvailable <==> (opponentPassed
      && |DisputedTerritoryMoves(board, n, DisputedTerritory(board, n, player, smart, valid), 99)| == 0)
  {
    var availableSpaces := DisputedTerritory(board, n, player, smart, valid);
    AvailableLive(board, n, player, smart, valid);
    OptionsOnBoard(board, n, player, smart, opponentPassed, availableSpaces);
    OptionsFrom(board, n, player, smart, opponentPassed, availableSpaces)
  }

  /// Every point of every option is below `size`.
  predicate OptionsFit(o: MoveOptions, size: nat)
  {
    (forall m :: m in o.surround ==> m.point < size)
    && (forall m :: m in o.defend ==> m.point < size)
    && (forall q :: q in o.pattern ==> q < size)
    && (forall m :: m in o.eyeMove ==> m.point < size)
    && (forall m :: m in o.eyeBlock2 ==> m.point < size)
    && (forall m :: m in o.eyeBlock1 ==> m.point < size)
    && (forall q :: q in o.corner ==> q < size)
    && (forall q :: q in o.jump ==> q < size)
    && (forall q :: q in o.expansion ==> q < size)
  }

  /// Every defend move gains liberties.
  predicate DefendsGain(o: MoveOptions)
  {
    forall m :: m in o.defend ==> m.newLibertyCount > m.oldLibertyCount
  }

  /// The options name points of the board only, every defend move gains
  /// liberties, and an end game leaves out the pattern and eye lists.
  lemma OptionsOnBoard(board: seq<Cell>, n: nat, player: Stone, smart: bool, opponentPassed: bool, availableSpaces: seq<nat>)
    requires Shaped(board, n) && n > 0 && AllLive(board, availableSpaces)
    ensures var o := OptionsFrom(board, n, player, smart, opponentPassed, availableSpaces);
      OptionsFit(o, n * n) && DefendsGain(o)
      && (o.endGameAvailable ==> opponentPassed && o.pattern == [] && o.eyeMove == [] && o.eyeBlock2 == [] && o.eyeBlock1 == [])
      && (o.endGameAvailable <==> opponentPassed && |DisputedTerritoryMoves(board, n, availableSpaces, 99)| == 0)
  {
    var o := OptionsFrom(board, n, player, smart, opponentPassed, availableSpaces);
    assert forall q :: q in availableSpaces ==> q < n * n;
    SurroundOnBoard(board, n, player, availableSpaces, smart);
    PatternMovesAre(board, n, player, ExpandAll(), availableSpaces, smart);
    EyeMovesOnBoard(board, n, player, availableSpaces);
    var expansionMoves := ExpansionMoves(board, n, availableSpaces);
    assert forall q :: q in JumpMoves(board, n, player, expansionMoves) ==> q in expansionMoves;
  }

  lemma SurroundOnBoard(board: seq<Cell>, n: nat, player: Stone, availableSpaces: seq<nat>, smart: bool)
    requires Shaped(board, n) && AllLive(board, availableSpaces)
    ensures var r := SurroundMoves(board, n, player, availableSpaces, smart);
      r.Some? ==> forall m :: m in r.value ==> m.point in availableSpaces
  {
    SurroundMovesOrdered(board, n, player, availableSpaces, smart);
  }

  lemma EyeMovesOnBoard(board: seq<Cell>, n: nat, player: Stone, availableSpaces: seq<nat>)
    requires Shaped(board, n) && n > 0 && AllLive(board, availableSpaces)
    ensures forall m :: m in EyeCreationMoves(board, n, player, availableSpaces, 99) ==> m.point in availableSpaces
    ensures forall m :: m in EyeBlockingMoves2(board, n, player, availableSpaces) ==> m.point in availableSpaces
    ensures forall m :: m in EyeBlockingMoves1(board, n, player, availableSpaces) ==> m.point in availableSpaces
  {
    EyeCreationMovesAre(board, n, player, availableSpaces, 99);
    EyeCreationMovesAre(board, n, Opponent(player), availableSpaces, 5);
  }

  // ---------------------------------------------------------------------
  // getPriorityMove: the score table

  /// One `scores[x][y].score += amount`, at index `point`.
  datatype Bump = Bump(point: nat, amount: real)

  /// `move.chainLength / boardLength`.
  function Share(chainLength: nat, n: nat): (r: real)
    requires n > 0
    ensures r >= 0.0
  {
    chainLength as real / n as real
  }

  /// What a surround move adds: by the enemy liberties left, a capture
  /// 17.013, an atari 6.008, two liberties left 2.004, plus the chain
  /// share.
  function SurroundAmount(m: Move, n: nat): real
    requires n > 0
  {
    (if m.newLibertyCount == 0 then 17.013
     else if m.newLibertyCount == 1 then 6.008
     else if m.newLibertyCount == 2 then 2.004
     else 0.0) + Share(m.chainLength, n)
  }

  /// What a defend move adds: by the liberties the weakest friendly chain
  /// had, one 16.012 plus the gain, two 0.503 plus the gain, more 0.001
  /// plus a quarter of the gain unless the game is ending, then nothing;
  /// plus the chain share except in that last case.
  function DefendAmount(m: Move, n: nat, endGameAvailable: bool): real
    requires n > 0
  {
    var gain := (m.newLibertyCount - m.oldLibertyCount) as real;
    if m.oldLibertyCount == 1 then 16.012 + gain + Share(m.chainLength, n)
    else if m.oldLibertyCount == 2 then 0.503 + gain + Share(m.chainLength, n)
    else if !endGameAvailable then 0.001 + gain / 4.0 + Share(m.chainLength, n)
    else 0.0
  }

  /// The base score of the moves that block a second eye.
  function Block2Base(block2s: nat, block1s: nat): real
  {
    if block2s % 2 == 1 then 7.009
    else if (block2s + block1s) % 2 == 1 then 6.009
    else 2.509
  }

  /// The base score of the moves that block a first eye.
  function Block1Base(block2s: nat, block1s: nat): real
  {
    if (block2s + block1s) % 2 == 1 then 6.007 else 1.507
  }

  function SurroundBumps(ms: seq<Move>, n: nat): (r: seq<Bump>)
    requires n > 0
  {
    seq(|ms|, i requires 0 <= i < |ms| => Bump(ms[i].point, SurroundAmount(ms[i], n)))
  }

  function DefendBumps(ms: seq<Move>, n: nat, endGameAvailable: bool): (r: seq<Bump>)
    requires n > 0
  {
    seq(|ms|, i requires 0 <= i < |ms| => Bump(ms[i].point, DefendAmount(ms[i], n, endGameAvailable)))
  }

  function EyeBumps(ms: seq<EyeMove>, base: real, n: nat): (r: seq<Bump>)
    requires n > 0
  {
    seq(|ms|, i requires 0 <= i < |ms| => Bump(ms[i].point, base + Share(ms[i].chainLength, n)))
  }

  function PointBumps(pts: seq<nat>, amount: real): (r: seq<Bump>)
  {
    seq(|pts|, i requires 0 <= i < |pts| => Bump(pts[i], amount))
  }

  /// The loops of `getPriorityMove` before the expansion pass, in
  /// program order: surround 17.013/6.008/2.004, defend, pattern 8.011,
  /// eye 7.01, eye blocks, corner 3.006, jump 3.005.
  function Runs(o: MoveOptions, n: nat): (r: seq<seq<Bump>>)
    requires n > 0
    ensures |r| == 8
  {
    var b2, b1 := |o.eyeBlock2|, |o.eyeBlock1|;
    [SurroundBumps(o.surround, n), DefendBumps(o.defend, n, o.endGameAvailable),
     PointBumps(o.pattern, 8.011), EyeBumps(o.eyeMove, 7.01, n),
     EyeBumps(o.eyeBlock2, Block2Base(b2, b1), n), EyeBumps(o.eyeBlock1, Block1Base(b2, b1), n),
     PointBumps(o.corner, 3.006), PointBumps(o.jump, 3.005)]
  }

  /// The runs `0 .. k-1` one after another.
  function Concat(runs: seq<seq<Bump>>, k: nat): seq<Bump>
    requires k <= |runs|
  {
    if k == 0 then [] else Concat(runs, k - 1) + runs[k - 1]
  }

  /// All the additions before the expansion pass.
  function Bumps(o: MoveOptions, n: nat): seq<Bump>
    requires n > 0
  {
    Concat(Runs(o, n), 8)
  }

  /// Every bump lands inside a table of `size` entries.
  predicate BumpsIn(bs: seq<Bump>, size: nat)
  {
    forall i :: 0 <= i < |bs| ==> bs[i].point < size
  }

  /// Each run lands inside the table when the options do.
  lemma RunsFit(o: MoveOptions, n: nat)
    requires n > 0 && OptionsFit(o, n * n)
    ensures forall r :: 0 <= r < 8 ==> BumpsIn(Runs(o, n)[r], n * n)
  {
    var runs := Runs(o, n);
    assert forall i :: 0 <= i < |o.surround| ==> o.surround[i] in o.surround;
    assert forall i :: 0 <= i < |o.defend| ==> o.defend[i] in o.defend;
    assert forall i :: 0 <= i < |o.pattern| ==> o.pattern[i] in o.pattern;
    assert forall i :: 0 <= i < |o.eyeMove| ==> o.eyeMove[i] in o.eyeMove;
    assert forall i :: 0 <= i < |o.eyeBlock2| ==> o.eyeBlock2[i] in o.eyeBlock2;
    assert forall i :: 0 <= i < |o.eyeBlock1| ==> o.eyeBlock1[i] in o.eyeBlock1;
    assert forall i :: 0 <= i < |o.corner| ==> o.corner[i] in o.corner;
    assert forall i :: 0 <= i < |o.jump| ==> o.jump[i] in o.jump;
  }

  /// Runs that each land inside the table land inside it one after
  /// another.
  lemma {:induction false} ConcatIn(runs: seq<seq<Bump>>, k: nat, size: nat)
    requires k <= |runs| && forall r :: 0 <= r < |runs| ==> BumpsIn(runs[r], size)
    ensures BumpsIn(Concat(runs, k), size)
  {
    if k > 0 {
      ConcatIn(runs, k - 1, size);
      var a, b := Concat(runs, k - 1), runs[k - 1];
      assert forall i :: 0 <= i < |a + b| ==> (a + b)[i] == if i < |a| then a[i] else b[i - |a|];
    }
  }

  lemma BumpsFit(o: MoveOptions, n: nat)
    requires n > 0 && OptionsFit(o, n * n)
    ensures BumpsIn(Bumps(o, n), n * n)
  {
    RunsFit(o, n);
    ConcatIn(Runs(o, n), 8, n * n);
  }

  /// The bumps applied one after another.
  function ApplyBumps(s: seq<real>, bs: seq<Bump>): (r: seq<real>)
    requires BumpsIn(bs, |s|)
    ensures |r| == |s|
  {
    if bs == [] then s
    else
      var b := bs[|bs| - 1];
      var prev := ApplyBumps(s, bs[..|bs| - 1]);
      prev[b.point := prev[b.point] + b.amount]
  }

  /// The sum of the amounts the bumps put on point `p`.
  function Total(bs: seq<Bump>, p: nat): real
  {
    if bs == [] then 0.0
    else Total(bs[..|bs| - 1], p) + (if bs[|bs| - 1].point == p then bs[|bs| - 1].amount else 0.0)
  }

  /// Whatever the order, an entry ends up with its start value plus the
  /// amounts of the bumps on it.
  lemma {:induction false} ApplyBumpsAt(s: seq<real>, bs: seq<Bump>)
    requires BumpsIn(bs, |s|)
    ensures forall p :: 0 <= p < |s| ==> ApplyBumps(s, bs)[p] == s[p] + Total(bs, p)
  {
    if bs != [] {
      ApplyBumpsAt(s, bs[..|bs| - 1]);
    }
  }

  /// Bumps applied in two runs are the bumps of both runs applied once.
  lemma {:induction false} ApplyBumpsAppend(s: seq<real>, a: seq<Bump>, b: seq<Bump>)
    requires BumpsIn(a, |s|) && BumpsIn(b, |s|) && BumpsIn(a + b, |s|)
    ensures ApplyBumps(ApplyBumps(s, a), b) == ApplyBumps(s, a + b)
  {
    if b != [] {
      assert (a + b)[..|a + b| - 1] == a + b[..|b| - 1];
      ApplyBumpsAppend(s, a, b[..|b| - 1]);
    } else {
      assert a + b == a;
    }
  }

  /// The total of a run of bumps with no negative amount is at least any
  /// one of them on that point.
  lemma {:induction false} TotalAtLeast(bs: seq<Bump>, i: nat)
    requires i < |bs| && NonNegative(bs)
    ensures Total(bs, bs[i].point) >= bs[i].amount
    ensures forall p :: Total(bs, p) >= 0.0
  {
    TotalNonNegative(bs);
    if i < |bs| - 1 {
      TotalAtLeast(bs[..|bs| - 1], i);
    } else {
      TotalNonNegative(bs[..|bs| - 1]);
    }
  }

  lemma {:induction false} TotalNonNegative(bs: seq<Bump>)
    requires NonNegative(bs)
    ensures forall p :: Total(bs, p) >= 0.0
  {
    if bs != [] {
      TotalNonNegative(bs[..|bs| - 1]);
    }
  }

  /// The expansion pass: each expansion point whose score is still 0
  /// gets 1.502.
  function ScoreExpansions(s: seq<real>, pts: seq<nat>): (r: seq<real>)
    requires forall q :: q in pts ==> q < |s|
    ensures |r| == |s|
    ensures forall p :: 0 <= p < |s| ==> r[p] == (if p in pts && s[p] == 0.0 then 1.502 else s[p])
  {
    if pts == [] then s
    else
      var init := pts[..|pts| - 1];
      var q := pts[|pts| - 1];
      assert q in pts && forall p :: p in pts <==> p == q || p in init;
      var prev := ScoreExpansions(s, init);
      if prev[q] == 0.0 then prev[q := 1.502] else prev
  }

  /// `scores[x][y].score += Math.random() * 0.001` where the score is
  /// positive, with the random draws as `noise`.
  function JitterAt(s: seq<real>, noise: seq<real>, k: nat): real
    requires k < |s| && k < |noise|
  {
    if s[k] > 0.0 then s[k] + noise[k] else s[k]
  }

  function Jitter(s: seq<real>, noise: seq<real>): (r: seq<real>)
    requires |noise| == |s|
  {
    seq(|s|, k requires 0 <= k < |s| => JitterAt(s, noise, k))
  }

  /// The random draws of `Math.random() * 0.001`: in `[0, 0.001)`.
  predicate Draws(noise: seq<real>)
  {
    forall k :: 0 <= k < |noise| ==> 0.0 <= noise[k] < 0.001
  }

  /// The flattened result of `getPriorityMove(moves)` on a board of
  /// length `n`.
  function PriorityScores(o: MoveOptions, n: nat, noise: seq<real>): (r: seq<real>)
    requires n > 0 && OptionsFit(o, n * n) && |noise| == n * n
    ensures |r| == n * n
  {
    BumpsFit(o, n);
    Jitter(ScoreExpansions(ApplyBumps(seq(n * n, _ => 0.0), Bumps(o, n)), o.expansion), noise)
  }

  /// The score of each point in closed form: the sum of its bumps, 1.502
  /// instead when that sum is 0 and the point is an expansion move, plus
  /// its draw when positive.
  lemma ScoreAt(o: MoveOptions, n: nat, noise: seq<real>, p: nat)
    requires n > 0 && OptionsFit(o, n * n) && |noise| == n * n && p < n * n
    ensures BumpsIn(Bumps(o, n), n * n)
    ensures var t := Total(Bumps(o, n), p);
      var e := if p in o.expansion && t == 0.0 then 1.502 else t;
      PriorityScores(o, n, noise)[p] == if e > 0.0 then e + noise[p] else e
  {
    BumpsFit(o, n);
    ApplyBumpsAt(seq(n * n, _ => 0.0), Bumps(o, n));
  }

  /// No bump of the run takes anything away.
  predicate NonNegative(bs: seq<Bump>)
  {
    forall k :: 0 <= k < |bs| ==> bs[k].amount >= 0.0
  }

  /// No bump takes anything away when every defend move gains liberties.
  lemma AmountsNonNegative(o: MoveOptions, n: nat)
    requires n > 0 && DefendsGain(o)
    ensures NonNegative(Bumps(o, n))
  {
    var runs := Runs(o, n);
    assert forall i :: 0 <= i < |o.defend| ==> o.defend[i] in o.defend;
    assert forall r :: 0 <= r < |runs| ==> NonNegative(runs[r]);
    ConcatNonNegative(runs, 8);
  }

  lemma {:induction false} ConcatNonNegative(runs: seq<seq<Bump>>, k: nat)
    requires k <= |runs| && forall r :: 0 <= r < |runs| ==> NonNegative(runs[r])
    ensures NonNegative(Concat(runs, k))
  {
    if k > 0 {
      ConcatNonNegative(runs, k - 1);
      var a, b := Concat(runs, k - 1), runs[k - 1];
      assert forall i :: 0 <= i < |a + b| ==> (a + b)[i] == if i < |a| then a[i] else b[i - |a|];
    }
  }

  /// The first run comes first.
  lemma {:induction false} ConcatStartsWith(runs: seq<seq<Bump>>, k: nat, i: nat)
    requires 1 <= k <= |runs| && i < |runs[0]|
    ensures i < |Concat(runs, k)| && Concat(runs, k)[i] == runs[0][i]
  {
    if k > 1 {
      ConcatStartsWith(runs, k - 1, i);
    }
  }

  /// Every score is at least 0, and a capture move scores at least
  /// 17.013.
  lemma CaptureScoresHigh(o: MoveOptions, n: nat, noise: seq<real>, i: nat)
    requires n > 0 && OptionsFit(o, n * n) && |noise| == n * n && Draws(noise) && DefendsGain(o)
    requires i < |o.surround| && o.surround[i].newLibertyCount == 0
    ensures o.surround[i].point < n * n
    ensures PriorityScores(o, n, noise)[o.surround[i].point] >= 17.013
  {
    var bs := Bumps(o, n);
    var p := o.surround[i].point;
    assert o.surround[i] in o.surround;
    AmountsNonNegative(o, n);
    ConcatStartsWith(Runs(o, n), 8, i);
    assert bs[i] == Bump(p, SurroundAmount(o.surround[i], n));
    TotalAtLeast(bs, i);
    ScoreAt(o, n, noise, p);
  }

  /// No score is negative.
  lemma ScoresNonNegative(o: MoveOptions, n: nat, noise: seq<real>, p: nat)
    requires n > 0 && OptionsFit(o, n * n) && |noise| == n * n && Draws(noise) && DefendsGain(o)
    requires p < n * n
    ensures PriorityScores(o, n, noise)[p] >= 0.0
  {
    AmountsNonNegative(o, n);
    TotalNonNegative(Bumps(o, n));
    ScoreAt(o, n, noise, p);
  }

  /// `getPriorityMove(moves)`: the table starts at 0, each option list adds
  /// its amounts, the expansion pass fills unscored expansion points, the
  /// positive scores get their draw, and the columns are concatenated.
  method GetPriorityMove(o: MoveOptions, n: nat, noise: seq<real>) returns (result: seq<real>)
    requires n > 0 && OptionsFit(o, n * n) && |noise| == n * n
    ensures result == PriorityScores(o, n, noise)
  {
    var boardLength := n;
    var scores := new real[boardLength * boardLength](_ => 0.0);
    ghost var zeros := seq(n * n, _ => 0.0);
    assert scores[..] == zeros;
    BumpsFit(o, n);
    var runs := Runs(o, n);
    RunsFit(o, n);
    ConcatIn(runs, 0, n * n);
    var r := 0;
    while r < |runs|
      invariant 0 <= r <= |runs| && BumpsIn(Concat(runs, r), n * n)
      invariant scores[..] == ApplyBumps(zeros, Concat(runs, r))
    {
      ConcatIn(runs, r + 1, n * n);
      AddBumps(scores, runs[r]);
      ApplyBumpsAppend(zeros, Concat(runs, r), runs[r]);
      r := r + 1;
    }
    AddExpansions(scores, o.expansion);
    AddJitter(scores, n, noise);
    result := scores[..];
  }

  /// The expansion loop of `getPriorityMove`.
  method AddExpansions(scores: array<real>, expansion: seq<nat>)
    requires forall q :: q in expansion ==> q < scores.Length
    modifies scores
    ensures scores[..] == ScoreExpansions(old(scores[..]), expansion)
  {
    ghost var bumped := scores[..];
    var i := 0;
    while i < |expansion|
      invariant 0 <= i <= |expansion| && (forall q :: q in expansion[..i] ==> q < |bumped|)
      invariant scores[..] == ScoreExpansions(bumped, expansion[..i])
    {
      var q := expansion[i];
      assert q in expansion;
      assert expansion[..i + 1] == expansion[..i] + [q];
      if scores[q] == 0.0 {
        scores[q] := scores[q] + 1.502;
      }
      i := i + 1;
    }
    assert expansion[..i] == expansion;
  }

  /// The closing double loop of `getPriorityMove`, column by column.
  method AddJitter(scores: array<real>, n: nat, noise: seq<real>)
    requires scores.Length == n * n && |noise| == n * n
    modifies scores
    ensures scores[..] == Jitter(old(scores[..]), noise)
  {
    ghost var expanded := scores[..];
    var boardLength := n;
    var x := 0;
    while x < boardLength
      invariant 0 <= x <= n
      invariant forall k :: 0 <= k < n * n ==> scores[k] == if k < x * n then JitterAt(expanded, noise, k) else expanded[k]
    {
      var y := 0;
      while y < boardLength
        invariant 0 <= y <= n
        invariant forall k :: 0 <= k < n * n ==> scores[k] == if k < x * n + y then JitterAt(expanded, noise, k) else expanded[k]
      {
        IndexBound(x, y, n);
        var k := x * n + y;
        if scores[k] > 0.0 {
          scores[k] := scores[k] + noise[k];
        }
        y := y + 1;
      }
      assert x * n + n == (x + 1) * n;
      x := x + 1;
    }
    assert scores[..] == Jitter(expanded, noise);
  }

  /// One `for (const move of ...)` loop of `getPriorityMove`.
  method AddBumps(scores: array<real>, bs: seq<Bump>)
    requires BumpsIn(bs, scores.Length)
    modifies scores
    ensures scores[..] == ApplyBumps(old(scores[..]), bs)
  {
    var i := 0;
    while i < |bs|
      invariant 0 <= i <= |bs|
      invariant BumpsIn(bs[..i], scores.Length)
      invariant scores[..] == ApplyBumps(old(scores[..]), bs[..i])
    {
      assert bs[..i + 1][..i] == bs[..i];
      scores[bs[i].point] := scores[bs[i].point] + bs[i].amount;
      i := i + 1;
    }
    assert bs[..i] == bs;
  }

  // ---------------------------------------------------------------------
  // getMove: the choice

  /// `ns.go.makeMove(point / n, point % n)` or `ns.go.passTurn()`.
  datatype Decision = Play(point: nat) | Pass

  /// A point `getMove` keeps: legal for the host and scored above 0.
  predicate Candidate(scores: seq<real>, valid: set<nat>, i: nat)
  {
    i < |scores| && i in valid && scores[i] > 0.0
  }

  /// The first among the points below `k` with the highest score, as the
  /// stable descending sort of `getMove` puts first.
  function BestBelow(scores: seq<real>, valid: set<nat>, k: nat): (r: Option<nat>)
    requires k <= |scores|
    ensures r.None? <==> forall i :: 0 <= i < k && i in valid ==> scores[i] <= 0.0
    ensures r.Some? ==> (r.value < k && Candidate(scores, valid, r.value)
      && (forall i :: 0 <= i < k && Candidate(scores, valid, i) ==> scores[i] <= scores[r.value])
      && (forall i :: 0 <= i < r.value && Candidate(scores, valid, i) ==> scores[i] < scores[r.value]))
  {
    if k == 0 then None
    else
      var prev := BestBelow(scores, valid, k - 1);
      if Candidate(scores, valid, k - 1) && (prev.None? || scores[k - 1] > scores[prev.value]) then Some(k - 1)
      else prev
  }

  /// The decision of `getMove` on the flattened scores.
  function ChooseMove(scores: seq<real>, valid: set<nat>): (d: Decision)
    ensures d.Pass? <==> forall i :: 0 <= i < |scores| && i in valid ==> scores[i] <= 0.0
    ensures d.Play? ==> (Candidate(scores, valid, d.point)
      && (forall i :: 0 <= i < |scores| && Candidate(scores, valid, i) ==> scores[i] <= scores[d.point])
      && (forall i :: 0 <= i < d.point && Candidate(scores, valid, i) ==> scores[i] < scores[d.point]))
  {
    match BestBelow(scores, valid, |scores|)
    case None => Pass
    case Some(p) => Play(p)
  }

  /// The draws change no point's sign, so they never change whether
  /// `getMove` passes.
  lemma JitterKeepsPass(s: seq<real>, noise: seq<real>, valid: set<nat>)
    requires |noise| == |s| && Draws(noise)
    ensures ChooseMove(Jitter(s, noise), valid).Pass? <==> ChooseMove(s, valid).Pass?
  {
    var j := Jitter(s, noise);
    assert forall i :: 0 <= i < |s| ==> (Candidate(j, valid, i) <==> Candidate(s, valid, i));
  }

  /// The draws can only choose among points whose scores before the draws
  /// are within 0.001 of the best.
  lemma JitterNearBest(s: seq<real>, noise: seq<real>, valid: set<nat>)
    requires |noise| == |s| && Draws(noise)
    ensures var d := ChooseMove(Jitter(s, noise), valid);
      d.Play? ==> (Candidate(s, valid, d.point)
        && forall i :: 0 <= i < |s| && Candidate(s, valid, i) ==> s[i] < s[d.point] + 0.001)
  {
    var j := Jitter(s, noise);
    var d := ChooseMove(j, valid);
    assert forall i :: 0 <= i < |s| ==> (Candidate(j, valid, i) <==> Candidate(s, valid, i));
    if d.Play? {
      forall i | 0 <= i < |s| && Candidate(s, valid, i) ensures s[i] < s[d.point] + 0.001 {
        assert j[i] == s[i] + noise[i] && j[d.point] == s[d.point] + noise[d.point];
      }
    }
  }

  /// `getMove(boardState, player, sleepMs, opponentMove)`: the smart
  /// options, scored, and the best legal positive point, or a pass.
  ghost function GetMove(board: seq<Cell>, n: nat, player: Stone, opponentPassed: bool, valid: set<nat>, noise: seq<real>): (d: Decision)
    requires Shaped(board, n) && n > 0 && |noise| == n * n && Draws(noise)
    ensures d.Play? ==> d.point in valid && d.point < n * n
    ensures var scores := PriorityScores(GetMoveOptions(board, n, player, true, opponentPassed, valid), n, noise);
      d.Pass? <==> forall i :: 0 <= i < |scores| && i in valid ==> scores[i] <= 0.0
  {
    var o := GetMoveOptions(board, n, player, true, opponentPassed, valid);
    ChooseMove(PriorityScores(o, n, noise), valid)
  }
}
