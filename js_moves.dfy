/// go.js: the candidate move generators of `getMoveOptions`
/// (`getDisputedTerritoryMoves`, `getExpansionMoveArray`, `getJumpMove`,
/// `getLibertyGrowthMoves`, `getDefendMove`, `getSurroundMove`,
/// `getEyeCreationMoves`, `getEyeBlockingMove1/2` and `getCornerMove`).
///
/// A point is named by its index `x * n + y`; the `availableSpaces` are
/// records of the board, and `availablePoint.x === x && availablePoint.y
/// === y` is index equality.
module JsMoves {
  import opened Wrappers
  import opened Arith
  import opened JsBoards
  import opened JsChains
  import opened JsCaptures
  import opened JsLiberties
  import opened JsEyes
  import opened Groups

  /// Every listed point indexes the board.
  predicate Below(board: seq<Cell>, s: seq<nat>)
  {
    forall q :: q in s ==> q < |board|
  }

  /// A prefix of a list below the board's length is below it too.
  lemma BelowPrefix(board: seq<Cell>, s: seq<nat>, k: nat)
    requires Below(board, s) && k <= |s|
    ensures Below(board, s[..k])
  {
    forall q | q in s[..k] ensures q < |board| {
      var i :| 0 <= i < k && s[..k][i] == q;
      assert s[i] in s;
    }
  }

  /// Every listed point is a record of the board.
  predicate AllLive(board: seq<Cell>, s: seq<nat>)
  {
    forall q :: q in s ==> Live(board, q)
  }

  /// A move record: `{point, chainLength, oldLibertyCount, newLibertyCount}`.
  datatype Move = Move(point: nat, chainLength: nat, oldLibertyCount: int, newLibertyCount: int)

  // ---------------------------------------------------------------------
  // getDisputedTerritoryMoves

  /// `chains.filter((chain) => chain.length <= maxChainSize)`.
  function ShortChains(board: seq<Cell>, chains: seq<seq<nat>>, maxChainSize: nat): (r: seq<seq<nat>>)
    requires ChainList(board, chains)
    ensures ChainList(board, r) && |r| <= |chains|
    ensures forall e :: e in r <==> e in chains && |e| <= maxChainSize
  {
    if chains == [] then []
    else
      assert forall e :: e in chains <==> e == chains[0] || e in chains[1..];
      (if |chains[0]| <= maxChainSize then [chains[0]] else []) + ShortChains(board, chains[1..], maxChainSize)
  }

  /// The test of `getDisputedTerritoryMoves` for one space: the list of its
  /// chain among `chains` borders a white and a black chain of `chains`. A
  /// space whose chain is not listed gets `[]`, which borders nothing.
  ghost predicate Contested(board: seq<Cell>, n: nat, chains: seq<seq<nat>>, space: nat)
    requires Shaped(board, n) && ChainList(board, chains) && Live(board, space)
  {
    match FindChain(board, chains, IdAt(board, space))
    case None => false
    case Some(j) =>
      var playerNeighbors := NeighboringChains(board, n, SetOf(chains[j]), chains);
      HasColor(board, chains, playerNeighbors, White) && HasColor(board, chains, playerNeighbors, Black)
  }

  /// `getDisputedTerritoryMoves(board, availableSpaces, maxChainSize)`.
  ghost function DisputedTerritoryMoves(board: seq<Cell>, n: nat, availableSpaces: seq<nat>, maxChainSize: nat): (r: seq<nat>)
    requires Shaped(board, n)
    ensures forall q :: q in r <==> (q in availableSpaces && Live(board, q)
      && Contested(board, n, ShortChains(board, AllChains(board), maxChainSize), q))
  {
    var chains := ShortChains(board, AllChains(board), maxChainSize);
    Filter(availableSpaces, q => Live(board, q) && Contested(board, n, chains, q))
  }

  /// Chain list `e` borders, among `chains`, a white chain and a black one.
  ghost predicate BordersBoth(board: seq<Cell>, n: nat, chains: seq<seq<nat>>, e: seq<nat>)
    requires Shaped(board, n) && ChainList(board, chains)
  {
    var js := NeighboringChains(board, n, SetOf(e), chains);
    HasColor(board, chains, js, White) && HasColor(board, chains, js, Black)
  }

  /// The chain of a contested space is listed and borders a white chain
  /// and a black one; with `chains` the short chains of
  /// `DisputedTerritoryMoves`, that chain is no longer than `maxChainSize`.
  lemma ContestedChain(board: seq<Cell>, n: nat, chains: seq<seq<nat>>, maxChainSize: nat, q: nat)
    requires Shaped(board, n) && ChainList(board, chains) && Live(board, q) && Contested(board, n, chains, q)
    requires forall e :: e in chains ==> |e| <= maxChainSize
    ensures exists j :: (0 <= j < |chains| && 0 < |chains[j]| <= maxChainSize && Live(board, chains[j][0])
      && IdAt(board, chains[j][0]) == IdAt(board, q) && BordersBoth(board, n, chains, chains[j]))
  {
    var j := FindChain(board, chains, IdAt(board, q)).value;
    assert chains[j] in chains && chains[j][0] in chains[j];
  }

  // ---------------------------------------------------------------------
  // getExpansionMoveArray and getJumpMove

  /// `point && point.color === "empty"`.
  predicate EmptyLookup(l: Lookup)
  {
    l.Found? && l.p.color == Empty
  }

  /// All four neighbours of `q` are empty records.
  predicate OpenPoint(board: seq<Cell>, n: nat, q: nat)
    requires Shaped(board, n) && n > 0
  {
    var nb := FindNeighbors(board, n, q / n, q % n);
    EmptyLookup(nb.north) && EmptyLookup(nb.east) && EmptyLookup(nb.south) && EmptyLookup(nb.west)
  }

  /// `getExpansionMoveArray(board, availableSpaces)`: the available
  /// points in open areas, or, when there is none, the contested single
  /// points between single stones. The records carry liberty counts of -1,
  /// which nothing reads, so the points stand for them.
  ghost function ExpansionMoves(board: seq<Cell>, n: nat, availableSpaces: seq<nat>): (r: seq<nat>)
    requires Shaped(board, n) && n > 0
    ensures (exists q :: q in availableSpaces && OpenPoint(board, n, q)) ==>
      forall q :: q in r <==> q in availableSpaces && OpenPoint(board, n, q)
    ensures (forall q :: q in availableSpaces ==> !OpenPoint(board, n, q)) ==>
      r == DisputedTerritoryMoves(board, n, availableSpaces, 1)
    ensures forall q :: q in r ==> q in availableSpaces
  {
    var emptySpaces := Filter(availableSpaces, (q: nat) => OpenPoint(board, n, q));
    if exists q :: q in availableSpaces && OpenPoint(board, n, q) then
      var w :| w in availableSpaces && OpenPoint(board, n, w);
      assert w in emptySpaces;
      emptySpaces
    else
      DisputedTerritoryMoves(board, n, availableSpaces, 1)
  }

  /// `point?.color === player`.
  predicate StoneLookup(l: Lookup, player: Stone)
  {
    l.Found? && l.p.color == player
  }

  /// A stone of `player` two points away, north, east, south or west.
  predicate JumpPoint(board: seq<Cell>, n: nat, player: Stone, q: nat)
    requires Shaped(board, n) && n > 0
  {
    var x, y := q / n, q % n;
    StoneLookup(At(board, n, x, y + 2), player) || StoneLookup(At(board, n, x + 2, y), player)
    || StoneLookup(At(board, n, x, y - 2), player) || StoneLookup(At(board, n, x - 2, y), player)
  }

  /// `getJumpMove(board, player, availableSpaces, expansionMoves)`.
  function JumpMoves(board: seq<Cell>, n: nat, player: Stone, expansionMoves: seq<nat>): (r: seq<nat>)
    requires Shaped(board, n) && n > 0
    ensures forall q :: q in r <==> q in expansionMoves && JumpPoint(board, n, player, q)
  {
    Filter(expansionMoves, (q: nat) => JumpPoint(board, n, player, q))
  }

  /// A jump move lies on the board, in the row or column of a stone of
  /// `player` two points away.
  lemma JumpNearStone(board: seq<Cell>, n: nat, player: Stone, expansionMoves: seq<nat>, q: nat)
    requires Shaped(board, n) && n > 0 && q in JumpMoves(board, n, player, expansionMoves)
    ensures exists s :: (Live(board, s) && board[s].value.color == player
      && ((s / n == q / n && (s % n == q % n + 2 || s % n + 2 == q % n))
          || (s % n == q % n && (s / n == q / n + 2 || s / n + 2 == q / n))))
  {
    var x, y := q / n, q % n;
    if StoneLookup(At(board, n, x, y + 2), player) {
      Witness(board, n, player, x, y + 2);
    } else if StoneLookup(At(board, n, x + 2, y), player) {
      Witness(board, n, player, x + 2, y);
    } else if StoneLookup(At(board, n, x, y - 2), player) {
      Witness(board, n, player, x, y - 2);
    } else {
      Witness(board, n, player, x - 2, y);
    }
  }

  /// The stone a lookup finds sits at index `x * n + y`.
  lemma Witness(board: seq<Cell>, n: nat, player: Stone, x: int, y: int)
    requires Shaped(board, n) && n > 0 && StoneLookup(At(board, n, x, y), player)
    ensures 0 <= x < n && 0 <= y < n && Live(board, x * n + y) && board[x * n + y].value.color == player
    ensures (x * n + y) / n == x && (x * n + y) % n == y
  {
    DivModUnique(x * n + y, n, x, y);
  }

  // ---------------------------------------------------------------------
  // getLibertyGrowthMoves and getDefendMove

  /// `chain[0].liberties` as an array, `[]` when it is missing.
  function StoredLiberties(board: seq<Cell>, e: seq<nat>): seq<nat>
    requires |e| > 0 && Live(board, e[0])
  {
    var libs := board[e[0]].value.liberties;
    if libs.Some? then libs.value else []
  }

  /// `q` is in the stored liberty array of some list of `chains`.
  predicate HasLiberty(board: seq<Cell>, chains: seq<seq<nat>>, q: nat)
  {
    exists e :: e in chains && |e| > 0 && Live(board, e[0]) && q in StoredLiberties(board, e)
  }

  /// `chains.map((chain) => chain[0].liberties).flat()` with the missing
  /// arrays dropped: every liberty of every list, duplicates kept.
  function LibertyPoints(board: seq<Cell>, chains: seq<seq<nat>>): (r: seq<nat>)
    requires ChainList(board, chains)
    ensures forall q :: q in r <==> HasLiberty(board, chains, q)
  {
    if chains == [] then []
    else
      assert chains[0][0] in chains[0];
      var rest := LibertyPoints(board, chains[1..]);
      assert forall e :: e in chains <==> e == chains[0] || e in chains[1..];
      StoredLiberties(board, chains[0]) + rest
  }

  /// `chain.length`, with `missing` standing for an absent chain.
  function LengthOr(c: Option<seq<nat>>, missing: nat): (r: nat)
    ensures c.Some? ==> r == |c.value|
    ensures c.None? ==> r == missing
  {
    if c.Some? then |c.value| else missing
  }

  /// The record of `getLibertyGrowthMoves` for liberty `q`: the new
  /// liberties the stone would have, the fewest liberties among the
  /// friendly chains next to it, and that chain's length.
  function GrowthMove(board: seq<Cell>, n: nat, player: Stone, q: nat): (m: Move)
    requires Shaped(board, n) && q < |board|
    ensures m.point == q && m.newLibertyCount == |EffectiveLiberties(board, n, q, player)|
    ensures m.oldLibertyCount == MinLibertyCount(board, n, q, player)
  {
    Move(q, LengthOr(FewestLibertiesChain(board, n, q, player), 0),
      MinLibertyCount(board, n, q, player), |EffectiveLiberties(board, n, q, player)|)
  }

  /// `move.newLibertyCount > 1 && move.newLibertyCount >= move.oldLibertyCount`.
  predicate Grows(m: Move)
  {
    m.newLibertyCount > 1 && m.newLibertyCount >= m.oldLibertyCount
  }

  /// The `map` and `filter` of `getLibertyGrowthMoves` over `libs`.
  function GrowthFrom(board: seq<Cell>, n: nat, player: Stone, libs: seq<nat>): (r: seq<Move>)
    requires Shaped(board, n) && forall q :: q in libs ==> q < |board|
    ensures forall m :: m in r ==> m.point in libs && Grows(m) && m == GrowthMove(board, n, player, m.point)
    ensures forall q :: q in libs && Grows(GrowthMove(board, n, player, q)) ==> GrowthMove(board, n, player, q) in r
  {
    if libs == [] then []
    else
      assert libs[0] in libs && forall q :: q in libs <==> q == libs[0] || q in libs[1..];
      var m := GrowthMove(board, n, player, libs[0]);
      assert m.point == libs[0];
      (if Grows(m) then [m] else []) + GrowthFrom(board, n, player, libs[1..])
  }

  /// `getLibertyGrowthMoves(board, player, availableSpaces)`.
  function LibertyGrowthMoves(board: seq<Cell>, n: nat, player: Stone, availableSpaces: seq<nat>): (r: seq<Move>)
    requires Shaped(board, n) && AllLive(board, availableSpaces)
    ensures forall m :: m in r <==> (m.point in availableSpaces && HasLiberty(board, Friendly(board, player), m.point)
      && Grows(m) && m == GrowthMove(board, n, player, m.point))
  {
    var friendlyChains := Friendly(board, player);
    if |friendlyChains| == 0 then
      assert forall q :: !HasLiberty(board, friendlyChains, q);
      []
    else
      var liberties := Filter(LibertyPoints(board, friendlyChains), q => q in availableSpaces);
      assert forall q :: q in liberties <==> q in availableSpaces && HasLiberty(board, friendlyChains, q);
      GrowthFrom(board, n, player, liberties)
  }

  /// `growthMoves.filter((move) => move.newLibertyCount > move.oldLibertyCount)`.
  function Increasing(ms: seq<Move>): (r: seq<Move>)
    ensures forall m :: m in r <==> m in ms && m.newLibertyCount > m.oldLibertyCount
  {
    if ms == [] then []
    else
      assert forall m :: m in ms <==> m == ms[0] || m in ms[1..];
      (if ms[0].newLibertyCount > ms[0].oldLibertyCount then [ms[0]] else []) + Increasing(ms[1..])
  }

  /// `getDefendMove(board, player, availableSpaces)`.
  function DefendMoves(board: seq<Cell>, n: nat, player: Stone, availableSpaces: seq<nat>): (r: seq<Move>)
    requires Shaped(board, n) && AllLive(board, availableSpaces)
    ensures forall m :: m in r <==> m in LibertyGrowthMoves(board, n, player, availableSpaces) && m.newLibertyCount > m.oldLibertyCount
  {
    Increasing(LibertyGrowthMoves(board, n, player, availableSpaces))
  }

  /// A defend move is a liberty of a friendly chain where the new stone
  /// has at least two liberties and more than the weakest friendly chain
  /// next to it had.
  lemma DefendMovesGain(board: seq<Cell>, n: nat, player: Stone, availableSpaces: seq<nat>, m: Move)
    requires Shaped(board, n) && AllLive(board, availableSpaces)
    requires m in DefendMoves(board, n, player, availableSpaces)
    ensures m.point in availableSpaces && HasLiberty(board, Friendly(board, player), m.point)
    ensures m.newLibertyCount == |EffectiveLiberties(board, n, m.point, player)| >= 2
    ensures m.newLibertyCount > m.oldLibertyCount == MinLibertyCount(board, n, m.point, player)
  {
  }

  // ---------------------------------------------------------------------
  // getSurroundMove

  /// How `getSurroundMove` classes an enemy liberty.
  datatype Threat = Capture | Atari | Surround | Ignored

  /// `new Set(liberties.map((point) => point?.chain ?? ""))`: the chain
  /// ids around the weakest enemy chain's liberties.
  function LibertyGroups(board: seq<Cell>, libs: seq<nat>): set<ChainId>
  {
    set q | q in libs :: if Live(board, q) then IdAt(board, q) else NoChain
  }

  /// The classification of liberty `q` by the new stone's liberties, the
  /// weakest enemy chain next to it, its liberty count and the chain ids
  /// of its liberties.
  function SurroundThreat(board: seq<Cell>, n: nat, player: Stone, q: nat, smart: bool): Threat
    requires Shaped(board, n) && q < |board|
  {
    var newLibertyCount := |EffectiveLiberties(board, n, q, player)|;
    var weakest := FewestLibertiesChain(board, n, q, OtherSide(player));
    var weakestLength := LengthOr(weakest, 99);
    var enemyLibertyCount := MinLibertyCount(board, n, q, OtherSide(player));
    var groups := if weakest.Some? then |LibertyGroups(board, StoredLiberties(board, weakest.value))| else 0;
    if newLibertyCount <= 2 && enemyLibertyCount > 2 then Ignored
    else if enemyLibertyCount <= 1 then Capture
    else if enemyLibertyCount == 2 && (newLibertyCount >= 2 || (groups == 1 && weakestLength > 3) || !smart) then Atari
    else if newLibertyCount >= 2 then Surround
    else Ignored
  }

  /// The record pushed for liberty `q`.
  function SurroundMove(board: seq<Cell>, n: nat, player: Stone, q: nat): Move
    requires Shaped(board, n) && q < |board|
  {
    var enemyLibertyCount := MinLibertyCount(board, n, q, OtherSide(player));
    Move(q, LengthOr(FewestLibertiesChain(board, n, q, OtherSide(player)), 99), enemyLibertyCount, enemyLibertyCount - 1)
  }

  /// The records of the liberties of `libs` classed `t`, in order.
  function Classed(board: seq<Cell>, n: nat, player: Stone, smart: bool, libs: seq<nat>, t: Threat): seq<Move>
    requires Shaped(board, n) && Below(board, libs)
  {
    if libs == [] then []
    else
      var init := libs[..|libs| - 1];
      var q := libs[|libs| - 1];
      assert q in libs && forall p :: p in init ==> p in libs;
      var rest := Classed(board, n, player, smart, init, t);
      rest + (if SurroundThreat(board, n, player, q, smart) == t then [SurroundMove(board, n, player, q)] else [])
  }

  /// Every record in a class list is the record of a point of `libs` in
  /// that class.
  lemma {:induction false} ClassedSound(board: seq<Cell>, n: nat, player: Stone, smart: bool, libs: seq<nat>, t: Threat)
    requires Shaped(board, n) && Below(board, libs)
    ensures forall m :: m in Classed(board, n, player, smart, libs, t) ==>
      (m.point in libs && SurroundThreat(board, n, player, m.point, smart) == t
       && m == SurroundMove(board, n, player, m.point))
  {
    if libs != [] {
      var init := libs[..|libs| - 1];
      var q := libs[|libs| - 1];
      assert q in libs && forall p :: p in init ==> p in libs;
      ClassedSound(board, n, player, smart, init, t);
      ClassedUnfold(board, n, player, smart, libs, t);
      var rest := Classed(board, n, player, smart, init, t);
      var r := Classed(board, n, player, smart, libs, t);
      if SurroundThreat(board, n, player, q, smart) == t {
        var m := SurroundMove(board, n, player, q);
        assert m.point == q;
        forall x | x in r
          ensures x.point in libs && SurroundThreat(board, n, player, x.point, smart) == t
            && x == SurroundMove(board, n, player, x.point)
        {
          InPush(rest, m, x);
        }
      }
    }
  }

  /// Every point of `libs` in the class has its record in the class list.
  lemma {:induction false} ClassedComplete(board: seq<Cell>, n: nat, player: Stone, smart: bool, libs: seq<nat>, t: Threat)
    requires Shaped(board, n) && Below(board, libs)
    ensures forall q :: q in libs && SurroundThreat(board, n, player, q, smart) == t ==>
      SurroundMove(board, n, player, q) in Classed(board, n, player, smart, libs, t)
  {
    if libs != [] {
      var init := libs[..|libs| - 1];
      var q := libs[|libs| - 1];
      assert libs == init + [q] && forall p :: p in init ==> p in libs;
      ClassedComplete(board, n, player, smart, init, t);
      ClassedStepKeeps(board, n, player, smart, libs, t);
      forall x | x in libs && SurroundThreat(board, n, player, x, smart) == t
        ensures SurroundMove(board, n, player, x) in Classed(board, n, player, smart, libs, t)
      {
        if x != q {
          InPush(init, q, x);
        }
      }
    }
  }

  /// One more point keeps every record of the class list and adds the
  /// point's own when it is in the class.
  lemma ClassedStepKeeps(board: seq<Cell>, n: nat, player: Stone, smart: bool, libs: seq<nat>, t: Threat)
    requires Shaped(board, n) && Below(board, libs) && libs != []
    ensures var init := libs[..|libs| - 1];
      Below(board, init) && forall x :: x in Classed(board, n, player, smart, init, t) ==> x in Classed(board, n, player, smart, libs, t)
    ensures var q := libs[|libs| - 1];
      q < |board| && (SurroundThreat(board, n, player, q, smart) == t ==> SurroundMove(board, n, player, q) in Classed(board, n, player, smart, libs, t))
  {
    var init := libs[..|libs| - 1];
    var q := libs[|libs| - 1];
    assert q in libs && forall p :: p in init ==> p in libs;
    ClassedUnfold(board, n, player, smart, libs, t);
    var rest := Classed(board, n, player, smart, init, t);
    var tail := if SurroundThreat(board, n, player, q, smart) == t then [SurroundMove(board, n, player, q)] else [];
    forall x | x in rest ensures x in rest + tail {
    }
  }

  /// `Classed` on a non-empty list: the class list of all but the last
  /// point, and the last point's record when it is in the class.
  lemma ClassedUnfold(board: seq<Cell>, n: nat, player: Stone, smart: bool, libs: seq<nat>, t: Threat)
    requires Shaped(board, n) && Below(board, libs) && libs != []
    ensures var init := libs[..|libs| - 1];
      var q := libs[|libs| - 1];
      Below(board, init) && q < |board|
      && Classed(board, n, player, smart, libs, t) == Classed(board, n, player, smart, init, t)
        + (if SurroundThreat(board, n, player, q, smart) == t then [SurroundMove(board, n, player, q)] else [])
  {
    var init := libs[..|libs| - 1];
    assert libs[|libs| - 1] in libs;
    forall p | p in init ensures p < |board| {
      assert p in libs;
    }
  }

  /// A member of `a + [m]` is a member of `a` or `m` itself.
  lemma InPush<T>(a: seq<T>, m: T, x: T)
    requires x in a + [m]
    ensures x in a || x == m
  {
    var i :| 0 <= i < |a| + 1 && (a + [m])[i] == x;
    if i < |a| {
      assert a[i] == x;
    }
  }

  /// The enemy liberties `getSurroundMove` considers.
  function EnemyLiberties(board: seq<Cell>, player: Stone, availableSpaces: seq<nat>): (r: seq<nat>)
    ensures forall q :: q in r <==> q in availableSpaces && HasLiberty(board, OfColor(board, AllChains(board), OtherSide(player)), q)
  {
    Filter(LibertyPoints(board, OfColor(board, AllChains(board), OtherSide(player))), q => q in availableSpaces)
  }

  /// `getSurroundMove(board, player, availableSpaces, smart)`: `null`
  /// without enemy chains or available spaces, else the capture moves,
  /// then the atari moves, then the surround moves.
  function SurroundMoves(board: seq<Cell>, n: nat, player: Stone, availableSpaces: seq<nat>, smart: bool): (r: Option<seq<Move>>)
    requires Shaped(board, n) && AllLive(board, availableSpaces)
  {
    if |OfColor(board, AllChains(board), OtherSide(player))| == 0 || |availableSpaces| == 0 then None
    else
      var libs := EnemyLiberties(board, player, availableSpaces);
      Some(Classed(board, n, player, smart, libs, Capture) + Classed(board, n, player, smart, libs, Atari)
        + Classed(board, n, player, smart, libs, Surround))
  }

  /// `getSurroundMove`: the `forEach` pushes each liberty's record onto the
  /// list of its class.
  method GetSurroundMove(board: seq<Cell>, n: nat, player: Stone, availableSpaces: seq<nat>, smart: bool)
    returns (r: Option<seq<Move>>)
    requires Shaped(board, n) && AllLive(board, availableSpaces)
    ensures r == SurroundMoves(board, n, player, availableSpaces, smart)
  {
    var all := GetAllChains(board, n);
    var enemyChains := OfColor(board, all, OtherSide(player));
    if |enemyChains| == 0 || |availableSpaces| == 0 {
      return None;
    }
    var enemyLiberties := EnemyLiberties(board, player, availableSpaces);
    assert Below(board, enemyLiberties);
    BelowPrefix(board, enemyLiberties, 0);
    var captureMoves, atariMoves, surroundMoves := [], [], [];
    var i := 0;
    while i < |enemyLiberties|
      invariant 0 <= i <= |enemyLiberties| && Below(board, enemyLiberties[..i])
      invariant captureMoves == Classed(board, n, player, smart, enemyLiberties[..i], Capture)
      invariant atariMoves == Classed(board, n, player, smart, enemyLiberties[..i], Atari)
      invariant surroundMoves == Classed(board, n, player, smart, enemyLiberties[..i], Surround)
    {
      captureMoves, atariMoves, surroundMoves :=
        ClassifyLiberty(board, n, player, smart, enemyLiberties, i, captureMoves, atariMoves, surroundMoves);
      i := i + 1;
    }
    assert enemyLiberties[..i] == enemyLiberties;
    r := Some(captureMoves + atariMoves + surroundMoves);
  }

  /// One turn of the `forEach` in `getSurroundMove`: the record of the
  /// `i`-th liberty goes onto the list of its class.
  method ClassifyLiberty(board: seq<Cell>, n: nat, player: Stone, smart: bool, libs: seq<nat>, i: nat,
                         capture0: seq<Move>, atari0: seq<Move>, surround0: seq<Move>)
    returns (capture: seq<Move>, atari: seq<Move>, surround: seq<Move>)
    requires Shaped(board, n) && i < |libs| && Below(board, libs) && Below(board, libs[..i])
    requires capture0 == Classed(board, n, player, smart, libs[..i], Capture)
    requires atari0 == Classed(board, n, player, smart, libs[..i], Atari)
    requires surround0 == Classed(board, n, player, smart, libs[..i], Surround)
    ensures Below(board, libs[..i + 1])
    ensures capture == Classed(board, n, player, smart, libs[..i + 1], Capture)
    ensures atari == Classed(board, n, player, smart, libs[..i + 1], Atari)
    ensures surround == Classed(board, n, player, smart, libs[..i + 1], Surround)
  {
    var move := libs[i];
    ClassedStep(board, n, player, smart, libs, i, Capture);
    ClassedStep(board, n, player, smart, libs, i, Atari);
    ClassedStep(board, n, player, smart, libs, i, Surround);
    var record := SurroundMove(board, n, player, move);
    var threat := SurroundThreat(board, n, player, move, smart);
    capture, atari, surround := capture0, atari0, surround0;
    if threat == Capture {
      capture := capture + [record];
    } else if threat == Atari {
      atari := atari + [record];
    } else if threat == Surround {
      surround := surround + [record];
    }
  }

  /// One more liberty: its record joins the list of its class.
  lemma ClassedStep(board: seq<Cell>, n: nat, player: Stone, smart: bool, libs: seq<nat>, i: nat, t: Threat)
    requires Shaped(board, n) && i < |libs| && Below(board, libs)
    ensures libs[i] < |board| && Below(board, libs[..i + 1]) && Below(board, libs[..i])
    ensures Classed(board, n, player, smart, libs[..i + 1], t) == Classed(board, n, player, smart, libs[..i], t)
      + (if SurroundThreat(board, n, player, libs[i], smart) == t then [SurroundMove(board, n, player, libs[i])] else [])
  {
    assert libs[i] in libs;
    assert libs[..i + 1][..i] == libs[..i];
    BelowPrefix(board, libs, i);
    BelowPrefix(board, libs, i + 1);
  }

  /// Where a record sits in the output: 0 for captures, 1 for ataris, 2
  /// for surrounds.
  function Rank(m: Move): nat
  {
    if m.oldLibertyCount <= 1 then 0 else if m.oldLibertyCount == 2 then 1 else 2
  }

  /// What each class means in terms of the record: a capture leaves the
  /// enemy chain at most one liberty, an atari exactly two, a surround at
  /// least three while the new stone gets three or more; every record
  /// takes one liberty away.
  lemma ThreatMeaning(board: seq<Cell>, n: nat, player: Stone, q: nat, smart: bool)
    requires Shaped(board, n) && q < |board|
    ensures var m := SurroundMove(board, n, player, q);
      var t := SurroundThreat(board, n, player, q, smart);
      var newLibertyCount := |EffectiveLiberties(board, n, q, player)|;
      m.point == q && m.newLibertyCount == m.oldLibertyCount - 1
      && (t == Capture <==> m.oldLibertyCount <= 1)
      && (t == Atari ==> m.oldLibertyCount == 2)
      && (t == Surround ==> m.oldLibertyCount >= 3 && newLibertyCount >= 3)
      && (t != Ignored ==> !(newLibertyCount <= 2 && m.oldLibertyCount > 2))
  {
  }

  /// The rank of each class.
  function RankOf(t: Threat): nat
  {
    match t
    case Capture => 0
    case Atari => 1
    case _ => 2
  }

  /// Every record of a class has that class's rank and takes one liberty
  /// away.
  lemma ClassedRanks(board: seq<Cell>, n: nat, player: Stone, smart: bool, libs: seq<nat>, t: Threat)
    requires Shaped(board, n) && forall q :: q in libs ==> q < |board|
    requires t != Ignored
    ensures forall m :: m in Classed(board, n, player, smart, libs, t) ==>
      (Rank(m) == RankOf(t) && m.newLibertyCount == m.oldLibertyCount - 1 && m.point in libs)
  {
    ClassedSound(board, n, player, smart, libs, t);
    forall m | m in Classed(board, n, player, smart, libs, t)
      ensures Rank(m) == RankOf(t) && m.newLibertyCount == m.oldLibertyCount - 1 && m.point in libs
    {
      ThreatMeaning(board, n, player, m.point, smart);
    }
  }

  /// Three lists of ranks 0, 1 and 2, one after another, are ordered by
  /// rank.
  lemma RanksOrdered(c: seq<Move>, a: seq<Move>, s: seq<Move>)
    requires forall m :: m in c ==> Rank(m) == 0
    requires forall m :: m in a ==> Rank(m) == 1
    requires forall m :: m in s ==> Rank(m) == 2
    ensures forall i, j :: 0 <= i < j < |c + a + s| ==> Rank((c + a + s)[i]) <= Rank((c + a + s)[j])
  {
    forall i | 0 <= i < |c + a + s| ensures Rank((c + a + s)[i]) == (if i < |c| then 0 else if i < |c| + |a| then 1 else 2) {
      RankAt(c, a, s, i);
    }
  }

  /// `getSurroundMove` returns `null` exactly without enemy chains or
  /// available spaces; otherwise its records are those of the classified
  /// enemy liberties, ordered captures, ataris, surrounds, each taking one
  /// liberty from the weakest enemy chain next to it.
  lemma SurroundMovesOrdered(board: seq<Cell>, n: nat, player: Stone, availableSpaces: seq<nat>, smart: bool)
    requires Shaped(board, n) && AllLive(board, availableSpaces)
    ensures var r := SurroundMoves(board, n, player, availableSpaces, smart);
      (r.None? <==> |OfColor(board, AllChains(board), OtherSide(player))| == 0 || |availableSpaces| == 0)
      && (r.Some? ==>
        (forall i, j :: 0 <= i < j < |r.value| ==> Rank(r.value[i]) <= Rank(r.value[j]))
        && (forall m :: m in r.value ==> (m.point in availableSpaces && m.newLibertyCount == m.oldLibertyCount - 1
              && SurroundThreat(board, n, player, m.point, smart) != Ignored))
        && (forall q :: q in EnemyLiberties(board, player, availableSpaces) && SurroundThreat(board, n, player, q, smart) != Ignored
              ==> SurroundMove(board, n, player, q) in r.value))
  {
    var r := SurroundMoves(board, n, player, availableSpaces, smart);
    if r.Some? {
      var libs := EnemyLiberties(board, player, availableSpaces);
      var c := Classed(board, n, player, smart, libs, Capture);
      var a := Classed(board, n, player, smart, libs, Atari);
      var s := Classed(board, n, player, smart, libs, Surround);
      assert r.value == c + a + s;
      ClassedRanks(board, n, player, smart, libs, Capture);
      ClassedRanks(board, n, player, smart, libs, Atari);
      ClassedRanks(board, n, player, smart, libs, Surround);
      ClassedSound(board, n, player, smart, libs, Capture);
      ClassedSound(board, n, player, smart, libs, Atari);
      ClassedSound(board, n, player, smart, libs, Surround);
      RanksOrdered(c, a, s);
      forall m | m in r.value
        ensures m.point in availableSpaces && m.newLibertyCount == m.oldLibertyCount - 1
          && SurroundThreat(board, n, player, m.point, smart) != Ignored
      {
        assert m in c || m in a || m in s;
        assert m.point in libs;
      }
      forall q | q in libs && SurroundThreat(board, n, player, q, smart) != Ignored
        ensures SurroundMove(board, n, player, q) in r.value
      {
        var t := SurroundThreat(board, n, player, q, smart);
        ClassedComplete(board, n, player, smart, libs, t);
      }
    }
  }

  /// The position of entry `i` of `c + a + s`.
  lemma RankAt(c: seq<Move>, a: seq<Move>, s: seq<Move>, i: nat)
    requires i < |c + a + s|
    ensures i < |c| ==> (c + a + s)[i] in c
    ensures |c| <= i < |c| + |a| ==> (c + a + s)[i] in a
    ensures |c| + |a| <= i ==> (c + a + s)[i] in s
  {
    if i < |c| {
      assert (c + a + s)[i] == c[i];
    } else if i < |c| + |a| {
      assert (c + a + s)[i] == a[i - |c|];
    } else {
      assert (c + a + s)[i] == s[i - |c| - |a|];
    }
  }

  // ---------------------------------------------------------------------
  // getEyeCreationMoves and getEyeBlockingMove1/2

  /// An eye creation record: `{point, chainLength, createsLife}`.
  datatype EyeMove = EyeMove(point: nat, chainLength: nat, createsLife: bool)

  /// `!point || point?.color === player`: off the grid, offline, or the
  /// player's stone.
  function Shut(l: Lookup, player: Stone): nat
  {
    if !l.Found? || l.p.color == player then 1 else 0
  }

  /// The neighbourhood test of `getEyeCreationMoves`: at least two
  /// neighbours are shut and one is an empty record.
  predicate EyeShaped(board: seq<Cell>, n: nat, player: Stone, q: nat)
    requires Shaped(board, n) && n > 0
  {
    var nb := FindNeighbors(board, n, q / n, q % n);
    Shut(nb.north, player) + Shut(nb.east, player) + Shut(nb.south, player) + Shut(nb.west, player) >= 2
    && (EmptyLookup(nb.north) || EmptyLookup(nb.east) || EmptyLookup(nb.south) || EmptyLookup(nb.west))
  }

  /// A friendly chain `getEyeCreationMoves` builds on: longer than one
  /// stone, with a liberty array of at most `maxLiberties`, not yet alive.
  predicate EyeBuilder(board: seq<Cell>, e: seq<nat>, player: Stone, maxLiberties: nat, living: set<ChainId>)
  {
    ColoredChain(board, e, player) && |e| > 1 && board[e[0]].value.liberties.Some?
    && |board[e[0]].value.liberties.value| <= maxLiberties && IdAt(board, e[0]) !in living
  }

  /// The four `filter`s over the chains.
  function EyeBuilders(board: seq<Cell>, chains: seq<seq<nat>>, player: Stone, maxLiberties: nat, living: set<ChainId>): (r: seq<seq<nat>>)
    requires ChainList(board, chains)
    ensures ChainList(board, r)
    ensures forall e :: e in r <==> e in chains && EyeBuilder(board, e, player, maxLiberties, living)
  {
    if chains == [] then []
    else
      assert forall e :: e in chains <==> e == chains[0] || e in chains[1..];
      (if EyeBuilder(board, chains[0], player, maxLiberties, living) then [chains[0]] else [])
        + EyeBuilders(board, chains[1..], player, maxLiberties, living)
  }

  /// The canonical labelling of a board: every record carries the id of
  /// its chain's first point in scan order, as `updateChains` gives it.
  ghost function Canon(board: seq<Cell>, n: nat): (r: seq<Cell>)
    requires Shaped(board, n)
    ensures |r| == |board| && SameColors(r, board)
  {
    seq(|board|, i requires 0 <= i < |board| =>
      if board[i].Some? then
        (ShapedSquare(board, n); GroupContainsSelf(Codes(board), n, i);
         Some(board[i].value.(chain := IdOf(n, MinOf(ChainOf(board, n, i))))))
      else None)
  }

  /// A settled board with the colours of `b` carries the ids of `Canon(b)`:
  /// the eyes of `evaluateMoveResult`'s board are those of the canonical
  /// labelling of the move's outcome.
  lemma SettledIsCanon(a: seq<Cell>, b: seq<Cell>, n: nat)
    requires Shaped(a, n) && Shaped(b, n) && Settled(a, n) && SameColors(a, b)
    ensures forall i :: 0 <= i < |a| && a[i].Some? ==> Canon(b, n)[i].Some? && a[i].value.chain == Canon(b, n)[i].value.chain
  {
    SameColorsSameCodes(a, b);
  }

  /// The eyes of `player` after the move at `q`.
  ghost function EyesAfter(board: seq<Cell>, n: nat, player: Stone, q: nat): map<ChainId, seq<seq<nat>>>
    requires Shaped(board, n) && n > 0 && Live(board, q)
  {
    var outcome := MoveOutcome(board, n, q, player);
    EyesByChainId(Canon(outcome, n), n, player)
  }

  /// The move at `q` makes a new living chain, or a new eye without any
  /// living chain lost.
  ghost predicate HelpsEyes(board: seq<Cell>, n: nat, player: Stone, q: nat, currentLiving: nat, currentEyes: nat)
    requires Shaped(board, n) && n > 0 && Live(board, q)
  {
    var newEyes := EyesAfter(board, n, player, q);
    var newLiving := |LivingIds(newEyes)|;
    newLiving > currentLiving || (EyeCount(newEyes) > currentEyes && newLiving == currentLiving)
  }

  /// The record pushed for `q`.
  ghost function EyeMoveAt(board: seq<Cell>, n: nat, player: Stone, q: nat, currentLiving: nat): (m: EyeMove)
    requires Shaped(board, n) && n > 0 && Live(board, q)
    ensures m.point == q && m.createsLife == (|LivingIds(EyesAfter(board, n, player, q))| > currentLiving)
    ensures m.chainLength == LengthOr(FewestLibertiesChain(board, n, q, player), 0)
  {
    EyeMove(q, LengthOr(FewestLibertiesChain(board, n, q, player), 0), |LivingIds(EyesAfter(board, n, player, q))| > currentLiving)
  }

  /// The `reduce` of `getEyeCreationMoves` over the candidate points.
  ghost function EyeMovesFrom(board: seq<Cell>, n: nat, player: Stone, pts: seq<nat>, currentLiving: nat, currentEyes: nat): seq<EyeMove>
    requires Shaped(board, n) && n > 0 && AllLive(board, pts)
  {
    if pts == [] then []
    else
      var init := pts[..|pts| - 1];
      var q := pts[|pts| - 1];
      assert q in pts && forall p :: p in pts <==> p == q || p in init;
      var rest := EyeMovesFrom(board, n, player, init, currentLiving, currentEyes);
      if HelpsEyes(board, n, player, q, currentLiving, currentEyes) then rest + [EyeMoveAt(board, n, player, q, currentLiving)]
      else rest
  }

  /// Every record kept is that of one of the points, and its move adds
  /// eyes.
  lemma {:induction false} EyeMovesFromSound(board: seq<Cell>, n: nat, player: Stone, pts: seq<nat>, currentLiving: nat, currentEyes: nat)
    requires Shaped(board, n) && n > 0 && AllLive(board, pts)
    ensures forall m :: m in EyeMovesFrom(board, n, player, pts, currentLiving, currentEyes) ==>
      (m.point in pts && HelpsEyes(board, n, player, m.point, currentLiving, currentEyes)
       && m == EyeMoveAt(board, n, player, m.point, currentLiving))
  {
    if pts != [] {
      var init := pts[..|pts| - 1];
      var q := pts[|pts| - 1];
      assert forall p :: p in init ==> p in pts;
      EyeMovesFromSound(board, n, player, init, currentLiving, currentEyes);
      var rest := EyeMovesFrom(board, n, player, init, currentLiving, currentEyes);
      var r := EyeMovesFrom(board, n, player, pts, currentLiving, currentEyes);
      if HelpsEyes(board, n, player, q, currentLiving, currentEyes) {
        var m := EyeMoveAt(board, n, player, q, currentLiving);
        assert m.point == q;
        assert r == rest + [m];
        forall x | x in r
          ensures x.point in pts && HelpsEyes(board, n, player, x.point, currentLiving, currentEyes)
            && x == EyeMoveAt(board, n, player, x.point, currentLiving)
        {
          InPush(rest, m, x);
        }
      } else {
        assert r == rest;
      }
    }
  }

  /// Every point whose move adds eyes has its record kept.
  lemma {:induction false} EyeMovesFromComplete(board: seq<Cell>, n: nat, player: Stone, pts: seq<nat>, currentLiving: nat, currentEyes: nat)
    requires Shaped(board, n) && n > 0 && AllLive(board, pts)
    ensures forall q :: q in pts && HelpsEyes(board, n, player, q, currentLiving, currentEyes) ==>
      EyeMoveAt(board, n, player, q, currentLiving) in EyeMovesFrom(board, n, player, pts, currentLiving, currentEyes)
  {
    if pts != [] {
      var init := pts[..|pts| - 1];
      var q := pts[|pts| - 1];
      assert forall p :: p in pts <==> p == q || p in init;
      EyeMovesFromComplete(board, n, player, init, currentLiving, currentEyes);
      var rest := EyeMovesFrom(board, n, player, init, currentLiving, currentEyes);
      var r := EyeMovesFrom(board, n, player, pts, currentLiving, currentEyes);
      if HelpsEyes(board, n, player, q, currentLiving, currentEyes) {
        assert r == rest + [EyeMoveAt(board, n, player, q, currentLiving)];
      } else {
        assert r == rest;
      }
      assert forall x :: x in rest ==> x in r;
    }
  }

  /// Entries that create life.
  function Living(ms: seq<EyeMove>): (r: seq<EyeMove>)
    ensures forall m :: m in r <==> m in ms && m.createsLife
  {
    if ms == [] then []
    else
      assert forall m :: m in ms <==> m == ms[0] || m in ms[1..];
      (if ms[0].createsLife then [ms[0]] else []) + Living(ms[1..])
  }

  /// Entries that do not.
  function NotLiving(ms: seq<EyeMove>): (r: seq<EyeMove>)
    ensures forall m :: m in r <==> m in ms && !m.createsLife
  {
    if ms == [] then []
    else
      assert forall m :: m in ms <==> m == ms[0] || m in ms[1..];
      (if !ms[0].createsLife then [ms[0]] else []) + NotLiving(ms[1..])
  }

  /// The two parts hold the entries between them.
  lemma {:induction false} LivingSplit(ms: seq<EyeMove>)
    ensures multiset(Living(ms)) + multiset(NotLiving(ms)) == multiset(ms)
  {
    if ms != [] {
      LivingSplit(ms[1..]);
      assert ms == [ms[0]] + ms[1..];
    }
  }

  /// `sort((a, b) => +b.createsLife - +a.createsLife)`: a stable sort, so
  /// the moves that create life come first, each part in its old order.
  function LifeFirst(ms: seq<EyeMove>): (r: seq<EyeMove>)
  {
    Living(ms) + NotLiving(ms)
  }

  /// The sort keeps the moves and puts every move that creates life
  /// before every move that does not.
  lemma LifeFirstSorted(ms: seq<EyeMove>)
    ensures var r := LifeFirst(ms);
      multiset(r) == multiset(ms)
      && forall i, j :: 0 <= i < j < |r| && r[j].createsLife ==> r[i].createsLife
  {
    LivingSplit(ms);
    var r := LifeFirst(ms);
    var a, b := Living(ms), NotLiving(ms);
    forall i | 0 <= i < |r| ensures r[i].createsLife <==> i < |a| {
      if i < |a| {
        assert r[i] == a[i] && a[i] in a;
      } else {
        assert r[i] == b[i - |a|] && b[i - |a|] in b;
      }
    }
  }

  /// `getEyeCreationMoves(board, player, availableSpaces, maxLiberties)`.
  ghost function EyeCreationMoves(board: seq<Cell>, n: nat, player: Stone, availableSpaces: seq<nat>, maxLiberties: nat): (r: seq<EyeMove>)
    requires Shaped(board, n) && n > 0 && AllLive(board, availableSpaces)
  {
    var allEyes := EyesByChainId(board, n, player);
    var living := LivingIds(allEyes);
    var chains := AllChains(board);
    var builders := EyeBuilders(board, chains, player, maxLiberties, living);
    var available := Filter(LibertyPoints(board, builders), q => q in availableSpaces);
    var friendlyLiberties := Filter(available, (q: nat) => EyeShaped(board, n, player, q));
    LifeFirst(EyeMovesFrom(board, n, player, friendlyLiberties, |living|, EyeCount(allEyes)))
  }

  /// Every eye creation move is an available liberty of a friendly chain
  /// of two stones or more that is not alive, shaped like the start of an
  /// eye, and it makes a new living chain or a new eye; the moves that
  /// make a new living chain come first.
  lemma EyeCreationMovesAre(board: seq<Cell>, n: nat, player: Stone, availableSpaces: seq<nat>, maxLiberties: nat)
    requires Shaped(board, n) && n > 0 && AllLive(board, availableSpaces)
    ensures var allEyes := EyesByChainId(board, n, player);
      var living := LivingIds(allEyes);
      var r := EyeCreationMoves(board, n, player, availableSpaces, maxLiberties);
      (forall m :: m in r ==> (m.point in availableSpaces && EyeShaped(board, n, player, m.point)
        && HasLiberty(board, EyeBuilders(board, AllChains(board), player, maxLiberties, living), m.point)
        && HelpsEyes(board, n, player, m.point, |living|, EyeCount(allEyes))
        && m.createsLife == (|LivingIds(EyesAfter(board, n, player, m.point))| > |living|)))
      && (forall i, j :: 0 <= i < j < |r| && r[j].createsLife ==> r[i].createsLife)
  {
    var allEyes := EyesByChainId(board, n, player);
    var living := LivingIds(allEyes);
    var builders := EyeBuilders(board, AllChains(board), player, maxLiberties, living);
    var available := Filter(LibertyPoints(board, builders), q => q in availableSpaces);
    var friendlyLiberties := Filter(available, (q: nat) => EyeShaped(board, n, player, q));
    var unsorted := EyeMovesFrom(board, n, player, friendlyLiberties, |living|, EyeCount(allEyes));
    EyeMovesFromSound(board, n, player, friendlyLiberties, |living|, EyeCount(allEyes));
    LifeFirstSorted(unsorted);
    forall m | m in LifeFirst(unsorted) ensures m in unsorted {
      assert m in multiset(LifeFirst(unsorted));
    }
  }

  /// `getEyeBlockingMove2(board, player, availablePoints)`: the opponent's
  /// moves to a living chain, with at most five liberties.
  ghost function EyeBlockingMoves2(board: seq<Cell>, n: nat, player: Stone, availablePoints: seq<nat>): (r: seq<EyeMove>)
    requires Shaped(board, n) && n > 0 && AllLive(board, availablePoints)
    ensures forall m :: m in r ==> m.createsLife
  {
    Living(EyeCreationMoves(board, n, Opponent(player), availablePoints, 5))
  }

  /// `getEyeBlockingMove1(board, player, availablePoints)`: the opponent's
  /// other eye moves.
  ghost function EyeBlockingMoves1(board: seq<Cell>, n: nat, player: Stone, availablePoints: seq<nat>): (r: seq<EyeMove>)
    requires Shaped(board, n) && n > 0 && AllLive(board, availablePoints)
    ensures forall m :: m in r ==> !m.createsLife
  {
    NotLiving(EyeCreationMoves(board, n, Opponent(player), availablePoints, 5))
  }

  /// The two blocking lists split the opponent's eye moves.
  lemma EyeBlockingSplit(board: seq<Cell>, n: nat, player: Stone, availablePoints: seq<nat>)
    requires Shaped(board, n) && n > 0 && AllLive(board, availablePoints)
    ensures multiset(EyeBlockingMoves2(board, n, player, availablePoints)) + multiset(EyeBlockingMoves1(board, n, player, availablePoints))
      == multiset(EyeCreationMoves(board, n, Opponent(player), availablePoints, 5))
  {
    LivingSplit(EyeCreationMoves(board, n, Opponent(player), availablePoints, 5));
  }

  // ---------------------------------------------------------------------
  // getCornerMove

  /// The records with `x1 <= point.x <= x2` and `y1 <= point.y <= y2`.
  function AreaFlags(board: seq<Cell>, n: nat, x1: int, y1: int, x2: int, y2: int): (r: seq<bool>)
    requires n > 0
    ensures |r| == |board| && forall i :: 0 <= i < |board| ==>
      r[i] == (board[i].Some? && x1 <= i / n <= x2 && y1 <= i % n <= y2)
  {
    seq(|board|, i requires 0 <= i < |board| => board[i].Some? && x1 <= i / n <= x2 && y1 <= i % n <= y2)
  }

  /// `findLiveNodesInArea(board, x1, y1, x2, y2)`, in scan order.
  function LiveNodesInArea(board: seq<Cell>, n: nat, x1: int, y1: int, x2: int, y2: int): seq<nat>
    requires n > 0
  {
    Kept(AreaFlags(board, n, x1, y1, x2, y2), |board|)
  }

  /// A scan keeps at most as many indices as it passes.
  lemma {:induction false} KeptLength(keep: seq<bool>, k: nat)
    requires k <= |keep|
    ensures |Kept(keep, k)| <= k
  {
    if k > 0 {
      KeptLength(keep, k - 1);
    }
  }

  /// `isCornerAvailableForMove`: at least seven records in the area and
  /// all of them empty.
  predicate CornerAvailable(board: seq<Cell>, n: nat, x1: int, y1: int, x2: int, y2: int)
    requires n > 0
  {
    var foundPoints := LiveNodesInArea(board, n, x1, y1, x2, y2);
    |foundPoints| >= 7 && forall q :: q in foundPoints ==> Live(board, q) && board[q].value.color == Empty
  }

  /// An available area has at least seven records, so the board has at
  /// least three columns.
  lemma AvailableNeedsThree(board: seq<Cell>, n: nat, x1: int, y1: int, x2: int, y2: int)
    requires Shaped(board, n) && n > 0 && CornerAvailable(board, n, x1, y1, x2, y2)
    ensures n >= 3
  {
    KeptLength(AreaFlags(board, n, x1, y1, x2, y2), |board|);
    if n <= 2 {
      MulMono(n, 2, n);
      MulMono(n, 2, 2);
    }
  }

  /// The areas and the points `getCornerMove` targets in them, as
  /// `(x1, y1, x2, y2, x, y)`.
  function CornerAreas(n: nat): seq<(int, int, int, int, int, int)>
  {
    var boardEdge := n - 1;
    var cornerMax := boardEdge - 2;
    [(cornerMax, cornerMax, boardEdge, boardEdge, cornerMax, cornerMax),
     (0, cornerMax, 2, boardEdge, 2, cornerMax),
     (0, 0, 2, 2, 2, 2),
     (cornerMax, 0, boardEdge, 2, cornerMax, 2)]
  }

  /// `getCornerMove(board)` as written: `board[x][y]` of every available
  /// area's target, whatever that entry holds.
  function CornerMovesAsWritten(board: seq<Cell>, n: nat): (r: seq<Lookup>)
    requires Shaped(board, n) && n > 0
    ensures |r| <= 4
  {
    var areas := CornerAreas(n);
    var a0, a1, a2, a3 := areas[0], areas[1], areas[2], areas[3];
    (if CornerAvailable(board, n, a0.0, a0.1, a0.2, a0.3) then [At(board, n, a0.4, a0.5)] else [])
    + (if CornerAvailable(board, n, a1.0, a1.1, a1.2, a1.3) then [At(board, n, a1.4, a1.5)] else [])
    + (if CornerAvailable(board, n, a2.0, a2.1, a2.2, a2.3) then [At(board, n, a2.4, a2.5)] else [])
    + (if CornerAvailable(board, n, a3.0, a3.1, a3.2, a3.3) then [At(board, n, a3.4, a3.5)] else [])
  }

  /// A 3 × 3 board of empty records whose corner (0, 0) is offline.
  function OfflineCornerBoard(): seq<Cell>
  {
    var e := Some(PointState(Empty, NoChain, Some([])));
    [None, e, e, e, e, e, e, e, e]
  }

  /// On that board all four areas are the whole board with eight empty
  /// records, so the first target `getCornerMove` pushes is the offline
  /// `null`, which `getPriorityMove` then reads `.x` of.
  lemma OfflineCornerPushed()
    ensures var r := CornerMovesAsWritten(OfflineCornerBoard(), 3); |r| > 0 && r[0] == Null
  {
    var board := OfflineCornerBoard();
    OfflineAreaAvailable();
    assert CornerAreas(3)[0] == (0, 0, 2, 2, 0, 0);
    assert At(board, 3, 0, 0) == Null;
  }

  /// The whole offline-corner board is one available area.
  lemma OfflineAreaAvailable()
    ensures CornerAvailable(OfflineCornerBoard(), 3, 0, 0, 2, 2)
  {
    var board := OfflineCornerBoard();
    OfflineFlags();
    var flags := AreaFlags(board, 3, 0, 0, 2, 2);
    OfflineKept(flags);
    assert LiveNodesInArea(board, 3, 0, 0, 2, 2) == [1, 2, 3, 4, 5, 6, 7, 8];
  }

  /// Every record of the offline-corner board lies in the area.
  lemma OfflineFlags()
    ensures AreaFlags(OfflineCornerBoard(), 3, 0, 0, 2, 2) == [false, true, true, true, true, true, true, true, true]
  {
    var flags := AreaFlags(OfflineCornerBoard(), 3, 0, 0, 2, 2);
    forall i | 1 <= i < 9 ensures flags[i] {
      assert 0 <= i / 3 <= 2 && 0 <= i % 3 <= 2;
    }
  }

  /// The points kept for those flags.
  lemma OfflineKept(flags: seq<bool>)
    requires flags == [false, true, true, true, true, true, true, true, true]
    ensures Kept(flags, 9) == [1, 2, 3, 4, 5, 6, 7, 8]
  {
    assert Kept(flags, 1) == [];
    assert Kept(flags, 3) == [1, 2];
    assert Kept(flags, 5) == [1, 2, 3, 4];
    assert Kept(flags, 7) == [1, 2, 3, 4, 5, 6];
  }

  /// `getCornerMove(board)` with the targets kept only where they are
  /// records: the indices of the targets of the available areas.
  function CornerMoves(board: seq<Cell>, n: nat): (r: seq<nat>)
    requires Shaped(board, n) && n > 0
    ensures |r| <= 4
    ensures forall q :: q in r ==> Live(board, q)
    ensures forall q :: q in r <==> exists k :: 0 <= k < 4 && CornerTarget(board, n, k) == Some(q)
  {
    CornerTargetFrom(board, n, 0)
  }

  /// The target of area `k` when the area is available and the target is
  /// a record.
  function CornerTarget(board: seq<Cell>, n: nat, k: nat): (r: Option<nat>)
    requires Shaped(board, n) && n > 0 && k < 4
    ensures r.Some? ==> Live(board, r.value)
  {
    var a := CornerAreas(n)[k];
    if CornerAvailable(board, n, a.0, a.1, a.2, a.3) && At(board, n, a.4, a.5).Found? then
      Some(a.4 * n + a.5)
    else None
  }

  function CornerTargetFrom(board: seq<Cell>, n: nat, k: nat): (r: seq<nat>)
    requires Shaped(board, n) && n > 0 && k <= 4
    ensures |r| <= 4 - k
    ensures forall q :: q in r <==> exists i :: k <= i < 4 && CornerTarget(board, n, i) == Some(q)
    ensures forall q :: q in r ==> Live(board, q)
    decreases 4 - k
  {
    if k == 4 then []
    else
      var t := CornerTarget(board, n, k);
      (if t.Some? then [t.value] else []) + CornerTargetFrom(board, n, k + 1)
  }

  /// A corner move is the target point of an available area, and the
  /// as-written pushes agree with it wherever the target is a record.
  lemma CornerMovesAgree(board: seq<Cell>, n: nat, k: nat)
    requires Shaped(board, n) && n > 0 && k < 4
    ensures var a := CornerAreas(n)[k];
      CornerTarget(board, n, k).Some? <==> CornerAvailable(board, n, a.0, a.1, a.2, a.3) && At(board, n, a.4, a.5).Found?
    ensures var a := CornerAreas(n)[k];
      CornerAvailable(board, n, a.0, a.1, a.2, a.3) ==> n >= 3 && At(board, n, a.4, a.5) != Undefined
  {
    var a := CornerAreas(n)[k];
    if CornerAvailable(board, n, a.0, a.1, a.2, a.3) {
      AvailableNeedsThree(board, n, a.0, a.1, a.2, a.3);
    }
  }
}
