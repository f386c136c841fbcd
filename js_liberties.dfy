/// go.js: what a move would do to the liberties around it
/// (`findAdjacentLibertiesForPoint`, `findAdjacentLibertiesAndAlliesForPoint`,
/// `findEffectiveLibertiesOfNewMove`,
/// `findEnemyNeighborChainWithFewestLiberties`,
/// `findMinLibertyCountOfAdjacentChains`).
module JsLiberties {
  import opened Wrappers
  import opened Arith
  import opened Grid
  import opened Groups
  import opened JsBoards
  import opened JsChains
  import opened JsCaptures

  // ---------------------------------------------------------------------
  // Lists of points and lists of chains

  /// The records of a list that have colour `c`, in order.
  function WithColor(board: seq<Cell>, s: seq<nat>, c: Color): (r: seq<nat>)
    ensures forall q :: q in r <==> q in s && Live(board, q) && board[q].value.color == c
    ensures Distinct(s) ==> Distinct(r)
  {
    if s == [] then []
    else
      var rest := WithColor(board, s[1..], c);
      assert forall q :: q in s <==> q == s[0] || q in s[1..];
      if Live(board, s[0]) && board[s[0]].value.color == c then
        assert Distinct(s) ==> s[0] !in s[1..];
        [s[0]] + rest
      else rest
  }

  /// `s.filter((q, index) => s.findIndex(...) === index)`: every point at
  /// its first occurrence only.
  function FirstOccurrences(s: seq<nat>): (r: seq<nat>)
    ensures Distinct(r) && forall q :: q in r <==> q in s
  {
    if s == [] then []
    else
      var init, last := s[..|s| - 1], s[|s| - 1];
      var r0 := FirstOccurrences(init);
      assert forall q :: q in s <==> q in init || q == last;
      if last in init then r0 else r0 + [last]
  }

  /// `s.filter((q) => q.x !== x || q.y !== y)`.
  function Without(s: seq<nat>, p: nat): (r: seq<nat>)
    ensures forall q :: q in r <==> q in s && q != p
    ensures Distinct(s) ==> Distinct(r)
  {
    if s == [] then []
    else
      var rest := Without(s[1..], p);
      assert forall q :: q in s <==> q == s[0] || q in s[1..];
      if s[0] != p then
        assert Distinct(s) ==> s[0] !in s[1..];
        [s[0]] + rest
      else rest
  }

  /// A list whose first record has colour `c`.
  predicate ColoredChain(board: seq<Cell>, e: seq<nat>, c: Color)
  {
    |e| > 0 && Live(board, e[0]) && board[e[0]].value.color == c
  }

  /// `chains.filter((chain) => chain[0].color === c)`.
  function OfColor(board: seq<Cell>, chains: seq<seq<nat>>, c: Color): (r: seq<seq<nat>>)
    requires ChainList(board, chains)
    ensures ChainList(board, r)
    ensures forall e :: e in r <==> e in chains && ColoredChain(board, e, c)
  {
    if chains == [] then []
    else
      assert |chains[0]| > 0 && chains[0][0] in chains[0];
      var rest := OfColor(board, chains[1..], c);
      assert forall e :: e in chains <==> e == chains[0] || e in chains[1..];
      if board[chains[0][0]].value.color == c then [chains[0]] + rest else rest
  }

  /// `chains.find((chain) => chain[0].chain === id)`, as a position.
  function FindChain(board: seq<Cell>, chains: seq<seq<nat>>, id: ChainId): (r: Option<nat>)
    requires ChainList(board, chains)
    ensures r.Some? ==> r.value < |chains| && IdAt(board, chains[r.value][0]) == id
    ensures r.Some? ==> forall j :: 0 <= j < r.value ==> IdAt(board, chains[j][0]) != id
    ensures r.None? ==> forall j :: 0 <= j < |chains| ==> IdAt(board, chains[j][0]) != id
  {
    FindChainFrom(board, chains, id, 0)
  }

  function FindChainFrom(board: seq<Cell>, chains: seq<seq<nat>>, id: ChainId, k: nat): (r: Option<nat>)
    requires ChainList(board, chains) && k <= |chains|
    ensures r.Some? ==> k <= r.value < |chains| && IdAt(board, chains[r.value][0]) == id
    ensures r.Some? ==> forall j :: k <= j < r.value ==> IdAt(board, chains[j][0]) != id
    ensures r.None? ==> forall j :: k <= j < |chains| ==> IdAt(board, chains[j][0]) != id
    decreases |chains| - k
  {
    if k == |chains| then None
    else
      assert |chains[k]| > 0 && chains[k][0] in chains[k];
      if IdAt(board, chains[k][0]) == id then Some(k) else FindChainFrom(board, chains, id, k + 1)
  }

  // ---------------------------------------------------------------------
  // findAdjacentLibertiesForPoint and findAdjacentLibertiesAndAlliesForPoint

  /// `findAdjacentLibertiesForPoint`, one direction: the neighbour when it
  /// is an empty record, else `null`.
  function LibertyOrNull(l: Lookup): Lookup
  {
    if l.Found? && l.p.color == Empty then l else Null
  }

  /// `findAdjacentLibertiesForPoint(board, x, y)`.
  function AdjacentLiberties(board: seq<Cell>, n: nat, x: int, y: int): Neighbor
    requires Shaped(board, n)
  {
    var nb := FindNeighbors(board, n, x, y);
    Neighbor(LibertyOrNull(nb.north), LibertyOrNull(nb.east), LibertyOrNull(nb.south), LibertyOrNull(nb.west))
  }

  /// `adjacentLiberties.d || neighbors.d?.color === player ? neighbors.d : null`.
  function AllyOrLiberty(liberty: Lookup, l: Lookup, player: Stone): Lookup
  {
    var c: Color := player;
    if liberty != Null || ColorAt(l) == Some(c) then l else Null
  }

  /// A direction of `findAdjacentLibertiesAndAlliesForPoint` keeps the
  /// neighbour exactly when it is a record that is empty or `player`'s.
  predicate KeptAs(out: Lookup, l: Lookup, player: Stone)
  {
    (out != Null <==> l.Found? && (l.p.color == Empty || l.p.color == player)) && (out != Null ==> out == l)
  }

  /// `findAdjacentLibertiesAndAlliesForPoint(board, x, y, player)`: the
  /// neighbours that are liberties or `player`'s stones, `null` elsewhere.
  function AdjacentLibertiesAndAllies(board: seq<Cell>, n: nat, x: int, y: int, player: Stone): (r: Neighbor)
    requires Shaped(board, n)
    ensures var nb := FindNeighbors(board, n, x, y);
      KeptAs(r.north, nb.north, player) && KeptAs(r.east, nb.east, player)
      && KeptAs(r.south, nb.south, player) && KeptAs(r.west, nb.west, player)
  {
    var lib := AdjacentLiberties(board, n, x, y);
    var nb := FindNeighbors(board, n, x, y);
    Neighbor(AllyOrLiberty(lib.north, nb.north, player), AllyOrLiberty(lib.east, nb.east, player),
             AllyOrLiberty(lib.south, nb.south, player), AllyOrLiberty(lib.west, nb.west, player))
  }

  /// `[neighbors.north, ...].filter(isNotNullish)` of those neighbours.
  function KeptPoints(board: seq<Cell>, n: nat, p: nat, player: Stone): (r: seq<nat>)
    requires Shaped(board, n) && p < |board|
    ensures forall q :: q in r <==> q in Neighbors(board, n, p) && (board[q].value.color == Empty || board[q].value.color == player)
  {
    var x, y := p / n, p % n;
    var a := AdjacentLibertiesAndAllies(board, n, x, y, player);
    var north := KeptPiece(board, n, x, y + 1, a.north, player);
    var east := KeptPiece(board, n, x + 1, y, a.east, player);
    var south := KeptPiece(board, n, x, y - 1, a.south, player);
    var west := KeptPiece(board, n, x - 1, y, a.west, player);
    assert Neighbors(board, n, p) == Present(board, n, x, y + 1) + Present(board, n, x + 1, y) + Present(board, n, x, y - 1) + Present(board, n, x - 1, y);
    north + east + south + west
  }

  /// One direction of that list: the neighbour's index when it was kept.
  function KeptPiece(board: seq<Cell>, n: nat, x: int, y: int, out: Lookup, player: Stone): (r: seq<nat>)
    requires Shaped(board, n) && KeptAs(out, At(board, n, x, y), player)
    ensures forall q :: q in r <==> q in Present(board, n, x, y) && (board[q].value.color == Empty || board[q].value.color == player)
  {
    if out.Found? then Present(board, n, x, y) else []
  }

  // ---------------------------------------------------------------------
  // findEffectiveLibertiesOfNewMove

  /// `chain?.[0]?.liberties ?? null` for the friendly chain with the ally's
  /// id, as a list (a missing one adds nothing once flattened and filtered).
  function ChainLiberties(board: seq<Cell>, friendly: seq<seq<nat>>, a: nat): seq<nat>
    requires ChainList(board, friendly) && Live(board, a)
  {
    match FindChain(board, friendly, IdAt(board, a))
    case None => []
    case Some(j) =>
      assert friendly[j][0] in friendly[j];
      var first := board[friendly[j][0]].value;
      if first.liberties.Some? then first.liberties.value else []
  }

  /// The liberty lists of the chains of the allies, one after another.
  function AllyLiberties(board: seq<Cell>, friendly: seq<seq<nat>>, allies: seq<nat>): (r: seq<nat>)
    requires ChainList(board, friendly) && forall a :: a in allies ==> Live(board, a)
    ensures forall q :: q in r <==> exists a :: a in allies && q in ChainLiberties(board, friendly, a)
  {
    if allies == [] then []
    else
      assert allies[0] in allies;
      var rest := AllyLiberties(board, friendly, allies[1..]);
      assert forall a :: a in allies <==> a == allies[0] || a in allies[1..];
      ChainLiberties(board, friendly, allies[0]) + rest
  }

  /// The friendly chains of `getAllChains`.
  function Friendly(board: seq<Cell>, player: Color): (r: seq<seq<nat>>)
    ensures ChainList(board, r)
  {
    OfColor(board, AllChains(board), player)
  }

  /// `findEffectiveLibertiesOfNewMove(board, x, y, player)`: the empty
  /// neighbours of the point and the liberties of the friendly chains next
  /// to it, each once, without the point itself.
  function EffectiveLiberties(board: seq<Cell>, n: nat, p: nat, player: Stone): (r: seq<nat>)
    requires Shaped(board, n) && p < |board|
    ensures Distinct(r) && p !in r
    ensures forall q :: q in r <==> (q != p &&
      ((q in Neighbors(board, n, p) && board[q].value.color == Empty)
       || exists a :: a in Neighbors(board, n, p) && board[a].value.color == player && q in ChainLiberties(board, Friendly(board, player), a)))
  {
    var neighborPoints := KeptPoints(board, n, p, player);
    var allyNeighbors := WithColor(board, neighborPoints, player);
    var directLiberties := WithColor(board, neighborPoints, Empty);
    var allLiberties := directLiberties + AllyLiberties(board, Friendly(board, player), allyNeighbors);
    Without(FirstOccurrences(allLiberties), p)
  }

  /// On a settled board a list of `getAllChains` holding a record has its
  /// first record's colour.
  lemma ListColor(board: seq<Cell>, n: nat, e: seq<nat>, a: nat)
    requires Shaped(board, n) && Settled(board, n) && e in AllChains(board) && a in e
    ensures Live(board, a) && ColoredChain(board, e, board[a].value.color)
  {
    ShapedSquare(board, n);
    SettledChains(board, n, e);
    ChainMember(board, n, e[0], a);
  }

  /// On a settled board, looking up a record's chain id in a list of
  /// chains that holds its `getAllChains` list finds its whole chain.
  lemma SettledFind(board: seq<Cell>, n: nat, chains: seq<seq<nat>>, a: nat)
    requires Shaped(board, n) && Settled(board, n) && Live(board, a) && ChainList(board, chains)
    requires forall e :: e in chains ==> e in AllChains(board)
    requires forall e :: e in AllChains(board) && a in e ==> e in chains
    ensures FindChain(board, chains, IdAt(board, a)).Some?
    ensures (ShapedSquare(board, n); var f := chains[FindChain(board, chains, IdAt(board, a)).value];
      SetOf(f) == ChainOf(board, n, a) && f[0] in ChainOf(board, n, a))
  {
    ShapedSquare(board, n);
    var all := AllChains(board);
    AllChainsGrouped(board);
    SettledCovered(board, n, a);
    var i :| 0 <= i < |all| && a in all[i];
    var e := all[i];
    assert Chained(board, e);
    assert e in chains;
    var k :| 0 <= k < |chains| && chains[k] == e;
    assert e[0] in e;
    var id := IdAt(board, a);
    assert IdAt(board, chains[k][0]) == id;
    var found := FindChain(board, chains, id);
    assert found.Some?;
    var f := chains[found.value];
    assert f in chains;
    assert f[0] in f;
    SettledListIsChain(board, n, f, a);
  }

  /// On a settled board a `getAllChains` list whose first record carries
  /// the id of `a` holds exactly the chain of `a`.
  lemma SettledListIsChain(board: seq<Cell>, n: nat, f: seq<nat>, a: nat)
    requires Shaped(board, n) && Settled(board, n) && Live(board, a) && f in AllChains(board)
    requires |f| > 0 && Live(board, f[0]) && IdAt(board, f[0]) == IdAt(board, a)
    ensures (ShapedSquare(board, n); SetOf(f) == ChainOf(board, n, a) && f[0] in ChainOf(board, n, a))
  {
    ShapedSquare(board, n);
    SettledChains(board, n, f);
    SettledIds(board, n, f[0], a);
    var g := ChainOf(board, n, f[0]);
    assert a in g;
    GroupOfMember(Codes(board), n, f[0], a);
    assert ChainOf(board, n, a) == g;
    forall q: nat ensures q in SetOf(f) <==> q in g {
      assert q in SetOf(f) <==> q in f;
    }
    assert SetOf(f) == g;
    GroupContainsSelf(Codes(board), n, f[0]);
  }

  /// On a settled board the stored liberties of an ally's friendly chain
  /// are the liberties of the ally's chain.
  lemma AllyChainLiberties(board: seq<Cell>, n: nat, a: nat, player: Stone)
    requires Shaped(board, n) && Settled(board, n) && Live(board, a) && board[a].value.color == player
    ensures (ShapedSquare(board, n);
      forall q :: q in ChainLiberties(board, Friendly(board, player), a) <==> q in JsLiberties(board, n, ChainOf(board, n, a)))
  {
    ShapedSquare(board, n);
    var friendly := Friendly(board, player);
    forall e | e in AllChains(board) && a in e ensures e in friendly {
      ListColor(board, n, e, a);
    }
    SettledFind(board, n, friendly, a);
    var f := friendly[FindChain(board, friendly, IdAt(board, a)).value];
    GroupOfMember(Codes(board), n, a, f[0]);
    SettledAt(board, n, f[0]);
  }

  /// What a settled board says about one record.
  lemma SettledAt(board: seq<Cell>, n: nat, i: nat)
    requires Shaped(board, n) && Settled(board, n) && Live(board, i)
    ensures (ShapedSquare(board, n); HoldsLiberties(board[i].value, board, n, ChainOf(board, n, i)))
  {
  }

  /// Point `m` is the move point or in the chain of a neighbour of
  /// `player`'s colour.
  ghost predicate JoinsMove(board: seq<Cell>, n: nat, p: nat, player: Stone, m: nat)
    requires Shaped(board, n) && p < |board|
  {
    ShapedSquare(board, n);
    m == p || exists a :: a in Neighbors(board, n, p) && board[a].value.color == player && m in ChainOf(board, n, a)
  }

  /// The placed stone's chain: the point and the chains of its allies.
  lemma PlacedChain(board: seq<Cell>, n: nat, p: nat, player: Stone, q: nat)
    requires Shaped(board, n) && Live(board, p) && board[p].value.color == Empty
    ensures (ShapedSquare(board, n); var b := Placed(board, p, player);
      Shaped(b, n) && (q in ChainOf(b, n, p) <==> JoinsMove(board, n, p, player, q)))
  {
    ShapedSquare(board, n);
    var b := Placed(board, p, player);
    var cells, cells2 := Codes(board), Codes(b);
    NeighborsAreAdjacent(board, n, p);
    var s := set m: nat | m < |board| && JoinsMove(board, n, p, player, m);
    // The allies' chains keep their codes on the new board.
    forall a, m | a in Neighbors(board, n, p) && board[a].value.color == player && m in ChainOf(board, n, a)
      ensures m in ChainOf(b, n, p)
    {
      AllyJoins(board, n, p, player, a, m);
    }
    // The set is closed on the new board, so it holds the whole chain.
    forall m, c | m in s && c in Adjacent(m, n, |b|) && c < |b| && cells2[c] == cells2[p]
      ensures c in s
    {
      CodeIsColor(b[p], b[c]);
      if c != p {
        assert board[c] == b[c];
      }
      ClosedStep(board, n, p, player, m, c);
    }
    GroupWithin(cells2, n, p, s);
    GroupContainsSelf(cells2, n, p);
  }

  /// A member of an ally's chain joins the placed stone's chain.
  lemma AllyJoins(board: seq<Cell>, n: nat, p: nat, player: Stone, a: nat, m: nat)
    requires Shaped(board, n) && Live(board, p) && board[p].value.color == Empty
    requires a in Neighbors(board, n, p) && board[a].value.color == player
    requires (ShapedSquare(board, n); m in ChainOf(board, n, a))
    ensures (ShapedSquare(board, n); var b := Placed(board, p, player); Shaped(b, n) && m in ChainOf(b, n, p))
  {
    ShapedSquare(board, n);
    var b := Placed(board, p, player);
    var cells, cells2 := Codes(board), Codes(b);
    NeighborsAreAdjacent(board, n, p);
    AdjacentSymmetric(p, a, n);
    GroupContainsSelf(cells2, n, p);
    GroupStep(cells2, n, p, p, a);
    // Every member of the old chain of `a` is in the new chain of `p`.
    var g2 := Group(cells2, n, p);
    var g := ChainOf(board, n, a);
    var t := g * g2;
    forall u, c | u in t && c in Adjacent(u, n, |board|) && c < |board| && cells[c] == cells[a]
      ensures c in t
    {
      GroupStep(cells, n, a, u, c);
      ChainMember(board, n, a, u);
      ChainMember(board, n, a, c);
      GroupStep(cells2, n, p, u, c);
    }
    GroupContainsSelf(cells, n, a);
    GroupWithin(cells, n, a, t);
  }

  /// One step out of the placed stone's chain on the new board stays in it.
  lemma ClosedStep(board: seq<Cell>, n: nat, p: nat, player: Stone, m: nat, c: nat)
    requires Shaped(board, n) && Live(board, p) && board[p].value.color == Empty
    requires m < |board| && JoinsMove(board, n, p, player, m) && 0 < n <= |board|
    requires c in Adjacent(m, n, |board|) && c < |board| && (c == p || (Live(board, c) && board[c].value.color == player))
    ensures JoinsMove(board, n, p, player, c)
  {
    ShapedSquare(board, n);
    if c != p {
      if m == p {
        FromMove(board, n, p, player, c);
      } else {
        var a :| a in Neighbors(board, n, p) && board[a].value.color == player && m in ChainOf(board, n, a);
        FromAlly(board, n, p, player, a, m, c);
      }
    }
  }

  /// A record of `player` next to the move point is an ally.
  lemma FromMove(board: seq<Cell>, n: nat, p: nat, player: Stone, c: nat)
    requires Shaped(board, n) && p < |board| && 0 < n && c in Adjacent(p, n, |board|)
    requires Live(board, c) && board[c].value.color == player
    ensures JoinsMove(board, n, p, player, c)
  {
    ShapedSquare(board, n);
    NeighborsAreAdjacent(board, n, p);
    GroupContainsSelf(Codes(board), n, c);
    assert c in Neighbors(board, n, p);
  }

  /// A record of `player` next to an ally's chain is in that chain.
  lemma FromAlly(board: seq<Cell>, n: nat, p: nat, player: Stone, a: nat, m: nat, c: nat)
    requires Shaped(board, n) && p < |board| && a in Neighbors(board, n, p) && board[a].value.color == player
    requires (ShapedSquare(board, n); m in ChainOf(board, n, a) && c in Adjacent(m, n, |board|))
    requires Live(board, c) && board[c].value.color == player
    ensures JoinsMove(board, n, p, player, c)
  {
    ShapedSquare(board, n);
    CodeIsColor(board[a], board[c]);
    GroupStep(Codes(board), n, a, m, c);
  }

  /// The point of `findEffectiveLibertiesOfNewMove`: on a settled board
  /// its result holds exactly the liberties the chain of the new stone
  /// would have once `player` plays on the empty point `p` (before any
  /// capture).
  lemma EffectiveLibertiesAfterMove(board: seq<Cell>, n: nat, p: nat, player: Stone)
    requires Shaped(board, n) && Settled(board, n) && Live(board, p) && board[p].value.color == Empty
    ensures (ShapedSquare(board, n); var b := Placed(board, p, player);
      Shaped(b, n) && SetOf(EffectiveLiberties(board, n, p, player)) == JsLiberties(b, n, ChainOf(b, n, p)))
  {
    ShapedSquare(board, n);
    var b := Placed(board, p, player);
    var r := EffectiveLiberties(board, n, p, player);
    var g2 := ChainOf(b, n, p);
    NeighborsAreAdjacent(board, n, p);
    forall q: nat ensures q in r <==> q in JsLiberties(b, n, g2) {
      PlacedChain(board, n, p, player, q);
      if q in r {
        LibertyIsNew(board, n, p, player, q);
      }
      if q in JsLiberties(b, n, g2) {
        NewIsLiberty(board, n, p, player, q);
      }
    }
  }

  /// Each point of the result is a liberty of the new chain.
  lemma LibertyIsNew(board: seq<Cell>, n: nat, p: nat, player: Stone, q: nat)
    requires Shaped(board, n) && Settled(board, n) && Live(board, p) && board[p].value.color == Empty
    requires q in EffectiveLiberties(board, n, p, player)
    ensures (ShapedSquare(board, n); var b := Placed(board, p, player); Shaped(b, n) && q in JsLiberties(b, n, ChainOf(b, n, p)))
  {
    ShapedSquare(board, n);
    var b := Placed(board, p, player);
    var g2 := ChainOf(b, n, p);
    NeighborsAreAdjacent(board, n, p);
    GroupContainsSelf(Codes(b), n, p);
    if q in Neighbors(board, n, p) && board[q].value.color == Empty {
      AdjacentSymmetric(p, q, n);
      assert q in Adjacent(p, n, |b|);
      assert Codes(b)[q] == 1;
    } else {
      var a :| a in Neighbors(board, n, p) && board[a].value.color == player && q in ChainLiberties(board, Friendly(board, player), a);
      AllyChainLiberties(board, n, a, player);
      var m :| m in ChainOf(board, n, a) && q in Adjacent(m, n, |board|);
      AllyJoins(board, n, p, player, a, m);
      assert b[q] == board[q];
    }
    if q in g2 {
      GroupValue(Codes(b), n, p, q);
    }
  }

  /// Each liberty of the new chain is in the result.
  lemma NewIsLiberty(board: seq<Cell>, n: nat, p: nat, player: Stone, q: nat)
    requires Shaped(board, n) && Settled(board, n) && Live(board, p) && board[p].value.color == Empty
    requires (ShapedSquare(board, n); var b := Placed(board, p, player); Shaped(b, n) && q in JsLiberties(b, n, ChainOf(b, n, p)))
    ensures q in EffectiveLiberties(board, n, p, player)
  {
    ShapedSquare(board, n);
    var b := Placed(board, p, player);
    var g2 := ChainOf(b, n, p);
    var m :| m in g2 && q in Adjacent(m, n, |b|);
    assert q != p;
    assert b[q] == board[q];
    CodeIsColor(board[q], b[q]);
    PlacedChain(board, n, p, player, m);
    GroupValue(Codes(b), n, p, m);
    if m == p {
      DirectIn(board, n, p, player, q);
    } else {
      var a :| a in Neighbors(board, n, p) && board[a].value.color == player && m in ChainOf(board, n, a);
      AllyIn(board, n, p, player, a, m, q);
    }
  }

  /// An empty record next to the move point is in the result.
  lemma DirectIn(board: seq<Cell>, n: nat, p: nat, player: Stone, q: nat)
    requires Shaped(board, n) && Live(board, p) && Live(board, q) && board[q].value.color == Empty
    requires 0 < n && q in Adjacent(p, n, |board|)
    ensures q in EffectiveLiberties(board, n, p, player)
  {
    NeighborsAreAdjacent(board, n, p);
    MulAtLeast(n, n);
    NotSelfAdjacent(p, q, n, |board|);
    assert q in Neighbors(board, n, p) && q != p;
    var r := EffectiveLiberties(board, n, p, player);
    assert q in r;
  }

  /// An empty record next to an ally's chain is in the result.
  lemma AllyIn(board: seq<Cell>, n: nat, p: nat, player: Stone, a: nat, m: nat, q: nat)
    requires Shaped(board, n) && Settled(board, n) && Live(board, p) && board[p].value.color == Empty
    requires Live(board, q) && board[q].value.color == Empty && q != p
    requires a in Neighbors(board, n, p) && board[a].value.color == player
    requires (ShapedSquare(board, n); m in ChainOf(board, n, a) && q in Adjacent(m, n, |board|))
    ensures q in EffectiveLiberties(board, n, p, player)
  {
    ShapedSquare(board, n);
    AllyChainLiberties(board, n, a, player);
    ChainMember(board, n, a, m);
    if q in ChainOf(board, n, a) {
      ChainMember(board, n, a, q);
    }
    assert q in JsLiberties(board, n, ChainOf(board, n, a));
  }

  // ---------------------------------------------------------------------
  // findEnemyNeighborChainWithFewestLiberties and
  // findMinLibertyCountOfAdjacentChains

  /// `neighbor?.liberties?.length`.
  function LibertyCount(board: seq<Cell>, q: nat): Option<nat>
    requires Live(board, q)
  {
    var l := board[q].value.liberties;
    if l.Some? then Some(|l.value|) else None
  }

  /// The `reduce` with `Math.min(min, neighbor?.liberties?.length ?? 0)`.
  function MinCount(board: seq<Cell>, s: seq<nat>, acc: int): (m: int)
    requires forall q :: q in s ==> Live(board, q)
    ensures m <= acc
    ensures forall q :: q in s && LibertyCount(board, q).Some? ==> m <= LibertyCount(board, q).value
    ensures m == acc || exists q :: q in s && m == (if LibertyCount(board, q).Some? then LibertyCount(board, q).value else 0)
  {
    if s == [] then acc
    else
      assert s[0] in s;
      var c := if LibertyCount(board, s[0]).Some? then LibertyCount(board, s[0]).value else 0;
      var m := MinCount(board, s[1..], if c < acc then c else acc);
      assert forall q :: q in s <==> q == s[0] || q in s[1..];
      m
  }

  /// `friendlyNeighbors.find((neighbor) => neighbor?.liberties?.length === m)`.
  function FirstWithCount(board: seq<Cell>, s: seq<nat>, m: int): (r: Option<nat>)
    requires forall q :: q in s ==> Live(board, q)
    ensures r.Some? ==> r.value in s && LibertyCount(board, r.value) == Some(m)
    ensures r.None? ==> forall q :: q in s ==> LibertyCount(board, q) != Some(m)
  {
    if s == [] then None
    else
      assert s[0] in s;
      assert forall q :: q in s <==> q == s[0] || q in s[1..];
      if LibertyCount(board, s[0]) == Some(m) then Some(s[0]) else FirstWithCount(board, s[1..], m)
  }

  /// The friendly neighbours of `p` that `findEnemyNeighborChainWithFewestLiberties`
  /// compares (the misleading name notwithstanding, they are `player`'s).
  function FriendlyNeighbors(board: seq<Cell>, n: nat, p: nat, player: Stone): (r: seq<nat>)
    requires Shaped(board, n) && p < |board|
    ensures forall q :: q in r <==> q in Neighbors(board, n, p) && board[q].value.color == player
  {
    WithColor(board, KeptPoints(board, n, p, player), player)
  }

  /// `findEnemyNeighborChainWithFewestLiberties(board, x, y, player)`: the
  /// `getAllChains` list of the first friendly neighbour whose liberty
  /// array is shortest, or `undefined`.
  function FewestLibertiesChain(board: seq<Cell>, n: nat, p: nat, player: Stone): (r: Option<seq<nat>>)
    requires Shaped(board, n) && p < |board|
    ensures r.Some? ==> r.value in AllChains(board) && |r.value| > 0 && Live(board, r.value[0])
    ensures r.Some? ==> exists q :: q in FriendlyNeighbors(board, n, p, player) && IdAt(board, q) == IdAt(board, r.value[0])
    ensures FriendlyNeighbors(board, n, p, player) == [] ==> r.None?
  {
    var friendlyNeighbors := FriendlyNeighbors(board, n, p, player);
    var init := if |friendlyNeighbors| > 0 && LibertyCount(board, friendlyNeighbors[0]).Some? then LibertyCount(board, friendlyNeighbors[0]).value else 99;
    var minimumLiberties := MinCount(board, friendlyNeighbors, init);
    var chains := AllChains(board);
    match FirstWithCount(board, friendlyNeighbors, minimumLiberties)
    case None => None
    case Some(q) =>
      match FindChain(board, chains, IdAt(board, q))
      case None => None
      case Some(j) =>
        assert chains[j][0] in chains[j];
        Some(chains[j])
  }

  /// `findMinLibertyCountOfAdjacentChains`: that chain's liberty count, 99
  /// when there is none.
  function MinLibertyCount(board: seq<Cell>, n: nat, p: nat, player: Stone): (r: nat)
    requires Shaped(board, n) && p < |board|
    ensures FewestLibertiesChain(board, n, p, player).None? ==> r == 99
    ensures FewestLibertiesChain(board, n, p, player).Some? && board[FewestLibertiesChain(board, n, p, player).value[0]].value.liberties.Some? ==>
      r == |board[FewestLibertiesChain(board, n, p, player).value[0]].value.liberties.value|
  {
    match FewestLibertiesChain(board, n, p, player)
    case None => 99
    case Some(e) => if LibertyCount(board, e[0]).Some? then LibertyCount(board, e[0]).value else 99
  }

  /// On a settled board the chain found is the chain of a friendly
  /// neighbour with the fewest liberties, and there is one exactly when
  /// the point has a friendly neighbour.
  lemma FewestOnSettled(board: seq<Cell>, n: nat, p: nat, player: Stone)
    requires Shaped(board, n) && Settled(board, n) && p < |board|
    ensures (ShapedSquare(board, n); var r := FewestLibertiesChain(board, n, p, player);
      (r.Some? <==> exists a :: a in Neighbors(board, n, p) && board[a].value.color == player)
      && (r.Some? ==> exists a :: (a in Neighbors(board, n, p) && board[a].value.color == player
            && SetOf(r.value) == ChainOf(board, n, a)
            && forall c :: c in Neighbors(board, n, p) && board[c].value.color == player ==>
                 |JsLiberties(board, n, ChainOf(board, n, a))| <= |JsLiberties(board, n, ChainOf(board, n, c))|)))
  {
    ShapedSquare(board, n);
    var fns := FriendlyNeighbors(board, n, p, player);
    if fns != [] {
      assert fns[0] in fns;
      forall q | q in fns ensures LibertyCount(board, q).Some? && LibertyCount(board, q).value == |JsLiberties(board, n, ChainOf(board, n, q))| {
        SettledCount(board, n, q);
      }
      var init := LibertyCount(board, fns[0]).value;
      var m := MinCount(board, fns, init);
      assert exists q :: q in fns && LibertyCount(board, q) == Some(m);
      var w := FirstWithCount(board, fns, m).value;
      var chains := AllChains(board);
      SettledFind(board, n, chains, w);
      var j := FindChain(board, chains, IdAt(board, w)).value;
      assert FewestLibertiesChain(board, n, p, player) == Some(chains[j]);
    }
  }

  /// On a settled board a record's liberty array is there and its length
  /// is the number of liberties of its chain.
  lemma SettledCount(board: seq<Cell>, n: nat, q: nat)
    requires Shaped(board, n) && Settled(board, n) && Live(board, q)
    ensures (ShapedSquare(board, n); LibertyCount(board, q).Some? && LibertyCount(board, q).value == |JsLiberties(board, n, ChainOf(board, n, q))|)
  {
    ShapedSquare(board, n);
    var libs := board[q].value.liberties.value;
    DistinctCard(libs);
    assert SetOf(libs) == JsLiberties(board, n, ChainOf(board, n, q));
  }
}
