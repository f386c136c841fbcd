/// go.js: the empty regions, the chains around them, the eyes of each
/// chain and the territory worth playing in (`getEmptySpaces`,
/// `getPlayerNeighbors`, `getAllNeighboringChains`, `getAllPotentialEyes`,
/// `findFurthestPointsOfChain`,
/// `findNeighboringChainsThatFullyEncircleEmptySpace`,
/// `getAllEyesByChainId`, `getAllEyes`, `findDisputedTerritory`).
///
/// The eye search simulates boards with `updateChains`, so the chains of
/// those boards are the chains of `JsChains.ChainOf`, and everything here
/// that depends on them is ghost.
module JsEyes {
  import opened Wrappers
  import opened Arith
  import opened JsBoards
  import opened JsChains
  import opened JsCaptures
  import opened JsLiberties

  /// `list.filter(f)`.
  function Filter(s: seq<nat>, f: nat -> bool): (r: seq<nat>)
    ensures |r| <= |s|
    ensures forall x :: x in r <==> x in s && f(x)
  {
    if s == [] then []
    else
      assert forall x :: x in s <==> x == s[0] || x in s[1..];
      (if f(s[0]) then [s[0]] else []) + Filter(s[1..], f)
  }

  // ---------------------------------------------------------------------
  // getEmptySpaces and getAllValidMoves

  /// Which points are empty records.
  function EmptyFlags(board: seq<Cell>): (r: seq<bool>)
    ensures |r| == |board| && forall i :: 0 <= i < |board| ==> r[i] == (board[i].Some? && board[i].value.color == Empty)
  {
    seq(|board|, i requires 0 <= i < |board| => board[i].Some? && board[i].value.color == Empty)
  }

  /// The empty records in scan order.
  function EmptySpaces(board: seq<Cell>): seq<nat>
  {
    Kept(EmptyFlags(board), |board|)
  }

  /// The empty spaces are the empty records, in increasing order, each once.
  lemma EmptySpacesAre(board: seq<Cell>)
    ensures var r := EmptySpaces(board);
      (forall i, j :: 0 <= i < j < |r| ==> r[i] < r[j])
      && forall q: nat :: q in r <==> Live(board, q) && board[q].value.color == Empty
  {
    KeptAre(EmptyFlags(board), |board|);
  }

  /// `getEmptySpaces(board)`: the columns and rows are scanned and every
  /// empty record is pushed.
  method GetEmptySpaces(board: seq<Cell>, n: nat) returns (emptySpaces: seq<nat>)
    requires Shaped(board, n)
    ensures emptySpaces == EmptySpaces(board)
  {
    ghost var flags := EmptyFlags(board);
    emptySpaces := [];
    var x := 0;
    while x < n
      invariant 0 <= x <= n && x * n <= |board| && emptySpaces == Kept(flags, x * n)
    {
      MulMono(x + 1, n, n);
      assert x * n + n == (x + 1) * n;
      var y := 0;
      while y < n
        invariant 0 <= y <= n && emptySpaces == Kept(flags, x * n + y)
      {
        var p := x * n + y;
        KeptStep(flags, p);
        var point := board[p];
        if point.Some? && point.value.color == Empty {
          emptySpaces := emptySpaces + [p];
        }
        y := y + 1;
      }
      x := x + 1;
    }
  }

  /// `getAllValidMoves(board, player)`: the empty records the host reports
  /// as legal (`evaluateIfMoveIsValid`, given here as the set `valid`).
  function AllValidMoves(board: seq<Cell>, valid: set<nat>): (r: seq<nat>)
    ensures forall q :: q in r <==> q in EmptySpaces(board) && q in valid
  {
    Filter(EmptySpaces(board), q => q in valid)
  }

  // ---------------------------------------------------------------------
  // getPlayerNeighbors and getAllNeighboringChains

  /// `q` is one of `getPlayerNeighbors(board, region)`: a record next to
  /// the region, outside it, that is not empty.
  ghost predicate PlayerNeighbor(board: seq<Cell>, n: nat, q: nat, region: set<nat>)
    requires Shaped(board, n)
  {
    q < |board| && q !in region && board[q].Some? && board[q].value.color != Empty
    && exists m :: m in region && m < |board| && q in Neighbors(board, n, m)
  }

  /// `getAllNeighboringChains(board, region, chains)`: the lists of
  /// `chains` (named by position) that `find` returns for the chain ids of
  /// the player neighbours. A neighbour whose id no list has adds a fresh
  /// empty array in the source; it has no colour and is not counted here.
  ghost function NeighboringChains(board: seq<Cell>, n: nat, region: set<nat>, chains: seq<seq<nat>>): (r: set<nat>)
    requires Shaped(board, n) && ChainList(board, chains)
    ensures forall j :: j in r <==> (j < |chains|
      && exists q :: PlayerNeighbor(board, n, q, region) && FindChain(board, chains, IdAt(board, q)) == Some(j))
  {
    set q | 0 <= q < |board| && PlayerNeighbor(board, n, q, region) && FindChain(board, chains, IdAt(board, q)).Some?
      :: FindChain(board, chains, IdAt(board, q)).value
  }

  /// Some list among `js` starts with a record of colour `c`:
  /// `neighboringChains.find((chain) => chain[0]?.color === c)`.
  predicate HasColor(board: seq<Cell>, chains: seq<seq<nat>>, js: set<nat>, c: Color)
    requires ChainList(board, chains)
  {
    exists j :: j in js && 0 <= j < |chains| && |chains[j]| > 0 && Live(board, chains[j][0]) && board[chains[j][0]].value.color == c
  }

  /// Every record has a chain id, as on a settled board.
  predicate Identified(board: seq<Cell>)
  {
    forall q :: 0 <= q < |board| && board[q].Some? ==> board[q].value.chain != NoChain
  }

  lemma SettledIdentified(board: seq<Cell>, n: nat)
    requires Shaped(board, n) && Settled(board, n)
    ensures Identified(board)
  {
  }

  /// In `getAllChains`, the id of a point of list `j` is found at `j`.
  lemma FindMember(board: seq<Cell>, chains: seq<seq<nat>>, j: nat, q: nat)
    requires Grouped(board, chains, |board|) && j < |chains| && q in chains[j]
    ensures Live(board, q) && FindChain(board, chains, IdAt(board, q)) == Some(j)
  {
    assert Chained(board, chains[j]);
    assert IdAt(board, q) == IdAt(board, chains[j][0]);
  }

  /// On a board where every record has an id, the list found for the id
  /// of a record is the list holding it.
  lemma FoundHolds(board: seq<Cell>, chains: seq<seq<nat>>, j: nat, q: nat)
    requires Grouped(board, chains, |board|) && Identified(board) && Live(board, q)
    requires FindChain(board, chains, IdAt(board, q)) == Some(j)
    ensures j < |chains| && q in chains[j]
  {
    assert InSome(chains, q);
    var i :| 0 <= i < |chains| && q in chains[i];
    FindMember(board, chains, i, q);
  }

  /// On a board where every record has an id, every player neighbour of
  /// a region has its list in `getAllChains`, and the lists found are the
  /// lists holding a player neighbour.
  lemma NeighboringChainsFound(board: seq<Cell>, n: nat, region: set<nat>)
    requires Shaped(board, n) && Identified(board)
    ensures var chains := AllChains(board);
      forall j: nat :: j in NeighboringChains(board, n, region, chains) <==>
        j < |chains| && exists q :: q in chains[j] && PlayerNeighbor(board, n, q, region)
  {
    var chains := AllChains(board);
    AllChainsGrouped(board);
    forall j: nat ensures j in NeighboringChains(board, n, region, chains) <==>
        j < |chains| && exists q :: q in chains[j] && PlayerNeighbor(board, n, q, region) {
      if j < |chains| && exists q :: q in chains[j] && PlayerNeighbor(board, n, q, region) {
        var q :| q in chains[j] && PlayerNeighbor(board, n, q, region);
        FindMember(board, chains, j, q);
      }
      if j in NeighboringChains(board, n, region, chains) {
        var q :| PlayerNeighbor(board, n, q, region) && FindChain(board, chains, IdAt(board, q)) == Some(j);
        FoundHolds(board, chains, j, q);
      }
    }
  }

  // ---------------------------------------------------------------------
  // getAllPotentialEyes

  /// The number of records: `board.map((row) => row.filter((p) => p)).flat().length`.
  function NodeCount(board: seq<Cell>): (r: nat)
    ensures r <= |board|
  {
    if board == [] then 0 else (if board[0].Some? then 1 else 0) + NodeCount(board[1..])
  }

  /// `Math.min(nodeCount * 0.4, 11)`.
  function MaxEyeSize(board: seq<Cell>): (r: real)
    ensures r <= 11.0 && r <= NodeCount(board) as real * 0.4
    ensures r == 11.0 || r == NodeCount(board) as real * 0.4
  {
    var size := NodeCount(board) as real * 0.4;
    if size < 11.0 then size else 11.0
  }

  /// One candidate of `getAllPotentialEyes`.
  datatype EyeCandidate = EyeCandidate(neighbors: set<nat>, chain: seq<nat>, id: ChainId)

  /// The test `getAllPotentialEyes` puts to a neighbour set: it holds a
  /// chain of `player`'s colour and none of the other colour.
  predicate OneSided(board: seq<Cell>, chains: seq<seq<nat>>, js: set<nat>, player: Stone)
    requires ChainList(board, chains)
  {
    var hasWhite := HasColor(board, chains, js, White);
    var hasBlack := HasColor(board, chains, js, Black);
    (hasWhite && !hasBlack && player == White) || (!hasWhite && hasBlack && player == Black)
  }

  /// A list of `chains` `getAllPotentialEyes` keeps: an empty chain no
  /// longer than `MaxEyeSize` whose bordering chains are one-sided.
  ghost predicate IsEyeSpace(board: seq<Cell>, n: nat, chains: seq<seq<nat>>, e: seq<nat>, player: Stone)
    requires Shaped(board, n) && ChainList(board, chains)
  {
    ColoredChain(board, e, Empty) && |e| as real <= MaxEyeSize(board)
    && OneSided(board, chains, NeighboringChains(board, n, SetOf(e), chains), player)
  }

  /// The candidate made of list `e`.
  ghost function CandidateOf(board: seq<Cell>, n: nat, chains: seq<seq<nat>>, e: seq<nat>): EyeCandidate
    requires Shaped(board, n) && ChainList(board, chains) && |e| > 0 && Live(board, e[0])
  {
    EyeCandidate(NeighboringChains(board, n, SetOf(e), chains), e, IdAt(board, e[0]))
  }

  /// The candidates from the lists at positions `k` and up.
  ghost function PotentialEyesFrom(board: seq<Cell>, n: nat, chains: seq<seq<nat>>, player: Stone, k: nat): seq<EyeCandidate>
    requires Shaped(board, n) && ChainList(board, chains) && k <= |chains|
    decreases |chains| - k
  {
    if k == |chains| then []
    else
      var rest := PotentialEyesFrom(board, n, chains, player, k + 1);
      if IsEyeSpace(board, n, chains, chains[k], player) then
        [CandidateOf(board, n, chains, chains[k])] + rest
      else rest
  }

  /// Every candidate from position `k` on is that of an eye space among
  /// the lists at `k` and up.
  lemma {:induction false} PotentialEyesFromSound(board: seq<Cell>, n: nat, chains: seq<seq<nat>>, player: Stone, k: nat)
    requires Shaped(board, n) && ChainList(board, chains) && k <= |chains|
    ensures forall c :: c in PotentialEyesFrom(board, n, chains, player, k) ==> exists j :: (k <= j < |chains|
      && IsEyeSpace(board, n, chains, chains[j], player) && c == CandidateOf(board, n, chains, chains[j]))
    decreases |chains| - k
  {
    if k < |chains| {
      ChainListHeads(board, chains);
      PotentialEyesFromSound(board, n, chains, player, k + 1);
      var rest := PotentialEyesFrom(board, n, chains, player, k + 1);
      var r := PotentialEyesFrom(board, n, chains, player, k);
      var here := IsEyeSpace(board, n, chains, chains[k], player);
      var m := CandidateOf(board, n, chains, chains[k]);
      assert r == if here then [m] + rest else rest;
      forall c | c in r
        ensures exists j :: (k <= j < |chains|
          && IsEyeSpace(board, n, chains, chains[j], player) && c == CandidateOf(board, n, chains, chains[j]))
      {
        if here {
          InCons(m, rest, c);
        }
        if here && c == m {
          assert IsEyeSpace(board, n, chains, chains[k], player) && c == CandidateOf(board, n, chains, chains[k]);
        } else {
          assert c in rest;
        }
      }
    }
  }

  /// Every eye space among the lists at `k` and up gives a candidate.
  lemma {:induction false} PotentialEyesFromComplete(board: seq<Cell>, n: nat, chains: seq<seq<nat>>, player: Stone, k: nat)
    requires Shaped(board, n) && ChainList(board, chains) && k <= |chains|
    ensures forall j :: k <= j < |chains| && IsEyeSpace(board, n, chains, chains[j], player) ==>
      CandidateOf(board, n, chains, chains[j]) in PotentialEyesFrom(board, n, chains, player, k)
    decreases |chains| - k
  {
    if k < |chains| {
      ChainListHeads(board, chains);
      PotentialEyesFromComplete(board, n, chains, player, k + 1);
    }
  }

  lemma InCons(m: EyeCandidate, rest: seq<EyeCandidate>, c: EyeCandidate)
    ensures c in [m] + rest <==> c == m || c in rest
  {
    if c in [m] + rest {
      var i :| 0 <= i < |rest| + 1 && ([m] + rest)[i] == c;
      if i > 0 {
        assert rest[i - 1] == c;
      }
    }
    if c in rest {
      var i :| 0 <= i < |rest| && rest[i] == c;
      assert ([m] + rest)[i + 1] == c;
    }
  }

  /// `getAllPotentialEyes(board, chains, player)`.
  ghost function PotentialEyes(board: seq<Cell>, n: nat, chains: seq<seq<nat>>, player: Stone): seq<EyeCandidate>
    requires Shaped(board, n) && ChainList(board, chains)
  {
    PotentialEyesFrom(board, n, chains, player, 0)
  }

  /// A candidate is an empty list of `chains` no longer than
  /// min(0.4 × records, 11), its neighbours are the chains around it, at
  /// least one of them is `player`'s and none is the opponent's; and
  /// every such list is a candidate.
  lemma PotentialEyesAre(board: seq<Cell>, n: nat, chains: seq<seq<nat>>, player: Stone)
    requires Shaped(board, n) && ChainList(board, chains)
    ensures forall c :: c in PotentialEyes(board, n, chains, player) ==>
      c.chain in chains && ColoredChain(board, c.chain, Empty)
      && |c.chain| as real <= MaxEyeSize(board) && MaxEyeSize(board) <= 11.0
      && c.neighbors == NeighboringChains(board, n, SetOf(c.chain), chains)
      && HasColor(board, chains, c.neighbors, player) && !HasColor(board, chains, c.neighbors, Opponent(player))
    ensures forall e :: e in chains && IsEyeSpace(board, n, chains, e, player) ==>
      CandidateOf(board, n, chains, e) in PotentialEyes(board, n, chains, player)
  {
    PotentialEyesFromSound(board, n, chains, player, 0);
    PotentialEyesFromComplete(board, n, chains, player, 0);
  }

  // ---------------------------------------------------------------------
  // findFurthestPointsOfChain

  /// How far a chain reaches: the largest and smallest `y` (north and
  /// south) and `x` (east and west).
  datatype Spread = Spread(north: int, east: int, south: int, west: int)

  /// One step of the `reduce`.
  function Widen(d: Spread, n: nat, q: nat): Spread
    requires n > 0
  {
    var x, y := q / n, q % n;
    Spread(if y > d.north then y else d.north, if x > d.east then x else d.east,
           if y < d.south then y else d.south, if x < d.west then x else d.west)
  }

  /// The `reduce` over the points of `s`, from the spread `d`.
  function SpreadFrom(d: Spread, n: nat, s: seq<nat>): (r: Spread)
    requires n > 0
    ensures forall q :: q in s ==> r.south <= q % n <= r.north && r.west <= q / n <= r.east
    ensures d.north <= r.north && d.east <= r.east && r.south <= d.south && r.west <= d.west
    ensures r.north == d.north || exists q :: q in s && q % n == r.north
    ensures r.south == d.south || exists q :: q in s && q % n == r.south
    ensures r.east == d.east || exists q :: q in s && q / n == r.east
    ensures r.west == d.west || exists q :: q in s && q / n == r.west
    decreases |s|
  {
    if s == [] then d
    else
      assert forall q :: q in s <==> q == s[0] || q in s[1..];
      var w := Widen(d, n, s[0]);
      var r := SpreadFrom(w, n, s[1..]);
      assert s[0] in s && forall q :: q in s[1..] ==> q in s;
      assert r.north == d.north || exists q :: q in s && q % n == r.north by {
        if r.north != d.north && r.north == w.north {
          assert s[0] % n == r.north;
        }
      }
      assert r.south == d.south || exists q :: q in s && q % n == r.south by {
        if r.south != d.south && r.south == w.south {
          assert s[0] % n == r.south;
        }
      }
      r
  }

  /// `findFurthestPointsOfChain(chain)`: the bounding box of the chain,
  /// each side reached by a point of it.
  function FurthestPoints(n: nat, chain: seq<nat>): (r: Spread)
    requires n > 0 && |chain| > 0
    ensures forall q :: q in chain ==> r.south <= q % n <= r.north && r.west <= q / n <= r.east
    ensures (exists q :: q in chain && q % n == r.north) && (exists q :: q in chain && q % n == r.south)
    ensures (exists q :: q in chain && q / n == r.east) && (exists q :: q in chain && q / n == r.west)
  {
    var first := chain[0];
    assert first in chain;
    SpreadFrom(Spread(first % n, first / n, first % n, first / n), n, chain)
  }

  // ---------------------------------------------------------------------
  // findNeighboringChainsThatFullyEncircleEmptySpace

  /// The bounding-box prefilter: on each side the neighbour chain reaches
  /// past the candidate, or both reach the board's edge (`boardMax` is
  /// `edge`).
  predicate CouldWrap(edge: int, candidate: Spread, neighbor: Spread)
  {
    (neighbor.north > candidate.north || (candidate.north == edge && neighbor.north == edge))
    && (neighbor.east > candidate.east || (candidate.east == edge && neighbor.east == edge))
    && (neighbor.south < candidate.south || (candidate.south == 0 && neighbor.south == 0))
    && (neighbor.west < candidate.west || (candidate.west == 0 && neighbor.west == 0))
  }

  /// The evaluation board with the records of `s` turned empty.
  function Erased(board: seq<Cell>, s: set<nat>): (r: seq<Cell>)
    ensures |r| == |board| && SameColorsOutside(r, board, s)
    ensures forall i :: 0 <= i < |board| && i in s && board[i].Some? ==> r[i].Some? && r[i].value.color == Empty
  {
    seq(|board|, i requires 0 <= i < |board| =>
      if i in s && board[i].Some? then Some(board[i].value.(color := Empty)) else board[i])
  }

  /// Outside `s` the two boards are alike, and inside it both have records
  /// exactly where one has.
  predicate SameColorsOutside(a: seq<Cell>, b: seq<Cell>, s: set<nat>)
  {
    |a| == |b| && forall i :: 0 <= i < |a| ==> (a[i].None? <==> b[i].None?) && (i !in s ==> a[i] == b[i])
  }

  /// The points of the other neighbour chains of a candidate.
  ghost function OtherChainPoints(chains: seq<seq<nat>>, neighbors: set<nat>, j: nat): set<nat>
  {
    set k, q | k in neighbors && k != j && k < |chains| && q in chains[k] :: q
  }

  /// A candidate's chain is well formed: non-empty records of the board.
  predicate OnBoard(board: seq<Cell>, c: EyeCandidate)
  {
    |c.chain| > 0 && forall q :: q in c.chain ==> Live(board, q)
  }

  /// Neighbour chain `j` passes `findNeighboringChainsThatFullyEncircleEmptySpace`:
  /// it passes the prefilter, and with every other neighbour chain erased
  /// the new chain of the candidate's first point is bordered by a single
  /// chain of `chains`. The new chain is what `updateChains` computes on
  /// the edited copy: the points joined to that point through records of
  /// its colour.
  ghost predicate Encircles(board: seq<Cell>, n: nat, chains: seq<seq<nat>>, c: EyeCandidate, j: nat)
    requires Shaped(board, n) && n > 0 && ChainList(board, chains) && j < |chains| && OnBoard(board, c)
  {
    assert c.chain[0] in c.chain;
    CouldWrap(n - 1, FurthestPoints(n, c.chain), FurthestPoints(n, chains[j]))
    && var erased := Erased(board, OtherChainPoints(chains, c.neighbors, j));
       |NeighboringChains(board, n, ChainOf(erased, n, c.chain[0]), chains)| == 1
  }

  /// The chain ids a candidate is credited to by `getAllEyesByChainId`:
  /// none without neighbours, its only neighbour's, or those of the
  /// neighbours that fully encircle it.
  ghost function CreditedIds(board: seq<Cell>, n: nat, chains: seq<seq<nat>>, c: EyeCandidate): set<ChainId>
    requires Shaped(board, n) && n > 0 && ChainList(board, chains) && OnBoard(board, c)
  {
    if |c.neighbors| <= 1 then
      set j | j in c.neighbors && j < |chains| :: IdAt(board, chains[j][0])
    else
      set j | j in c.neighbors && j < |chains| && Encircles(board, n, chains, c, j) :: IdAt(board, chains[j][0])
  }

  /// Push `chain` onto the eye list of every id of `ids`.
  function Credit(eyes: map<ChainId, seq<seq<nat>>>, ids: set<ChainId>, chain: seq<nat>): (r: map<ChainId, seq<seq<nat>>>)
    ensures r.Keys == eyes.Keys + ids
    ensures forall k :: k in r ==> r[k] == (if k in eyes then eyes[k] else []) + (if k in ids then [chain] else [])
  {
    map k | k in eyes.Keys + ids :: (if k in eyes then eyes[k] else []) + (if k in ids then [chain] else [])
  }

  /// Every candidate sits on the board.
  predicate AllOnBoard(board: seq<Cell>, cs: seq<EyeCandidate>)
  {
    forall i :: 0 <= i < |cs| ==> OnBoard(board, cs[i])
  }

  /// The ids each candidate is credited to.
  ghost function CreditsOf(board: seq<Cell>, n: nat, chains: seq<seq<nat>>, cs: seq<EyeCandidate>): (r: seq<set<ChainId>>)
    requires Shaped(board, n) && n > 0 && ChainList(board, chains) && AllOnBoard(board, cs)
    ensures |r| == |cs| && forall i :: 0 <= i < |cs| ==> r[i] == CreditedIds(board, n, chains, cs[i])
  {
    seq(|cs|, i requires 0 <= i < |cs| => CreditedIds(board, n, chains, cs[i]))
  }

  /// The candidates' chains.
  function SpacesOf(cs: seq<EyeCandidate>): (r: seq<seq<nat>>)
    ensures |r| == |cs| && forall i :: 0 <= i < |cs| ==> r[i] == cs[i].chain
  {
    seq(|cs|, i requires 0 <= i < |cs| => cs[i].chain)
  }

  /// The `forEach` of `getAllEyesByChainId` over the first `k` candidates,
  /// candidate `i` with chain `spaces[i]` being credited to `credits[i]`.
  function EyesUpTo(credits: seq<set<ChainId>>, spaces: seq<seq<nat>>, k: nat): map<ChainId, seq<seq<nat>>>
    requires k <= |credits| == |spaces|
  {
    if k == 0 then map[]
    else Credit(EyesUpTo(credits, spaces, k - 1), credits[k - 1], spaces[k - 1])
  }

  /// The chains of the first `k` candidates credited to `id`, in order.
  function CreditedTo(credits: seq<set<ChainId>>, spaces: seq<seq<nat>>, id: ChainId, k: nat): seq<seq<nat>>
    requires k <= |credits| == |spaces|
  {
    if k == 0 then []
    else (CreditedTo(credits, spaces, id, k - 1) + (if id in credits[k - 1] then [spaces[k - 1]] else []))
  }

  /// The eye list of a chain id holds, in order, the candidates credited
  /// to it, and an id is a key exactly when some candidate is credited to
  /// it.
  lemma {:induction false} EyesAreCredited(credits: seq<set<ChainId>>, spaces: seq<seq<nat>>, k: nat)
    requires k <= |credits| == |spaces|
    ensures var eyes := EyesUpTo(credits, spaces, k);
      forall id :: (id in eyes <==> CreditedTo(credits, spaces, id, k) != [])
        && (id in eyes ==> eyes[id] == CreditedTo(credits, spaces, id, k))
  {
    if k > 0 {
      EyesAreCredited(credits, spaces, k - 1);
    }
  }

  /// Candidates of `getAllPotentialEyes` sit on the board.
  lemma CandidatesOnBoard(board: seq<Cell>, n: nat, player: Stone)
    requires Shaped(board, n)
    ensures AllOnBoard(board, PotentialEyes(board, n, AllChains(board), player))
  {
    var chains := AllChains(board);
    var cs := PotentialEyes(board, n, chains, player);
    PotentialEyesAre(board, n, chains, player);
    forall i | 0 <= i < |cs| ensures OnBoard(board, cs[i]) {
      assert cs[i] in cs;
    }
  }

  /// `getAllEyesByChainId(board, player)`: for every chain id, the eye
  /// candidates credited to it.
  ghost function EyesByChainId(board: seq<Cell>, n: nat, player: Stone): map<ChainId, seq<seq<nat>>>
    requires Shaped(board, n) && n > 0
  {
    var chains := AllChains(board);
    var cs := PotentialEyes(board, n, chains, player);
    CandidatesOnBoard(board, n, player);
    EyesUpTo(CreditsOf(board, n, chains, cs), SpacesOf(cs), |cs|)
  }

  /// A candidate bordered by a single chain is an eye of that chain; one
  /// bordered by several is an eye of exactly those neighbours that fully
  /// encircle it.
  lemma CreditRule(board: seq<Cell>, n: nat, chains: seq<seq<nat>>, c: EyeCandidate, j: nat)
    requires Shaped(board, n) && n > 0 && ChainList(board, chains) && OnBoard(board, c)
    requires j in c.neighbors && j < |chains|
    requires Identified(board) && chains == AllChains(board)
    ensures |c.neighbors| == 1 ==> IdAt(board, chains[j][0]) in CreditedIds(board, n, chains, c)
    ensures |c.neighbors| > 1 ==>
      (IdAt(board, chains[j][0]) in CreditedIds(board, n, chains, c) <==> Encircles(board, n, chains, c, j))
  {
    AllChainsGrouped(board);
    if |c.neighbors| > 1 && IdAt(board, chains[j][0]) in CreditedIds(board, n, chains, c) {
      var i :| i in c.neighbors && i < |chains| && Encircles(board, n, chains, c, i) && IdAt(board, chains[i][0]) == IdAt(board, chains[j][0]);
      DistinctPositions(board, chains, i, j);
    }
  }

  /// Two lists with one chain id are one list.
  lemma DistinctPositions(board: seq<Cell>, chains: seq<seq<nat>>, i: nat, j: nat)
    requires ChainList(board, chains) && DistinctIds(board, chains) && i < |chains| && j < |chains|
    ensures IdAt(board, chains[i][0]) == IdAt(board, chains[j][0]) ==> i == j
  {
  }

  /// The ids with two eyes or more: the chains `getEyeCreationMoves`
  /// counts as living.
  function LivingIds(eyes: map<ChainId, seq<seq<nat>>>): (r: set<ChainId>)
    ensures forall k :: k in r <==> k in eyes && |eyes[k]| >= 2
  {
    set k | k in eyes && |eyes[k]| >= 2
  }

  /// `getAllEyes(...).filter((eye) => eye.length).length`: the ids with an eye.
  function EyeCount(eyes: map<ChainId, seq<seq<nat>>>): (r: nat)
    ensures r <= |eyes.Keys|
  {
    var withEyes := set k | k in eyes && |eyes[k]| > 0;
    SubsetSize(withEyes, eyes.Keys);
    |withEyes|
  }

  lemma SubsetSize<T>(a: set<T>, b: set<T>)
    requires a <= b
    ensures |a| <= |b|
  {
    if a != {} {
      var x :| x in a;
      SubsetSize(a - {x}, b - {x});
    }
  }

  // ---------------------------------------------------------------------
  // findDisputedTerritory

  /// The points of the eyes of the living chains: `getAllEyes(board,
  /// player).filter((eye) => eye.length >= 2).flat().flat()`.
  ghost function LivingEyePoints(eyes: map<ChainId, seq<seq<nat>>>): (r: set<nat>)
    ensures forall q :: q in r <==> exists k, e :: k in eyes && |eyes[k]| >= 2 && e in eyes[k] && q in e
  {
    set k, e, q | k in eyes && |eyes[k]| >= 2 && e in eyes[k] && q in e :: q
  }

  /// The `map` of `findDisputedTerritory` for neighbour chain `j` of an
  /// enemy space: its liberties, when it has at most four, it touches a
  /// chain of `player`, and all of them lie inside the space.
  function AttackableLiberties(board: seq<Cell>, n: nat, chains: seq<seq<nat>>, space: EyeCandidate, j: nat, player: Stone, touchesPlayer: bool): (r: seq<nat>)
    requires ChainList(board, chains) && j < |chains|
    ensures r != [] ==> (touchesPlayer && board[chains[j][0]].value.liberties.Some?
      && r == board[chains[j][0]].value.liberties.value && |r| <= 4
      && forall q :: q in r ==> q in space.chain)
  {
    assert chains[j][0] in chains[j];
    var liberties := if board[chains[j][0]].value.liberties.Some? then board[chains[j][0]].value.liberties.value else [];
    if |liberties| > 4 then []
    else if !touchesPlayer then []
    else
      var inside := Filter(liberties, q => q in space.chain);
      if |inside| != |liberties| then []
      else
        assert forall q :: q in liberties ==> q in space.chain by {
          if exists q :: q in liberties && q !in space.chain {
            FilterDrops(liberties, q => q in space.chain);
          }
        }
        FilterKeepsAll(liberties, q => q in space.chain);
        inside
  }

  /// A filter that drops something is shorter.
  lemma FilterDrops(s: seq<nat>, f: nat -> bool)
    requires exists x :: x in s && !f(x)
    ensures |Filter(s, f)| < |s|
  {
    if f(s[0]) {
      assert exists x :: x in s[1..] && !f(x);
      FilterDrops(s[1..], f);
    }
  }

  /// `neighborChains.find((chain) => chain?.[0]?.color === player)` for the
  /// chains around list `j`.
  ghost predicate TouchesPlayer(board: seq<Cell>, n: nat, chains: seq<seq<nat>>, j: nat, player: Stone)
    requires Shaped(board, n) && ChainList(board, chains) && j < |chains|
  {
    HasColor(board, chains, NeighboringChains(board, n, SetOf(chains[j]), chains), player)
  }

  /// The liberties `findDisputedTerritory` keeps playable inside the
  /// spaces: the points of the flattened `AttackableLiberties` lists. Each
  /// such list lies inside its space, so the space points bound the set.
  ghost function PlayableInside(board: seq<Cell>, n: nat, chains: seq<seq<nat>>, spaces: seq<EyeCandidate>, player: Stone): set<nat>
    requires Shaped(board, n) && ChainList(board, chains)
  {
    set q | q in SpacePoints(spaces) && PlayableAt(board, n, chains, spaces, player, q)
  }

  /// Point `q` is in one of the `AttackableLiberties` lists.
  ghost predicate PlayableAt(board: seq<Cell>, n: nat, chains: seq<seq<nat>>, spaces: seq<EyeCandidate>, player: Stone, q: nat)
    requires Shaped(board, n) && ChainList(board, chains)
  {
    exists s, j :: s in spaces && j in s.neighbors && j < |chains|
      && q in AttackableLiberties(board, n, chains, s, j, player, TouchesPlayer(board, n, chains, j, player))
  }

  /// The points of the spaces.
  ghost function SpacePoints(spaces: seq<EyeCandidate>): (r: set<nat>)
    ensures forall q :: q in r <==> exists s :: s in spaces && q in s.chain
  {
    set s, q | s in spaces && q in s.chain :: q
  }

  /// `findDisputedTerritory(board, player, excludeFriendlyEyes)`, with the
  /// host's legality as the set `valid`.
  ghost function DisputedTerritory(board: seq<Cell>, n: nat, player: Stone, excludeFriendlyEyes: bool, valid: set<nat>): (r: seq<nat>)
    requires Shaped(board, n) && n > 0
  {
    var validMoves := AllValidMoves(board, valid);
    var friendlyEyes := if excludeFriendlyEyes then LivingEyePoints(EyesByChainId(board, n, player)) else {};
    var outsideEyes := Filter(validMoves, q => q !in friendlyEyes);
    var chains := AllChains(board);
    var spaces := PotentialEyes(board, n, chains, Opponent(player));
    var inside := SpacePoints(spaces);
    var playable := PlayableInside(board, n, chains, spaces, player);
    Filter(outsideEyes, q => q !in inside || q in playable)
  }

  /// Point `q` is a liberty `findDisputedTerritory` keeps inside one of
  /// `spaces`: a liberty of a bordering chain that has at most four
  /// liberties, all inside that space, and touches a chain of `player`.
  ghost predicate Attackable(board: seq<Cell>, n: nat, chains: seq<seq<nat>>, spaces: seq<EyeCandidate>, player: Stone, q: nat)
    requires Shaped(board, n) && ChainList(board, chains)
  {
    exists s, j :: s in spaces && j in s.neighbors && j < |chains| && TouchesPlayer(board, n, chains, j, player)
      && LibertiesWithin(board, chains, j, s, q)
  }

  /// `q` is a liberty of list `j`, which has at most four liberties, all
  /// in the space `s`.
  predicate LibertiesWithin(board: seq<Cell>, chains: seq<seq<nat>>, j: nat, s: EyeCandidate, q: nat)
    requires ChainList(board, chains) && j < |chains|
  {
    assert chains[j][0] in chains[j];
    var libs := board[chains[j][0]].value.liberties;
    libs.Some? && q in libs.value && |libs.value| <= 4 && forall l :: l in libs.value ==> l in s.chain
  }

  /// Membership in `AttackableLiberties`.
  lemma AttackableMember(board: seq<Cell>, n: nat, chains: seq<seq<nat>>, s: EyeCandidate, j: nat, player: Stone, touchesPlayer: bool, q: nat)
    requires ChainList(board, chains) && j < |chains|
    ensures q in AttackableLiberties(board, n, chains, s, j, player, touchesPlayer) <==>
      touchesPlayer && LibertiesWithin(board, chains, j, s, q)
  {
    assert chains[j][0] in chains[j];
    var libs := board[chains[j][0]].value.liberties;
    if touchesPlayer && LibertiesWithin(board, chains, j, s, q) {
      FilterKeepsAll(libs.value, l => l in s.chain);
    }
  }

  /// The liberties kept playable are the attackable ones.
  lemma PlayableIff(board: seq<Cell>, n: nat, chains: seq<seq<nat>>, spaces: seq<EyeCandidate>, player: Stone, q: nat)
    requires Shaped(board, n) && ChainList(board, chains)
    ensures q in PlayableInside(board, n, chains, spaces, player) <==> Attackable(board, n, chains, spaces, player, q)
  {
    if q in PlayableInside(board, n, chains, spaces, player) {
      PlayableAttackable(board, n, chains, spaces, player, q);
    }
    if Attackable(board, n, chains, spaces, player, q) {
      AttackablePlayable(board, n, chains, spaces, player, q);
    }
  }

  lemma PlayableAttackable(board: seq<Cell>, n: nat, chains: seq<seq<nat>>, spaces: seq<EyeCandidate>, player: Stone, q: nat)
    requires Shaped(board, n) && ChainList(board, chains)
    requires q in PlayableInside(board, n, chains, spaces, player)
    ensures Attackable(board, n, chains, spaces, player, q)
  {
    var s, j :| s in spaces && j in s.neighbors && j < |chains|
      && q in AttackableLiberties(board, n, chains, s, j, player, TouchesPlayer(board, n, chains, j, player));
    AttackableMember(board, n, chains, s, j, player, TouchesPlayer(board, n, chains, j, player), q);
  }

  lemma AttackablePlayable(board: seq<Cell>, n: nat, chains: seq<seq<nat>>, spaces: seq<EyeCandidate>, player: Stone, q: nat)
    requires Shaped(board, n) && ChainList(board, chains)
    requires Attackable(board, n, chains, spaces, player, q)
    ensures q in PlayableInside(board, n, chains, spaces, player)
  {
    var s, j :| s in spaces && j in s.neighbors && j < |chains| && TouchesPlayer(board, n, chains, j, player)
      && LibertiesWithin(board, chains, j, s, q);
    var t := TouchesPlayer(board, n, chains, j, player);
    AttackableMember(board, n, chains, s, j, player, t, q);
    assert q in AttackableLiberties(board, n, chains, s, j, player, t);
    assert PlayableAt(board, n, chains, spaces, player, q);
    assert q in SpacePoints(spaces);
  }

  /// What the available spaces are: host-legal empty records, none of them
  /// in an eye of a living friendly chain when `excludeFriendlyEyes`; a
  /// point inside one of the opponent's potential eyes is kept only when
  /// it is attackable.
  lemma DisputedTerritoryIs(board: seq<Cell>, n: nat, player: Stone, excludeFriendlyEyes: bool, valid: set<nat>, q: nat)
    requires Shaped(board, n) && n > 0
    ensures var chains := AllChains(board);
      var spaces := PotentialEyes(board, n, chains, Opponent(player));
      q in DisputedTerritory(board, n, player, excludeFriendlyEyes, valid) <==>
        Live(board, q) && board[q].value.color == Empty && q in valid
        && (excludeFriendlyEyes ==> q !in LivingEyePoints(EyesByChainId(board, n, player)))
        && ((exists s :: s in spaces && q in s.chain) ==> Attackable(board, n, chains, spaces, player, q))
  {
    var chains := AllChains(board);
    var spaces := PotentialEyes(board, n, chains, Opponent(player));
    var friendlyEyes := if excludeFriendlyEyes then LivingEyePoints(EyesByChainId(board, n, player)) else {};
    var validMoves := AllValidMoves(board, valid);
    var outsideEyes := Filter(validMoves, q => q !in friendlyEyes);
    var inside := SpacePoints(spaces);
    var playable := PlayableInside(board, n, chains, spaces, player);
    assert DisputedTerritory(board, n, player, excludeFriendlyEyes, valid) == Filter(outsideEyes, q => q !in inside || q in playable);
    EmptySpacesAre(board);
    assert q in validMoves <==> Live(board, q) && board[q].value.color == Empty && q in valid;
    assert q in outsideEyes <==> q in validMoves && q !in friendlyEyes;
    assert q in inside <==> exists s :: s in spaces && q in s.chain;
    PlayableIff(board, n, chains, spaces, player, q);
  }

  /// A filter that keeps everything is the identity.
  lemma FilterKeepsAll(s: seq<nat>, f: nat -> bool)
    requires forall x :: x in s ==> f(x)
    ensures Filter(s, f) == s
  {
    if s != [] {
      assert forall x :: x in s[1..] ==> x in s;
      FilterKeepsAll(s[1..], f);
    }
  }
}
