/// go.js: chains of connected points and their liberties, and the pass of
/// `updateChains` that labels every point with its chain.
module JsChains {
  import opened Wrappers
  import opened Arith
  import opened Grid
  import opened Groups
  import opened JsBoards

  /// No point is listed twice.
  predicate Distinct(s: seq<nat>)
  {
    forall i, j :: 0 <= i < j < |s| ==> s[i] != s[j]
  }

  /// The points of a list.
  function SetOf(s: seq<nat>): set<nat>
  {
    set q | q in s
  }

  lemma {:induction false} DistinctCard(s: seq<nat>)
    requires Distinct(s)
    ensures |SetOf(s)| == |s|
  {
    if |s| > 0 {
      var t := s[..|s| - 1];
      assert Distinct(t);
      DistinctCard(t);
      assert SetOf(s) == SetOf(t) + {s[|s| - 1]};
      assert s[|s| - 1] !in t;
    }
  }

  lemma SubsetCard(a: set<nat>, b: set<nat>)
    requires a <= b
    ensures |a| <= |b|
  {
    assert b == a + (b - a);
  }

  /// The smallest member of a non-empty set of points.
  ghost function MinOf(s: set<nat>): (m: nat)
    requires s != {}
    ensures m in s && forall q :: q in s ==> m <= q
  {
    var x :| x in s;
    var rest := s - {x};
    if rest == {} then
      assert forall q :: q in s ==> q in rest || q == x;
      x
    else
      var y := MinOf(rest);
      assert forall q :: q in s ==> q in rest || q == x;
      if x < y then x else y
  }

  /// The chain of point `i`: the points joined to it through records of its
  /// colour. Offline points form chains of their own code, but no record
  /// is ever in one.
  ghost function ChainOf(board: seq<Cell>, n: nat, i: nat): set<nat>
    requires Shaped(board, n) && i < |board|
  {
    Group(Codes(board), n, i)
  }

  /// The liberties go.js gives a chain: the empty records next to it that
  /// are not in it. For a chain of stones these are the Go liberties; an
  /// empty region has none.
  ghost function JsLiberties(board: seq<Cell>, n: nat, g: set<nat>): set<nat>
    requires Shaped(board, n) && n > 0
  {
    Liberties(Codes(board), n, g) - g
  }

  /// The id of the chain that starts at point `i`: `${x},${y}`.
  function IdOf(n: nat, i: nat): ChainId
    requires n > 0
  {
    ChainAt(i / n, i % n)
  }

  /// A shaped board with a point is a square grid of codes.
  lemma ShapedSquare(board: seq<Cell>, n: nat)
    requires Shaped(board, n) && |board| > 0
    ensures n > 0 && Square(Codes(board), n)
  {
    assert n > 0;
    MulAtLeast(n, n);
  }

  /// The members of a record's chain are records of its colour.
  lemma ChainMember(board: seq<Cell>, n: nat, i: nat, q: nat)
    requires Shaped(board, n) && Live(board, i) && q in (ShapedSquare(board, n); ChainOf(board, n, i))
    ensures Live(board, q) && board[q].value.color == board[i].value.color
  {
    ShapedSquare(board, n);
    GroupValue(Codes(board), n, i, q);
    CodeIsColor(board[i], board[q]);
  }

  // ---------------------------------------------------------------------
  // findAdjacentPointsInChain

  /// What the search of `findAdjacentPointsInChain` keeps true: every point
  /// found is in the chain of `start`, and found once; every point to be
  /// searched was found; every point checked with the start's colour was
  /// found; and every found point is still to be searched or has had all
  /// its neighbours checked.
  ghost predicate Search(board: seq<Cell>, n: nat, start: nat, adjacent: seq<nat>, toCheck: seq<nat>, checked: seq<nat>)
    requires Shaped(board, n) && Live(board, start)
  {
    ShapedSquare(board, n);
    var g := ChainOf(board, n, start);
    && |adjacent| > 0 && adjacent[0] == start && Distinct(adjacent)
    && (forall q :: q in adjacent ==> q in g)
    && (forall q :: q in toCheck ==> q in adjacent)
    && (forall q :: q in checked ==> Live(board, q))
    && (forall q :: q in checked && board[q].value.color == board[start].value.color ==> q in adjacent)
    && (forall q :: q in adjacent ==> q in toCheck || forall a :: a in Adjacent(q, n, |board|) && Live(board, a) ==> a in checked)
  }

  /// Taking the last point off the stack and checking it.
  lemma SearchPop(board: seq<Cell>, n: nat, start: nat, adjacent: seq<nat>, toCheck: seq<nat>, checked: seq<nat>)
    requires Shaped(board, n) && Live(board, start) && |toCheck| > 0
    requires Search(board, n, start, adjacent, toCheck, checked)
    ensures toCheck[|toCheck| - 1] in adjacent
    ensures Search(board, n, start, adjacent, toCheck[..|toCheck| - 1] + [toCheck[|toCheck| - 1]], checked + [toCheck[|toCheck| - 1]])
  {
    ShapedSquare(board, n);
    var current := toCheck[|toCheck| - 1];
    assert toCheck[..|toCheck| - 1] + [current] == toCheck;
    assert current in adjacent;
    ChainMember(board, n, start, current);
  }

  /// A neighbour of the start's colour that was not checked is found and
  /// queued.
  lemma SearchPush(board: seq<Cell>, n: nat, start: nat, current: nat, adjacent: seq<nat>, toCheck: seq<nat>, checked: seq<nat>, nb: nat)
    requires Shaped(board, n) && Live(board, start) && current < |board|
    requires Search(board, n, start, adjacent, toCheck + [current], checked)
    requires current in adjacent && nb in Adjacent(current, n, |board|) && Live(board, nb)
    requires board[nb].value.color == board[start].value.color
    requires nb !in checked && forall q :: q in adjacent ==> q in checked
    ensures Search(board, n, start, adjacent + [nb], (toCheck + [nb]) + [current], checked + [nb])
  {
    ShapedSquare(board, n);
    var g := ChainOf(board, n, start);
    CodeIsColor(board[start], board[nb]);
    GroupStep(Codes(board), n, start, current, nb);
    var adj := adjacent + [nb];
    assert forall i :: 0 <= i < |adjacent| ==> adj[i] == adjacent[i];
    assert Distinct(adj);
  }

  /// Any other neighbour is only checked.
  lemma SearchSkip(board: seq<Cell>, n: nat, start: nat, adjacent: seq<nat>, toCheck: seq<nat>, checked: seq<nat>, nb: nat)
    requires Shaped(board, n) && Live(board, start) && Live(board, nb)
    requires Search(board, n, start, adjacent, toCheck, checked)
    requires board[nb].value.color == board[start].value.color ==> nb in checked
    ensures Search(board, n, start, adjacent, toCheck, checked + [nb])
  {
  }

  /// Once every neighbour of `current` is checked it no longer needs
  /// searching.
  lemma SearchDone(board: seq<Cell>, n: nat, start: nat, current: nat, adjacent: seq<nat>, toCheck: seq<nat>, checked: seq<nat>)
    requires Shaped(board, n) && Live(board, start) && current < |board|
    requires Search(board, n, start, adjacent, toCheck + [current], checked)
    requires 0 < n <= |board| && forall a :: a in Adjacent(current, n, |board|) && Live(board, a) ==> a in checked
    ensures Search(board, n, start, adjacent, toCheck, checked)
  {
  }

  /// `findAdjacentPointsInChain(board, x, y)`: the chain of `(x, y)`,
  /// starting with that point and listing each member once; nothing for an
  /// offline point.
  method FindAdjacentPointsInChain(board: seq<Cell>, n: nat, x: nat, y: nat) returns (adjacent: seq<nat>)
    requires Shaped(board, n) && x < n && y < n
    ensures x * n + y < |board|
    ensures board[x * n + y].None? ==> adjacent == []
    ensures board[x * n + y].Some? ==> |adjacent| > 0 && adjacent[0] == x * n + y && Distinct(adjacent)
    ensures board[x * n + y].Some? ==> forall q: nat :: q in adjacent <==> q in (ShapedSquare(board, n); ChainOf(board, n, x * n + y))
  {
    IndexBound(x, y, n);
    var start := x * n + y;
    if board[start].None? {
      return [];
    }
    ShapedSquare(board, n);
    ghost var g := ChainOf(board, n, start);
    GroupContainsSelf(Codes(board), n, start);
    var checked: seq<nat> := [];
    adjacent := [start];
    var toCheck: seq<nat> := [start];
    SubsetCard({start}, g);
    while |toCheck| > 0
      invariant Search(board, n, start, adjacent, toCheck, checked)
      invariant checked == [] ==> adjacent == [start] && toCheck == [start]
      invariant checked != [] ==> forall q :: q in adjacent ==> q in checked
      invariant |adjacent| <= |g|
      decreases 2 * (|g| - |adjacent|) + |toCheck|
    {
      var current := toCheck[|toCheck| - 1];
      SearchPop(board, n, start, adjacent, toCheck, checked);
      toCheck := toCheck[..|toCheck| - 1];
      checked := checked + [current];
      ChainMember(board, n, start, current);
      var neighbors := NeighborsOf(board, n, current);
      ghost var before := checked;
      adjacent, toCheck, checked := CheckNeighbors(board, n, start, current, neighbors, adjacent, toCheck, checked);
      SearchDone(board, n, start, current, adjacent, toCheck, checked);
    }
    ghost var found := SetOf(adjacent);
    forall q, a | q in found && a in Adjacent(q, n, |board|) && a < |board| && Codes(board)[a] == Codes(board)[start]
      ensures a in found
    {
      CodeIsColor(board[start], board[a]);
    }
    GroupWithin(Codes(board), n, start, found);
  }

  /// The neighbours of point `i`, as `findNeighbors` and
  /// `getArrayFromNeighbor` list them.
  method NeighborsOf(board: seq<Cell>, n: nat, i: nat) returns (r: seq<nat>)
    requires Shaped(board, n) && i < |board|
    ensures 0 < n <= |board|
    ensures forall q: nat :: q in r <==> q in Adjacent(i, n, |board|) && Live(board, q)
  {
    r := Neighbors(board, n, i);
    NeighborsAreAdjacent(board, n, i);
    ShapedSquare(board, n);
  }

  /// The inner `forEach` of the search, over the neighbours of `current`:
  /// each one of the start's colour not yet checked is found and queued,
  /// and each one is then checked.
  method CheckNeighbors(board: seq<Cell>, n: nat, start: nat, current: nat, neighbors: seq<nat>,
                        adjacent0: seq<nat>, toCheck0: seq<nat>, checked0: seq<nat>)
    returns (adjacent: seq<nat>, toCheck: seq<nat>, checked: seq<nat>)
    requires Shaped(board, n) && Live(board, start) && Live(board, current)
    requires board[current].value.color == board[start].value.color
    requires 0 < n <= |board| && forall q :: q in neighbors ==> Live(board, q) && q in Adjacent(current, n, |board|)
    requires Search(board, n, start, adjacent0, toCheck0 + [current], checked0)
    requires current in checked0 && forall q :: q in adjacent0 ==> q in checked0
    requires |adjacent0| <= |(ShapedSquare(board, n); ChainOf(board, n, start))|
    ensures Search(board, n, start, adjacent, toCheck + [current], checked)
    ensures forall q :: q in neighbors ==> q in checked
    ensures checked != [] && forall q :: q in adjacent ==> q in checked
    ensures |adjacent| <= |(ShapedSquare(board, n); ChainOf(board, n, start))|
    ensures |adjacent| - |adjacent0| == |toCheck| - |toCheck0| >= 0
  {
    ShapedSquare(board, n);
    ghost var g := ChainOf(board, n, start);
    adjacent, toCheck, checked := adjacent0, toCheck0, checked0;
    for j := 0 to |neighbors|
      invariant Search(board, n, start, adjacent, toCheck + [current], checked)
      invariant current in adjacent && current in checked && forall q :: q in adjacent ==> q in checked
      invariant forall k :: 0 <= k < j ==> neighbors[k] in checked
      invariant |adjacent| <= |g|
      invariant |adjacent| - |adjacent0| == |toCheck| - |toCheck0| >= 0
    {
      var neighbor := neighbors[j];
      assert neighbor in neighbors;
      assert Live(board, neighbor);
      if board[neighbor].value.color == board[current].value.color && neighbor !in checked {
        SearchPush(board, n, start, current, adjacent, toCheck, checked, neighbor);
        adjacent := adjacent + [neighbor];
        toCheck := toCheck + [neighbor];
        DistinctCard(adjacent);
        SubsetCard(SetOf(adjacent), g);
        checked := checked + [neighbor];
      } else {
        SearchSkip(board, n, start, adjacent, toCheck + [current], checked, neighbor);
        checked := checked + [neighbor];
      }
    }
  }

  // ---------------------------------------------------------------------
  // getAllNeighbors and findLibertiesForChain

  /// `q` is a record next to one of the points `ms`.
  ghost predicate NextTo(board: seq<Cell>, n: nat, q: nat, ms: seq<nat>)
  {
    Live(board, q) && 0 < n <= |board| && exists m :: m in ms && q in Adjacent(m, n, |board|)
  }

  /// `getAllNeighbors(board, chain)`: every record next to the chain and
  /// not in it, each once.
  method GetAllNeighbors(board: seq<Cell>, n: nat, chain: seq<nat>) returns (r: seq<nat>)
    requires Shaped(board, n) && forall m :: m in chain ==> m < |board|
    ensures Distinct(r)
    ensures forall q: nat :: q in r <==> q !in chain && NextTo(board, n, q, chain)
  {
    r := [];
    for i := 0 to |chain|
      invariant Distinct(r)
      invariant forall q: nat :: q in r <==> q !in chain && NextTo(board, n, q, chain[..i])
    {
      assert chain[i] in chain;
      var neighbors := NeighborsOf(board, n, chain[i]);
      r := AddNeighbors(chain, r, neighbors);
      assert chain[..i + 1] == chain[..i] + [chain[i]];
      forall q: nat ensures q in r <==> q !in chain && NextTo(board, n, q, chain[..i + 1]) {
        if NextTo(board, n, q, chain[..i + 1]) && !NextTo(board, n, q, chain[..i]) {
          var m :| m in chain[..i + 1] && q in Adjacent(m, n, |board|);
          assert m == chain[i];
        }
      }
    }
    assert chain[..|chain|] == chain;
  }

  /// The `forEach` of `getAllNeighbors`: the neighbours not in the chain
  /// are added to the set.
  method AddNeighbors(chain: seq<nat>, r0: seq<nat>, neighbors: seq<nat>) returns (r: seq<nat>)
    requires Distinct(r0)
    ensures Distinct(r)
    ensures forall q: nat :: q in r <==> q in r0 || (q in neighbors && q !in chain)
  {
    r := r0;
    for j := 0 to |neighbors|
      invariant Distinct(r)
      invariant forall q: nat :: q in r <==> q in r0 || (q in neighbors[..j] && q !in chain)
    {
      var neighborPoint := neighbors[j];
      if neighborPoint !in chain && neighborPoint !in r {
        r := r + [neighborPoint];
      }
      assert neighbors[..j + 1] == neighbors[..j] + [neighborPoint];
    }
    assert neighbors[..|neighbors|] == neighbors;
  }

  /// The `.filter` of `findLibertiesForChain`: the empty records of a
  /// list, in order.
  function EmptyOnly(board: seq<Cell>, s: seq<nat>): (r: seq<nat>)
    ensures forall q :: q in r <==> q in s && Live(board, q) && board[q].value.color == Empty
    ensures Distinct(s) ==> Distinct(r)
  {
    if s == [] then []
    else
      var rest := EmptyOnly(board, s[1..]);
      assert forall q :: q in s <==> q == s[0] || q in s[1..];
      if Live(board, s[0]) && board[s[0]].value.color == Empty then
        assert Distinct(s) ==> s[0] !in s[1..];
        [s[0]] + rest
      else rest
  }

  /// `findLibertiesForChain(board, chain)`: the empty records next to the
  /// chain and not in it, each once.
  method FindLibertiesForChain(board: seq<Cell>, n: nat, chain: seq<nat>) returns (libs: seq<nat>)
    requires Shaped(board, n) && forall m :: m in chain ==> m < |board|
    ensures Distinct(libs)
    ensures forall q: nat :: q in libs <==> q !in chain && NextTo(board, n, q, chain) && board[q].value.color == Empty
  {
    var all := GetAllNeighbors(board, n, chain);
    libs := EmptyOnly(board, all);
  }

  /// For a whole chain these are its liberties.
  lemma LibertiesOfChain(board: seq<Cell>, n: nat, start: nat, chain: seq<nat>)
    requires Shaped(board, n) && Live(board, start)
    requires (ShapedSquare(board, n); SetOf(chain) == ChainOf(board, n, start))
    ensures forall q: nat :: (q !in chain && NextTo(board, n, q, chain) && board[q].value.color == Empty) <==> q in JsLiberties(board, n, ChainOf(board, n, start))
  {
    ShapedSquare(board, n);
    var g := ChainOf(board, n, start);
    forall q: nat ensures (q !in chain && NextTo(board, n, q, chain) && board[q].value.color == Empty) <==> q in JsLiberties(board, n, g) {
      if q < |board| {
        assert Codes(board)[q] == Code(board[q]);
      }
    }
  }

  // ---------------------------------------------------------------------
  // clearChains and updateChains

  /// `clearChains`: every record loses its chain id and its liberties.
  method ClearChains(board: array<Cell>, n: nat)
    requires Shaped(board[..], n)
    modifies board
    ensures SameColors(board[..], old(board[..]))
    ensures forall i :: 0 <= i < board.Length && board[i].Some? ==> board[i].value.chain == NoChain && board[i].value.liberties == None
  {
    ghost var before := board[..];
    for x := 0 to n
      invariant SameColors(board[..], before)
      invariant forall i :: 0 <= i < board.Length ==> if i < x * n then Reset(board[i]) else board[i] == before[i]
    {
      for y := 0 to n
        invariant SameColors(board[..], before)
        invariant forall i :: 0 <= i < board.Length ==> if i < x * n + y then Reset(board[i]) else board[i] == before[i]
      {
        IndexBound(x, y, n);
        var point := board[x * n + y];
        if point.Some? {
          board[x * n + y] := Some(point.value.(chain := NoChain, liberties := None));
        }
      }
      assert x * n + n == (x + 1) * n;
    }
  }

  /// A record with no chain id and no liberties, or `null`.
  predicate Reset(c: Cell)
  {
    c.Some? ==> c.value.chain == NoChain && c.value.liberties == None
  }

  /// The points of `i`'s chain that had no chain id when the pass began.
  ghost function PendingOf(orig: seq<Cell>, n: nat, i: nat): set<nat>
    requires Shaped(orig, n) && i < |orig|
  {
    set q | q in ChainOf(orig, n, i) && Live(orig, q) && orig[q].value.chain == NoChain
  }

  /// A record holds the liberties of chain `g`, each once.
  ghost predicate HoldsLiberties(p: PointState, orig: seq<Cell>, n: nat, g: set<nat>)
    requires Shaped(orig, n) && n > 0
  {
    p.liberties.Some? && Distinct(p.liberties.value) && forall q: nat :: q in p.liberties.value <==> q in JsLiberties(orig, n, g)
  }

  /// Record `i` after the pass of `updateChains` has scanned the points
  /// below `k`: once the first point of its chain that had no id is
  /// scanned, it carries that point's id and the chain's liberties;
  /// before that, or when no point of its chain lacked an id, it is as it
  /// was.
  ghost predicate CellLabelled(cur: Cell, orig: seq<Cell>, n: nat, i: nat, k: nat)
    requires Shaped(orig, n) && Live(orig, i)
  {
    ShapedSquare(orig, n);
    var pending := PendingOf(orig, n, i);
    if pending != {} && MinOf(pending) < k then
      cur.Some? && cur.value.color == orig[i].value.color && cur.value.chain == IdOf(n, MinOf(pending))
      && HoldsLiberties(cur.value, orig, n, ChainOf(orig, n, i))
    else cur == orig[i]
  }

  /// The whole board after scanning the points below `k`.
  ghost predicate Labelled(cur: seq<Cell>, orig: seq<Cell>, n: nat, k: nat)
  {
    Shaped(orig, n) && SameColors(cur, orig)
    && forall i :: 0 <= i < |orig| && orig[i].Some? ==> CellLabelled(cur[i], orig, n, i, k)
  }

  /// Every record carries the id of the first point of its chain in the
  /// scan order and the chain's liberties: the state `updateChains` leaves
  /// and the rest of go.js relies on.
  ghost predicate Settled(board: seq<Cell>, n: nat)
    requires Shaped(board, n)
  {
    forall i :: 0 <= i < |board| && board[i].Some? ==>
      (ShapedSquare(board, n); GroupContainsSelf(Codes(board), n, i);
       board[i].value.chain == IdOf(n, MinOf(ChainOf(board, n, i))) && HoldsLiberties(board[i].value, board, n, ChainOf(board, n, i)))
  }

  /// `updateChains(board, resetChains)`. With `resetChains` every chain is
  /// recomputed and the board is settled. Without it only the chains
  /// holding a point with no id are relabelled, each with the id of its
  /// first such point; every other record is left as it was.
  method UpdateChains(board: array<Cell>, n: nat, resetChains: bool)
    requires Shaped(board[..], n)
    modifies board
    ensures SameColors(board[..], old(board[..]))
    ensures resetChains ==> Settled(board[..], n)
    ensures !resetChains ==> Labelled(board[..], old(board[..]), n, |board[..]|)
  {
    if resetChains {
      ClearChains(board, n);
    }
    ghost var orig := board[..];
    var x := 0;
    while x < n
      invariant 0 <= x <= n && Labelled(board[..], orig, n, x * n)
    {
      var y := 0;
      while y < n
        invariant 0 <= y <= n && Labelled(board[..], orig, n, x * n + y)
      {
        IndexBound(x, y, n);
        var point := board[x * n + y];
        if point.Some? && point.value.chain == NoChain {
          LabelChain(board, n, x, y, orig);
        } else {
          LabelSkip(board[..], orig, n, x * n + y);
        }
        y := y + 1;
      }
      assert x * n + n == (x + 1) * n;
      x := x + 1;
    }
    if resetChains {
      AllPendingSettled(board[..], orig, n);
    }
  }

  /// One step of the scan of `updateChains`, at a record with no id: its
  /// chain is found, with its liberties, and every member gets the id
  /// `${x},${y}` and the liberties.
  method LabelChain(board: array<Cell>, n: nat, x: nat, y: nat, ghost orig: seq<Cell>)
    requires x < n && y < n && Shaped(board[..], n)
    requires x * n + y < board.Length && board[x * n + y].Some? && board[x * n + y].value.chain == NoChain
    requires Labelled(board[..], orig, n, x * n + y)
    modifies board
    ensures Labelled(board[..], orig, n, x * n + y + 1)
  {
    var cur := board[..];
    var chainMembers := FindAdjacentPointsInChain(cur, n, x, y);
    var libertiesForChain := FindLibertiesForChain(cur, n, chainMembers);
    var id := ChainAt(x, y);
    SetChain(board, chainMembers, id, libertiesForChain);
    LibertiesOfChain(cur, n, x * n + y, chainMembers);
    IndexOf(x, y, n);
    LabelStep(cur, orig, n, x * n + y, chainMembers, libertiesForChain, board[..]);
  }

  /// The `forEach` of `updateChains`: every member of the chain gets the
  /// id and the liberties.
  method SetChain(board: array<Cell>, members: seq<nat>, id: ChainId, libs: seq<nat>)
    modifies board
    ensures forall i :: 0 <= i < board.Length ==> board[i] == if i in members then Relabelled(old(board[i]), id, libs) else old(board[i])
  {
    ghost var cur := board[..];
    for j := 0 to |members|
      invariant forall i :: 0 <= i < |cur| ==> board[i] == if i in members[..j] then Relabelled(cur[i], id, libs) else cur[i]
    {
      var member := members[j];
      if member < board.Length {
        var point := board[member];
        if point.Some? {
          board[member] := Some(point.value.(chain := id, liberties := Some(libs)));
        }
      }
      assert members[..j + 1] == members[..j] + [member];
    }
    assert members[..|members|] == members;
  }

  /// A record after the `forEach` of `updateChains` set its id and
  /// liberties.
  function Relabelled(c: Cell, id: ChainId, libs: seq<nat>): Cell
  {
    if c.Some? then Some(c.value.(chain := id, liberties := Some(libs))) else c
  }

  /// A chain id names the point it was made from.
  lemma IdOfInjective(n: nat, i: nat, j: nat)
    requires n > 0 && IdOf(n, i) == IdOf(n, j)
    ensures i == j
  {
    assert i == i / n * n + i % n;
    assert j == j / n * n + j % n;
  }

  /// A record the scan reaches with no id is the first pending point of
  /// its chain.
  lemma FirstPending(cur: seq<Cell>, orig: seq<Cell>, n: nat, k: nat)
    requires Labelled(cur, orig, n, k) && Live(cur, k) && cur[k].value.chain == NoChain
    ensures Live(orig, k) && (ShapedSquare(orig, n); k in PendingOf(orig, n, k)) && MinOf(PendingOf(orig, n, k)) == k
  {
    ShapedSquare(orig, n);
    GroupContainsSelf(Codes(orig), n, k);
    assert CellLabelled(cur[k], orig, n, k, k);
    var pk := PendingOf(orig, n, k);
    if pk != {} && MinOf(pk) < k {
      assert false;
    }
    assert k in pk;
  }

  /// The scan reaches a record with no id: labelling its chain moves the
  /// scan on.
  lemma LabelStep(cur: seq<Cell>, orig: seq<Cell>, n: nat, k: nat, members: seq<nat>, libs: seq<nat>, next: seq<Cell>)
    requires Labelled(cur, orig, n, k) && Live(cur, k) && cur[k].value.chain == NoChain
    requires (ShapedSquare(cur, n); SetOf(members) == ChainOf(cur, n, k))
    requires Distinct(libs) && forall q: nat :: q in libs <==> q in JsLiberties(cur, n, ChainOf(cur, n, k))
    requires |next| == |cur| && forall i :: 0 <= i < |cur| ==> next[i] == if i in members then Relabelled(cur[i], IdOf(n, k), libs) else cur[i]
    ensures Labelled(next, orig, n, k + 1)
  {
    SameColorsSameCodes(cur, orig);
    FirstPending(cur, orig, n, k);
    forall i | 0 <= i < |orig| && orig[i].Some?
      ensures CellLabelled(next[i], orig, n, i, k + 1)
    {
      LabelStepAt(cur, orig, n, k, members, libs, next, i);
    }
  }

  lemma LabelStepAt(cur: seq<Cell>, orig: seq<Cell>, n: nat, k: nat, members: seq<nat>, libs: seq<nat>, next: seq<Cell>, i: nat)
    requires Labelled(cur, orig, n, k) && Live(orig, k) && Live(orig, i) && Codes(cur) == Codes(orig)
    requires (ShapedSquare(orig, n); k in PendingOf(orig, n, k)) && MinOf(PendingOf(orig, n, k)) == k
    requires (ShapedSquare(cur, n); SetOf(members) == ChainOf(cur, n, k))
    requires Distinct(libs) && forall q: nat :: q in libs <==> q in JsLiberties(cur, n, ChainOf(cur, n, k))
    requires |next| == |cur| && next[i] == if i in members then Relabelled(cur[i], IdOf(n, k), libs) else cur[i]
    ensures CellLabelled(next[i], orig, n, i, k + 1)
  {
    ShapedSquare(orig, n);
    var codes := Codes(orig);
    var g := ChainOf(orig, n, k);
    assert CellLabelled(cur[i], orig, n, i, k);
    if i in g {
      GroupOfMember(codes, n, k, i);
      assert PendingOf(orig, n, i) == PendingOf(orig, n, k);
      assert i in members;
    } else {
      var pi := PendingOf(orig, n, i);
      if pi != {} && MinOf(pi) == k {
        GroupOfMember(codes, n, i, k);
        GroupContainsSelf(codes, n, i);
        assert false;
      }
      assert i !in members;
    }
  }

  /// The scan passes a record that has an id, or `null`: no chain has
  /// its first pending point there.
  lemma LabelSkip(cur: seq<Cell>, orig: seq<Cell>, n: nat, k: nat)
    requires Labelled(cur, orig, n, k) && k < |cur|
    requires !(cur[k].Some? && cur[k].value.chain == NoChain)
    ensures Labelled(cur, orig, n, k + 1)
  {
    ShapedSquare(orig, n);
    forall i | 0 <= i < |orig| && orig[i].Some?
      ensures CellLabelled(cur[i], orig, n, i, k + 1)
    {
      var pi := PendingOf(orig, n, i);
      if pi != {} && MinOf(pi) == k {
        GroupOfMember(Codes(orig), n, i, k);
        assert false;
      }
    }
  }

  /// When the pass began with no record holding an id, every chain is
  /// labelled from its first point: the board is settled.
  lemma AllPendingSettled(cur: seq<Cell>, orig: seq<Cell>, n: nat)
    requires Labelled(cur, orig, n, |orig|)
    requires forall i :: 0 <= i < |orig| && orig[i].Some? ==> orig[i].value.chain == NoChain
    ensures Shaped(cur, n) && Settled(cur, n)
  {
    SameColorsSameCodes(cur, orig);
    forall i | 0 <= i < |cur| && cur[i].Some?
      ensures (ShapedSquare(cur, n); GroupContainsSelf(Codes(cur), n, i);
        cur[i].value.chain == IdOf(n, MinOf(ChainOf(cur, n, i))) && HoldsLiberties(cur[i].value, cur, n, ChainOf(cur, n, i)))
    {
      ShapedSquare(orig, n);
      var g := ChainOf(orig, n, i);
      forall q | q in g ensures q in PendingOf(orig, n, i) {
        ChainMember(orig, n, i, q);
      }
      GroupContainsSelf(Codes(orig), n, i);
      assert PendingOf(orig, n, i) == g;
      assert CellLabelled(cur[i], orig, n, i, |orig|);
    }
  }
}
