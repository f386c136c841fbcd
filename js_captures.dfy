/// go.js: the chains of a board as lists, the chains a move captures, and
/// the simulation of a move on a copy of the board (`evaluateMoveResult`).
module JsCaptures {
  import opened Wrappers
  import opened Arith
  import opened Grid
  import opened Groups
  import opened JsBoards
  import opened JsChains

  // ---------------------------------------------------------------------
  // getAllChains

  /// The chain id of a record.
  function IdAt(board: seq<Cell>, q: nat): ChainId
    requires Live(board, q)
  {
    board[q].value.chain
  }

  /// A list of points that are records with one chain id, in scan order.
  predicate Chained(board: seq<Cell>, e: seq<nat>)
  {
    |e| > 0 && Live(board, e[0]) && (forall q :: q in e ==> Live(board, q) && board[q].value.chain == board[e[0]].value.chain)
    && forall i, j :: 0 <= i < j < |e| ==> e[i] < e[j]
  }

  /// Point `q` is in one of the lists.
  predicate InSome(chains: seq<seq<nat>>, q: nat)
  {
    exists j :: 0 <= j < |chains| && q in chains[j]
  }

  /// Every list is a non-empty list of records, as the lists of
  /// `getAllChains` are: `chain?.[0].color` needs a first record.
  predicate ChainList(board: seq<Cell>, chains: seq<seq<nat>>)
  {
    forall j :: 0 <= j < |chains| ==> |chains[j]| > 0 && forall q :: q in chains[j] ==> Live(board, q)
  }

  /// Each list of a chain list starts with a record.
  lemma ChainListHeads(board: seq<Cell>, chains: seq<seq<nat>>)
    requires ChainList(board, chains)
    ensures forall j :: 0 <= j < |chains| ==> |chains[j]| > 0 && Live(board, chains[j][0])
  {
    forall j | 0 <= j < |chains| ensures |chains[j]| > 0 && Live(board, chains[j][0]) {
      assert chains[j][0] in chains[j];
    }
  }

  /// What `getAllChains` builds from the points below `k`: one list per
  /// chain id, in the order the ids first appear; each list holds, in scan
  /// order, every record below `k` carrying that id.
  ghost predicate Grouped(board: seq<Cell>, chains: seq<seq<nat>>, k: nat)
  {
    ChainList(board, chains) && Below(board, chains, k) && DistinctIds(board, chains) && Covers(board, chains, k)
  }

  /// Each list is a chain-id list of records below `k`.
  ghost predicate Below(board: seq<Cell>, chains: seq<seq<nat>>, k: nat)
  {
    forall j :: 0 <= j < |chains| ==> Chained(board, chains[j]) && chains[j][|chains[j]| - 1] < k
  }

  /// No two lists have one chain id.
  ghost predicate DistinctIds(board: seq<Cell>, chains: seq<seq<nat>>)
    requires ChainList(board, chains)
  {
    forall i, j :: 0 <= i < j < |chains| ==> IdAt(board, chains[i][0]) != IdAt(board, chains[j][0])
  }

  /// The lists hold exactly the records below `k` that have a chain id.
  ghost predicate Covers(board: seq<Cell>, chains: seq<seq<nat>>, k: nat)
  {
    forall q: nat :: InSome(chains, q) <==> q < k && Live(board, q) && board[q].value.chain != NoChain
  }

  /// The position of the list for chain id `id`, as `chains[point.chain]`
  /// looks it up.
  function KeyIndex(board: seq<Cell>, chains: seq<seq<nat>>, id: ChainId): (r: Option<nat>)
    requires ChainList(board, chains)
    ensures r.Some? ==> r.value < |chains| && IdAt(board, chains[r.value][0]) == id
    ensures r.None? ==> forall j :: 0 <= j < |chains| ==> IdAt(board, chains[j][0]) != id
  {
    if |chains| == 0 then None
    else if IdAt(board, chains[|chains| - 1][0]) == id then Some(|chains| - 1)
    else KeyIndex(board, chains[..|chains| - 1], id)
  }

  /// One point of the scan of `getAllChains`: a record with a chain id
  /// is pushed onto the list of its id, which is made when it is new.
  function Add(board: seq<Cell>, chains: seq<seq<nat>>, p: nat): (r: seq<seq<nat>>)
    requires p < |board| && ChainList(board, chains)
    ensures ChainList(board, r)
  {
    if !Live(board, p) || board[p].value.chain == NoChain then chains
    else
      match KeyIndex(board, chains, board[p].value.chain)
      case None => chains + [[p]]
      case Some(j) => chains[j := chains[j] + [p]]
  }

  /// The records below `k` grouped by chain id.
  function Collect(board: seq<Cell>, k: nat): (chains: seq<seq<nat>>)
    requires k <= |board|
    ensures ChainList(board, chains)
  {
    if k == 0 then [] else Add(board, Collect(board, k - 1), k - 1)
  }

  /// Each step of the scan keeps the lists grouped.
  lemma AddGrouped(board: seq<Cell>, chains: seq<seq<nat>>, p: nat)
    requires p < |board| && Grouped(board, chains, p)
    ensures Grouped(board, Add(board, chains, p), p + 1)
  {
    var r := Add(board, chains, p);
    if !Live(board, p) || board[p].value.chain == NoChain {
      assert r == chains;
      SkipPoint(board, chains, p);
    } else {
      match KeyIndex(board, chains, board[p].value.chain)
      case None =>
        assert r == chains + [[p]];
        AddNewList(board, chains, p);
      case Some(j) =>
        assert r == chains[j := chains[j] + [p]];
        AddToList(board, chains, p, j);
    }
  }

  /// A point that is offline or has no chain id leaves the lists as they are.
  lemma SkipPoint(board: seq<Cell>, chains: seq<seq<nat>>, p: nat)
    requires p < |board| && Grouped(board, chains, p) && (!Live(board, p) || board[p].value.chain == NoChain)
    ensures Grouped(board, chains, p + 1)
  {
  }

  /// A record whose chain id has no list yet starts one.
  lemma AddNewList(board: seq<Cell>, chains: seq<seq<nat>>, p: nat)
    requires p < |board| && Grouped(board, chains, p) && Live(board, p) && board[p].value.chain != NoChain
    requires forall j :: 0 <= j < |chains| ==> IdAt(board, chains[j][0]) != board[p].value.chain
    ensures Grouped(board, chains + [[p]], p + 1)
  {
    var r := chains + [[p]];
    assert Chained(board, [p]);
    assert forall j :: 0 <= j < |chains| ==> r[j] == chains[j];
    assert ChainList(board, r);
    assert Below(board, r, p + 1);
    assert DistinctIds(board, r);
    forall q: nat ensures InSome(r, q) <==> InSome(chains, q) || q == p {
      if InSome(r, q) {
        var j :| 0 <= j < |r| && q in r[j];
        if j < |chains| {
          assert InSome(chains, q);
        }
      }
      if InSome(chains, q) {
        var j :| 0 <= j < |chains| && q in chains[j];
        assert q in r[j];
      }
      assert p in r[|chains|];
    }
  }

  /// A record whose chain id has list `j` is pushed onto it.
  lemma AddToList(board: seq<Cell>, chains: seq<seq<nat>>, p: nat, j: nat)
    requires p < |board| && Grouped(board, chains, p) && Live(board, p) && board[p].value.chain != NoChain
    requires j < |chains| && IdAt(board, chains[j][0]) == board[p].value.chain
    ensures Grouped(board, chains[j := chains[j] + [p]], p + 1)
  {
    PushDistinct(board, chains, p, j);
    PushBelow(board, chains, p, j);
    PushCovers(chains, j, p);
  }

  /// Pushing a record keeps the lists non-empty, made of records and with
  /// distinct ids.
  lemma PushDistinct(board: seq<Cell>, chains: seq<seq<nat>>, p: nat, j: nat)
    requires ChainList(board, chains) && DistinctIds(board, chains) && Live(board, p) && j < |chains|
    ensures ChainList(board, chains[j := chains[j] + [p]]) && DistinctIds(board, chains[j := chains[j] + [p]])
  {
    var r := chains[j := chains[j] + [p]];
    assert forall i :: 0 <= i < |r| ==> r[i][0] == chains[i][0];
    forall i | 0 <= i < |r| ensures |r[i]| > 0 && forall q :: q in r[i] ==> Live(board, q) {
      if i == j {
        forall q | q in r[i] ensures Live(board, q) {
          if q != p {
            assert q in chains[j];
          }
        }
      }
    }
  }

  /// Pushing onto list `j` a record of its id above all of them keeps
  /// every list in scan order below `p + 1`.
  lemma PushBelow(board: seq<Cell>, chains: seq<seq<nat>>, p: nat, j: nat)
    requires Below(board, chains, p) && Live(board, p) && j < |chains|
    requires Live(board, chains[j][0]) && board[chains[j][0]].value.chain == board[p].value.chain
    ensures Below(board, chains[j := chains[j] + [p]], p + 1)
  {
    var r := chains[j := chains[j] + [p]];
    forall i | 0 <= i < |r| ensures Chained(board, r[i]) && r[i][|r[i]| - 1] < p + 1 {
      if i != j {
        assert r[i] == chains[i];
      } else {
        PushChained(board, chains[j], p);
      }
    }
  }

  /// A record of the list's id above all of its points extends it.
  lemma PushChained(board: seq<Cell>, e: seq<nat>, p: nat)
    requires Chained(board, e) && e[|e| - 1] < p && Live(board, p) && board[p].value.chain == board[e[0]].value.chain
    ensures Chained(board, e + [p])
  {
    var f := e + [p];
    assert f[0] == e[0];
    forall q | q in f ensures Live(board, q) && board[q].value.chain == board[f[0]].value.chain {
      if q != p {
        assert q in e;
      }
    }
    forall a, b | 0 <= a < b < |f| ensures f[a] < f[b] {
      if b == |e| && a < |e| - 1 {
        assert e[a] < e[|e| - 1];
      }
    }
  }

  /// Pushing `p` onto list `j` adds `p` to the points listed.
  lemma PushCovers(chains: seq<seq<nat>>, j: nat, p: nat)
    requires j < |chains|
    ensures forall q: nat :: InSome(chains[j := chains[j] + [p]], q) <==> InSome(chains, q) || q == p
  {
    var r := chains[j := chains[j] + [p]];
    forall q: nat ensures InSome(r, q) <==> InSome(chains, q) || q == p {
      if InSome(r, q) {
        var i :| 0 <= i < |r| && q in r[i];
        if i != j {
          assert q in chains[i];
        } else if q != p {
          assert q in chains[j];
        }
      }
      if InSome(chains, q) {
        var i :| 0 <= i < |chains| && q in chains[i];
        assert q in r[i];
      }
      if q == p {
        assert q in r[j];
      }
    }
  }

  lemma {:induction false} CollectGrouped(board: seq<Cell>, k: nat)
    requires k <= |board|
    ensures Grouped(board, Collect(board, k), k)
  {
    if k > 0 {
      var p := k - 1;
      CollectGrouped(board, p);
      CollectStep(board, p);
      assert p + 1 == k;
    }
  }

  /// One more point of the scan keeps the lists grouped.
  lemma CollectStep(board: seq<Cell>, p: nat)
    requires p < |board| && Grouped(board, Collect(board, p), p)
    ensures Grouped(board, Collect(board, p + 1), p + 1)
  {
    CollectUnfold(board, p);
    AddGrouped(board, Collect(board, p), p);
  }

  /// `Collect` takes one more point with `Add`.
  lemma CollectUnfold(board: seq<Cell>, p: nat)
    requires p < |board|
    ensures Collect(board, p + 1) == Add(board, Collect(board, p), p)
  {
  }

  /// `getAllChains` as a value: the records of the whole board grouped by
  /// chain id.
  function AllChains(board: seq<Cell>): (chains: seq<seq<nat>>)
    ensures ChainList(board, chains)
  {
    Collect(board, |board|)
  }

  /// Every record with a chain id is in exactly one list of
  /// `getAllChains`, the lists have distinct ids, and each holds in scan
  /// order the records of its id.
  lemma AllChainsGrouped(board: seq<Cell>)
    ensures Grouped(board, AllChains(board), |board|)
  {
    CollectGrouped(board, |board|);
  }

  /// `getAllChains(board)`: the columns and rows are scanned and each record
  /// with a chain id is pushed onto the list of its id.
  method GetAllChains(board: seq<Cell>, n: nat) returns (chains: seq<seq<nat>>)
    requires Shaped(board, n)
    ensures chains == AllChains(board)
  {
    chains := [];
    var x := 0;
    ghost var start := 0;
    while x < n
      invariant 0 <= x <= n && start == x * n && start <= |board| && chains == Collect(board, start)
    {
      chains := ScanColumn(board, n, x, start, chains);
      assert start + n == (x + 1) * n;
      x := x + 1;
      start := start + n;
    }
  }

  /// The inner loop of `getAllChains`, over column `x`, whose first point
  /// is `start`.
  method ScanColumn(board: seq<Cell>, n: nat, x: nat, ghost start: nat, chains0: seq<seq<nat>>) returns (chains: seq<seq<nat>>)
    requires Shaped(board, n) && x < n && start == x * n && chains0 == Collect(board, start)
    ensures start + n <= |board| && chains == Collect(board, start + n)
  {
    MulMono(x + 1, n, n);
    assert start + n == (x + 1) * n;
    chains := chains0;
    var y := 0;
    var p := x * n;
    while y < n
      invariant 0 <= y <= n && p == x * n + y && chains == Collect(board, p)
    {
      ghost var before := chains;
      var point := board[p];
      if point.Some? && point.value.chain != NoChain {
        match KeyIndex(board, chains, point.value.chain)
        case None =>
          chains := chains + [[p]];
        case Some(j) =>
          chains := chains[j := chains[j] + [p]];
      }
      assert chains == Add(board, before, p);
      CollectUnfold(board, p);
      y := y + 1;
      p := p + 1;
    }
  }

  /// On a settled board two records carry the same chain id exactly when
  /// they are in one chain.
  lemma SettledIds(board: seq<Cell>, n: nat, i: nat, j: nat)
    requires Shaped(board, n) && Settled(board, n) && Live(board, i) && Live(board, j)
    ensures (ShapedSquare(board, n); board[i].value.chain == board[j].value.chain <==> j in ChainOf(board, n, i))
  {
    ShapedSquare(board, n);
    var codes := Codes(board);
    GroupContainsSelf(codes, n, i);
    GroupContainsSelf(codes, n, j);
    var gi, gj := ChainOf(board, n, i), ChainOf(board, n, j);
    if j in gi {
      GroupOfMember(codes, n, i, j);
    }
    if board[i].value.chain == board[j].value.chain {
      IdOfInjective(n, MinOf(gi), MinOf(gj));
      var m := MinOf(gi);
      GroupOfMember(codes, n, i, m);
      GroupOfMember(codes, n, j, m);
    }
  }

  /// On a settled board the lists of `getAllChains` are exactly the chains:
  /// a list holds every point of the chain of its first point.
  lemma SettledChains(board: seq<Cell>, n: nat, e: seq<nat>)
    requires Shaped(board, n) && Settled(board, n) && e in AllChains(board)
    ensures |e| > 0 && Live(board, e[0])
    ensures (ShapedSquare(board, n); forall q: nat :: q in e <==> q in ChainOf(board, n, e[0]))
  {
    var chains := AllChains(board);
    AllChainsGrouped(board);
    var j :| 0 <= j < |chains| && chains[j] == e;
    ShapedSquare(board, n);
    forall q: nat ensures q in e <==> q in ChainOf(board, n, e[0]) {
      if q in ChainOf(board, n, e[0]) {
        ChainMember(board, n, e[0], q);
        SettledIds(board, n, e[0], q);
        assert board[q].value.chain != NoChain;
        assert InSome(chains, q);
        var i :| 0 <= i < |chains| && q in chains[i];
        if i != j {
          assert false;
        }
      }
      if q in e {
        SettledIds(board, n, e[0], q);
      }
    }
  }

  /// On a settled board every record is in a list of `getAllChains`.
  lemma SettledCovered(board: seq<Cell>, n: nat, q: nat)
    requires Shaped(board, n) && Settled(board, n) && Live(board, q)
    ensures InSome(AllChains(board), q)
  {
    AllChainsGrouped(board);
    ShapedSquare(board, n);
    GroupContainsSelf(Codes(board), n, q);
  }

  /// A list whose first record has colour `color` and an empty liberty
  /// array.
  predicate Starved(board: seq<Cell>, e: seq<nat>, color: Color)
    requires |e| > 0 && Live(board, e[0])
  {
    var p := board[e[0]].value;
    p.color == color && p.liberties.Some? && |p.liberties.value| == 0
  }

  /// `findCapturedChainOfColor`: the lists of `color` with no liberties, in
  /// their order.
  function FindCapturedChainOfColor(board: seq<Cell>, chains: seq<seq<nat>>, color: Color): (r: seq<seq<nat>>)
    requires ChainList(board, chains)
    ensures ChainList(board, r) && |r| <= |chains|
    ensures forall e :: e in r <==> e in chains && Starved(board, e, color)
  {
    if |chains| == 0 then []
    else
      var rest := FindCapturedChainOfColor(board, chains[1..], color);
      assert forall e :: e in chains <==> e == chains[0] || e in chains[1..];
      if Starved(board, chains[0], color) then [chains[0]] + rest else rest
  }

  /// `findAllCapturedChains(chains, playerWhoMoved)`: the chains of the
  /// other player with no liberties when there is one; otherwise the
  /// mover's own; otherwise `undefined`.
  function FindAllCapturedChains(board: seq<Cell>, chains: seq<seq<nat>>, playerWhoMoved: Color): (r: Option<seq<seq<nat>>>)
    requires ChainList(board, chains)
    ensures r.Some? ==> |r.value| > 0 && ChainList(board, r.value)
    ensures (exists e :: e in chains && Starved(board, e, Opponent(playerWhoMoved))) ==>
      r.Some? && forall e :: e in r.value <==> e in chains && Starved(board, e, Opponent(playerWhoMoved))
    ensures (forall e :: e in chains ==> !Starved(board, e, Opponent(playerWhoMoved))) ==>
      (r.Some? <==> exists e :: e in chains && Starved(board, e, playerWhoMoved))
      && (r.Some? ==> forall e :: e in r.value <==> e in chains && Starved(board, e, playerWhoMoved))
  {
    var enemy := FindCapturedChainOfColor(board, chains, Opponent(playerWhoMoved));
    if |enemy| > 0 then
      assert enemy[0] in enemy && enemy[0] in chains && Starved(board, enemy[0], Opponent(playerWhoMoved));
      Some(enemy)
    else
      assert forall e :: e in chains ==> !Starved(board, e, Opponent(playerWhoMoved));
      var friendly := FindCapturedChainOfColor(board, chains, playerWhoMoved);
      if |friendly| > 0 then
        assert friendly[0] in friendly;
        Some(friendly)
      else None
  }

  // ---------------------------------------------------------------------
  // The chains a move captures, on the colours alone

  /// The chain of point `q` has no liberty.
  ghost predicate NoLiberties(board: seq<Cell>, n: nat, q: nat)
    requires Shaped(board, n) && q < |board|
  {
    ShapedSquare(board, n);
    JsLiberties(board, n, ChainOf(board, n, q)) == {}
  }

  /// The records of colour `color` whose chain has no liberty.
  ghost function CapturedOf(board: seq<Cell>, n: nat, color: Color): set<nat>
    requires Shaped(board, n)
  {
    set q: nat | q < |board| && board[q].Some? && board[q].value.color == color && NoLiberties(board, n, q)
  }

  /// The points `findAllCapturedChains` removes after `player` moved:
  /// the other player's chains without liberties, or when there are none
  /// the mover's own.
  ghost function Captured(board: seq<Cell>, n: nat, player: Color): set<nat>
    requires Shaped(board, n)
  {
    var enemy := CapturedOf(board, n, Opponent(player));
    if enemy != {} then enemy else CapturedOf(board, n, player)
  }

  /// Only the colours decide what is captured.
  lemma CapturedSameColors(a: seq<Cell>, b: seq<Cell>, n: nat, player: Color)
    requires Shaped(a, n) && SameColors(a, b)
    ensures Shaped(b, n) && Captured(a, n, player) == Captured(b, n, player)
  {
    SameColorsSameCodes(a, b);
  }

  /// On a settled board a list of `getAllChains` is starved of colour `c`
  /// exactly when its records are in `CapturedOf(c)`.
  lemma StarvedIff(board: seq<Cell>, n: nat, e: seq<nat>, c: Color, q: nat)
    requires Shaped(board, n) && Settled(board, n) && e in AllChains(board) && q in e
    ensures |e| > 0 && Live(board, e[0])
    ensures Starved(board, e, c) <==> q in CapturedOf(board, n, c)
  {
    SettledChains(board, n, e);
    ShapedSquare(board, n);
    var codes := Codes(board);
    var g := ChainOf(board, n, e[0]);
    GroupContainsSelf(codes, n, e[0]);
    GroupOfMember(codes, n, e[0], q);
    ChainMember(board, n, e[0], q);
    var libs := board[e[0]].value.liberties.value;
    assert |libs| == 0 <==> JsLiberties(board, n, g) == {} by {
      if |libs| > 0 {
        assert libs[0] in JsLiberties(board, n, g);
      }
      if JsLiberties(board, n, g) != {} {
        var a :| a in JsLiberties(board, n, g);
        assert a in libs;
      }
    }
  }

  /// On a settled board the records of the starved lists of colour `c`
  /// are `CapturedOf(c)`.
  lemma StarvedPoints(board: seq<Cell>, n: nat, c: Color, q: nat)
    requires Shaped(board, n) && Settled(board, n)
    ensures q in CapturedOf(board, n, c) <==> exists e :: e in AllChains(board) && Starved(board, e, c) && q in e
  {
    var chains := AllChains(board);
    if q in CapturedOf(board, n, c) {
      SettledCovered(board, n, q);
      var j :| 0 <= j < |chains| && q in chains[j];
      StarvedIff(board, n, chains[j], c, q);
    }
    if exists e :: e in chains && Starved(board, e, c) && q in e {
      var e :| e in chains && Starved(board, e, c) && q in e;
      StarvedIff(board, n, e, c, q);
    }
  }

  /// On a settled board `findAllCapturedChains` over `getAllChains` finds
  /// exactly the points of `Captured`, and nothing when there are none.
  lemma CapturedChainsAre(board: seq<Cell>, n: nat, player: Color)
    requires Shaped(board, n) && Settled(board, n)
    ensures var r := FindAllCapturedChains(board, AllChains(board), player);
      (r.None? <==> Captured(board, n, player) == {})
      && (r.Some? ==> forall q: nat :: InSome(r.value, q) <==> q in Captured(board, n, player))
  {
    var chains := AllChains(board);
    var opp := Opponent(player);
    var r := FindAllCapturedChains(board, chains, player);
    forall q: nat ensures (q in CapturedOf(board, n, opp) <==> exists e :: e in chains && Starved(board, e, opp) && q in e)
      && (q in CapturedOf(board, n, player) <==> exists e :: e in chains && Starved(board, e, player) && q in e)
    {
      StarvedPoints(board, n, opp, q);
      StarvedPoints(board, n, player, q);
    }
    if exists e :: e in chains && Starved(board, e, opp) {
      var e :| e in chains && Starved(board, e, opp);
      assert e[0] in CapturedOf(board, n, opp);
      CapturedListed(r.value, chains, board, opp);
    } else if r.Some? {
      var e :| e in chains && Starved(board, e, player);
      assert e[0] in CapturedOf(board, n, player);
      assert CapturedOf(board, n, opp) == {};
      CapturedListed(r.value, chains, board, player);
    } else {
      assert CapturedOf(board, n, opp) == {};
      assert CapturedOf(board, n, player) == {};
    }
  }

  /// The points of a filtered list of lists are the points of the lists it
  /// kept.
  lemma CapturedListed(r: seq<seq<nat>>, chains: seq<seq<nat>>, board: seq<Cell>, c: Color)
    requires ChainList(board, chains)
    requires forall e :: e in r <==> e in chains && Starved(board, e, c)
    ensures forall q: nat :: InSome(r, q) <==> exists e :: e in chains && Starved(board, e, c) && q in e
  {
    forall q: nat ensures InSome(r, q) <==> exists e :: e in chains && Starved(board, e, c) && q in e {
      if InSome(r, q) {
        var j :| 0 <= j < |r| && q in r[j];
        assert r[j] in r;
      }
      if exists e :: e in chains && Starved(board, e, c) && q in e {
        var e :| e in chains && Starved(board, e, c) && q in e;
        var j :| 0 <= j < |r| && r[j] == e;
        assert q in r[j];
      }
    }
  }

  // ---------------------------------------------------------------------
  // captureChain, resetChainsById, updateCaptures

  /// A record after `captureChain`: empty, with no chain id and an empty
  /// liberty array.
  function ClearedCell(c: Cell): Cell
  {
    if c.Some? then Some(c.value.(color := Empty, chain := NoChain, liberties := Some([]))) else c
  }

  /// The board with the records of `s` captured.
  function Cleared(board: seq<Cell>, s: set<nat>): (r: seq<Cell>)
    ensures |r| == |board| && forall i :: 0 <= i < |board| ==> r[i] == if i in s then ClearedCell(board[i]) else board[i]
  {
    seq(|board|, i requires 0 <= i < |board| => if i in s then ClearedCell(board[i]) else board[i])
  }

  /// Capturing the same points of two boards with the same colours leaves
  /// boards with the same colours.
  lemma ClearedSameColors(a: seq<Cell>, b: seq<Cell>, s: set<nat>)
    requires SameColors(a, b)
    ensures SameColors(Cleared(a, s), Cleared(b, s))
  {
  }

  /// `captureChain(chain)`: every record of the chain becomes empty.
  method CaptureChain(board: array<Cell>, chain: seq<nat>)
    modifies board
    ensures board[..] == Cleared(old(board[..]), SetOf(chain))
  {
    ghost var before := board[..];
    for j := 0 to |chain|
      invariant board[..] == Cleared(before, SetOf(chain[..j]))
    {
      var point := chain[j];
      assert SetOf(chain[..j + 1]) == SetOf(chain[..j]) + {point};
      if point < board.Length {
        board[point] := ClearedCell(board[point]);
      }
    }
    assert chain[..|chain|] == chain;
  }

  /// The board after `resetChainsById(ids)`: the records whose chain id is
  /// in `ids` lose it and get an empty liberty array.
  function ResetIds(board: seq<Cell>, ids: seq<ChainId>): (r: seq<Cell>)
    ensures SameColors(r, board)
  {
    seq(|board|, i requires 0 <= i < |board| =>
      if board[i].Some? && board[i].value.chain in ids then Some(board[i].value.(chain := NoChain, liberties := Some([]))) else board[i])
  }

  /// `resetChainsById(board, chainIds)`.
  method ResetChainsById(board: array<Cell>, n: nat, ids: seq<ChainId>)
    requires Shaped(board[..], n)
    modifies board
    ensures board[..] == ResetIds(old(board[..]), ids)
  {
    ghost var before := board[..];
    ghost var after := ResetIds(before, ids);
    for x := 0 to n
      invariant forall i :: 0 <= i < board.Length ==> board[i] == if i < x * n then after[i] else before[i]
    {
      for y := 0 to n
        invariant forall i :: 0 <= i < board.Length ==> board[i] == if i < x * n + y then after[i] else before[i]
      {
        IndexBound(x, y, n);
        var point := board[x * n + y];
        if point.Some? && point.value.chain in ids {
          board[x * n + y] := Some(point.value.(chain := NoChain, liberties := Some([])));
        }
      }
      assert x * n + n == (x + 1) * n;
    }
  }

  /// A point of a chain whose id was reset.
  predicate Pending(board: seq<Cell>, q: nat)
  {
    Live(board, q) && board[q].value.chain == NoChain
  }

  /// What `updateChains(board, false)` needs to settle a board: every
  /// chain is either reset as a whole, or carries the id of its first point
  /// and its liberties.
  ghost predicate ResetOrSettled(board: seq<Cell>, n: nat)
    requires Shaped(board, n)
  {
    forall i :: 0 <= i < |board| && board[i].Some? ==>
      (ShapedSquare(board, n); GroupContainsSelf(Codes(board), n, i);
       (forall q :: q in ChainOf(board, n, i) ==> Pending(board, q))
       || (board[i].value.chain == IdOf(n, MinOf(ChainOf(board, n, i))) && HoldsLiberties(board[i].value, board, n, ChainOf(board, n, i))))
  }

  /// A settled board is one whose chains all carry their ids.
  lemma SettledResetOrSettled(board: seq<Cell>, n: nat)
    requires Shaped(board, n) && Settled(board, n)
    ensures ResetOrSettled(board, n)
  {
  }

  /// The pass of `updateChains` without reset, over a board whose chains are
  /// reset whole or settled, settles it.
  lemma PendingSettles(cur: seq<Cell>, orig: seq<Cell>, n: nat)
    requires Labelled(cur, orig, n, |orig|) && ResetOrSettled(orig, n)
    ensures Shaped(cur, n) && Settled(cur, n)
  {
    SameColorsSameCodes(cur, orig);
    forall i | 0 <= i < |cur| && cur[i].Some?
      ensures (ShapedSquare(cur, n); GroupContainsSelf(Codes(cur), n, i);
        cur[i].value.chain == IdOf(n, MinOf(ChainOf(cur, n, i))) && HoldsLiberties(cur[i].value, cur, n, ChainOf(cur, n, i)))
    {
      ShapedSquare(orig, n);
      var codes := Codes(orig);
      var g := ChainOf(orig, n, i);
      GroupContainsSelf(codes, n, i);
      var pending := PendingOf(orig, n, i);
      assert CellLabelled(cur[i], orig, n, i, |orig|);
      if forall q :: q in g ==> Pending(orig, q) {
        assert pending == g;
      } else {
        forall q | q in pending ensures false {
          GroupOfMember(codes, n, i, q);
          GroupContainsSelf(codes, n, q);
        }
        assert pending == {};
      }
    }
  }

  // ---------------------------------------------------------------------
  // evaluateMoveResult

  /// The board with `player`'s stone at `p`, every other field kept.
  function Placed(board: seq<Cell>, p: nat, player: Stone): (r: seq<Cell>)
    requires Live(board, p)
    ensures |r| == |board| && Live(r, p) && r[p].value.color == player
  {
    board[p := Some(board[p].value.(color := player))]
  }

  /// The chain ids of a list of records.
  function ChainIds(board: seq<Cell>, s: seq<nat>): (r: seq<ChainId>)
    requires forall q :: q in s ==> Live(board, q)
    ensures forall id :: id in r <==> exists q :: q in s && Live(board, q) && board[q].value.chain == id
  {
    if |s| == 0 then []
    else
      var rest := ChainIds(board, s[1..]);
      assert s[0] in s && Live(board, s[0]);
      assert forall q :: q in s <==> q == s[0] || q in s[1..];
      [board[s[0]].value.chain] + rest
  }

  /// `[point.chain, ...neighbors.map((point) => point.chain)]`: the chain
  /// ids `evaluateMoveResult` resets, read from the board before the move.
  function MoveIds(board: seq<Cell>, n: nat, p: nat): seq<ChainId>
    requires Shaped(board, n) && Live(board, p)
  {
    [board[p].value.chain] + ChainIds(board, Neighbors(board, n, p))
  }

  /// The records whose chain is reset.
  ghost function ResetRegion(board: seq<Cell>, ids: seq<ChainId>): set<nat>
  {
    set q: nat | q < |board| && board[q].Some? && board[q].value.chain in ids
  }

  /// The board after the stone is placed and the chains around it reset.
  function AfterReset(board: seq<Cell>, n: nat, p: nat, player: Stone): seq<Cell>
    requires Shaped(board, n) && Live(board, p)
  {
    ResetIds(Placed(board, p, player), MoveIds(board, n, p))
  }

  /// The move point and its neighbouring records are reset.
  lemma RegionHasNeighbors(board: seq<Cell>, n: nat, p: nat)
    requires Shaped(board, n) && Live(board, p)
    ensures var r := ResetRegion(board, MoveIds(board, n, p));
      p in r && forall a :: a in Adjacent(p, n, |board|) && Live(board, a) ==> a in r
  {
    var ids := MoveIds(board, n, p);
    var nb := Neighbors(board, n, p);
    var rest := ChainIds(board, nb);
    assert ids == [board[p].value.chain] + rest;
    SquareAtLeast(n);
    NeighborsAreAdjacent(board, n, p);
    forall a | a in Adjacent(p, n, |board|) && Live(board, a) ensures a in ResetRegion(board, ids) {
      assert a in nb;
      assert board[a].value.chain in rest;
    }
  }

  /// The whole chain of a reset point is reset.
  lemma RegionHasChains(board: seq<Cell>, n: nat, ids: seq<ChainId>)
    requires Shaped(board, n) && Settled(board, n) && |board| > 0
    ensures var r := ResetRegion(board, ids);
      (ShapedSquare(board, n); forall q, q' :: q in r && q' in ChainOf(board, n, q) ==> q' in r)
  {
    var r := ResetRegion(board, ids);
    ShapedSquare(board, n);
    forall q, q' | q in r && q' in ChainOf(board, n, q) ensures q' in r {
      ChainMember(board, n, q, q');
      SettledIds(board, n, q, q');
    }
  }

  /// Outside the move point the reset board has the old colours.
  lemma AfterResetCodes(board: seq<Cell>, n: nat, p: nat, player: Stone)
    requires Shaped(board, n) && Live(board, p)
    ensures var b1 := AfterReset(board, n, p, player);
      |b1| == |board| && Live(b1, p) && b1[p].value.color == player
      && forall q :: 0 <= q < |board| && q != p ==> Codes(b1)[q] == Codes(board)[q] && (b1[q].Some? <==> board[q].Some?)
  {
  }

  /// A reset point and a neighbour outside the reset region never have
  /// the same code on the reset board.
  lemma RegionSeparated(board: seq<Cell>, n: nat, p: nat, player: Stone, u: nat, a: nat)
    requires Shaped(board, n) && Settled(board, n) && Live(board, p)
    requires u in ResetRegion(board, MoveIds(board, n, p)) && a !in ResetRegion(board, MoveIds(board, n, p))
    requires 0 < n <= |board| && a < |board| && a in Adjacent(u, n, |board|)
    ensures Codes(AfterReset(board, n, p, player))[u] != Codes(AfterReset(board, n, p, player))[a]
  {
    var c := Codes(board);
    var c1 := Codes(AfterReset(board, n, p, player));
    RegionHasNeighbors(board, n, p);
    RegionHasChains(board, n, MoveIds(board, n, p));
    AfterResetCodes(board, n, p, player);
    if board[a].Some? && u != p && c1[u] == c1[a] {
      ShapedSquare(board, n);
      GroupContainsSelf(c, n, u);
      GroupStep(c, n, u, u, a);
    }
  }

  /// A chain that meets the reset region lies inside it on the reset
  /// board, and all its records are pending.
  lemma InsideReset(board: seq<Cell>, n: nat, p: nat, player: Stone, i: nat)
    requires Shaped(board, n) && Settled(board, n) && Live(board, p)
    requires i in ResetRegion(board, MoveIds(board, n, p))
    ensures var b1 := AfterReset(board, n, p, player);
      Shaped(b1, n) && (ShapedSquare(b1, n); forall q :: q in ChainOf(b1, n, i) ==> Pending(b1, q))
  {
    var b1 := AfterReset(board, n, p, player);
    var r := ResetRegion(board, MoveIds(board, n, p));
    ShapedSquare(b1, n);
    var c1 := Codes(b1);
    var g := set q: nat | q in r && c1[q] == c1[i];
    forall q, a | q in g && a in Adjacent(q, n, |c1|) && a < |c1| && c1[a] == c1[i] ensures a in g {
      if a !in r {
        RegionSeparated(board, n, p, player, q, a);
      }
    }
    GroupWithin(c1, n, i, g);
  }

  /// A record outside the reset region keeps its record, its chain and
  /// its chain's liberties.
  lemma OutsideReset(board: seq<Cell>, n: nat, p: nat, player: Stone, i: nat)
    requires Shaped(board, n) && Settled(board, n) && Live(board, p) && Live(board, i)
    requires i !in ResetRegion(board, MoveIds(board, n, p))
    ensures var b1 := AfterReset(board, n, p, player);
      Shaped(b1, n) && b1[i] == board[i]
      && (ShapedSquare(board, n); ChainOf(b1, n, i) == ChainOf(board, n, i))
      && JsLiberties(b1, n, ChainOf(board, n, i)) == JsLiberties(board, n, ChainOf(board, n, i))
  {
    var b1 := AfterReset(board, n, p, player);
    var r := ResetRegion(board, MoveIds(board, n, p));
    ShapedSquare(board, n);
    var c, c1 := Codes(board), Codes(b1);
    var g := ChainOf(board, n, i);
    RegionHasNeighbors(board, n, p);
    RegionHasChains(board, n, MoveIds(board, n, p));
    AfterResetCodes(board, n, p, player);
    GroupContainsSelf(c, n, i);
    assert Square(c1, n);
    // No point of the chain is next to the move point.
    forall q, a | q in g && a in Adjacent(q, n, |board|) ensures a != p {
      GroupValue(c, n, i, q);
      ChainMember(board, n, i, q);
      if q in r {
        GroupSymmetric(c, n, i, q);
      }
      if a == p {
        AdjacentSymmetric(p, q, n);
      }
    }
    forall q, a | q in g && a in Adjacent(q, n, |c1|) && a < |c1| && c1[a] == c1[i] ensures a in g {
      GroupStep(c, n, i, q, a);
    }
    GroupWithin(c1, n, i, g);
    var g1 := ChainOf(b1, n, i);
    forall q, a | q in g1 && a in Adjacent(q, n, |c|) && a < |c| && c[a] == c[i] ensures a in g1 {
      GroupStep(c1, n, i, q, a);
    }
    GroupContainsSelf(c1, n, i);
    GroupWithin(c, n, i, g1);
    forall a: nat ensures a in Liberties(c1, n, g) <==> a in Liberties(c, n, g) {
      if a in Liberties(c1, n, g) || a in Liberties(c, n, g) {
        var q :| q in g && a in Adjacent(q, n, |c|);
        assert a != p;
      }
    }
  }

  /// Placing a stone on a settled board and resetting the chains of the
  /// point and its neighbours leaves every chain reset as a whole or
  /// settled, so the pass of `updateChains` without reset settles it.
  lemma MoveResetSettles(board: seq<Cell>, n: nat, p: nat, player: Stone)
    requires Shaped(board, n) && Settled(board, n) && Live(board, p)
    ensures Shaped(AfterReset(board, n, p, player), n) && ResetOrSettled(AfterReset(board, n, p, player), n)
  {
    var b1 := AfterReset(board, n, p, player);
    var r := ResetRegion(board, MoveIds(board, n, p));
    AfterResetCodes(board, n, p, player);
    ShapedSquare(b1, n);
    forall i | 0 <= i < |b1| && b1[i].Some?
      ensures (GroupContainsSelf(Codes(b1), n, i);
        (forall q :: q in ChainOf(b1, n, i) ==> Pending(b1, q))
        || (b1[i].value.chain == IdOf(n, MinOf(ChainOf(b1, n, i))) && HoldsLiberties(b1[i].value, b1, n, ChainOf(b1, n, i))))
    {
      if i in r {
        InsideReset(board, n, p, player, i);
      } else {
        OutsideReset(board, n, p, player, i);
        RegionHasNeighbors(board, n, p);
    RegionHasChains(board, n, MoveIds(board, n, p));
        ShapedSquare(board, n);
        GroupContainsSelf(Codes(board), n, i);
      }
    }
  }

  /// The points of a list of chains.
  ghost function UnionOf(chains: seq<seq<nat>>): (u: set<nat>)
    ensures forall q: nat :: q in u <==> InSome(chains, q)
  {
    set j, q | 0 <= j < |chains| && q in chains[j] :: q
  }

  /// Capturing two sets one after the other captures their union.
  lemma ClearedTwice(board: seq<Cell>, a: set<nat>, b: set<nat>)
    ensures Cleared(Cleared(board, a), b) == Cleared(board, a + b)
  {
  }

  /// `updateCaptures(board, playerWhoMoved, resetChains)`: the chains are
  /// updated, and the chains `findAllCapturedChains` names are captured and
  /// every chain computed again. On a board whose chains are reset as a
  /// whole or settled (or with `resetChains`), the result is settled and
  /// has the colours of the board with `Captured` removed.
  method UpdateCaptures(board: array<Cell>, n: nat, playerWhoMoved: Color, resetChains: bool)
    requires Shaped(board[..], n)
    modifies board
    ensures (resetChains || ResetOrSettled(old(board[..]), n)) ==>
      Settled(board[..], n) && SameColors(board[..], Cleared(old(board[..]), Captured(old(board[..]), n, playerWhoMoved)))
  {
    ghost var b0 := board[..];
    ghost var settles := resetChains || ResetOrSettled(b0, n);
    UpdateChains(board, n, resetChains);
    ghost var b1 := board[..];
    if !resetChains && ResetOrSettled(b0, n) {
      PendingSettles(b1, b0, n);
    }
    var chains := GetAllChains(board[..], n);
    var chainsToCapture := FindAllCapturedChains(board[..], chains, playerWhoMoved);
    if chainsToCapture.None? {
      if settles {
        NothingCaptured(b0, b1, n, playerWhoMoved);
      }
      return;
    }
    var toCapture := chainsToCapture.value;
    CaptureChains(board, toCapture);
    ghost var b2 := board[..];
    UpdateChains(board, n, true);
    if settles {
      CapturesRemoved(b0, b1, b2, board[..], n, playerWhoMoved, toCapture);
    }
  }

  /// When `findAllCapturedChains` finds nothing on a settled board, nothing
  /// is captured.
  lemma NothingCaptured(b0: seq<Cell>, b1: seq<Cell>, n: nat, player: Color)
    requires Shaped(b0, n) && SameColors(b1, b0) && Shaped(b1, n) && Settled(b1, n)
    requires FindAllCapturedChains(b1, AllChains(b1), player).None?
    ensures SameColors(b1, Cleared(b0, Captured(b0, n, player)))
  {
    CapturedChainsAre(b1, n, player);
    CapturedSameColors(b1, b0, n, player);
    assert Cleared(b0, {}) == b0;
  }

  /// Capturing the chains `findAllCapturedChains` finds on a settled board
  /// removes exactly `Captured`.
  lemma CapturesRemoved(b0: seq<Cell>, b1: seq<Cell>, b2: seq<Cell>, b3: seq<Cell>, n: nat, player: Color, toCapture: seq<seq<nat>>)
    requires Shaped(b0, n) && SameColors(b1, b0) && Shaped(b1, n) && Settled(b1, n)
    requires FindAllCapturedChains(b1, AllChains(b1), player) == Some(toCapture)
    requires b2 == Cleared(b1, UnionOf(toCapture)) && SameColors(b3, b2)
    ensures SameColors(b3, Cleared(b0, Captured(b0, n, player)))
  {
    CapturedChainsAre(b1, n, player);
    CapturedSameColors(b1, b0, n, player);
    assert UnionOf(toCapture) == Captured(b1, n, player);
    ClearedSameColors(b1, b0, UnionOf(toCapture));
  }

  /// `chainsToCapture?.forEach((chain) => captureChain(chain))`.
  method CaptureChains(board: array<Cell>, toCapture: seq<seq<nat>>)
    modifies board
    ensures board[..] == Cleared(old(board[..]), UnionOf(toCapture))
  {
    ghost var b1 := board[..];
    for j := 0 to |toCapture|
      invariant board[..] == Cleared(b1, UnionOf(toCapture[..j]))
    {
      CaptureChain(board, toCapture[j]);
      ClearedTwice(b1, UnionOf(toCapture[..j]), SetOf(toCapture[j]));
      UnionStep(toCapture, j);
    }
    assert toCapture[..|toCapture|] == toCapture;
  }

  lemma UnionStep(chains: seq<seq<nat>>, j: nat)
    requires j < |chains|
    ensures UnionOf(chains[..j]) + SetOf(chains[j]) == UnionOf(chains[..j + 1])
  {
    var a, b := chains[..j], chains[..j + 1];
    forall q: nat ensures InSome(b, q) <==> InSome(a, q) || q in chains[j] {
      if InSome(b, q) {
        var i :| 0 <= i < |b| && q in b[i];
        if i < j {
          assert q in a[i];
        }
      }
      if InSome(a, q) {
        var i :| 0 <= i < |a| && q in a[i];
        assert q in b[i];
      }
      if q in chains[j] {
        assert q in b[j];
      }
    }
  }

  /// `getBoardCopy`: a new board with the same records.
  method GetBoardCopy(board: array<Cell>) returns (copy: array<Cell>)
    ensures fresh(copy) && copy[..] == board[..]
  {
    copy := new Cell[board.Length];
    for i := 0 to board.Length
      invariant forall j :: 0 <= j < i ==> copy[j] == board[j]
    {
      copy[i] := board[i];
    }
  }

  /// The colours after `player` moves at `p`: the stone is placed and
  /// `Captured` is removed.
  ghost function MoveOutcome(board: seq<Cell>, n: nat, p: nat, player: Stone): seq<Cell>
    requires Shaped(board, n) && Live(board, p)
  {
    var placed := Placed(board, p, player);
    Cleared(placed, Captured(placed, n, player))
  }

  /// `evaluateMoveResult(board, x, y, player, resetChains)`. When `(x, y)`
  /// holds no record the input board itself is returned. Otherwise a copy
  /// gets the stone, the chains of the point and of its neighbours are
  /// reset and the captures are resolved; the input is left unchanged. On
  /// a settled input the copy is settled with the colours of
  /// `MoveOutcome`.
  method EvaluateMoveResult(board: array<Cell>, n: nat, x: int, y: int, player: Stone, resetChains: bool)
    returns (result: array<Cell>)
    requires Shaped(board[..], n)
    ensures !At(board[..], n, x, y).Found? ==> result == board
    ensures At(board[..], n, x, y).Found? ==> fresh(result) && Shaped(result[..], n)
    ensures At(board[..], n, x, y).Found? && (resetChains || Settled(board[..], n)) ==>
      Settled(result[..], n) && SameColors(result[..], MoveOutcome(board[..], n, x * n + y, player))
  {
    ghost var b0 := board[..];
    var evaluationBoard := GetBoardCopy(board);
    if !(0 <= x < n && 0 <= y < n) {
      return board;
    }
    IndexBound(x, y, n);
    var p := x * n + y;
    var point := evaluationBoard[p];
    if point.None? {
      return board;
    }
    evaluationBoard[p] := Some(point.value.(color := player));
    var chainIdsToUpdate := MoveIds(board[..], n, p);
    ResetChainsById(evaluationBoard, n, chainIdsToUpdate);
    ghost var reset := evaluationBoard[..];
    assert reset == AfterReset(b0, n, p, player);
    if Settled(b0, n) {
      MoveResetSettles(b0, n, p, player);
    }
    UpdateCaptures(evaluationBoard, n, player, resetChains);
    ghost var out := evaluationBoard[..];
    MoveEvaluated(b0, reset, out, n, p, player, resetChains);
    assert board[..] == b0;
    return evaluationBoard;
  }

  /// What `updateCaptures` gives on the reset copy is `MoveOutcome`.
  lemma MoveEvaluated(board: seq<Cell>, reset: seq<Cell>, result: seq<Cell>, n: nat, p: nat, player: Stone, resetChains: bool)
    requires Shaped(board, n) && Live(board, p) && reset == AfterReset(board, n, p, player) && Shaped(reset, n) && Shaped(result, n)
    requires (resetChains || ResetOrSettled(reset, n)) ==>
      Settled(result, n) && SameColors(result, Cleared(reset, Captured(reset, n, player)))
    requires Settled(board, n) ==> ResetOrSettled(reset, n)
    ensures (resetChains || Settled(board, n)) ==> Settled(result, n) && SameColors(result, MoveOutcome(board, n, p, player))
  {
    var placed := Placed(board, p, player);
    CapturedSameColors(reset, placed, n, player);
    ClearedSameColors(reset, placed, Captured(reset, n, player));
  }

  /// The capture rule of a move: when the move starves an enemy chain only
  /// enemy stones are removed and the new stone stays; the new stone is
  /// removed only when no enemy chain is starved and its own chain has no
  /// liberty.
  lemma CapturePrecedence(board: seq<Cell>, n: nat, p: nat, player: Stone)
    requires Shaped(board, n) && Live(board, p)
    ensures var placed := Placed(board, p, player);
      var outcome := MoveOutcome(board, n, p, player);
      (CapturedOf(placed, n, Opponent(player)) != {} ==>
        outcome[p] == placed[p] && forall q :: q in Captured(placed, n, player) ==> placed[q].value.color == Opponent(player))
      && (outcome[p] != placed[p] ==>
        CapturedOf(placed, n, Opponent(player)) == {} && p in CapturedOf(placed, n, player) && outcome[p].value.color == Empty)
  {
    var placed := Placed(board, p, player);
    assert placed[p].value.color != Opponent(player);
    assert p !in CapturedOf(placed, n, Opponent(player));
  }
}
