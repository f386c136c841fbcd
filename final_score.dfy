/// final_score.rs: area scoring. Stones count for their colour, and an
/// Empty region counts for a colour when only that colour borders it.
module FinalScore {
  import PointStates
  import opened Boards
  import opened Grid
  import opened Groups
  import opened BitSets
  import opened AdjacentPoints
  import opened CountLiberties
  import opened IsInAtari
  import opened Score

  const EmptyCode: int := PointStates.PointState.Empty.AsU8()
  const BlackCode: int := PointStates.PointState.Black.AsU8()
  const WhiteCode: int := PointStates.PointState.White.AsU8()

  /// The colours bordering a region seen so far.
  datatype SeenStones = None | Black | White | Both

  predicate SawBlack(s: SeenStones)
  {
    s == SeenStones.Black || s == SeenStones.Both
  }

  predicate SawWhite(s: SeenStones)
  {
    s == SeenStones.White || s == SeenStones.Both
  }

  /// The update of `seen_stones` for one neighbour: a Black or White stone
  /// adds its colour, anything else leaves it as it was. It moves from None
  /// to one colour, from one colour to Both, and never leaves Both.
  function Observe(s: SeenStones, code: int): (r: SeenStones)
    ensures SawBlack(r) <==> SawBlack(s) || code == BlackCode
    ensures SawWhite(r) <==> SawWhite(s) || code == WhiteCode
    ensures s == SeenStones.Both ==> r == SeenStones.Both
  {
    if code == BlackCode && s == SeenStones.None then SeenStones.Black
    else if code == BlackCode && s == SeenStones.White then SeenStones.Both
    else if code == WhiteCode && s == SeenStones.None then SeenStones.White
    else if code == WhiteCode && s == SeenStones.Black then SeenStones.Both
    else s
  }

  /// The two colours seen determine the state.
  lemma SeenByColours(s: SeenStones, t: SeenStones)
    requires SawBlack(s) == SawBlack(t) && SawWhite(s) == SawWhite(t)
    ensures s == t
  {
  }

  /// What a region of `size` points is worth once its bordering colours are
  /// known: its size for Black, minus its size for White, nothing for none
  /// or both.
  function RegionValue(s: SeenStones, size: nat): real
  {
    match s
    case None => 0.0
    case Both => 0.0
    case Black => size as real
    case White => -(size as real)
  }

  /// Some point of `g` has a neighbour holding `code`.
  ghost predicate Borders(cells: seq<int>, size: nat, g: set<nat>, code: int)
    requires 0 < size <= |cells|
  {
    exists q, a :: q in g && a in Adjacent(q, size, |cells|) && a < |cells| && cells[a] == code
  }

  lemma BordersUnion(cells: seq<int>, size: nat, g: set<nat>, h: set<nat>, code: int)
    requires 0 < size <= |cells|
    ensures Borders(cells, size, g + h, code) <==> Borders(cells, size, g, code) || Borders(cells, size, h, code)
  {
    if Borders(cells, size, g + h, code) {
      var q, a :| q in g + h && a in Adjacent(q, size, |cells|) && a < |cells| && cells[a] == code;
      if q in g {
        assert Borders(cells, size, g, code);
      } else {
        assert Borders(cells, size, h, code);
      }
    }
  }

  /// A visited Empty point is finished: every neighbour is on the board and
  /// every Empty neighbour has been visited.
  ghost predicate Flooded(cells: seq<int>, size: nat, q: nat, visited: set<nat>)
    requires 0 < size <= |cells|
  {
    forall a :: a in Adjacent(q, size, |cells|) ==> a < |cells| && (cells[a] == EmptyCode ==> a in visited)
  }

  /// `score_group_territory`: floods the Empty region of `point` into the
  /// shared set `group` and folds the colours of the stones next to it into
  /// `seenIn`. It returns the value of the colours seen for the whole of
  /// `group`.
  method ScoreGroupTerritory(point: nat, board: Board, group: BitSet, seenIn: SeenStones) returns (value: real, seen: SeenStones)
    requires WellFormed(board) && point < |board.board| <= UsizeBits && group.Valid()
    requires board.board[point] == EmptyCode
    modifies group
    ensures group.Valid()
    ensures old(group.Elements()) + {point} <= group.Elements()
    ensures forall q :: q in group.Elements() - old(group.Elements()) ==> q in Group(board.board, board.size, point)
    ensures forall q :: q in group.Elements() - old(group.Elements()) + {point} ==>
      Flooded(board.board, board.size, q, group.Elements())
    ensures SawBlack(seen) <==> (SawBlack(seenIn)
      || Borders(board.board, board.size, group.Elements() - old(group.Elements()) + {point}, BlackCode))
    ensures SawWhite(seen) <==> (SawWhite(seenIn)
      || Borders(board.board, board.size, group.Elements() - old(group.Elements()) + {point}, WhiteCode))
    ensures value == RegionValue(seen, |group.Elements()|)
    decreases Word() - group.Elements(), if point in group.Elements() then 1 else 0
  {
    var cells, size := board.board, board.size;
    BoardIsSquare(board);
    ghost var region := Group(cells, size, point);
    GroupContainsSelf(cells, size, point);
    ghost var entry := group.Elements();
    assert point in Word();
    group.Insert(point);
    seen := seenIn;
    var adjacent := GetAdjacentPoints(point, board);
    AdjacentInBounds(cells, size, point);
    for i := 0 to |adjacent|
      invariant group.Valid()
      invariant entry + {point} <= group.Elements()
      invariant forall q :: q in group.Elements() - entry ==> q in region
      invariant forall q :: q in group.Elements() - entry - {point} ==> Flooded(cells, size, q, group.Elements())
      invariant forall j :: 0 <= j < i ==>
        adjacent[j] < |cells| && (cells[adjacent[j]] == EmptyCode ==> adjacent[j] in group.Elements())
      invariant SawBlack(seen) <==> (SawBlack(seenIn)
        || Borders(cells, size, group.Elements() - entry - {point}, BlackCode)
        || ListHolds(cells, adjacent, i, BlackCode))
      invariant SawWhite(seen) <==> (SawWhite(seenIn)
        || Borders(cells, size, group.Elements() - entry - {point}, WhiteCode)
        || ListHolds(cells, adjacent, i, WhiteCode))
    {
      var a := adjacent[i];
      assert a in adjacent;
      if cells[a] == EmptyCode && !group.Contains(a) {
        GroupStep(cells, size, point, point, a);
        GroupOfMember(cells, size, point, a);
        ghost var before := group.Elements();
        ghost var seenBefore := seen;
        var _, seenAfter := ScoreGroupTerritory(a, board, group, seen);
        seen := seenAfter;
        RegionStep(cells, size, entry, point, before, group.Elements(), seenIn, seenBefore, seen, adjacent, i);
      } else {
        seen := Observe(seen, cells[a]);
        ListHoldsStep(cells, adjacent, i, BlackCode);
        ListHoldsStep(cells, adjacent, i, WhiteCode);
      }
    }
    ghost var done := group.Elements() - entry - {point};
    assert group.Elements() - entry + {point} == done + {point};
    BordersUnion(cells, size, done, {point}, BlackCode);
    BordersUnion(cells, size, done, {point}, WhiteCode);
    PointBorders(cells, size, point, adjacent, BlackCode);
    PointBorders(cells, size, point, adjacent, WhiteCode);
    assert Flooded(cells, size, point, group.Elements());
    value := RegionValue(seen, group.Len());
  }

  /// One of the first `n` entries of `adjacent` holds `code`.
  ghost predicate ListHolds(cells: seq<int>, adjacent: seq<nat>, n: nat, code: int)
  {
    exists j :: 0 <= j < n && j < |adjacent| && adjacent[j] < |cells| && cells[adjacent[j]] == code
  }

  lemma ListHoldsStep(cells: seq<int>, adjacent: seq<nat>, i: nat, code: int)
    requires i < |adjacent| && adjacent[i] < |cells|
    ensures ListHolds(cells, adjacent, i + 1, code) <==> ListHolds(cells, adjacent, i, code) || cells[adjacent[i]] == code
  {
    if cells[adjacent[i]] == code {
      assert 0 <= i < i + 1 && i < |adjacent| && adjacent[i] < |cells| && cells[adjacent[i]] == code;
    }
  }

  /// The colours next to one point are those of its neighbour list.
  lemma PointBorders(cells: seq<int>, size: nat, point: nat, adjacent: seq<nat>, code: int)
    requires 0 < size <= |cells| && adjacent == Adjacent(point, size, |cells|)
    requires forall j :: 0 <= j < |adjacent| ==> adjacent[j] < |cells|
    ensures Borders(cells, size, {point}, code) <==> ListHolds(cells, adjacent, |adjacent|, code)
  {
    if Borders(cells, size, {point}, code) {
      var q, a :| q in {point} && a in Adjacent(q, size, |cells|) && a < |cells| && cells[a] == code;
      var j :| 0 <= j < |adjacent| && adjacent[j] == a;
      assert 0 <= j < |adjacent| && j < |adjacent| && adjacent[j] < |cells| && cells[adjacent[j]] == code;
    }
    if ListHolds(cells, adjacent, |adjacent|, code) {
      var j :| 0 <= j < |adjacent| && j < |adjacent| && adjacent[j] < |cells| && cells[adjacent[j]] == code;
      assert adjacent[j] in adjacent;
      assert point in {point};
    }
  }

  /// After a nested call the visited points of the caller grow by those of
  /// the call, and the colours seen grow with them.
  lemma RegionStep(cells: seq<int>, size: nat, entry: set<nat>, point: nat, before: set<nat>, after: set<nat>,
                   seenIn: SeenStones, seenBefore: SeenStones, seenAfter: SeenStones, adjacent: seq<nat>, i: nat)
    requires 0 < size <= |cells| && i < |adjacent| && adjacent[i] < |cells|
    requires cells[adjacent[i]] == EmptyCode
    requires entry + {point} <= before && adjacent[i] !in before
    requires before + {adjacent[i]} <= after
    requires forall q :: q in before - entry - {point} ==> Flooded(cells, size, q, before)
    requires forall q :: q in after - before + {adjacent[i]} ==> Flooded(cells, size, q, after)
    requires forall j :: 0 <= j < i ==>
      adjacent[j] < |cells| && (cells[adjacent[j]] == EmptyCode ==> adjacent[j] in before)
    requires SawBlack(seenBefore) <==> (SawBlack(seenIn)
      || Borders(cells, size, before - entry - {point}, BlackCode)
      || ListHolds(cells, adjacent, i, BlackCode))
    requires SawWhite(seenBefore) <==> (SawWhite(seenIn)
      || Borders(cells, size, before - entry - {point}, WhiteCode)
      || ListHolds(cells, adjacent, i, WhiteCode))
    requires SawBlack(seenAfter) <==> (SawBlack(seenBefore)
      || Borders(cells, size, after - before + {adjacent[i]}, BlackCode))
    requires SawWhite(seenAfter) <==> (SawWhite(seenBefore)
      || Borders(cells, size, after - before + {adjacent[i]}, WhiteCode))
    ensures forall q :: q in after - entry - {point} ==> Flooded(cells, size, q, after)
    ensures forall j :: 0 <= j < i + 1 ==>
      adjacent[j] < |cells| && (cells[adjacent[j]] == EmptyCode ==> adjacent[j] in after)
    ensures SawBlack(seenAfter) <==> (SawBlack(seenIn)
      || Borders(cells, size, after - entry - {point}, BlackCode)
      || ListHolds(cells, adjacent, i + 1, BlackCode))
    ensures SawWhite(seenAfter) <==> (SawWhite(seenIn)
      || Borders(cells, size, after - entry - {point}, WhiteCode)
      || ListHolds(cells, adjacent, i + 1, WhiteCode))
  {
    forall q | q in after - entry - {point} ensures Flooded(cells, size, q, after) {
      if q in before {
        assert Flooded(cells, size, q, before);
      }
    }
    var older := before - entry - {point};
    var newer := after - before + {adjacent[i]};
    assert after - entry - {point} == older + newer;
    BordersUnion(cells, size, older, newer, BlackCode);
    BordersUnion(cells, size, older, newer, WhiteCode);
    ListHoldsStep(cells, adjacent, i, BlackCode);
    ListHoldsStep(cells, adjacent, i, WhiteCode);
  }

  /// The colours bordering the Empty region of `p`.
  ghost function RegionSeen(cells: seq<int>, size: nat, p: nat): (s: SeenStones)
    requires Square(cells, size)
    ensures SawBlack(s) <==> Borders(cells, size, Group(cells, size, p), BlackCode)
    ensures SawWhite(s) <==> Borders(cells, size, Group(cells, size, p), WhiteCode)
  {
    var b := Borders(cells, size, Group(cells, size, p), BlackCode);
    var w := Borders(cells, size, Group(cells, size, p), WhiteCode);
    if b && w then SeenStones.Both else if b then SeenStones.Black else if w then SeenStones.White else SeenStones.None
  }

  /// What each point of a region is worth: +1 when only Black borders it,
  /// -1 when only White does, 0 otherwise.
  function Share(s: SeenStones): int
  {
    match s
    case None => 0
    case Both => 0
    case Black => 1
    case White => -1
  }

  lemma RegionValueIsShare(s: SeenStones, n: nat)
    ensures RegionValue(s, n) == (Share(s) * n) as real
  {
  }

  /// The owner of an Empty point: the share of its region.
  ghost function Owner(cells: seq<int>, size: nat, p: nat): int
    requires Square(cells, size)
  {
    Share(RegionSeen(cells, size, p))
  }

  /// What each point adds to the territory balance: its owner when it is
  /// Empty, nothing when it holds a stone or is Offline.
  ghost function PointValues(cells: seq<int>, size: nat): (w: seq<int>)
    requires Square(cells, size)
    ensures |w| == |cells|
    ensures forall i :: 0 <= i < |w| ==> w[i] == (if cells[i] == EmptyCode then Owner(cells, size, i) else 0)
  {
    seq(|cells|, i requires 0 <= i < |cells| => if cells[i] == EmptyCode then Owner(cells, size, i) else 0)
  }

  /// The values of the points of `s` below `n`, added up.
  function SumOver(w: seq<int>, n: nat, s: set<nat>): int
    requires n <= |w|
  {
    if n == 0 then 0 else SumOver(w, n - 1, s) + (if n - 1 in s then w[n - 1] else 0)
  }

  /// The values of all points below `n`, added up.
  function Total(w: seq<int>, n: nat): int
    requires n <= |w|
  {
    if n == 0 then 0 else Total(w, n - 1) + w[n - 1]
  }

  /// The territory balance of a position: the owners of all its Empty
  /// points, added up.
  ghost function TerritoryScore(cells: seq<int>, size: nat): int
    requires Square(cells, size)
  {
    Total(PointValues(cells, size), |cells|)
  }

  lemma {:induction false} SumOverSame(w: seq<int>, n: nat, a: set<nat>, b: set<nat>)
    requires n <= |w|
    requires forall i :: 0 <= i < n ==> (i in a <==> i in b)
    ensures SumOver(w, n, a) == SumOver(w, n, b)
  {
    if n > 0 {
      SumOverSame(w, n - 1, a, b);
    }
  }

  /// Summing over a set that holds every point of non-zero value below `n`
  /// is summing over everything.
  lemma {:induction false} SumOverAll(w: seq<int>, n: nat, s: set<nat>)
    requires n <= |w|
    requires forall i :: 0 <= i < n && w[i] != 0 ==> i in s
    ensures SumOver(w, n, s) == Total(w, n)
  {
    if n > 0 {
      SumOverAll(w, n - 1, s);
    }
  }

  lemma {:induction false} SumOverDisjoint(w: seq<int>, n: nat, a: set<nat>, b: set<nat>)
    requires n <= |w| && a * b == {}
    ensures SumOver(w, n, a + b) == SumOver(w, n, a) + SumOver(w, n, b)
  {
    if n > 0 {
      SumOverDisjoint(w, n - 1, a, b);
      assert n - 1 !in a * b;
    }
  }

  /// A set of points below `n` that all have value `c` sums to `c` times
  /// its size.
  lemma {:induction false} SumOverConstant(w: seq<int>, n: nat, r: set<nat>, c: int)
    requires n <= |w|
    requires forall i :: i in r ==> i < n && w[i] == c
    ensures SumOver(w, n, r) == c * |r|
  {
    if n == 0 {
      assert r == {};
    } else {
      var rest := r - {n - 1};
      SumOverConstant(w, n - 1, rest, c);
      SumOverSame(w, n - 1, r, rest);
      if n - 1 in r {
        assert r == rest + {n - 1};
        MulSucc(c, |rest|);
      } else {
        assert r == rest;
      }
    }
  }

  lemma MulSucc(c: int, k: nat)
    ensures c * (k + 1) == c * k + c
  {
  }

  /// `q` is Empty and its region has a point below `n`: the points
  /// `score_from_territory` has counted once it has looked at `n` points.
  ghost predicate CountedBy(cells: seq<int>, size: nat, n: nat, q: nat)
    requires Square(cells, size)
  {
    q < |cells| && cells[q] == EmptyCode && exists j :: 0 <= j < n && j in Group(cells, size, q)
  }

  /// A call of `score_group_territory` on a new set and `SeenStones::None`
  /// floods exactly the region of `point` and sees exactly its bordering
  /// colours.
  lemma WholeRegion(cells: seq<int>, size: nat, point: nat, visited: set<nat>, seen: SeenStones)
    requires Square(cells, size) && point < |cells| && cells[point] == EmptyCode && point in visited
    requires forall q :: q in visited ==> q in Group(cells, size, point)
    requires forall q :: q in visited ==> Flooded(cells, size, q, visited)
    requires SawBlack(seen) <==> Borders(cells, size, visited, BlackCode)
    requires SawWhite(seen) <==> Borders(cells, size, visited, WhiteCode)
    ensures visited == Group(cells, size, point)
    ensures seen == RegionSeen(cells, size, point)
  {
    forall q, a | q in visited && a in Adjacent(q, size, |cells|) && a < |cells| && a < |cells| && cells[a] == cells[point]
      ensures a in visited
    {
      assert Flooded(cells, size, q, visited);
    }
    GroupWithin(cells, size, point, visited);
    SeenByColours(seen, RegionSeen(cells, size, point));
  }

  /// Counting a new region keeps the counted set the union of the regions
  /// met so far; the region is disjoint from what was counted before.
  lemma CountRegion(cells: seq<int>, size: nat, point: nat, counted: set<nat>)
    requires Square(cells, size) && point < |cells| && cells[point] == EmptyCode && point !in counted
    requires forall q :: q in counted <==> CountedBy(cells, size, point, q)
    ensures counted * Group(cells, size, point) == {}
    ensures forall q :: q in counted + Group(cells, size, point) <==> CountedBy(cells, size, point + 1, q)
    ensures forall q :: q in Group(cells, size, point) ==> Owner(cells, size, q) == Owner(cells, size, point)
  {
    var region := Group(cells, size, point);
    forall q | q in region ensures q !in counted && CountedBy(cells, size, point + 1, q) && Owner(cells, size, q) == Owner(cells, size, point) {
      GroupValue(cells, size, point, q);
      GroupOfMember(cells, size, point, q);
      GroupContainsSelf(cells, size, point);
    }
    forall q | CountedBy(cells, size, point + 1, q) ensures q in counted + region {
      var j :| 0 <= j < point + 1 && j in Group(cells, size, q);
      if j == point {
        GroupSymmetric(cells, size, q, point);
      } else {
        assert CountedBy(cells, size, point, q);
      }
    }
    forall q | q in counted ensures CountedBy(cells, size, point + 1, q) {
      assert CountedBy(cells, size, point, q);
    }
  }

  /// Flooding the first point of a region not yet counted and adding its
  /// value keeps the loop invariants of `ScoreFromTerritory`.
  lemma TerritoryStep(cells: seq<int>, size: nat, point: nat, counted: set<nat>, visited: set<nat>,
                      seen: SeenStones, value: real, result: real)
    requires Square(cells, size) && point < |cells| && cells[point] == EmptyCode && point !in counted
    requires forall q :: q in counted <==> CountedBy(cells, size, point, q)
    requires result == SumOver(PointValues(cells, size), |cells|, counted) as real
    requires {} + {point} <= visited
    requires forall q :: q in visited - {} ==> q in Group(cells, size, point)
    requires forall q :: q in visited - {} + {point} ==> Flooded(cells, size, q, visited)
    requires SawBlack(seen) <==> (SawBlack(SeenStones.None) || Borders(cells, size, visited - {} + {point}, BlackCode))
    requires SawWhite(seen) <==> (SawWhite(SeenStones.None) || Borders(cells, size, visited - {} + {point}, WhiteCode))
    requires value == RegionValue(seen, |visited|)
    ensures forall q :: q in counted + visited <==> CountedBy(cells, size, point + 1, q)
    ensures result + value == SumOver(PointValues(cells, size), |cells|, counted + visited) as real
  {
    FloodedFromNothing(cells, size, point, visited, seen);
    CountRegion(cells, size, point, counted);
    RegionValueIsShare(seen, |visited|);
    RegionSum(cells, size, point, counted);
  }

  /// A flood of `score_group_territory` started from an empty set and no
  /// colour seen covers exactly the region of `point` and sees its colours.
  lemma FloodedFromNothing(cells: seq<int>, size: nat, point: nat, visited: set<nat>, seen: SeenStones)
    requires Square(cells, size) && point < |cells| && cells[point] == EmptyCode
    requires {} + {point} <= visited
    requires forall q :: q in visited - {} ==> q in Group(cells, size, point)
    requires forall q :: q in visited - {} + {point} ==> Flooded(cells, size, q, visited)
    requires SawBlack(seen) <==> (SawBlack(SeenStones.None) || Borders(cells, size, visited - {} + {point}, BlackCode))
    requires SawWhite(seen) <==> (SawWhite(SeenStones.None) || Borders(cells, size, visited - {} + {point}, WhiteCode))
    ensures visited == Group(cells, size, point) && seen == RegionSeen(cells, size, point)
  {
    var v := visited - {} + {point};
    assert v == visited;
    assert !SawBlack(SeenStones.None) && !SawWhite(SeenStones.None);
    WholeRegion(cells, size, point, visited, seen);
  }

  /// Adding a whole Empty region to a disjoint set adds its owner once per
  /// point.
  lemma RegionSum(cells: seq<int>, size: nat, point: nat, counted: set<nat>)
    requires Square(cells, size) && point < |cells| && cells[point] == EmptyCode
    requires counted * Group(cells, size, point) == {}
    requires forall q :: q in Group(cells, size, point) ==> Owner(cells, size, q) == Owner(cells, size, point)
    ensures SumOver(PointValues(cells, size), |cells|, counted + Group(cells, size, point))
      == SumOver(PointValues(cells, size), |cells|, counted) + Owner(cells, size, point) * |Group(cells, size, point)|
  {
    var w, region := PointValues(cells, size), Group(cells, size, point);
    forall i | i in region ensures i < |w| && w[i] == Owner(cells, size, point) {
      GroupValue(cells, size, point, i);
    }
    SumOverConstant(w, |cells|, region, Owner(cells, size, point));
    SumOverDisjoint(w, |cells|, counted, region);
  }

  /// A point that starts no new region leaves the counted set as it was.
  lemma SkipPoint(cells: seq<int>, size: nat, point: nat, counted: set<nat>)
    requires Square(cells, size) && point < |cells|
    requires cells[point] != EmptyCode || point in counted
    requires forall q :: q in counted <==> CountedBy(cells, size, point, q)
    ensures forall q :: q in counted <==> CountedBy(cells, size, point + 1, q)
  {
    forall q | CountedBy(cells, size, point + 1, q) ensures CountedBy(cells, size, point, q) {
      var j :| 0 <= j < point + 1 && j in Group(cells, size, q);
      if j == point {
        GroupValue(cells, size, q, point);
        GroupOfMember(cells, size, q, point);
        var k :| 0 <= k < point && k in Group(cells, size, point);
      }
    }
    forall q | CountedBy(cells, size, point, q) ensures CountedBy(cells, size, point + 1, q) {
      var j :| 0 <= j < point && j in Group(cells, size, q);
    }
  }

  /// `score_from_territory`: each Empty region is flooded once, from its
  /// first point, and its value added.
  method ScoreFromTerritory(board: Board) returns (result: real)
    requires WellFormed(board) && |board.board| <= UsizeBits
    ensures |board.board| > 0 ==> Square(board.board, board.size)
    ensures |board.board| > 0 ==> result == TerritoryScore(board.board, board.size) as real
    ensures |board.board| == 0 ==> result == 0.0
  {
    var cells, size := board.board, board.size;
    if |cells| == 0 {
      return 0.0;
    }
    BoardIsSquare(board);
    var counted := new BitSet();
    result := 0.0;
    SumOverConstant(PointValues(cells, size), |cells|, {}, 0);
    for point := 0 to |cells|
      invariant counted.Valid()
      invariant forall q :: q in counted.Elements() <==> CountedBy(cells, size, point, q)
      invariant result == SumOver(PointValues(cells, size), |cells|, counted.Elements()) as real
    {
      if cells[point] == EmptyCode && !counted.Contains(point) {
        var group := new BitSet();
        var groupTerritory, seen := ScoreGroupTerritory(point, board, group, SeenStones.None);
        TerritoryStep(cells, size, point, counted.Elements(), group.Elements(), seen, groupTerritory, result);
        result := result + groupTerritory;
        counted.UnionWith(group);
      } else {
        SkipPoint(cells, size, point, counted.Elements());
      }
    }
    forall i | 0 <= i < |cells| && cells[i] == EmptyCode ensures i in counted.Elements() {
      GroupContainsSelf(cells, size, i);
      assert CountedBy(cells, size, |cells|, i);
    }
    SumOverAll(PointValues(cells, size), |cells|, counted.Elements());
  }

  /// `score_from_stones`: +1 per Black stone, -1 per White stone.
  method ScoreFromStones(board: Board) returns (stoneScore: real)
    ensures stoneScore == StoneBalance(board.board) as real
  {
    var cells := board.board;
    stoneScore := 0.0;
    for point := 0 to |cells|
      invariant stoneScore == StoneBalance(cells[..point]) as real
    {
      assert cells[..point + 1][..point] == cells[..point];
      if cells[point] == BlackCode {
        stoneScore := stoneScore + 1.0;
      } else if cells[point] == WhiteCode {
        stoneScore := stoneScore - 1.0;
      }
    }
    assert cells[..|cells|] == cells;
  }

  /// The area score of a non-empty board.
  ghost function AreaScore(board: Board): real
    requires WellFormed(board) && |board.board| > 0
  {
    BoardIsSquare(board);
    (StoneBalance(board.board) + TerritoryScore(board.board, board.size)) as real - board.komi
  }

  /// `final_score`: stones plus territory minus komi.
  method FinalScore(board: Board) returns (r: real)
    requires WellFormed(board) && |board.board| <= UsizeBits
    ensures |board.board| > 0 ==> r == AreaScore(board)
    ensures |board.board| == 0 ==> r == -board.komi
  {
    var stones := ScoreFromStones(board);
    var territory := ScoreFromTerritory(board);
    r := stones + territory - board.komi;
  }

  /// What `final_score` returns on any board of the right length.
  ghost function Outcome(board: Board): real
    requires WellFormed(board)
  {
    if |board.board| > 0 then AreaScore(board) else -board.komi
  }

  /// The score reads the points, the size and the komi, never the side to
  /// move.
  lemma OutcomeIgnoresPlayer(b: Board, c: Board)
    requires WellFormed(b) && b.board == c.board && b.size == c.size && b.komi == c.komi
    ensures WellFormed(c) && Outcome(b) == Outcome(c)
  {
  }
}
