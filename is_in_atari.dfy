/// `is_in_atari`: a depth-first walk over a group that stops at the first
/// Empty neighbour other than a liberty the caller already knows.
module IsInAtari {
  import Players
  import opened PointStates
  import opened Boards
  import opened Grid
  import opened Groups
  import opened BitSets
  import opened AdjacentPoints
  import opened CountLiberties

  /// Every index a word can hold.
  function Word(): set<nat>
  {
    Members(seq(UsizeBits, _ => true))
  }

  /// A visited point is finished: every Empty neighbour is the known
  /// liberty, and every neighbour holding its value has been visited.
  ghost predicate Finished(cells: seq<int>, size: nat, knownLiberty: nat, q: nat, visited: set<nat>)
    requires 0 < size <= |cells|
  {
    forall a :: a in Adjacent(q, size, |cells|) ==>
      a < |cells| && (cells[a] == Empty.AsU8() ==> a == knownLiberty) && (q < |cells| && cells[a] == cells[q] ==> a in visited)
  }

  /// The group of `point` reaches an Empty point other than `knownLiberty`.
  ghost predicate Escapes(cells: seq<int>, size: nat, point: nat, knownLiberty: nat)
    requires Square(cells, size)
  {
    exists a :: a in Liberties(cells, size, Group(cells, size, point)) && a != knownLiberty
  }

  /// The walk from `point`, sharing the visited set `group` with its
  /// callers. It returns false at the first other liberty it meets. On
  /// true every point it visited is finished; either way every point it
  /// added belongs to the group of `point`.
  method IsInAtari(point: nat, board: Board, knownLiberty: nat, group: BitSet) returns (r: bool)
    requires WellFormed(board) && point < |board.board| <= UsizeBits && group.Valid()
    modifies group
    ensures group.Valid()
    ensures old(group.Elements()) + {point} <= group.Elements()
    ensures forall q :: q in group.Elements() - old(group.Elements()) ==> q in Group(board.board, board.size, point)
    ensures r ==> forall q :: q in group.Elements() - old(group.Elements()) ==>
      Finished(board.board, board.size, knownLiberty, q, group.Elements())
    ensures !r ==> Escapes(board.board, board.size, point, knownLiberty)
    decreases Word() - group.Elements(), if point in group.Elements() then 1 else 0
  {
    var cells, size := board.board, board.size;
    BoardIsSquare(board);
    ghost var chain := Group(cells, size, point);
    GroupContainsSelf(cells, size, point);
    ghost var entry := group.Elements();
    assert point in Word();
    group.Insert(point);
    var adjacent := GetAdjacentPoints(point, board);
    AdjacentInBounds(cells, size, point);
    for i := 0 to |adjacent|
      invariant group.Valid()
      invariant entry + {point} <= group.Elements()
      invariant forall q :: q in group.Elements() - entry ==> q in chain
      invariant forall q :: q in group.Elements() - entry - {point} ==>
        Finished(cells, size, knownLiberty, q, group.Elements())
      invariant forall j :: 0 <= j < i ==>
        (&& adjacent[j] < |cells|
         && (cells[adjacent[j]] == Empty.AsU8() ==> adjacent[j] == knownLiberty)
         && (cells[adjacent[j]] == cells[point] ==> adjacent[j] in group.Elements()))
    {
      var a := adjacent[i];
      assert a in adjacent;
      if cells[a] == Empty.AsU8() && a != knownLiberty {
        assert a in Liberties(cells, size, chain);
        return false;
      } else if cells[a] == cells[point] && !group.Contains(a) {
        GroupStep(cells, size, point, point, a);
        GroupOfMember(cells, size, point, a);
        ghost var before := group.Elements();
        var inner := IsInAtari(a, board, knownLiberty, group);
        if !inner {
          return false;
        }
        FinishedGrows(cells, size, knownLiberty, before, group.Elements(), entry, point);
      }
    }
    assert Finished(cells, size, knownLiberty, point, group.Elements());
    return true;
  }

  // Finished points stay finished while the visited set grows.
  lemma FinishedGrows(cells: seq<int>, size: nat, knownLiberty: nat, before: set<nat>, after: set<nat>, entry: set<nat>, point: nat)
    requires 0 < size <= |cells|
    requires before <= after
    requires forall q :: q in before - entry - {point} ==> Finished(cells, size, knownLiberty, q, before)
    requires forall q :: q in after - before ==> Finished(cells, size, knownLiberty, q, after)
    ensures forall q :: q in after - entry - {point} ==> Finished(cells, size, knownLiberty, q, after)
  {
    forall q | q in after - entry - {point} ensures Finished(cells, size, knownLiberty, q, after) {
      if q in before {
        assert Finished(cells, size, knownLiberty, q, before);
      }
    }
  }

  /// `is_in_atari(point, board, known_liberty, &mut BitSet::new())`: true
  /// exactly when the group of `point` has no liberty other than
  /// `knownLiberty`. `knownLiberty` is not checked, so a group without
  /// liberties is in atari too.
  method InAtari(point: nat, board: Board, knownLiberty: nat) returns (r: bool)
    requires WellFormed(board) && point < |board.board| <= UsizeBits
    ensures r <==> Liberties(board.board, board.size, Group(board.board, board.size, point)) <= {knownLiberty}
  {
    var cells, size := board.board, board.size;
    BoardIsSquare(board);
    var group := new BitSet();
    r := IsInAtari(point, board, knownLiberty, group);
    if r {
      WalkCoversGroup(cells, size, point, knownLiberty, group.Elements());
    }
  }

  /// A finished visited set holding `point` covers the group of `point`, so
  /// the group has no liberty but `knownLiberty`.
  lemma WalkCoversGroup(cells: seq<int>, size: nat, point: nat, knownLiberty: nat, visited: set<nat>)
    requires Square(cells, size) && point < |cells| && point in visited
    requires forall q :: q in visited ==> q in Group(cells, size, point)
    requires forall q :: q in visited ==> Finished(cells, size, knownLiberty, q, visited)
    ensures Liberties(cells, size, Group(cells, size, point)) <= {knownLiberty}
  {
    forall q, a | q in visited && a in Adjacent(q, size, |cells|) && a < |cells| && cells[a] == cells[point]
      ensures a in visited
    {
      GroupValue(cells, size, point, q);
      assert Finished(cells, size, knownLiberty, q, visited);
    }
    GroupWithin(cells, size, point, visited);
    forall a | a in Liberties(cells, size, Group(cells, size, point)) ensures a == knownLiberty {
      var q :| q in Group(cells, size, point) && a in Adjacent(q, size, |cells|);
      assert Finished(cells, size, knownLiberty, q, visited);
    }
  }

  /// For a group whose liberties include `knownLiberty`, being in atari
  /// relative to it is having at most one liberty, which is what
  /// `count_liberties_of_group(q, board) <= 1` computes.
  lemma AtariIsOneLiberty(libs: set<nat>, knownLiberty: nat)
    requires knownLiberty in libs
    ensures libs <= {knownLiberty} <==> |libs| <= 1
  {
    if |libs| <= 1 {
      forall a | a in libs ensures a == knownLiberty {
        if a != knownLiberty {
          assert {a, knownLiberty} <= libs;
          assert |{a, knownLiberty}| == 2;
          SubsetCardinality({a, knownLiberty}, libs);
        }
      }
    } else {
      assert libs - {knownLiberty} != {};
    }
  }

  lemma SubsetCardinality(a: set<nat>, b: set<nat>)
    requires a <= b
    ensures |a| <= |b|
  {
    assert b == a + (b - a);
  }

  /// A walk of two steps over equal points stays in the group.
  lemma ThreeStepGroup(cells: seq<int>, size: nat, p: nat, q: nat, t: nat)
    requires Square(cells, size) && p < |cells| && q < |cells| && t < |cells|
    requires q in Adjacent(p, size, |cells|) && t in Adjacent(q, size, |cells|)
    requires cells[q] == cells[p] && cells[t] == cells[p]
    ensures t in Group(cells, size, p)
  {
    GroupContainsSelf(cells, size, p);
    GroupStep(cells, size, p, p, q);
    GroupStep(cells, size, p, q, t);
  }

  /// The board of the `test_atari_hallucination` fixture, rows listed from
  /// the bottom.
  function HallucinationBoard(): seq<Byte>
  {
    [4, 3, 4, 1, 2,
     3, 3, 3, 3, 1,
     1, 3, 3, 3, 2,
     3, 3, 3, 1, 1,
     1, 3, 3, 1, 4]
  }

  /// Point 18 is a liberty of the White group through 11.
  lemma HallucinationEscapes()
    ensures 18 in Liberties(HallucinationBoard(), 5, Group(HallucinationBoard(), 5, 11))
  {
    var cells := HallucinationBoard();
    assert Square(cells, 5);
    assert cells[16] == cells[11] && cells[17] == cells[11];
    assert Adjacent(11, 5, 25) == [6, 16, 10, 12];
    assert Adjacent(16, 5, 25) == [11, 21, 15, 17];
    ThreeStepGroup(cells, 5, 11, 16, 17);
    assert Adjacent(17, 5, 25) == [12, 22, 16, 18];
  }

  /// `test_atari_hallucination`: the White group through 11 is not in atari
  /// relative to 10.
  method AtariHallucinationTest() returns (inAtari: bool)
    ensures !inAtari
  {
    var board := Board(HallucinationBoard(), 5, Players.Black, 7.5);
    inAtari := InAtari(11, board, 10);
    HallucinationEscapes();
  }
}
