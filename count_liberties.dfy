/// `count_liberties_of_group`: the liberties of the chain through a stone,
/// found with a worklist.
module CountLiberties {
  import opened Players
  import opened PointStates
  import opened Boards
  import opened Grid
  import opened Groups
  import opened AdjacentPoints

  /// A well-formed board is a square grid.
  lemma BoardIsSquare(board: Board)
    requires WellFormed(board) && |board.board| > 0
    ensures Square(board.board, board.size)
  {
    assert board.size > 0;
    assert board.size <= board.size * board.size;
  }

  /// A neighbour that the worklist no longer needs: a stone of the group's
  /// colour is in the group, an Empty point has been recorded as a liberty,
  /// anything else (enemy stones, Offline points) is neither followed nor
  /// counted.
  ghost predicate Settled(cells: seq<int>, a: nat, colour: int, group: set<nat>, liberties: set<nat>)
  {
    a < |cells| && (cells[a] == colour ==> a in group) && (cells[a] == Empty.AsU8() ==> a in liberties)
  }

  /// Every point still on the worklist is on the board, and is a member of
  /// the chain when it holds the chain's colour and one of its liberties
  /// when it is Empty.
  ghost predicate Pending(cells: seq<int>, colour: int, chain: set<nat>, libs: set<nat>, unchecked: seq<nat>)
  {
    forall i :: 0 <= i < |unchecked| ==> Settled(cells, unchecked[i], colour, chain, libs)
  }

  /// Every neighbour of a group member is still on the worklist or settled.
  ghost predicate Covered(cells: seq<int>, size: nat, colour: int, group: set<nat>, liberties: set<nat>, unchecked: seq<nat>)
    requires 0 < size <= |cells|
  {
    forall q, a :: q in group && a in Adjacent(q, size, |cells|) ==>
      a in unchecked || Settled(cells, a, colour, group, liberties)
  }

  /// The neighbours of a chain member are all pending.
  lemma NeighboursPending(cells: seq<int>, size: nat, p: nat, q: nat)
    requires Square(cells, size) && q in Group(cells, size, p)
    ensures Pending(cells, cells[p], Group(cells, size, p), Liberties(cells, size, Group(cells, size, p)), Adjacent(q, size, |cells|))
  {
    GroupValue(cells, size, p, q);
    AdjacentInBounds(cells, size, q);
    var adj := Adjacent(q, size, |cells|);
    forall i | 0 <= i < |adj| ensures Settled(cells, adj[i], cells[p], Group(cells, size, p), Liberties(cells, size, Group(cells, size, p))) {
      var a := adj[i];
      assert a in adj;
      if cells[a] == cells[p] {
        GroupStep(cells, size, p, q, a);
      }
    }
  }

  /// One step of the worklist keeps every neighbour of the group covered:
  /// the popped point is settled, and a point that joins the group has its
  /// neighbours pushed.
  /// The last point of a pending worklist is settled, and so is the rest.
  lemma PendingPop(cells: seq<int>, colour: int, chain: set<nat>, libs: set<nat>, unchecked: seq<nat>)
    requires Pending(cells, colour, chain, libs, unchecked) && |unchecked| > 0
    ensures Settled(cells, unchecked[|unchecked| - 1], colour, chain, libs)
    ensures Pending(cells, colour, chain, libs, unchecked[..|unchecked| - 1])
  {
  }

  /// Two pending worklists one after the other are pending.
  lemma PendingAppend(cells: seq<int>, colour: int, chain: set<nat>, libs: set<nat>, a: seq<nat>, b: seq<nat>)
    requires Pending(cells, colour, chain, libs, a) && Pending(cells, colour, chain, libs, b)
    ensures Pending(cells, colour, chain, libs, a + b)
  {
    forall i | 0 <= i < |a + b| ensures Settled(cells, (a + b)[i], colour, chain, libs) {
      if i < |a| {
        assert (a + b)[i] == a[i];
      } else {
        assert (a + b)[i] == b[i - |a|];
      }
    }
  }

  lemma CoveredStep(cells: seq<int>, size: nat, colour: int, group: set<nat>, liberties: set<nat>,
                    rest: seq<nat>, next: nat, group2: set<nat>, liberties2: set<nat>, rest2: seq<nat>)
    requires 0 < size <= |cells|
    requires Covered(cells, size, colour, group, liberties, rest + [next])
    requires group <= group2 && liberties <= liberties2
    requires forall a :: a in rest ==> a in rest2
    requires Settled(cells, next, colour, group2, liberties2)
    requires forall q :: q in group2 && q !in group ==> q == next
    requires next in group2 && next !in group ==> forall a :: a in Adjacent(next, size, |cells|) ==> a in rest2
    ensures Covered(cells, size, colour, group2, liberties2, rest2)
  {
    forall q, a | q in group2 && a in Adjacent(q, size, |cells|)
      ensures a in rest2 || Settled(cells, a, colour, group2, liberties2)
    {
      if q in group {
        assert a in rest + [next] || Settled(cells, a, colour, group, liberties);
        if a in rest + [next] && a !in rest {
          assert a == next;
        }
      }
    }
  }

  /// Once the worklist is empty the group is the whole chain, and the
  /// recorded liberties are all of its liberties.
  lemma WorklistDone(cells: seq<int>, size: nat, point: nat, group: set<nat>, liberties: set<nat>)
    requires Square(cells, size) && point < |cells| && point in group
    requires group <= Group(cells, size, point) && liberties <= Liberties(cells, size, Group(cells, size, point))
    requires Covered(cells, size, cells[point], group, liberties, [])
    ensures liberties == Liberties(cells, size, Group(cells, size, point))
  {
    forall q, a | q in group && a in Adjacent(q, size, |cells|) && a < |cells| && cells[a] == cells[point]
      ensures a in group
    {
      assert Settled(cells, a, cells[point], group, liberties);
    }
    GroupWithin(cells, size, point, group);
    forall a | a in Liberties(cells, size, Group(cells, size, point)) ensures a in liberties {
      var q :| q in Group(cells, size, point) && a in Adjacent(q, size, |cells|);
      assert Settled(cells, a, cells[point], group, liberties);
    }
  }

  /// The number of distinct Empty points next to the chain of the stone at
  /// `point`. The source panics unless `point` holds a stone.
  method CountLibertiesOfGroup(point: nat, board: Board) returns (count: nat)
    requires WellFormed(board) && point < |board.board|
    requires board.board[point] == Player.Black.AsU8() || board.board[point] == Player.White.AsU8()
    ensures count == |Liberties(board.board, board.size, Group(board.board, board.size, point))|
  {
    var cells, size := board.board, board.size;
    BoardIsSquare(board);
    var player := if cells[point] == Player.Black.AsU8() then Player.Black else Player.White;
    ghost var chain := Group(cells, size, point);
    ghost var libs := Liberties(cells, size, chain);
    GroupContainsSelf(cells, size, point);
    var group: set<nat> := {point};
    var unchecked := GetAdjacentPoints(point, board);
    NeighboursPending(cells, size, point, point);
    var liberties: set<nat> := {};
    while |unchecked| > 0
      invariant point in group && group <= chain && liberties <= libs
      invariant Pending(cells, player.AsU8(), chain, libs, unchecked)
      invariant Covered(cells, size, player.AsU8(), group, liberties, unchecked)
      decreases chain - group, |unchecked|
    {
      group, liberties, unchecked := Visit(board, point, player, chain, libs, group, liberties, unchecked);
    }
    WorklistDone(cells, size, point, group, liberties);
    count := |liberties|;
  }

  /// One pass of that loop: the last point of the worklist is taken off; a
  /// stone of the chain's colour not met before joins the group and its
  /// neighbours are pushed, an Empty point is recorded as a liberty.
  method Visit(board: Board, point: nat, player: Player, ghost chain: set<nat>, ghost libs: set<nat>,
               group: set<nat>, liberties: set<nat>, unchecked: seq<nat>)
    returns (group2: set<nat>, liberties2: set<nat>, unchecked2: seq<nat>)
    requires WellFormed(board) && point < |board.board| && Square(board.board, board.size)
    requires board.board[point] == player.AsU8()
    requires chain == Group(board.board, board.size, point) && libs == Liberties(board.board, board.size, chain)
    requires |unchecked| > 0
    requires point in group && group <= chain && liberties <= libs
    requires Pending(board.board, player.AsU8(), chain, libs, unchecked)
    requires Covered(board.board, board.size, player.AsU8(), group, liberties, unchecked)
    ensures point in group2 && group2 <= chain && liberties2 <= libs
    ensures Pending(board.board, player.AsU8(), chain, libs, unchecked2)
    ensures Covered(board.board, board.size, player.AsU8(), group2, liberties2, unchecked2)
    ensures chain - group2 < chain - group || (chain - group2 == chain - group && |unchecked2| < |unchecked|)
  {
    var cells, size := board.board, board.size;
    var next: nat := unchecked[|unchecked| - 1];
    PendingPop(cells, player.AsU8(), chain, libs, unchecked);
    var rest := unchecked[..|unchecked| - 1];
    assert unchecked == rest + [next];
    group2, liberties2, unchecked2 := group, liberties, rest;
    if cells[next] == player.AsU8() {
      if next !in group {
        NeighboursPending(cells, size, point, next);
        var adjacent := GetAdjacentPoints(next, board);
        assert adjacent == Adjacent(next, size, |cells|);
        PendingAppend(cells, player.AsU8(), chain, libs, rest, adjacent);
        unchecked2 := rest + adjacent;
        assert next in chain - group && next !in chain - (group + {next});
      }
      group2 := group + {next};
    } else if cells[next] == Empty.AsU8() {
      liberties2 := liberties + {next};
    }
    CoveredStep(cells, size, player.AsU8(), group, liberties, rest, next, group2, liberties2, unchecked2);
  }
}
