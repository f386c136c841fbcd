/// Connected groups of equal points on a square grid, and their liberties:
/// the reference definitions against which every flood fill of the model is
/// proved.
module Groups {
  import opened Grid
  import opened PointStates

  /// A square grid of `size` rows of `size` points.
  predicate Square(cells: seq<int>, size: nat)
  {
    0 < size <= |cells| && |cells| == size * size
  }

  /// Every neighbour of a point of a square grid is on the grid.
  lemma AdjacentInBounds(cells: seq<int>, size: nat, p: nat)
    requires Square(cells, size) && p < |cells|
    ensures forall q :: q in Adjacent(p, size, |cells|) ==> q < |cells|
  {
    if size >= 2 {
      AdjacentShape(p, size);
    }
  }

  /// A walk of orthogonal steps that never leaves the value of its first point.
  ghost predicate IsGroupPath(cells: seq<int>, size: nat, path: seq<nat>)
    requires Square(cells, size)
  {
    && |path| > 0
    && path[0] < |cells|
    && (forall i :: 0 <= i < |path| ==> path[i] < |cells| && cells[path[i]] == cells[path[0]])
    && (forall i :: 0 <= i < |path| - 1 ==> path[i + 1] in Adjacent(path[i], size, |cells|))
  }

  ghost predicate Connected(cells: seq<int>, size: nat, p: nat, q: nat)
    requires Square(cells, size)
  {
    exists path :: IsGroupPath(cells, size, path) && path[0] == p && path[|path| - 1] == q
  }

  /// The group of `p`: every point reachable from `p` through orthogonal
  /// steps over points holding `p`'s value. For a stone this is its chain,
  /// for an Empty point the empty region around it.
  ghost function Group(cells: seq<int>, size: nat, p: nat): set<nat>
    requires Square(cells, size)
  {
    set q: nat | q < |cells| && Connected(cells, size, p, q)
  }

  /// The Empty points next to some point of `g`.
  ghost function Liberties(cells: seq<int>, size: nat, g: set<nat>): set<nat>
    requires Square(cells, size)
  {
    set a: nat | a < |cells| && cells[a] == Empty.AsU8() && exists q :: q in g && a in Adjacent(q, size, |cells|)
  }

  /// `g` is closed under steps to neighbours holding `v`.
  ghost predicate Closed(cells: seq<int>, size: nat, g: set<nat>, v: int)
    requires Square(cells, size)
  {
    forall q, a :: q in g && a in Adjacent(q, size, |cells|) && a < |cells| && cells[a] == v ==> a in g
  }

  lemma GroupContainsSelf(cells: seq<int>, size: nat, p: nat)
    requires Square(cells, size) && p < |cells|
    ensures p in Group(cells, size, p)
  {
    assert IsGroupPath(cells, size, [p]);
  }

  /// Every member of a group holds the value of its origin.
  lemma GroupValue(cells: seq<int>, size: nat, p: nat, q: nat)
    requires Square(cells, size) && q in Group(cells, size, p)
    ensures q < |cells| && cells[q] == cells[p]
  {
    var path :| IsGroupPath(cells, size, path) && path[0] == p && path[|path| - 1] == q;
    assert cells[path[|path| - 1]] == cells[path[0]];
  }

  /// A group grows by any neighbour holding its value.
  lemma GroupStep(cells: seq<int>, size: nat, p: nat, q: nat, a: nat)
    requires Square(cells, size) && q in Group(cells, size, p)
    requires a in Adjacent(q, size, |cells|) && a < |cells| && cells[a] == cells[p]
    ensures a in Group(cells, size, p)
  {
    var path :| IsGroupPath(cells, size, path) && path[0] == p && path[|path| - 1] == q;
    var longer := path + [a];
    assert forall i :: 0 <= i < |path| ==> longer[i] == path[i];
    assert IsGroupPath(cells, size, longer);
  }

  /// A group is closed under steps to neighbours holding its value.
  lemma GroupClosed(cells: seq<int>, size: nat, p: nat)
    requires Square(cells, size) && p < |cells|
    ensures Closed(cells, size, Group(cells, size, p), cells[p])
  {
    forall q, a | q in Group(cells, size, p) && a in Adjacent(q, size, |cells|) && a < |cells| && cells[a] == cells[p]
      ensures a in Group(cells, size, p)
    {
      GroupStep(cells, size, p, q, a);
    }
  }

  /// A closed set holding `p` holds `p`'s whole group: the group is the
  /// smallest such set.
  lemma GroupWithin(cells: seq<int>, size: nat, p: nat, g: set<nat>)
    requires Square(cells, size) && p < |cells| && p in g && Closed(cells, size, g, cells[p])
    ensures Group(cells, size, p) <= g
  {
    forall q | q in Group(cells, size, p) ensures q in g {
      var path :| IsGroupPath(cells, size, path) && path[0] == p && path[|path| - 1] == q;
      PathWithin(cells, size, path, g, |path| - 1);
    }
  }

  lemma {:induction false} PathWithin(cells: seq<int>, size: nat, path: seq<nat>, g: set<nat>, k: nat)
    requires Square(cells, size) && IsGroupPath(cells, size, path) && path[0] in g
    requires Closed(cells, size, g, cells[path[0]])
    requires k < |path|
    ensures path[k] in g
  {
    if k > 0 {
      PathWithin(cells, size, path, g, k - 1);
      assert path[k] in Adjacent(path[k - 1], size, |cells|);
    }
  }

  /// Membership of a group is symmetric.
  lemma GroupSymmetric(cells: seq<int>, size: nat, p: nat, q: nat)
    requires Square(cells, size) && q in Group(cells, size, p)
    ensures p in Group(cells, size, q)
  {
    var path :| IsGroupPath(cells, size, path) && path[0] == p && path[|path| - 1] == q;
    var back := seq(|path|, i requires 0 <= i < |path| => path[|path| - 1 - i]);
    forall i | 0 <= i < |back| - 1 ensures back[i + 1] in Adjacent(back[i], size, |cells|) {
      var j := |path| - 2 - i;
      assert path[j + 1] in Adjacent(path[j], size, |cells|);
      AdjacentSymmetric(path[j], path[j + 1], size);
    }
    assert IsGroupPath(cells, size, back);
    GroupValue(cells, size, p, q);
  }

  /// Every member of a group has that same group.
  lemma GroupOfMember(cells: seq<int>, size: nat, p: nat, q: nat)
    requires Square(cells, size) && q in Group(cells, size, p)
    ensures Group(cells, size, q) == Group(cells, size, p)
  {
    GroupValue(cells, size, p, q);
    GroupSymmetric(cells, size, p, q);
    GroupContainsSelf(cells, size, p);
    GroupContainsSelf(cells, size, q);
    GroupClosed(cells, size, p);
    GroupClosed(cells, size, q);
    GroupWithin(cells, size, q, Group(cells, size, p));
    GroupWithin(cells, size, p, Group(cells, size, q));
  }
}
