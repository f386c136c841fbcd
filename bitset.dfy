/// A set of small indices stored as the bits of one machine word.
module BitSets {
  import opened Wrappers

  /// `usize::BITS` on a 64-bit host: the number of bits of the word, and so
  /// the bound every index must stay below.
  const UsizeBits: nat := 64

  /// The indices of the set bits.
  function Members(bits: seq<bool>): set<nat>
  {
    set i | 0 <= i < |bits| && bits[i]
  }

  /// `count_ones` of the word.
  function CountOnes(bits: seq<bool>): nat
  {
    if bits == [] then 0 else (if bits[0] then 1 else 0) + CountOnes(bits[1..])
  }

  /// `trailing_zeros` of a word with at least one set bit: the lowest set bit.
  function TrailingZeros(bits: seq<bool>): (r: nat)
    requires true in bits
    ensures r < |bits| && bits[r]
    ensures forall i :: 0 <= i < r ==> !bits[i]
  {
    if bits[0] then 0 else 1 + TrailingZeros(bits[1..])
  }

  /// Every member moved up by one bit.
  function Shifted(s: set<nat>): set<nat>
  {
    set i | i in s :: i + 1
  }

  /// The members of a word are those of its tail, shifted up by one, plus
  /// bit 0 if it is set.
  lemma MembersCons(bits: seq<bool>)
    requires bits != []
    ensures Members(bits) == (if bits[0] then {0} else {}) + Shifted(Members(bits[1..]))
  {
    forall i | i in Members(bits) && i != 0 ensures i in Shifted(Members(bits[1..])) {
      assert bits[1..][i - 1] == bits[i];
      assert i - 1 in Members(bits[1..]);
    }
  }

  /// `count_ones` counts the members.
  lemma {:induction false} CountOnesIsCardinality(bits: seq<bool>)
    ensures CountOnes(bits) == |Members(bits)|
  {
    if bits != [] {
      CountOnesIsCardinality(bits[1..]);
      MembersCons(bits);
      ShiftCardinality(Members(bits[1..]));
      assert 0 !in Shifted(Members(bits[1..]));
      assert (if bits[0] then {0} else {}) * Shifted(Members(bits[1..])) == {};
    }
  }

  lemma ShiftCardinality(s: set<nat>)
    ensures |Shifted(s)| == |s|
  {
    var t := Shifted(s);
    if s != {} {
      var x :| x in s;
      var t' := Shifted(s - {x});
      ShiftCardinality(s - {x});
      assert s == (s - {x}) + {x};
      assert (s - {x}) * {x} == {};
      forall y | y in t ensures y in t' + {x + 1} {
        var i :| i in s && y == i + 1;
        if i != x { assert i in s - {x}; }
      }
      assert t == t' + {x + 1};
      assert t' * {x + 1} == {};
    } else {
      assert t == {};
    }
  }

  /// The members of `s` in ascending order: the order in which iteration
  /// yields them.
  ghost function Ascending(s: set<nat>): seq<nat>
    decreases |s|
  {
    if s == {} then [] else
      var m := Minimum(s);
      [m] + Ascending(s - {m})
  }

  /// `Ascending(s)` lists exactly the members of `s`, each once, in strictly
  /// increasing order.
  lemma {:induction false} AscendingSpec(s: set<nat>)
    ensures |Ascending(s)| == |s|
    ensures forall x :: x in Ascending(s) <==> x in s
    ensures forall i, j :: 0 <= i < j < |Ascending(s)| ==> Ascending(s)[i] < Ascending(s)[j]
    decreases |s|
  {
    if s != {} {
      var m := Minimum(s);
      AscendingSpec(s - {m});
      var r := Ascending(s);
      assert r == [m] + Ascending(s - {m});
      forall i, j | 0 <= i < j < |r| ensures r[i] < r[j] {
        if i == 0 {
          assert r[j] in s - {m};
        } else {
          assert r[i] == Ascending(s - {m})[i - 1];
          assert r[j] == Ascending(s - {m})[j - 1];
        }
      }
    }
  }

  /// The smallest member of a non-empty set.
  ghost function Minimum(s: set<nat>): (m: nat)
    requires s != {}
    ensures m in s && forall x :: x in s ==> m <= x
  {
    HasMinimum(s);
    var m :| m in s && forall x :: x in s ==> m <= x; m
  }

  lemma HasMinimum(s: set<nat>)
    requires s != {}
    ensures exists m :: m in s && forall x :: x in s ==> m <= x
  {
    var m := SmallestOf(s);
  }

  lemma SmallestOf(s: set<nat>) returns (m: nat)
    requires s != {}
    ensures m in s && forall x :: x in s ==> m <= x
    decreases s
  {
    var y :| y in s;
    var smaller := set x | x in s && x < y;
    if smaller == {} {
      m := y;
      forall x | x in s ensures m <= x {
        assert x !in smaller;
      }
    } else {
      assert y !in smaller;
      assert smaller < s;
      m := SmallestOf(smaller);
      forall x | x in s ensures m <= x {
        if x < y { assert x in smaller; }
      }
    }
  }

  class BitSet {
    /// Bit i of the word.
    var bits: seq<bool>

    ghost predicate Valid()
      reads this
    {
      |bits| == UsizeBits
    }

    /// The indices in the set.
    function Elements(): set<nat>
      reads this
    {
      Members(bits)
    }

    /// `BitSet::new()`: the empty set.
    constructor ()
      ensures Valid() && Elements() == {}
    {
      bits := seq(UsizeBits, _ => false);
    }

    /// `insert`: sets bit `n`, which must lie inside the word.
    method Insert(n: nat)
      requires Valid() && n < UsizeBits
      modifies this
      ensures Valid() && Elements() == old(Elements()) + {n}
    {
      bits := bits[n := true];
    }

    /// `contains`: tests bit `n`, which must lie inside the word.
    function Contains(n: nat): (r: bool)
      reads this
      requires Valid() && n < UsizeBits
      ensures r <==> n in Elements()
    {
      bits[n]
    }

    /// `len`: the number of members.
    function Len(): (r: nat)
      reads this
      ensures r == |Elements()|
    {
      CountOnesIsCardinality(bits);
      CountOnes(bits)
    }

    /// `Iterator::next`: removes and returns the smallest member, or `None`
    /// once the set is empty.
    method Next() returns (r: Option<nat>)
      requires Valid()
      modifies this
      ensures Valid()
      ensures old(Elements()) == {} ==> r == None && Elements() == {}
      ensures old(Elements()) != {} ==> r == Some(Minimum(old(Elements())))
      ensures r.Some? ==> Elements() == old(Elements()) - {r.value}
      ensures r.Some? ==> old(Ascending(Elements())) == [r.value] + Ascending(Elements())
    {
      if !(true in bits) {
        assert Elements() == {};
        r := None;
      } else {
        var lowest := TrailingZeros(bits);
        assert lowest in Elements();
        ghost var was := Elements();
        bits := bits[lowest := false];
        assert Elements() == was - {lowest};
        r := Some(lowest);
      }
    }

    /// `|=`: adds every member of `other`.
    method UnionWith(other: BitSet)
      requires Valid() && other.Valid() && other != this
      modifies this
      ensures Valid() && Elements() == old(Elements()) + other.Elements()
    {
      var mine, theirs := bits, other.bits;
      bits := seq(UsizeBits, i requires 0 <= i < UsizeBits => mine[i] || theirs[i]);
      assert Elements() == Members(mine) + Members(theirs);
    }

    /// `&=`: keeps only the members of `other`.
    method IntersectWith(other: BitSet)
      requires Valid() && other.Valid() && other != this
      modifies this
      ensures Valid() && Elements() == old(Elements()) * other.Elements()
    {
      var mine, theirs := bits, other.bits;
      bits := seq(UsizeBits, i requires 0 <= i < UsizeBits => mine[i] && theirs[i]);
      assert Elements() == Members(mine) * Members(theirs);
    }

    /// `!`: a new set holding every index of the word that is not a member.
    method Complement() returns (r: BitSet)
      requires Valid()
      ensures fresh(r) && r.Valid()
      ensures forall n: nat :: n in r.Elements() <==> n < UsizeBits && n !in Elements()
    {
      var mine := bits;
      var flipped := seq(UsizeBits, i requires 0 <= i < UsizeBits => !mine[i]);
      r := new BitSet();
      r.bits := flipped;
      assert |mine| == UsizeBits;
      forall n: nat ensures n in Members(flipped) <==> n < UsizeBits && n !in Members(mine) {
        if n < UsizeBits {
          assert flipped[n] == !mine[n];
        }
      }
      assert Elements() == Members(mine) && r.Elements() == Members(flipped);
    }
  }

  /// The points among the first `i + 1` are those among the first `i` and
  /// the next one.
  lemma TakeStep(points: seq<nat>, i: nat)
    requires i < |points|
    ensures forall p :: p in points[..i + 1] <==> p in points[..i] || p == points[i]
  {
    assert points[..i + 1] == points[..i] + [points[i]];
  }

  /// Iterating a set (`for n in set`): yields the members in ascending order
  /// and leaves the set empty.
  method Drain(s: BitSet) returns (items: seq<nat>)
    requires s.Valid()
    modifies s
    ensures s.Valid() && s.Elements() == {}
    ensures forall x :: x in items <==> x in old(s.Elements())
    ensures forall i, j :: 0 <= i < j < |items| ==> items[i] < items[j]
  {
    ghost var all := Ascending(s.Elements());
    items := [];
    while true
      invariant s.Valid()
      invariant items + Ascending(s.Elements()) == all
      decreases |s.Elements()|
    {
      ghost var before := Ascending(s.Elements());
      var next := s.Next();
      if next == None {
        assert before == [];
        assert items == all;
        AscendingSpec(old(s.Elements()));
        return;
      }
      ghost var done := items;
      items := items + [next.value];
      assert items + Ascending(s.Elements()) == done + before;
    }
  }

  /// The unit test in bitset.rs: insert 7, 12 and then 0; membership, the
  /// length and the iterated members are as expected.
  method BasicBitsetTest() returns (len: nat, iterated: set<nat>)
    ensures len == 3
    ensures iterated == {0, 7, 12}
  {
    var s := new BitSet();
    s.Insert(7);
    s.Insert(12);
    assert s.Elements() == {7, 12};
    assert s.Contains(7) && s.Contains(12);
    assert !s.Contains(1) && !s.Contains(0) && !s.Contains(24);
    s.Insert(0);
    assert s.Elements() == {0, 7, 12};
    assert s.Contains(0);
    len := s.Len();
    var items := Drain(s);
    iterated := set i | i in items;
    forall x ensures x in iterated <==> x in {0, 7, 12} {
      assert x in items <==> x in {0, 7, 12};
    }
  }
}
