/// The two players and their `u8` codes.
module Players {
  import opened Wrappers

  datatype Player = Black | White
  {
    /// `Player as u8`.
    function AsU8(): nat
    {
      match this
      case Black => 2
      case White => 3
    }

    /// The `Not` operator: the other player.
    function Not(): (r: Player)
      ensures r != this
    {
      match this
      case Black => White
      case White => Black
    }
  }

  /// `Not` is an involution.
  lemma NotInvolutive(p: Player)
    ensures p.Not().Not() == p
    ensures p.Not().AsU8() != p.AsU8()
  {
  }

  /// The saturating `f64 as u8` cast: the value is truncated toward zero and
  /// clamped to 0..255 (negative values give 0).
  function AsU8(n: real): (r: nat)
    ensures r <= 255
    ensures 1.0 <= n < 255.0 ==> r as real <= n < r as real + 1.0
    ensures n < 1.0 ==> r == 0
    ensures 255.0 <= n ==> r == 255
  {
    if n < 1.0 then 0 else if n >= 255.0 then 255 else n.Floor
  }

  /// `Player::from(f64)`: the truncated code 2 gives Black, 3 gives White and
  /// every other value panics (`None`).
  function FromF64(n: real): (r: Option<Player>)
    ensures r == Some(Black) <==> 2.0 <= n < 3.0
    ensures r == Some(White) <==> 3.0 <= n < 4.0
    ensures r == None <==> n < 2.0 || 4.0 <= n
  {
    var code := AsU8(n);
    if code == Black.AsU8() then Some(Black)
    else if code == White.AsU8() then Some(White)
    else None
  }

  /// Converting a player's own code back gives the player.
  lemma FromOwnCode(p: Player)
    ensures FromF64(p.AsU8() as real) == Some(p)
  {
  }
}
