/// The contents of a board point and their `u8` codes, which the TypeScript
/// side uses too.
module PointStates {
  import opened Players

  datatype PointState = Empty | Black | White | Offline
  {
    /// `PointState as u8`.
    function AsU8(): nat
    {
      match this
      case Empty => 1
      case Black => 2
      case White => 3
      case Offline => 4
    }
  }

  /// `PointState::from(Player)`: a player's stone.
  function FromPlayer(p: Player): (r: PointState)
    ensures r.AsU8() == p.AsU8()
    ensures p == Player.Black <==> r == PointState.Black
    ensures p == Player.White <==> r == PointState.White
  {
    match p
    case Black => PointState.Black
    case White => PointState.White
  }

  /// The four codes are distinct.
  lemma CodesDistinct(a: PointState, b: PointState)
    ensures a.AsU8() == b.AsU8() <==> a == b
  {
  }

  /// The conversion is injective, and a player never maps to Empty or Offline.
  lemma FromPlayerInjective(p: Player, q: Player)
    ensures FromPlayer(p) == FromPlayer(q) <==> p == q
    ensures FromPlayer(p) != PointState.Empty && FromPlayer(p) != PointState.Offline
  {
  }
}
