/** The seven character-coded tiles of a Sokoban board, as a closed type. */
module Tiles {
  import opened Wrappers

  datatype Tile = Wall | Floor | Player | Box | Goal | BoxOnGoal | PlayerOnGoal

  /** The character the source uses for each tile. */
  function Char(t: Tile): char
  {
    match t
    case Wall => '#'
    case Floor => ' '
    case Player => '@'
    case Box => '$'
    case Goal => '.'
    case BoxOnGoal => '*'
    case PlayerOnGoal => '+'
  }

  /** Reads a tile back from its character; any other character is no tile. */
  function FromChar(c: char): (r: Option<Tile>)
    ensures r.Some? <==> c in "# @$.*+"
    ensures r.Some? ==> Char(r.value) == c
  {
    match c
    case '#' => Some(Wall)
    case ' ' => Some(Floor)
    case '@' => Some(Player)
    case '$' => Some(Box)
    case '.' => Some(Goal)
    case '*' => Some(BoxOnGoal)
    case '+' => Some(PlayerOnGoal)
    case _ => None
  }

  /** Every tile survives the trip through its character, so no two tiles share one. */
  lemma CharRoundTrip(t: Tile)
    ensures FromChar(Char(t)) == Some(t)
  {
  }

  lemma CharInjective(s: Tile, t: Tile)
    ensures Char(s) == Char(t) ==> s == t
  {
    CharRoundTrip(s);
    CharRoundTrip(t);
  }
}
