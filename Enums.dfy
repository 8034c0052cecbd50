/** The two enumerations of the chunk: block types and the six face directions. */
module Enums {

  /** An optional value; used where a raw enumeration value may name no direction. */
  datatype Option<T> = None | Some(value: T)

  /** EBlock. Null is the value a freshly sized block array holds (ordinal 0). */
  datatype Block = Null | Air | Stone | Grass | Dirt | Sand | Water | Lava

  /**
   * EDirection, in declaration order. The enumeration header names the last
   * two Top and Bottom; the mesher calls them Up and Down. They are the same
   * two values (ordinals 4 and 5).
   */
  datatype Direction = Front | Back | Left | Right | Up | Down

  /** The integer a direction casts to; the face table is indexed by it. */
  function Ordinal(d: Direction): (k: int)
    ensures 0 <= k < 6
  {
    match d
    case Front => 0
    case Back => 1
    case Left => 2
    case Right => 3
    case Up => 4
    case Down => 5
  }

  /** The direction a raw enumeration value names, if any. */
  function DirectionFromOrdinal(k: int): (r: Option<Direction>)
    ensures r.Some? <==> 0 <= k < 6
    ensures r.Some? ==> Ordinal(r.value) == k
  {
    if k == 0 then Some(Front)
    else if k == 1 then Some(Back)
    else if k == 2 then Some(Left)
    else if k == 3 then Some(Right)
    else if k == 4 then Some(Up)
    else if k == 5 then Some(Down)
    else None
  }

  /** Casting a direction to its ordinal and back gives the direction again. */
  lemma OrdinalRoundTrip(d: Direction)
    ensures DirectionFromOrdinal(Ordinal(d)) == Some(d)
  {
  }

  /** The coordinate a direction moves along: 0 for X, 1 for Y, 2 for Z. */
  function Axis(d: Direction): int
  {
    match d
    case Front | Back => 0
    case Left | Right => 1
    case Up | Down => 2
  }

  /** +1 for the directions that move towards larger coordinates, -1 otherwise. */
  function Sign(d: Direction): int
  {
    match d
    case Front | Right | Up => 1
    case Back | Left | Down => -1
  }

  /** The direction pointing the other way along the same axis. */
  function Opposite(d: Direction): Direction
  {
    match d
    case Front => Back
    case Back => Front
    case Left => Right
    case Right => Left
    case Up => Down
    case Down => Up
  }
}
