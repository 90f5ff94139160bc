/**
 * Orientations and the turn arithmetic of the propose pass (index.js:99, 102).
 *
 * The orientation table is read from a constants file that is not part of this
 * model. The turn expressions `(o + 1) % 4 || 4` and `(o - 1) % 4 || 4` only form
 * a 4-cycle when the orientations are encoded 1..4, so the encoding
 * North = 1, East = 2, South = 3, West = 4 is assumed.
 */
module Orientation {

  const NORTH := 1
  const EAST := 2
  const SOUTH := 3
  const WEST := 4

  predicate IsOrientation(o: int) {
    NORTH <= o <= WEST
  }

  /**
   * JavaScript's `a % 4` on integers: truncating, so the remainder takes the
   * sign of the dividend, unlike Dafny's Euclidean `%`.
   */
  function JsRemFour(a: int): (r: int)
    ensures a >= 0 ==> 0 <= r < 4 && r == a % 4
    ensures a < 0 ==> -4 < r <= 0 && (r == 0 <==> a % 4 == 0)
  {
    if a >= 0 then a % 4 else -((-a) % 4)
  }

  /** JavaScript's `v || 4` on a number: zero is falsy, every other number is kept. */
  function OrFour(v: int): int {
    if v == 0 then 4 else v
  }

  /** The orientation a `D` directive proposes (index.js:99). */
  function TurnRight(o: int): (r: int)
    ensures IsOrientation(o) ==> IsOrientation(r) && r == o % 4 + 1
  {
    OrFour(JsRemFour(o + 1))
  }

  /** The orientation a `G` directive proposes (index.js:102). */
  function TurnLeft(o: int): (r: int)
    ensures IsOrientation(o) ==> IsOrientation(r) && r == (o + 2) % 4 + 1
  {
    OrFour(JsRemFour(o - 1))
  }

  /** Turning right and turning left undo each other. */
  lemma TurnsAreInverse(o: int)
    requires IsOrientation(o)
    ensures TurnLeft(TurnRight(o)) == o
    ensures TurnRight(TurnLeft(o)) == o
  {
    if o == NORTH {
    } else if o == EAST {
    } else if o == SOUTH {
    } else {
    }
  }

  /** Four quarter turns in the same direction come back to the start. */
  lemma FourTurnsReturn(o: int)
    requires IsOrientation(o)
    ensures TurnRight(TurnRight(TurnRight(TurnRight(o)))) == o
    ensures TurnLeft(TurnLeft(TurnLeft(TurnLeft(o)))) == o
  {
    if o == NORTH {
    } else if o == EAST {
    } else if o == SOUTH {
    } else {
    }
  }
}
