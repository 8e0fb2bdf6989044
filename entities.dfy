/** The values the water game's simulation works on: the player's actor, the
    items that scroll towards it, and the game's tuning constants. Positions
    are exact reals; the canvas size is supplied by whoever creates the game. */
module Entities {

  /** Radius of every spawned item, and the left-edge margin an item must pass to expire. */
  const ItemRadius: real := 16.0
  /** Distance an item moves to the left on every tick. */
  const ItemSpeed: real := 3.0
  /** Downward acceleration added to the actor's vertical velocity on every tick. */
  const Gravity: real := 0.5
  /** Vertical velocity a jump gives the actor (negative is upwards). */
  const JumpVelocity: real := -10.0
  /** Ground line as a fraction of the canvas height. */
  const GroundRatio: real := 0.65
  /** Lives at the start of a game. */
  const InitialLives: int := 5
  /** Score gained for catching a blue drop. */
  const BluePoints: int := 2

  /** The two categories of item: a blue drop rewards, a black drop costs a life. */
  datatype Kind = Blue | Black

  /** An item: the top-left of its bounding square is (x, y), its side is r. */
  datatype Item = Item(x: real, y: real, r: real, color: string, kind: Kind)

  /** The actor: top-left (x, y), size w by h, vertical velocity vy, and
      whether it is in the air after a jump. */
  datatype Player = Player(x: real, y: real, w: real, h: real, vy: real, jumping: bool, color: string)

  /** The ground line of a canvas of the given height. */
  function GroundLine(height: real): real
  {
    height * GroundRatio
  }

  /** The actor as the game starts: standing still on the ground line. */
  function StartPlayer(groundY: real): (p: Player)
    ensures p.y + p.h == groundY && p.vy == 0.0 && !p.jumping
  {
    Player(50.0, groundY - 40.0, 32.0, 40.0, 0.0, false, "#f77e7e")
  }

  /** The actor stands on the ground line and does not move vertically. */
  predicate Resting(p: Player, groundY: real)
  {
    p.y == groundY - p.h && p.vy == 0.0 && !p.jumping
  }
}
