/** The actor's vertical motion: the jump control and the per-tick gravity
    step with its ground clamp. */
module Physics {
  import opened Entities

  /** The jump control: only an actor on the ground can jump; it then gets
      the upward impulse and becomes airborne. Nothing else about it changes. */
  function Jumped(p: Player): (q: Player)
    ensures p.jumping ==> q == p
    ensures !p.jumping ==> q.vy == JumpVelocity && q.jumping
    ensures q.(vy := p.vy, jumping := p.jumping) == p
  {
    if !p.jumping then p.(vy := JumpVelocity, jumping := true) else p
  }

  /** Jumping is single-jump only: a second jump before landing does nothing. */
  lemma JumpIsIdempotent(p: Player)
    ensures Jumped(Jumped(p)) == Jumped(p)
    ensures Jumped(p).jumping
  {
  }

  /** Whether the gravity step would carry the actor below the ground line. */
  predicate WouldSink(p: Player, groundY: real)
  {
    p.y + p.vy + Gravity > groundY - p.h
  }

  /** One tick of gravity: the velocity grows by Gravity, the actor moves by the
      new velocity, and an actor that would sink below the ground line is put
      back on it, stopped and no longer airborne. The actor never ends below
      the ground line. */
  function Fall(p: Player, groundY: real): (q: Player)
    ensures q.y + q.h <= groundY
    ensures q.x == p.x && q.w == p.w && q.h == p.h && q.color == p.color
    ensures WouldSink(p, groundY) ==> Resting(q, groundY)
    ensures !WouldSink(p, groundY) ==>
              q.vy == p.vy + Gravity && q.y == p.y + q.vy && q.jumping == p.jumping
  {
    var moving := p.(vy := p.vy + Gravity);
    var moved := moving.(y := moving.y + moving.vy);
    if moved.y > groundY - moved.h then moved.(y := groundY - moved.h, vy := 0.0, jumping := false)
    else moved
  }

  /** An actor resting on the ground stays where it is. */
  lemma RestingIsStable(p: Player, groundY: real)
    requires Resting(p, groundY)
    ensures Fall(p, groundY) == p
  {
  }

  /** The actor after n gravity ticks with no jump in between. */
  function Ticks(p: Player, groundY: real, n: nat): Player
    decreases n
  {
    if n == 0 then p else Fall(Ticks(p, groundY, n - 1), groundY)
  }

  /** Height above its starting point (negative is upwards) of an actor k ticks
      into a jump from rest: the sum of the velocities -10 + 0.5 j for j in 1..k. */
  function Rise(k: int): real
  {
    (k * (k - 39)) as real / 4.0
  }

  /** During the first 39 ticks after a jump from rest the actor is airborne,
      on the parabola given by Rise, and never reaches below the ground line
      early enough to be clamped. */
  lemma {:induction false} JumpArc(p: Player, groundY: real, k: nat)
    requires Resting(p, groundY)
    requires k <= 39
    ensures Ticks(Jumped(p), groundY, k)
            == p.(y := p.y + Rise(k), vy := JumpVelocity + Gravity * k as real, jumping := true)
  {
    if k > 0 {
      JumpArc(p, groundY, k - 1);
      SumOfVelocities(k);
      RiseIsUpward(k);
    }
  }

  /** One more tick of the arc adds the next velocity to the height. */
  lemma SumOfVelocities(k: int)
    ensures Rise(k - 1) + JumpVelocity + Gravity * k as real == Rise(k)
  {
    assert (k - 1) * (k - 40) == k * (k - 39) - 2 * k + 40;
  }

  /** The arc is at or above the ground for its first 39 ticks. */
  lemma RiseIsUpward(k: int)
    requires 0 <= k <= 39
    ensures Rise(k) <= 0.0
  {
    assert k * (39 - k) >= 0 by {
      if k > 0 && k < 39 {
        assert k * (39 - k) >= 1 * (39 - k);
      }
    }
  }

  /** A jump from rest lasts exactly 40 ticks: the actor is airborne for the
      first 39 and back at rest, where it started, on the 40th. */
  lemma JumpLandsAfterFortyTicks(p: Player, groundY: real)
    requires Resting(p, groundY)
    ensures forall k :: 0 <= k < 40 ==> Ticks(Jumped(p), groundY, k).jumping
    ensures Ticks(Jumped(p), groundY, 40) == p
  {
    forall k | 0 <= k < 40
      ensures Ticks(Jumped(p), groundY, k).jumping
    {
      JumpArc(p, groundY, k);
    }
    JumpArc(p, groundY, 39);
  }
}
