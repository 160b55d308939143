/** The ship of the root package (player.go): the same turning as the
    internal ship but a third of its thrust, no wrap at the screen edges,
    no lives and no weapon. Its debug print is not modelled. */
module LegacyPlayers {
  import opened Platform
  import opened Vectors
  import opened Players

  /** Velocity added per frame of thrust in this version. */
  const LegacyAcceleration: real := 0.01

  class LegacyPlayer {
    var position: Vec
    var velocity: Vec
    var rotation: real
    var sprite: Size

    /** NewPlayer of the root package: centred like the internal ship,
        at rest, facing up. */
    constructor (ship: Size)
      ensures position == StartPosition(ship) && velocity == Vec(0.0, 0.0)
      ensures rotation == 0.0 && sprite == ship
    {
      position := StartPosition(ship);
      velocity := Vec(0.0, 0.0);
      rotation := 0.0;
      sprite := ship;
    }

    /** Player.Update of the root package: turn, thrust along the heading
        taken before the turn, then move, with no wrap. */
    method Update(m: Math, keys: Keys)
      modifies this
      ensures sprite == old(sprite)
      ensures rotation == Turned(old(rotation), keys)
      ensures velocity == Thrust(m, old(velocity), old(rotation), keys.up, LegacyAcceleration)
      ensures position == old(position).Add(velocity.x, velocity.y)
    {
      var h := Heading(m, rotation);
      if keys.left {
        rotation := rotation + RotationSpeed;
      }
      if keys.right {
        rotation := rotation - RotationSpeed;
      }
      if keys.up {
        velocity := velocity.Add(h.x * LegacyAcceleration, h.y * LegacyAcceleration);
      }
      position := position.Add(velocity.x, velocity.y);
    }
  }

  /** The two versions compared on one frame of thrust: the internal
      ship's velocity change is three times the root ship's, in the same
      direction. */
  lemma ThrustVersionsCompared(m: Math, v: Vec, rotation: real)
    ensures var inner := Thrust(m, v, rotation, true, Acceleration);
      var legacy := Thrust(m, v, rotation, true, LegacyAcceleration);
      && inner.x - v.x == 3.0 * (legacy.x - v.x)
      && inner.y - v.y == 3.0 * (legacy.y - v.y)
  {
  }

  /** On the screen and without thrust, one frame moves both versions to
      the same place; off the screen only the internal one wraps. */
  lemma MoveVersionsCompared(p: Vec, v: Vec)
    ensures 0.0 <= p.x <= ScreenWidth && 0.0 <= p.y <= ScreenHeight ==>
      Wrapped(p).Add(v.x, v.y) == p.Add(v.x, v.y)
    ensures p.x > ScreenWidth ==> Wrapped(p).Add(v.x, v.y).x == v.x != p.Add(v.x, v.y).x
  {
  }
}
