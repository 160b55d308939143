/** The ship (internal/player/player.go): turning, thrust, toroidal wrap,
    firing through a cooldown timer into its bullet registry, and the
    collision box. Key presses, the frame's elapsed time and the sprite
    extents are inputs; cos and sin come from the Math record. */
module Players {
  import opened Platform
  import opened Vectors
  import opened Collision
  import opened Timers
  import opened Slices
  import opened Bullets

  const StartingLives: int := 3
  /** Degrees turned per frame while a turn key is held. */
  const RotationSpeed: real := 2.0
  /** Velocity added per frame of thrust, along the heading. */
  const Acceleration: real := 0.03
  /** Speed of a bullet relative to the ship. */
  const MuzzleSpeed: real := 5.0
  /** Inset of the ship's collision rectangle on every side. */
  const ShipMargin: real := 15.0
  /** The fire cooldown, 200 ms, in seconds. */
  const FireCooldown: real := 0.2

  /** The unit heading `(cos, sin)` of 270 + rotation degrees, so that
      rotation 0 points up the screen. */
  function Heading(m: Math, rotation: real): (h: Vec)
  {
    var a := (270.0 + rotation) * Pi / 180.0;
    Vec(m.cos(a), m.sin(a))
  }

  lemma HeadingIsUnit(m: Math, rotation: real)
    requires TrigSound(m)
    ensures Heading(m, rotation).SquaredLength() == 1.0
  {
    var a := (270.0 + rotation) * Pi / 180.0;
    assert m.cos(a) * m.cos(a) + m.sin(a) * m.sin(a) == 1.0;
  }

  /** The rotation after one frame: left adds, right subtracts. */
  function Turned(rotation: real, keys: Keys): (r: real)
    ensures keys.left == keys.right ==> r == rotation
    ensures keys.left && !keys.right ==> r == rotation + RotationSpeed
    ensures keys.right && !keys.left ==> r == rotation - RotationSpeed
  {
    var r1 := if keys.left then rotation + RotationSpeed else rotation;
    if keys.right then r1 - RotationSpeed else r1
  }

  /** The velocity after one frame: with thrust, `accel` times the heading
      the ship had before it turned this frame is added. */
  function Thrust(m: Math, v: Vec, rotation: real, up: bool, accel: real): (w: Vec)
    ensures !up ==> w == v
    ensures up ==> w.x - v.x == Heading(m, rotation).x * accel && w.y - v.y == Heading(m, rotation).y * accel
  {
    if up then
      var h := Heading(m, rotation);
      v.Add(h.x * accel, h.y * accel)
    else v
  }

  /** Thrust changes the velocity by exactly `accel` in length. */
  lemma ThrustStep(m: Math, v: Vec, rotation: real, accel: real)
    requires TrigSound(m)
    ensures var w := Thrust(m, v, rotation, true, accel);
      Vec(w.x - v.x, w.y - v.y).SquaredLength() == accel * accel
  {
    var h := Heading(m, rotation);
    HeadingIsUnit(m, rotation);
    var d := Vec(h.x * accel, h.y * accel);
    assert d.SquaredLength() == (h.x * h.x + h.y * h.y) * (accel * accel);
  }

  /** One coordinate of the wrap: beyond the far edge to 0, below 0 to the
      far edge; exactly on an edge stays. */
  function WrapCoord(c: real, limit: real): real {
    if c > limit then 0.0 else if c < 0.0 then limit else c
  }

  /** The wrap of Player.Update, applied before the position moves. */
  function Wrapped(p: Vec): (q: Vec)
    ensures 0.0 <= q.x <= ScreenWidth && 0.0 <= q.y <= ScreenHeight
    ensures 0.0 <= p.x <= ScreenWidth ==> q.x == p.x
    ensures 0.0 <= p.y <= ScreenHeight ==> q.y == p.y
    ensures p.x > ScreenWidth ==> q.x == 0.0
    ensures p.x < 0.0 ==> q.x == ScreenWidth
    ensures p.y > ScreenHeight ==> q.y == 0.0
    ensures p.y < 0.0 ==> q.y == ScreenHeight
  {
    Vec(WrapCoord(p.x, ScreenWidth), WrapCoord(p.y, ScreenHeight))
  }

  /** Wrapping twice is wrapping once. */
  lemma WrapIdempotent(p: Vec)
    ensures Wrapped(Wrapped(p)) == Wrapped(p)
  {
  }

  /** The ship's box: the sprite's extent shrunk by ShipMargin on every side. */
  function ShipRect(position: Vec, sprite: Size): (r: Rect)
    ensures r.x == position.x + ShipMargin && r.y == position.y + ShipMargin
    ensures r.MaxX() == position.x + sprite.width as real - ShipMargin
    ensures r.MaxY() == position.y + sprite.height as real - ShipMargin
  {
    NewRect(position.x + ShipMargin, position.y + ShipMargin,
            sprite.width as real - 2.0 * ShipMargin, sprite.height as real - 2.0 * ShipMargin)
  }

  /** Where NewPlayer puts the ship: the sprite's top-left corner offset by
      half the sprite (integer halves) from the screen centre. */
  function StartPosition(sprite: Size): (p: Vec)
    ensures p.x + (sprite.width / 2) as real == ScreenWidth / 2.0
    ensures p.y + (sprite.height / 2) as real == ScreenHeight / 2.0
  {
    Vec(ScreenWidth / 2.0 - (sprite.width / 2) as real, ScreenHeight / 2.0 - (sprite.height / 2) as real)
  }

  /** The bullet NewBullet makes: at the ship's position, moving at
      MuzzleSpeed along the heading plus the ship's own velocity. */
  function FiredBullet(m: Math, position: Vec, velocity: Vec, rotation: real, sprite: Size): (b: Bullet)
    ensures b.position == position && b.sprite == sprite
    ensures b.velocity.x - velocity.x == Heading(m, rotation).x * MuzzleSpeed
    ensures b.velocity.y - velocity.y == Heading(m, rotation).y * MuzzleSpeed
  {
    var h := Heading(m, rotation);
    Bullet(position, Vec(h.x * MuzzleSpeed, h.y * MuzzleSpeed).Add(velocity.x, velocity.y), sprite)
  }

  /** With sound trigonometry a bullet leaves the ship at exactly
      MuzzleSpeed relative to it. */
  lemma FiredBulletRelativeSpeed(m: Math, position: Vec, velocity: Vec, rotation: real, sprite: Size)
    requires TrigSound(m)
    ensures var b := FiredBullet(m, position, velocity, rotation, sprite);
      Vec(b.velocity.x - velocity.x, b.velocity.y - velocity.y).SquaredLength() == MuzzleSpeed * MuzzleSpeed
  {
    var h := Heading(m, rotation);
    HeadingIsUnit(m, rotation);
    var d := Vec(h.x * MuzzleSpeed, h.y * MuzzleSpeed);
    assert d.SquaredLength() == (h.x * h.x + h.y * h.y) * (MuzzleSpeed * MuzzleSpeed);
  }

  class Player {
    var lives: int
    var position: Vec
    var velocity: Vec
    var rotation: real
    var sprite: Size
    var bulletSprite: Size
    var bulletTimer: Timer
    var bulletManager: BulletManager

    ghost predicate Valid()
      reads this, bulletManager
    {
      bulletManager.Valid()
    }

    /** NewPlayer: three lives, centred, at rest, facing up, a 200 ms fire
        cooldown and an empty bullet registry. */
    constructor (sprites: Sprites)
      ensures Valid() && fresh(bulletManager)
      ensures lives == StartingLives && position == StartPosition(sprites.ship)
      ensures velocity == Vec(0.0, 0.0) && rotation == 0.0
      ensures sprite == sprites.ship && bulletSprite == sprites.bullet
      ensures bulletTimer == NewTimer(FireCooldown)
      ensures bulletManager.View() == Empty()
    {
      lives := StartingLives;
      position := StartPosition(sprites.ship);
      velocity := Vec(0.0, 0.0);
      rotation := 0.0;
      sprite := sprites.ship;
      bulletSprite := sprites.bullet;
      bulletTimer := NewTimer(FireCooldown);
      bulletManager := new BulletManager();
    }

    predicate HasRemainingLives()
      reads this
    {
      lives > 0
    }

    /** Reset after a lost life: one life fewer, at the screen centre, at
        rest, facing up; bullets and the cooldown are left alone. */
    method Reset()
      modifies this`lives, this`position, this`velocity, this`rotation
      ensures lives == old(lives) - 1
      ensures position == Vec(ScreenWidth / 2.0, ScreenHeight / 2.0)
      ensures velocity == Vec(0.0, 0.0) && rotation == 0.0
    {
      lives := lives - 1;
      position := Vec(ScreenWidth / 2.0, ScreenHeight / 2.0);
      velocity := Vec(0.0, 0.0);
      rotation := 0.0;
    }

    function CollisionRect(): Rect
      reads this
    {
      ShipRect(position, sprite)
    }

    /** NewBullet, from the ship's present state. */
    function NewBullet(m: Math): Bullet
      reads this
    {
      FiredBullet(m, position, velocity, rotation, bulletSprite)
    }

    /** shoot: the cooldown advances by the frame's time; when it fires it
        restarts and one bullet is appended to the registry. */
    method Shoot(m: Math, dt: real)
      requires Valid()
      modifies this`bulletTimer, bulletManager, bulletManager.bullets
      ensures Valid()
      ensures bulletManager.bullets == old(bulletManager.bullets) || fresh(bulletManager.bullets)
      ensures bulletTimer == old(bulletTimer).Tick(dt)
      ensures bulletManager.View() ==
        if old(bulletTimer).Fires(dt)
        then old(bulletManager.View()).Append([NewBullet(m)], Vacant)
        else old(bulletManager.View())
    {
      bulletTimer := bulletTimer.Update(dt);
      if bulletTimer.IsReady() {
        bulletTimer := bulletTimer.Reset();
        var b := NewBullet(m);
        bulletManager.RegisterNewBullet(b);
      }
    }

    /** Player.Update for one frame. The heading is taken before the ship
        turns, a bullet is fired from the position before the wrap and
        the move, and the wrap comes before the move, so the ship may end
        a frame up to one velocity beyond an edge. */
    method Update(m: Math, keys: Keys, dt: real)
      requires Valid()
      modifies this, bulletManager, bulletManager.bullets
      ensures Valid() && bulletManager == old(bulletManager)
      ensures bulletManager.bullets == old(bulletManager.bullets) || fresh(bulletManager.bullets)
      ensures lives == old(lives) && sprite == old(sprite) && bulletSprite == old(bulletSprite)
      ensures rotation == Turned(old(rotation), keys)
      ensures velocity == Thrust(m, old(velocity), old(rotation), keys.up, Acceleration)
      ensures position == Wrapped(old(position)).Add(velocity.x, velocity.y)
      ensures bulletTimer == if keys.space then old(bulletTimer).Tick(dt) else old(bulletTimer)
      ensures bulletManager.View() ==
        if keys.space && old(bulletTimer).Fires(dt)
        then old(bulletManager.View()).Append([FiredBullet(m, old(position), velocity, rotation, bulletSprite)], Vacant)
        else old(bulletManager.View())
    {
      var h := Heading(m, rotation);
      if keys.left {
        rotation := rotation + RotationSpeed;
      }
      if keys.right {
        rotation := rotation - RotationSpeed;
      }
      if keys.up {
        velocity := velocity.Add(h.x * Acceleration, h.y * Acceleration);
      }
      ghost var fired := NewBullet(m);
      ghost var registry := bulletManager.View();
      if keys.space {
        Shoot(m, dt);
      }
      assert bulletManager.View() ==
        if keys.space && old(bulletTimer).Fires(dt) then registry.Append([fired], Vacant) else registry;
      Wrap();
      position := position.Add(velocity.x, velocity.y);
    }

    /** The four edge checks of Player.Update, one after the other. */
    method Wrap()
      modifies this`position
      ensures position == Wrapped(old(position))
    {
      if position.x > ScreenWidth {
        position := Vec(0.0, position.y);
      }
      if position.x < 0.0 {
        position := Vec(ScreenWidth, position.y);
      }
      if position.y > ScreenHeight {
        position := Vec(position.x, 0.0);
      }
      if position.y < 0.0 {
        position := Vec(position.x, ScreenHeight);
      }
    }
  }

  /** After a frame the ship is on the screen, or beyond it by no more than
      its velocity in each direction. */
  lemma UpdatedPositionNearScreen(p: Vec, v: Vec)
    ensures var q := Wrapped(p).Add(v.x, v.y);
      && q.x - v.x <= ScreenWidth && 0.0 <= q.x - v.x
      && q.y - v.y <= ScreenHeight && 0.0 <= q.y - v.y
  {
  }
}
