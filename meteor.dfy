/** Meteors (internal/meteor/meteor.go; meteor.go of the root package is
    the same code): spawning a big meteor on a circle around the screen
    centre heading inwards, splitting a big meteor into two small ones,
    the collision rectangle, and straight-line motion. */
module Meteors {
  import opened Platform
  import opened Vectors
  import opened Collision

  datatype MeteorType = Big | Small

  /** Inset of the collision rectangle on every side. */
  const Margin: real := 10.0

  /** Bounds of the split angle, in degrees. */
  const MinSplitAngle: real := 10.0
  const MaxSplitAngle: real := 45.0

  datatype Meteor = Meteor(position: Vec, velocity: Vec, sprite: Size, angle: real, kind: MeteorType) {

    predicate IsBig() {
      kind == Big
    }

    /** The sprite's box shrunk by Margin on every side. */
    function CollisionRect(): (r: Rect)
      ensures r.x == position.x + Margin && r.y == position.y + Margin
      ensures r.MaxX() == position.x + sprite.width as real - Margin
      ensures r.MaxY() == position.y + sprite.height as real - Margin
    {
      NewRect(position.x + Margin, position.y + Margin,
              sprite.width as real - 2.0 * Margin, sprite.height as real - 2.0 * Margin)
    }

    /** One frame of motion: the position moves by the velocity. */
    function Update(): (me: Meteor)
      ensures me.velocity == velocity && me.sprite == sprite && me.angle == angle && me.kind == kind
      ensures me.position.x - position.x == velocity.x && me.position.y - position.y == velocity.y
    {
      this.(position := position.Add(velocity.x, velocity.y))
    }
  }

  /** The meteor after n frames. */
  ghost function UpdatedTimes(me: Meteor, n: nat): Meteor
    decreases n
  {
    if n == 0 then me else UpdatedTimes(me, n - 1).Update()
  }

  /** Meteors neither wrap nor stop: after n frames they have moved by
      exactly n times their velocity. */
  lemma {:induction false} UpdateIsLinear(me: Meteor, n: nat)
    ensures UpdatedTimes(me, n).velocity == me.velocity
    ensures UpdatedTimes(me, n).kind == me.kind
    ensures UpdatedTimes(me, n).position == me.position.Add(n as real * me.velocity.x, n as real * me.velocity.y)
  {
    if n > 0 {
      UpdateIsLinear(me, n - 1);
    }
  }

  /** The angle (radians) a spawn draws from rand.Float64. */
  function SpawnAngle(angleRand: real): real {
    angleRand * 2.0 * Pi
  }

  /** The speed a spawn draws from rand.Float64. */
  function SpawnSpeed(speedRand: real): real {
    0.9 + speedRand
  }

  /** NewMeteor: a big meteor on the circle of radius ScreenWidth / 2
      around the screen centre, moving towards the centre. The two draws
      of rand.Float64 are the parameters. */
  function NewMeteor(m: Math, angleRand: real, speedRand: real, sprite: Size): (me: Meteor)
    ensures me.kind == Big && me.sprite == sprite
    ensures me.angle == SpawnAngle(angleRand)
  {
    var target := Vec(ScreenWidth / 2.0, ScreenHeight / 2.0);
    var r := ScreenWidth / 2.0;
    var angle := SpawnAngle(angleRand);
    var spawnPoint := Vec(target.x + r * m.cos(angle), target.y + r * m.sin(angle));
    var direction := Vec(target.x - spawnPoint.x, target.y - spawnPoint.y).Normalize(m);
    var speed := SpawnSpeed(speedRand);
    var velocity := Vec(direction.x * speed, direction.y * speed);
    Meteor(spawnPoint, velocity, sprite, angle, Big)
  }

  /** With draws in [0, 1) the angle lies in [0, 2*Pi) and the speed in
      [0.9, 1.9). */
  lemma SpawnDrawRanges(angleRand: real, speedRand: real)
    requires 0.0 <= angleRand < 1.0 && 0.0 <= speedRand < 1.0
    ensures 0.0 <= SpawnAngle(angleRand) < 2.0 * Pi
    ensures 0.9 <= SpawnSpeed(speedRand) < 1.9
  {
  }

  /** With sound trigonometry and square root, a new meteor starts on the
      circle of radius ScreenWidth / 2 around the centre, its velocity is
      the unit vector pointing at the centre times the drawn speed, and so
      it would reach the centre after (ScreenWidth / 2) / speed frames. */
  lemma NewMeteorHeadsToCentre(m: Math, angleRand: real, speedRand: real, sprite: Size)
    requires TrigSound(m) && SqrtSound(m)
    ensures var me := NewMeteor(m, angleRand, speedRand, sprite);
            var a := SpawnAngle(angleRand);
            var speed := SpawnSpeed(speedRand);
            && me.position == Vec(ScreenWidth / 2.0 + ScreenWidth / 2.0 * m.cos(a),
                                  ScreenHeight / 2.0 + ScreenWidth / 2.0 * m.sin(a))
            && me.velocity == Vec(-m.cos(a) * speed, -m.sin(a) * speed)
            && me.velocity.SquaredLength() == speed * speed
  {
    var a := SpawnAngle(angleRand);
    var c, s := m.cos(a), m.sin(a);
    var r := ScreenWidth / 2.0;
    var d := Vec(-(r * c), -(r * s));
    var target := Vec(ScreenWidth / 2.0, ScreenHeight / 2.0);
    var spawnPoint := Vec(target.x + r * c, target.y + r * s);
    assert Vec(target.x - spawnPoint.x, target.y - spawnPoint.y) == d;
    assert c * c + s * s == 1.0;
    assert d.SquaredLength() == r * r * (c * c + s * s);
    assert d.SquaredLength() == r * r;
    RootOfSquare(m, r);
    assert d.Length(m) == r;
    assert d.Normalize(m) == Vec(-(r * c) / r, -(r * s) / r);
    assert -(r * c) / r == -c && -(r * s) / r == -s;
    var speed := SpawnSpeed(speedRand);
    var v := Vec(-c * speed, -s * speed);
    assert v.SquaredLength() == speed * speed * (c * c + s * s);
  }

  /** A sound square root of r * r is r, for r > 0. */
  lemma RootOfSquare(m: Math, r: real)
    requires SqrtSound(m) && r > 0.0
    ensures m.sqrt(r * r) == r
  {
    var q := m.sqrt(r * r);
    assert q >= 0.0 && q * q == r * r;
    if q > r {
      assert (q - r) * (q + r) == q * q - r * r;
      ProductPos(q - r, q + r, (q - r) * (q + r));
    } else if q < r {
      assert (r - q) * (r + q) == r * r - q * q;
      ProductPos(r - q, r + q, (r - q) * (r + q));
    }
  }

  /** The split angle (degrees) drawn from rand.Float64. */
  function SplitAngle(splitRand: real): real {
    MinSplitAngle + splitRand * (MaxSplitAngle - MinSplitAngle)
  }

  /** With a draw in [0, 1) the split angle lies in [10, 45). */
  lemma SplitAngleRange(splitRand: real)
    requires 0.0 <= splitRand < 1.0
    ensures MinSplitAngle <= SplitAngle(splitRand) < MaxSplitAngle
  {
  }

  /** The two meteors a big one splits into: small, at the parent's
      position, with the parent's angle, and the parent's velocity turned
      by plus and minus the split angle. */
  function SmallMeteors(m: Math, parent: Meteor, splitRand: real, sprite: Size): (kids: seq<Meteor>)
    ensures |kids| == 2
    ensures forall k :: 0 <= k < 2 ==>
      && kids[k].kind == Small && kids[k].sprite == sprite
      && kids[k].position == parent.position && kids[k].angle == parent.angle
    ensures kids[0].velocity == parent.velocity.Rotate(m, SplitAngle(splitRand))
    ensures kids[1].velocity == parent.velocity.Rotate(m, -SplitAngle(splitRand))
  {
    var a := SplitAngle(splitRand);
    [Meteor(parent.position, parent.velocity.Rotate(m, a), sprite, parent.angle, Small),
     Meteor(parent.position, parent.velocity.Rotate(m, -a), sprite, parent.angle, Small)]
  }

  /** NewSmallMeteors: the parent's velocity is copied into two new vector
      cells, each rotated in place; the parent itself is only read. */
  method NewSmallMeteors(m: Math, parent: Meteor, splitRand: real, sprite: Size) returns (kids: seq<Meteor>)
    ensures kids == SmallMeteors(m, parent, splitRand, sprite)
  {
    var angle := parent.angle;
    var minAngle, maxAngle := MinSplitAngle, MaxSplitAngle;
    var newAngle := minAngle + splitRand * (maxAngle - minAngle);
    var cell1 := new Vector(parent.velocity.x, parent.velocity.y);
    var vel1 := cell1.Rotate(m, newAngle);
    var cell2 := new Vector(parent.velocity.x, parent.velocity.y);
    var vel2 := cell2.Rotate(m, -newAngle);
    kids := [Meteor(parent.position, vel1.Value(), sprite, angle, Small),
             Meteor(parent.position, vel2.Value(), sprite, angle, Small)];
  }

  /** With sound trigonometry both halves keep the parent's speed, and
      turning each back by its angle gives the parent's velocity. */
  lemma SplitKeepsSpeed(m: Math, parent: Meteor, splitRand: real, sprite: Size)
    requires TrigSound(m)
    ensures var kids := SmallMeteors(m, parent, splitRand, sprite);
            var a := SplitAngle(splitRand);
            && kids[0].velocity.SquaredLength() == parent.velocity.SquaredLength()
            && kids[1].velocity.SquaredLength() == parent.velocity.SquaredLength()
            && kids[0].velocity.Rotate(m, -a) == parent.velocity
            && kids[1].velocity.Rotate(m, a) == parent.velocity
  {
    var a := SplitAngle(splitRand);
    RotateKeepsLength(m, parent.velocity, a);
    RotateKeepsLength(m, parent.velocity, -a);
    RotateRoundTrip(m, parent.velocity, a);
    RotateRoundTrip(m, parent.velocity, -a);
    assert -(-a) == a;
  }

  /** The collision rectangle is the sprite's box inset by Margin on every
      side, so whatever touches the collision rectangle touches the drawn
      sprite too. */
  lemma HitboxInsideSprite(me: Meteor, r: Rect)
    ensures var box := NewRect(me.position.x, me.position.y, me.sprite.width as real, me.sprite.height as real);
      r.Intersects(me.CollisionRect()) ==> r.Intersects(box)
  {
    var box := NewRect(me.position.x, me.position.y, me.sprite.width as real, me.sprite.height as real);
    InsideHitsOutside(me.CollisionRect(), box, r);
  }

  /** IsBig tells the two generations apart: it holds exactly for big
      meteors, every spawned meteor is big, and neither half of a split
      is, so a half is never split again. */
  lemma IsBigSpawnedNotSplit(me: Meteor, m: Math, angleRand: real, speedRand: real, splitRand: real, big: Size, small: Size)
    ensures me.IsBig() <==> me.kind == Big
    ensures NewMeteor(m, angleRand, speedRand, big).IsBig()
    ensures var kids := SmallMeteors(m, me, splitRand, small); !kids[0].IsBig() && !kids[1].IsBig()
  {
  }
}
