/** The game of main.go: the player, the meteor slice, the spawn timer and
    the score, and the per-frame Game.Update. The composite literal of
    main() is the constructor. Drawing, the layout callback and the run
    loop are not modelled. */
module Games {
  import opened Platform
  import opened Vectors
  import opened Collision
  import opened Timers
  import opened Slices
  import opened Meteors
  import opened Bullets
  import opened Players
  import opened Frames

  /** `5 * time.Second`, the spawn interval. */
  const SpawnInterval: real := 5.0
  /** `5000 * time.Millisecond`, the game's own bullet timer (never used). */
  const GameBulletInterval: real := 5.0

  /** `for _, m := range game.meteors { m.Update() }` on the slice: each
      live meteor moved once, the cells beyond the length untouched. */
  function MovedMeteors(s: Slice<Meteor>): (r: Slice<Meteor>)
    requires s.Valid()
    ensures r.Valid() && r.len == s.len && |r.cells| == |s.cells|
    ensures forall k :: 0 <= k < s.len ==> r.Live()[k] == s.Live()[k].Update()
    ensures r.cells[s.len..] == s.cells[s.len..]
  {
    Slice(seq(|s.cells|, k requires 0 <= k < |s.cells| => if k < s.len then s.cells[k].Update() else s.cells[k]), s.len)
  }

  function MovedBullets(s: Slice<Bullet>): (r: Slice<Bullet>)
    requires s.Valid()
    ensures r.Valid() && r.len == s.len && r.Live() == UpdateAll(s.Live())
  {
    var r := Slice(UpdateAll(s.cells[..s.len]) + s.cells[s.len..], s.len);
    assert r.cells[..r.len] == UpdateAll(s.cells[..s.len]);
    r
  }

  class Game {
    var player: Player
    var meteors: array<Meteor>
    var count: nat
    var bulletTimer: Timer
    var meteorSpawnTimer: Timer
    var score: int
    var sprites: Sprites

    ghost predicate Valid()
      reads this, player, player.bulletManager
    {
      player.Valid() && count <= meteors.Length
    }

    /** The meteor slice. */
    function Meteors(): Slice<Meteor>
      reads this, meteors
    {
      Slice(meteors[..], count)
    }

    /** The game main() starts: a new player, no meteors, score 0, the
        spawn timer at 5 s. */
    constructor (sprites: Sprites)
      ensures Valid() && fresh(player) && fresh(player.bulletManager)
      ensures player.lives == StartingLives && player.position == StartPosition(sprites.ship)
      ensures player.bulletManager.View() == Empty()
      ensures Meteors() == Empty() && score == 0
      ensures meteorSpawnTimer == NewTimer(SpawnInterval) && bulletTimer == NewTimer(GameBulletInterval)
      ensures this.sprites == sprites
    {
      player := new Player(sprites);
      meteors := new Meteor[0];
      count := 0;
      bulletTimer := NewTimer(GameBulletInterval);
      meteorSpawnTimer := NewTimer(SpawnInterval);
      score := 0;
      this.sprites := sprites;
    }

    /** The state the collision sweep starts from, as the earlier phases of
        Game.Update leave it: the player has turned, thrust, fired and
        moved; a meteor was spawned if the spawn timer fired; every meteor
        and every bullet has moved once. */
    function SweepStart(env: Env, keys: Keys, dt: real, angleRand: real, speedRand: real): (st: Sweep)
      requires Valid()
      reads this, meteors, player, player.bulletManager, player.bulletManager.bullets
      ensures st.Coherent() && st.board.shared && !st.restarted && st.board.meteors.len <= |st.board.walk|
    {
      var rot := Turned(player.rotation, keys);
      var vel := Thrust(env.m, player.velocity, player.rotation, keys.up, Acceleration);
      var fired := FiredBullet(env.m, player.position, vel, rot, player.bulletSprite);
      var bs := player.bulletManager.View();
      var bs1 := if keys.space && player.bulletTimer.Fires(dt) then bs.Append([fired], Vacant) else bs;
      var ms := Meteors();
      var spawned := NewMeteor(env.m, angleRand, speedRand, sprites.bigMeteor);
      var ms1 := if meteorSpawnTimer.Fires(dt) then ms.Append([spawned], VacantMeteor) else ms;
      var ms2 := MovedMeteors(ms1);
      Sweep(Board(ms2.cells, true, ms2, score), MovedBullets(bs1),
            ShipRect(Wrapped(player.position).Add(vel.x, vel.y), player.sprite), false)
    }

    /** The meteor side of the game as the sweep sees it, ranging over
        `walked`. */
    function BoardOf(walked: array<Meteor>): (b: Board)
      requires count <= meteors.Length
      reads this, meteors, walked
      ensures b.Coherent()
    {
      Board(walked[..], walked == meteors, Meteors(), score)
    }

    /** The state of the game as the sweep sees it. */
    function Current(walked: array<Meteor>, restarted: bool): (s: Sweep)
      requires Valid()
      reads this, meteors, walked, player, player.bulletManager, player.bulletManager.bullets
      ensures s.Coherent()
    {
      Sweep(BoardOf(walked), player.bulletManager.View(), player.CollisionRect(), restarted)
    }

    /** The restart of the sweep: `game.player = NewPlayer()`,
        `game.meteors = nil`, the new player's bullets set to nil, score 0. */
    method Restart(ghost walked: array<Meteor>)
      requires Valid()
      modifies this
      ensures Valid() && fresh(player) && fresh(player.bulletManager) && fresh(player.bulletManager.bullets)
      ensures fresh(meteors) && sprites == old(sprites)
      ensures meteorSpawnTimer == old(meteorSpawnTimer) && bulletTimer == old(bulletTimer)
      ensures player.lives == StartingLives && player.position == StartPosition(sprites.ship)
      ensures player.velocity == Vec(0.0, 0.0) && player.rotation == 0.0
      ensures player.bulletTimer == NewTimer(FireCooldown)
      ensures Current(walked, true) == Restarted(sprites, old(Current(walked, false)))
    {
      player := new Player(sprites);
      meteors := new Meteor[0];
      count := 0;
      player.bulletManager.Reset();
      score := 0;
    }

    /** `game.meteors = append(game.meteors[:i], game.meteors[i+1:]...)`. */
    method RemoveMeteorAt(i: nat, ghost walked: array<Meteor>)
      requires count <= meteors.Length && i < count
      modifies this`count, meteors
      ensures count <= meteors.Length
      ensures BoardOf(walked) == RemovedAt(old(BoardOf(walked)), i)
    {
      ghost var b := BoardOf(walked);
      SpliceInPlace(meteors, count, i);
      count := count - 1;
      assert Meteors() == b.meteors.Splice(i);
    }

    /** `game.meteors = append(game.meteors, newMeteors...)`. */
    method AppendMeteors(kids: seq<Meteor>, ghost walked: array<Meteor>)
      requires count <= meteors.Length
      modifies this`meteors, this`count, meteors
      ensures count <= meteors.Length && (meteors == old(meteors) || fresh(meteors))
      ensures BoardOf(walked) == Appended(old(BoardOf(walked)), kids)
    {
      ghost var b := BoardOf(walked);
      meteors := AppendTo(meteors, count, kids, VacantMeteor);
      count := count + |kids|;
      assert Meteors() == b.meteors.Append(kids, VacantMeteor);
    }

    /** A big meteor shot down: the big award, and its two halves
        appended. */
    method Split(env: Env, i: nat, me: Meteor, ghost walked: array<Meteor>)
      requires count <= meteors.Length && env.sprites == sprites
      modifies this`meteors, this`count, this`score, meteors
      ensures count <= meteors.Length && (meteors == old(meteors) || fresh(meteors))
      ensures BoardOf(walked) == Appended(old(BoardOf(walked)).(score := old(score) + BigMeteorHitScore),
                                          SmallMeteors(env.m, me, env.draw(i), env.sprites.smallMeteor))
    {
      score := score + BigMeteorHitScore;
      var kids := NewSmallMeteors(env.m, me, env.draw(i), sprites.smallMeteor);
      AppendMeteors(kids, walked);
    }

    /** A meteor at live index i shot down: removed, and then for a big
        one the score award and its two halves appended, for a small one
        the smaller award. */
    method ShootDown(env: Env, i: nat, me: Meteor, ghost walked: array<Meteor>)
      requires count <= meteors.Length && i < count && env.sprites == sprites
      modifies this`meteors, this`count, this`score, meteors
      ensures count <= meteors.Length && (meteors == old(meteors) || fresh(meteors))
      ensures BoardOf(walked) == ShotDown(env, old(BoardOf(walked)), i, me)
    {
      RemoveMeteorAt(i, walked);
      if me.kind == Big {
        Split(env, i, me, walked);
      } else {
        score := score + SmallMeteorHitScore;
      }
    }

    /** Whether the game holds the state a sweep ended in. */
    ghost predicate Holds(s: Sweep)
      requires Valid()
      reads this, meteors, player, player.bulletManager, player.bulletManager.bullets
    {
      && Meteors() == s.board.meteors && player.bulletManager.View() == s.bullets
      && player.CollisionRect() == s.ship && score == s.board.score
    }

    /** One iteration of the collision loop, at index i of the array the
        loop ranges over. */
    method Visit(env: Env, i: nat, walked: array<Meteor>, ghost restarted: bool)
      returns (r: Outcome<()>, ghost restartedAfter: bool)
      requires Valid() && i < walked.Length && env.sprites == sprites
      modifies this, meteors, player.bulletManager, player.bulletManager.bullets
      ensures Valid()
      ensures Step(env, old(Current(walked, restarted)), i) == if r.Panic? then Panic else Ok(Current(walked, restartedAfter))
      ensures meteorSpawnTimer == old(meteorSpawnTimer) && bulletTimer == old(bulletTimer) && sprites == old(sprites)
      ensures meteors == old(meteors) || fresh(meteors)
      ensures !restartedAfter ==> restartedAfter == restarted && player == old(player) && player.bulletManager == old(player.bulletManager)
      ensures restartedAfter ==> (restarted && player == old(player) && player.bulletManager == old(player.bulletManager))
                                 || (fresh(player) && fresh(player.bulletManager))
      ensures player.bulletManager.bullets == old(player.bulletManager.bullets) || fresh(player.bulletManager.bullets)
      ensures restartedAfter && !(restarted && player == old(player)) ==>
        && player.lives == StartingLives && player.position == StartPosition(sprites.ship)
        && player.velocity == Vec(0.0, 0.0) && player.rotation == 0.0
        && player.bulletTimer == NewTimer(FireCooldown)
    {
      ghost var s0 := Current(walked, restarted);
      var me := walked[i];
      restartedAfter := restarted;
      if me.CollisionRect().Intersects(player.CollisionRect()) {
        Restart(walked);
        restartedAfter := true;
      }
      ghost var s1 := Current(walked, restartedAfter);
      assert s1 == if me.CollisionRect().Intersects(s0.ship) then Restarted(env.sprites, s0) else s0;
      var shot := player.bulletManager.CheckCollisionsWithMeteor(me);
      ghost var check := CheckCollisions(s1.bullets, me);
      if shot.Panic? {
        return Panic, restartedAfter;
      }
      assert Current(walked, restartedAfter) == s1.(bullets := check.value.bullets);
      if shot.value {
        if count <= i {
          return Panic, restartedAfter;
        }
        ShootDown(env, i, me, walked);
      }
      r := Ok(());
    }

    /** The collision loop of Game.Update: it ranges over the meteor slice
        as it was when the loop began. */
    method ResolveCollisions(env: Env) returns (r: Outcome<()>)
      requires Valid() && env.sprites == sprites
      modifies this, meteors, player.bulletManager, player.bulletManager.bullets
      ensures Valid()
      ensures meteorSpawnTimer == old(meteorSpawnTimer) && bulletTimer == old(bulletTimer) && sprites == old(sprites)
      ensures var run := Run(env, old(Current(meteors, false)), 0, old(count));
        && (run.Panic? <==> r.Panic?)
        && (r.Ok? ==> Holds(run.value))
        && (r.Ok? && !run.value.restarted ==> player == old(player))
        && (r.Ok? && run.value.restarted ==>
              && fresh(player) && player.lives == StartingLives
              && player.position == StartPosition(sprites.ship)
              && player.velocity == Vec(0.0, 0.0) && player.rotation == 0.0
              && player.bulletTimer == NewTimer(FireCooldown))
    {
      var walked, end := meteors, count;
      ghost var start := Current(walked, false);
      ghost var restarted := false;
      var i := 0;
      while i < end
        invariant Valid() && i <= end <= walked.Length && walked == old(meteors) && end == old(count)
        invariant meteors == walked || fresh(meteors)
        invariant !restarted ==> player == old(player) && player.bulletManager == old(player.bulletManager)
        invariant restarted ==> fresh(player) && fresh(player.bulletManager)
        invariant player.bulletManager.bullets == old(player.bulletManager.bullets) || fresh(player.bulletManager.bullets)
        invariant meteorSpawnTimer == old(meteorSpawnTimer) && bulletTimer == old(bulletTimer) && sprites == old(sprites)
        invariant restarted ==>
          && player.lives == StartingLives && player.position == StartPosition(sprites.ship)
          && player.velocity == Vec(0.0, 0.0) && player.rotation == 0.0
          && player.bulletTimer == NewTimer(FireCooldown)
        invariant Run(env, Current(walked, restarted), i, end) == Run(env, start, 0, end)
      {
        ghost var before := Current(walked, restarted);
        var step;
        step, restarted := Visit(env, i, walked, restarted);
        if step.Panic? {
          return Panic;
        }
        assert Run(env, before, i, end) == Run(env, Current(walked, restarted), i + 1, end);
        i := i + 1;
      }
      return Ok(());
    }
  
    /** The spawn phase: the spawn timer advances; when it fires it
        restarts and one new big meteor is appended. */
    method SpawnMeteor(m: Math, dt: real, angleRand: real, speedRand: real)
      requires count <= meteors.Length
      modifies this`meteorSpawnTimer, this`meteors, this`count, meteors
      ensures count <= meteors.Length && (meteors == old(meteors) || fresh(meteors))
      ensures meteorSpawnTimer == old(meteorSpawnTimer).Tick(dt)
      ensures Meteors() ==
        if old(meteorSpawnTimer).Fires(dt)
        then old(Meteors()).Append([NewMeteor(m, angleRand, speedRand, sprites.bigMeteor)], VacantMeteor)
        else old(Meteors())
    {
      meteorSpawnTimer := meteorSpawnTimer.Update(dt);
      if meteorSpawnTimer.IsReady() {
        meteorSpawnTimer := meteorSpawnTimer.Reset();
        var meteor := NewMeteor(m, angleRand, speedRand, sprites.bigMeteor);
        meteors := AppendTo(meteors, count, [meteor], VacantMeteor);
        count := count + 1;
      }
    }

    /** `for _, m := range game.meteors { m.Update() }`. */
    method MoveMeteors()
      requires count <= meteors.Length
      modifies meteors
      ensures Meteors() == MovedMeteors(old(Meteors()))
    {
      var j := 0;
      while j < count
        invariant 0 <= j <= count
        invariant forall t :: 0 <= t < j ==> meteors[t] == old(meteors[t]).Update()
        invariant forall t :: j <= t < meteors.Length ==> meteors[t] == old(meteors[t])
      {
        meteors[j] := meteors[j].Update();
        j := j + 1;
      }
      assert meteors[..] == MovedMeteors(old(Meteors())).cells;
    }

    /** The phases of Game.Update before the sweep: the player's frame,
        the spawn, and every meteor and bullet moved once. */
    method Prepare(env: Env, keys: Keys, dt: real, angleRand: real, speedRand: real)
      requires Valid()
      modifies this, meteors, player, player.bulletManager, player.bulletManager.bullets
      ensures Valid() && player == old(player) && player.bulletManager == old(player.bulletManager)
      ensures meteors == old(meteors) || fresh(meteors)
      ensures player.bulletManager.bullets == old(player.bulletManager.bullets) || fresh(player.bulletManager.bullets)
      ensures sprites == old(sprites) && score == old(score) && bulletTimer == old(bulletTimer)
      ensures meteorSpawnTimer == old(meteorSpawnTimer).Tick(dt)
      ensures Current(meteors, false) == old(SweepStart(env, keys, dt, angleRand, speedRand))
      ensures player.lives == old(player.lives)
      ensures player.rotation == Turned(old(player.rotation), keys)
      ensures player.velocity == Thrust(env.m, old(player.velocity), old(player.rotation), keys.up, Acceleration)
      ensures player.position == Wrapped(old(player.position)).Add(player.velocity.x, player.velocity.y)
      ensures player.bulletTimer == if keys.space then old(player.bulletTimer).Tick(dt) else old(player.bulletTimer)
    {
      ghost var st := SweepStart(env, keys, dt, angleRand, speedRand);
      player.Update(env.m, keys, dt);
      SpawnMeteor(env.m, dt, angleRand, speedRand);
      MoveMeteors();
      assert BoardOf(meteors) == st.board;
      player.bulletManager.UpdateBullets();
      assert player.bulletManager.View() == st.bullets;
      assert player.CollisionRect() == st.ship;
    }

    /** Game.Update: the player's frame, the spawn, every meteor and bullet
        moved, then the collision sweep. A run-time panic of the sweep is
        the Panic outcome. */
    method Update(env: Env, keys: Keys, dt: real, angleRand: real, speedRand: real) returns (r: Outcome<()>)
      requires Valid() && env.sprites == sprites
      modifies this, meteors, player, player.bulletManager, player.bulletManager.bullets
      ensures Valid()
      ensures meteorSpawnTimer == old(meteorSpawnTimer).Tick(dt)
      ensures var st := old(SweepStart(env, keys, dt, angleRand, speedRand));
        var run := Run(env, st, 0, st.board.meteors.len);
        && (run.Panic? <==> r.Panic?)
        && (r.Ok? ==> Holds(run.value))
        && (r.Ok? && !run.value.restarted ==>
              && player == old(player) && player.lives == old(player.lives)
              && player.rotation == Turned(old(player.rotation), keys)
              && player.velocity == Thrust(env.m, old(player.velocity), old(player.rotation), keys.up, Acceleration)
              && player.position == Wrapped(old(player.position)).Add(player.velocity.x, player.velocity.y)
              && player.bulletTimer == if keys.space then old(player.bulletTimer).Tick(dt) else old(player.bulletTimer))
        && (r.Ok? && run.value.restarted ==>
              && fresh(player) && player.lives == StartingLives
              && player.position == StartPosition(sprites.ship)
              && player.velocity == Vec(0.0, 0.0) && player.rotation == 0.0
              && player.bulletTimer == NewTimer(FireCooldown)
              && Meteors().Live() == [] && player.bulletManager.View().Live() == [] && score == 0)
    {
      ghost var st := SweepStart(env, keys, dt, angleRand, speedRand);
      Prepare(env, keys, dt, angleRand, speedRand);
      r := ResolveCollisions(env);
      RunRestartCleared(env, st, 0, st.board.meteors.len);
    }
  }
}
