/** The collision sweep of Game.Update (main.go), as a function of the
    state it starts from. The sweep ranges over the meteor slice as it was
    when the loop began: `walk` is that backing array's contents as the
    loop sees them. While the live slice still uses the same backing array
    (`shared`), splices and in-place appends rewrite what the range reads;
    once a restart (`game.meteors = nil`) or a growing append has moved the
    live slice to a new array, the range goes on reading the old one. */
module Frames {
  import opened Platform
  import opened Vectors
  import opened Collision
  import opened Slices
  import opened Meteors
  import opened Bullets
  import opened Players

  const SmallMeteorHitScore: int := 50
  const BigMeteorHitScore: int := 100

  /** What an unused cell of a meteor backing array holds (nil). */
  const VacantMeteor: Meteor := Meteor(Vec(0.0, 0.0), Vec(0.0, 0.0), Size(0, 0), 0.0, Big)

  /** The sweep's inputs: cos/sin/sqrt, the sprite extents, and the
      rand.Float64 draw a split makes while the sweep is at index i. */
  datatype Env = Env(m: Math, sprites: Sprites, draw: nat -> real)

  /** The meteor side of the sweep: the walked array's contents, whether
      the live slice still uses it, the live slice, and the score. */
  datatype Board = Board(walk: seq<Meteor>, shared: bool, meteors: Slice<Meteor>, score: int)
  {
    ghost predicate Coherent() {
      meteors.Valid() && (shared ==> walk == meteors.cells)
    }
  }

  /** The whole sweep state: the board, the player's bullet slice and
      collision box, and whether a restart has happened. */
  datatype Sweep = Sweep(board: Board, bullets: Slice<Bullet>, ship: Rect, restarted: bool)
  {
    ghost predicate Coherent() {
      board.Coherent() && bullets.Valid()
    }
  }

  /** The ship's box right after NewPlayer. */
  function StartShip(sprites: Sprites): Rect {
    ShipRect(StartPosition(sprites.ship), sprites.ship)
  }

  /** A meteor touched the ship: a new player (and with it a new, empty
      bullet registry), no meteors, score 0. */
  function Restarted(sprites: Sprites, s: Sweep): (r: Sweep)
    requires s.Coherent()
    ensures r.Coherent() && r.board.walk == s.board.walk && r.ship == StartShip(sprites)
    ensures r.board.meteors.Live() == [] && r.bullets.Live() == [] && r.board.score == 0
  {
    Sweep(Board(s.board.walk, false, Empty(), 0), Empty(), StartShip(sprites), true)
  }

  /** `game.meteors = append(game.meteors[:i], game.meteors[i+1:]...)`:
      the range sees the shift too while it walks the same array. */
  function RemovedAt(b: Board, i: nat): (r: Board)
    requires b.Coherent() && i < b.meteors.len
    ensures r.Coherent() && |r.walk| == |b.walk| && r.score == b.score
  {
    var spliced := b.meteors.Splice(i);
    b.(walk := if b.shared then spliced.cells else b.walk, meteors := spliced)
  }

  /** `game.meteors = append(game.meteors, kids...)`: in place, and seen
      by the range, when it fits; otherwise the live slice moves to a new
      array and the range keeps the old one. */
  function Appended(b: Board, kids: seq<Meteor>): (r: Board)
    requires b.Coherent()
    ensures r.Coherent() && |r.walk| == |b.walk| && r.score == b.score
  {
    var stays := b.shared && b.meteors.Fits(|kids|);
    var grown := b.meteors.Append(kids, VacantMeteor);
    b.(walk := if stays then grown.cells else b.walk, shared := stays, meteors := grown)
  }

  /** A meteor hit by a bullet at live index i: removed, and then a big
      one's two halves appended with the big award, or the small award. */
  function ShotDown(env: Env, b: Board, i: nat, me: Meteor): (r: Board)
    requires b.Coherent() && i < b.meteors.len
    ensures r.Coherent() && |r.walk| == |b.walk|
  {
    var b1 := RemovedAt(b, i);
    if me.kind == Big then
      Appended(b1.(score := b1.score + BigMeteorHitScore), SmallMeteors(env.m, me, env.draw(i), env.sprites.smallMeteor))
    else
      b1.(score := b1.score + SmallMeteorHitScore)
  }

  /** One iteration of the sweep, at index i of the walked array. */
  function Step(env: Env, s: Sweep, i: nat): (r: Outcome<Sweep>)
    requires s.Coherent() && i < |s.board.walk|
    ensures r.Ok? ==> r.value.Coherent() && |r.value.board.walk| == |s.board.walk|
    ensures r.Ok? && s.restarted ==> r.value.restarted
  {
    var me := s.board.walk[i];
    var s1 := if me.CollisionRect().Intersects(s.ship) then Restarted(env.sprites, s) else s;
    var check := CheckCollisions(s1.bullets, me);
    if check.Panic? then Panic
    else if !check.value.hit then Ok(s1.(bullets := check.value.bullets))
    else if s1.board.meteors.len <= i then Panic
    else Ok(s1.(board := ShotDown(env, s1.board, i, me), bullets := check.value.bullets))
  }

  /** The sweep from index i up to the length `end` captured at its start. */
  function Run(env: Env, s: Sweep, i: nat, end: nat): (r: Outcome<Sweep>)
    requires s.Coherent() && i <= end <= |s.board.walk|
    ensures r.Ok? ==> r.value.Coherent()
    ensures r.Ok? && s.restarted ==> r.value.restarted
    decreases end - i
  {
    if i == end then Ok(s)
    else match Step(env, s, i)
      case Panic => Panic
      case Ok(s') => Run(env, s', i + 1, end)
  }

  /** The score went up from `base` by kill awards only. */
  predicate ScoredFrom(base: int, x: int) {
    base <= x && (x - base) % SmallMeteorHitScore == 0
  }

  /** Each step leaves the score either awarded on from where it was or,
      after a restart, awarded on from 0. A step that does not restart
      pays at most the big award, and only for a bullet it used up. */
  lemma StepScore(env: Env, s: Sweep, i: nat)
    requires s.Coherent() && i < |s.board.walk| && Step(env, s, i).Ok?
    ensures ScoredFrom(s.board.score, Step(env, s, i).value.board.score) || ScoredFrom(0, Step(env, s, i).value.board.score)
    ensures var r := Step(env, s, i).value;
      !r.restarted ==>
        && ScoredFrom(s.board.score, r.board.score)
        && r.board.score - s.board.score <= BigMeteorHitScore * (s.bullets.len - r.bullets.len)
  {
    CheckCollisionsHit(s.bullets, s.board.walk[i]);
  }

  lemma ScoredTrans(a: int, b: int, c: int)
    requires ScoredFrom(a, b) && ScoredFrom(b, c)
    ensures ScoredFrom(a, c)
  {
    var p, q := (b - a) / SmallMeteorHitScore, (c - b) / SmallMeteorHitScore;
    assert b - a == SmallMeteorHitScore * p;
    assert c - b == SmallMeteorHitScore * q;
    assert c - a == SmallMeteorHitScore * (p + q);
  }

  /** Over a whole sweep the score only grows by multiples of 50, unless a
      restart set it to 0, after which it only grew by multiples of 50.
      Without a restart it grew by at most 100 for each bullet used up:
      every award is paid for with a bullet. */
  lemma {:induction false} RunScore(env: Env, s: Sweep, i: nat, end: nat)
    requires s.Coherent() && i <= end <= |s.board.walk| && Run(env, s, i, end).Ok?
    ensures ScoredFrom(s.board.score, Run(env, s, i, end).value.board.score) || ScoredFrom(0, Run(env, s, i, end).value.board.score)
    ensures var r := Run(env, s, i, end).value;
      !r.restarted ==>
        && ScoredFrom(s.board.score, r.board.score)
        && r.board.score - s.board.score <= BigMeteorHitScore * (s.bullets.len - r.bullets.len)
    decreases end - i
  {
    if i < end {
      var s' := Step(env, s, i).value;
      assert Run(env, s, i, end) == Run(env, s', i + 1, end);
      StepScore(env, s, i);
      RunScore(env, s', i + 1, end);
      var x := Run(env, s', i + 1, end).value.board.score;
      if ScoredFrom(s'.board.score, x) {
        if ScoredFrom(s.board.score, s'.board.score) {
          ScoredTrans(s.board.score, s'.board.score, x);
        } else {
          ScoredTrans(0, s'.board.score, x);
        }
      }
    }
  }

  /** A meteor that touches the ship restarts the game before the bullet
      check, and with the registry empty it cannot be shot down. */
  lemma RestartClears(env: Env, s: Sweep, i: nat)
    requires s.Coherent() && i < |s.board.walk|
    requires s.board.walk[i].CollisionRect().Intersects(s.ship)
    ensures Step(env, s, i) == Ok(Restarted(env.sprites, s))
  {
    var r := Restarted(env.sprites, s);
    assert CheckCollisions(r.bullets, s.board.walk[i]) == Ok(Checked(r.bullets, false));
  }

  /** Once the game has restarted, the rest of the sweep leaves it as it
      is: with no bullets nothing can be shot down, and a meteor that
      touches the fresh ship only restarts it again to the same state. */
  lemma {:induction false} AfterRestartRunStays(env: Env, s: Sweep, i: nat, end: nat)
    requires s.Coherent() && s == Restarted(env.sprites, s) && i <= end <= |s.board.walk|
    ensures Run(env, s, i, end) == Ok(s)
    decreases end - i
  {
    if i < end {
      assert CheckCollisions(s.bullets, s.board.walk[i]) == Ok(Checked(s.bullets, false));
      assert Step(env, s, i) == Ok(s);
      AfterRestartRunStays(env, s, i + 1, end);
    }
  }

  /** A meteor at index i that touches the ship ends the sweep from i in
      the restarted state: no meteors, no bullets, score 0, the ship back
      at its start. */
  lemma RestartFrame(env: Env, s: Sweep, i: nat, end: nat)
    requires s.Coherent() && i < end <= |s.board.walk|
    requires s.board.walk[i].CollisionRect().Intersects(s.ship)
    ensures Run(env, s, i, end) == Ok(Restarted(env.sprites, s))
  {
    RestartClears(env, s, i);
    var r := Restarted(env.sprites, s);
    assert r == Restarted(env.sprites, r);
    AfterRestartRunStays(env, r, i + 1, end);
  }

  /** A sweep that restarted the game, wherever in the walk, ends in the
      restarted state: no meteors, no bullets, score 0, the start ship. */
  lemma {:induction false} RunRestartCleared(env: Env, s: Sweep, i: nat, end: nat)
    requires s.Coherent() && i <= end <= |s.board.walk|
    requires s.restarted ==> s == Restarted(env.sprites, s)
    ensures Run(env, s, i, end).Ok? && Run(env, s, i, end).value.restarted ==>
      Run(env, s, i, end).value == Restarted(env.sprites, Run(env, s, i, end).value)
    decreases end - i
  {
    if i < end {
      var me := s.board.walk[i];
      if me.CollisionRect().Intersects(s.ship) {
        RestartFrame(env, s, i, end);
      } else if Step(env, s, i).Ok? {
        var s' := Step(env, s, i).value;
        if s.restarted {
          assert CheckCollisions(s.bullets, me) == Ok(Checked(s.bullets, false));
        }
        assert s'.restarted ==> s' == Restarted(env.sprites, s');
        RunRestartCleared(env, s', i + 1, end);
      }
    }
  }

  /** Meteors leave the slice only by being shot down or by a restart: a
      step whose meteor misses the ship and which no bullet hits leaves
      the board, and with it the meteors and the score, as it was. */
  lemma StepMissKeepsBoard(env: Env, s: Sweep, i: nat)
    requires s.Coherent() && i < |s.board.walk|
    requires !s.board.walk[i].CollisionRect().Intersects(s.ship)
    requires CheckCollisions(s.bullets, s.board.walk[i]).Ok?
    ensures !CheckCollisions(s.bullets, s.board.walk[i]).value.hit ==> Step(env, s, i) == Ok(s)
  {
    CheckCollisionsHit(s.bullets, s.board.walk[i]);
  }

  /** A sweep in which no meteor touches the ship and no bullet hits a
      meteor changes nothing. */
  lemma {:induction false} QuietRun(env: Env, s: Sweep, i: nat, end: nat)
    requires s.Coherent() && i <= end <= |s.board.walk|
    requires forall k :: i <= k < end ==> !s.board.walk[k].CollisionRect().Intersects(s.ship)
    requires forall k, j :: i <= k < end && 0 <= j < s.bullets.len ==> !Hits(s.bullets.cells[j], s.board.walk[k])
    ensures Run(env, s, i, end) == Ok(s)
    decreases end - i
  {
    if i < end {
      CheckCollisionsHit(s.bullets, s.board.walk[i]);
      assert Step(env, s, i) == Ok(s);
      QuietRun(env, s, i + 1, end);
    }
  }

  /** One step in which the meteor misses the ship and some bullet hits
      it: the first such bullet is gone, the meteor is removed from the
      live slice, a big one leaves its two halves at the end, and the
      score rises by the award for its kind. */
  lemma StepShootDown(env: Env, s: Sweep, i: nat)
    requires s.Coherent() && i < |s.board.walk| && i < s.board.meteors.len
    requires !s.board.walk[i].CollisionRect().Intersects(s.ship)
    requires CheckCollisions(s.bullets, s.board.walk[i]).Ok? && CheckCollisions(s.bullets, s.board.walk[i]).value.hit
    ensures Step(env, s, i).Ok?
    ensures var r := Step(env, s, i).value;
      var me := s.board.walk[i];
      && r.bullets == CheckCollisions(s.bullets, me).value.bullets
      && r.bullets.len < s.bullets.len
      && r.ship == s.ship
      && r.board.meteors.Live() == s.board.meteors.Live()[..i] + s.board.meteors.Live()[i + 1..]
           + (if me.kind == Big then SmallMeteors(env.m, me, env.draw(i), env.sprites.smallMeteor) else [])
      && r.board.score == s.board.score + (if me.kind == Big then BigMeteorHitScore else SmallMeteorHitScore)
  {
    var me := s.board.walk[i];
    CheckCollisionsHit(s.bullets, me);
    SpliceRemoves(s.board.meteors, i);
    if me.kind == Big {
      AppendLive(s.board.meteors.Splice(i), SmallMeteors(env.m, me, env.draw(i), env.sprites.smallMeteor), VacantMeteor);
    }
  }

  /** While the live slice shares the walked array, shooting down a small
      meteor at i shifts the next meteor to index i, which the range has
      already passed: the range reads the one after it next, so the meteor
      that followed the shot one is not checked in this frame. */
  lemma ShotDownSkipsNext(env: Env, s: Sweep, i: nat)
    requires s.Coherent() && s.board.shared && i + 2 < s.board.meteors.len
    requires !s.board.walk[i].CollisionRect().Intersects(s.ship) && s.board.walk[i].kind == Small
    requires CheckCollisions(s.bullets, s.board.walk[i]).Ok? && CheckCollisions(s.bullets, s.board.walk[i]).value.hit
    ensures Step(env, s, i).Ok?
    ensures Step(env, s, i).value.board.walk[i + 1] == s.board.meteors.cells[i + 2]
    ensures Step(env, s, i).value.board.meteors.Live()[i] == s.board.meteors.cells[i + 1]
  {
    CheckCollisionsHit(s.bullets, s.board.walk[i]);
    SpliceShifts(s.board.meteors, i, i + 1);
    SpliceShifts(s.board.meteors, i, i);
  }

  /** A meteor the loop reads that neither touches the ship nor is hit by
      any of the bullets `bs`. */
  ghost predicate Calm(ship: Rect, bs: seq<Bullet>, me: Meteor) {
    !me.CollisionRect().Intersects(ship) && forall b :: b in bs ==> !Hits(b, me)
  }

  /** Calm meteors are passed over without any change. */
  lemma {:induction false} QuietPrefix(env: Env, s: Sweep, i: nat, mid: nat, end: nat)
    requires s.Coherent() && i <= mid <= end <= |s.board.walk|
    requires forall j :: i <= j < mid ==> Calm(s.ship, s.bullets.Live(), s.board.walk[j])
    ensures Run(env, s, i, end) == Run(env, s, mid, end)
    decreases mid - i
  {
    if i < mid {
      var me := s.board.walk[i];
      assert Calm(s.ship, s.bullets.Live(), me);
      forall j | 0 <= j < s.bullets.len
        ensures !Hits(s.bullets.cells[j], me)
      {
        assert s.bullets.cells[j] == s.bullets.Live()[j];
      }
      CheckCollisionsHit(s.bullets, me);
      assert Step(env, s, i) == Ok(s);
      QuietPrefix(env, s, i + 1, mid, end);
    }
  }

  /** What the range reads after shooting down the meteor at k while the
      live slice shares the walked array: each later cell holds its right
      neighbour, except the last live one, which keeps its meteor or, when
      a big meteor's halves were appended in place, holds the first half. */
  lemma ShotDownWalk(env: Env, b: Board, k: nat, me: Meteor, j: nat)
    requires b.Coherent() && b.shared && k < j < b.meteors.len
    ensures var kids := SmallMeteors(env.m, me, env.draw(k), env.sprites.smallMeteor);
      ShotDown(env, b, k, me).walk[j] ==
        if j + 1 < b.meteors.len then b.walk[j + 1]
        else if me.kind == Big && b.meteors.Fits(1) then kids[0]
        else b.walk[j]
  {
    SpliceShifts(b.meteors, k, j);
  }

  /** Under the hypotheses of SingleShootDown, every meteor the range
      reads after the shoot-down is calm for the bullets that remain. */
  lemma ShotDownCalm(env: Env, s: Sweep, k: nat, j: nat)
    requires s.Coherent() && s.board.shared && k < j < s.board.meteors.len
    requires forall j :: 0 <= j < s.board.meteors.len && j != k ==> Calm(s.ship, s.bullets.Live(), s.board.walk[j])
    requires !s.board.walk[k].CollisionRect().Intersects(s.ship)
    requires CheckCollisions(s.bullets, s.board.walk[k]).Ok? && CheckCollisions(s.bullets, s.board.walk[k]).value.hit
    requires s.board.walk[k].kind == Big && s.board.meteors.Fits(1) ==>
      Calm(s.ship, CheckCollisions(s.bullets, s.board.walk[k]).value.bullets.Live(),
           SmallMeteors(env.m, s.board.walk[k], env.draw(k), env.sprites.smallMeteor)[0])
    ensures Step(env, s, k).Ok?
    ensures Calm(s.ship, Step(env, s, k).value.bullets.Live(), Step(env, s, k).value.board.walk[j])
  {
    var me := s.board.walk[k];
    var c := CheckCollisions(s.bullets, me).value;
    CheckCollisionsHit(s.bullets, me);
    assert Step(env, s, k) == Ok(s.(board := ShotDown(env, s.board, k, me), bullets := c.bullets));
    ShotDownWalk(env, s.board, k, me, j);
    var w := ShotDown(env, s.board, k, me).walk[j];
    if j + 1 < s.board.meteors.len || me.kind != Big || !s.board.meteors.Fits(1) {
      var src := if j + 1 < s.board.meteors.len then j + 1 else j;
      assert w == s.board.walk[src] && src != k;
      assert Calm(s.ship, s.bullets.Live(), w);
      forall x | x in c.bullets.Live()
        ensures !Hits(x, w)
      {
        assert x in multiset(c.bullets.Live());
      }
    }
  }

  /** The end-to-end shoot-down, in a sweep over a live slice that uses
      the walked array: every meteor but the one at k is calm, the one at
      k misses the ship and is hit, and a big one's first half, should it
      be appended in place where the range reads it, is calm for the
      bullets that remain. After the sweep
      the hit bullets are gone, the meteor is removed from the live slice
      with a big one's halves at its end, and the score has risen by its
      award. */
  lemma SingleShootDown(env: Env, s: Sweep, k: nat)
    requires s.Coherent() && s.board.shared && k < s.board.meteors.len
    requires forall j :: 0 <= j < s.board.meteors.len && j != k ==> Calm(s.ship, s.bullets.Live(), s.board.walk[j])
    requires !s.board.walk[k].CollisionRect().Intersects(s.ship)
    requires CheckCollisions(s.bullets, s.board.walk[k]).Ok? && CheckCollisions(s.bullets, s.board.walk[k]).value.hit
    requires s.board.walk[k].kind == Big && s.board.meteors.Fits(1) ==>
      Calm(s.ship, CheckCollisions(s.bullets, s.board.walk[k]).value.bullets.Live(),
           SmallMeteors(env.m, s.board.walk[k], env.draw(k), env.sprites.smallMeteor)[0])
    ensures Run(env, s, 0, s.board.meteors.len).Ok?
    ensures var r := Run(env, s, 0, s.board.meteors.len).value;
      var me := s.board.walk[k];
      && r.bullets == CheckCollisions(s.bullets, me).value.bullets
      && r.ship == s.ship && r.restarted == s.restarted
      && r.board.meteors.Live() == s.board.meteors.Live()[..k] + s.board.meteors.Live()[k + 1..]
           + (if me.kind == Big then SmallMeteors(env.m, me, env.draw(k), env.sprites.smallMeteor) else [])
      && r.board.score == s.board.score + (if me.kind == Big then BigMeteorHitScore else SmallMeteorHitScore)
  {
    var end := s.board.meteors.len;
    var me := s.board.walk[k];
    var kids := SmallMeteors(env.m, me, env.draw(k), env.sprites.smallMeteor);
    QuietPrefix(env, s, 0, k, end);
    StepShootDown(env, s, k);
    CheckCollisionsHit(s.bullets, me);
    var s' := Step(env, s, k).value;
    assert Run(env, s, k, end) == Run(env, s', k + 1, end);
    forall j | k + 1 <= j < end
      ensures Calm(s'.ship, s'.bullets.Live(), s'.board.walk[j])
    {
      ShotDownCalm(env, s, k, j);
    }
    QuietPrefix(env, s', k + 1, end, end);
  }

  /** Two live small meteors in a full backing array of capacity 2, each
      hit by its own bullet. Shooting down the first moves the second to
      index 0 and leaves its stale copy in cell 1; the range reads that
      copy, its bullet hits it, and removing index 1 from a slice of length
      1 (`game.meteors[2:]`) panics. */
  lemma TwoSmallShotPanic(env: Env, a: Meteor, b: Meteor, b0: Bullet, b1: Bullet, ship: Rect, score: int)
    requires a.kind == Small && b.kind == Small
    requires !a.CollisionRect().Intersects(ship) && !b.CollisionRect().Intersects(ship)
    requires Hits(b0, a) && !Hits(b1, a) && Hits(b1, b)
    ensures Run(env, Sweep(Board([a, b], true, Slice([a, b], 2), score), Slice([b0, b1], 2), ship, false), 0, 2) == Panic
  {
    var s := Sweep(Board([a, b], true, Slice([a, b], 2), score), Slice([b0, b1], 2), ship, false);
    var bs := Slice([b1, b1], 1);
    assert s.bullets.Splice(0) == bs;
    assert CheckCollisions(s.bullets, a) == Ok(Checked(bs, true));
    var s' := s.(board := Board([b, b], true, Slice([b, b], 1), score + SmallMeteorHitScore), bullets := bs);
    assert s.board.meteors.Splice(0) == Slice([b, b], 1);
    assert Step(env, s, 0) == Ok(s');
    assert bs.Splice(0) == Slice([b1, b1], 0);
    assert CheckCollisions(bs, b) == Ok(Checked(Slice([b1, b1], 0), true));
    assert Step(env, s', 1) == Panic;
  }

  /** The first step of WrongMeteorRemoved: the big meteor is shot down
      and its halves go to a new array of capacity 4, while the walked
      array keeps the small meteor's stale copy in cell 1. */
  lemma BigShotIntoNewArray(env: Env, a: Meteor, b: Meteor, b0: Bullet, b1: Bullet, ship: Rect, score: int)
    requires a.kind == Big
    requires !a.CollisionRect().Intersects(ship)
    requires Hits(b0, a) && !Hits(b1, a)
    ensures var kids := SmallMeteors(env.m, a, env.draw(0), env.sprites.smallMeteor);
      Step(env, Sweep(Board([a, b], true, Slice([a, b], 2), score), Slice([b0, b1], 2), ship, false), 0)
      == Ok(Sweep(Board([b, b], false, Slice([b, kids[0], kids[1], VacantMeteor], 3), score + BigMeteorHitScore),
                  Slice([b1, b1], 1), ship, false))
  {
    var s := Sweep(Board([a, b], true, Slice([a, b], 2), score), Slice([b0, b1], 2), ship, false);
    var kids := SmallMeteors(env.m, a, env.draw(0), env.sprites.smallMeteor);
    var bs := Slice([b1, b1], 1);
    assert s.bullets.Splice(0) == bs;
    assert CheckCollisions(s.bullets, a) == Ok(Checked(bs, true));
    assert s.board.meteors.Splice(0) == Slice([b, b], 1);
    assert Slice([b, b], 1).Append(kids, VacantMeteor) == Slice([b, kids[0], kids[1], VacantMeteor], 3);
  }

  /** The second step of WrongMeteorRemoved: the range reads the small
      meteor's stale copy, its bullet hits it, and index 1 of the new live
      slice, the first half, is removed. */
  lemma StaleSmallHit(env: Env, b: Meteor, k0: Meteor, k1: Meteor, b1: Bullet, ship: Rect, score: int)
    requires b.kind == Small
    requires !b.CollisionRect().Intersects(ship) && Hits(b1, b)
    ensures Step(env, Sweep(Board([b, b], false, Slice([b, k0, k1, VacantMeteor], 3), score), Slice([b1, b1], 1), ship, false), 1)
      == Ok(Sweep(Board([b, b], false, Slice([b, k1, k1, VacantMeteor], 2), score + SmallMeteorHitScore),
                  Slice([b1, b1], 0), ship, false))
  {
    var bs := Slice([b1, b1], 1);
    assert bs.Splice(0) == Slice([b1, b1], 0);
    assert CheckCollisions(bs, b) == Ok(Checked(Slice([b1, b1], 0), true));
    assert Slice([b, k0, k1, VacantMeteor], 3).Splice(1) == Slice([b, k1, k1, VacantMeteor], 2);
  }

  /** A big meteor at index 0 and a small one at index 1 fill a backing
      array of capacity 2, and each is hit by its own bullet. Shooting down
      the big one appends its halves to a new array, but the range goes on
      reading the old one, where the small meteor's stale copy sits in cell
      1. Its bullet hits it, and index 1 of the new live slice is removed:
      the first half goes, and the small meteor that was hit survives. */
  lemma WrongMeteorRemoved(env: Env, a: Meteor, b: Meteor, b0: Bullet, b1: Bullet, ship: Rect, score: int)
    requires a.kind == Big && b.kind == Small
    requires !a.CollisionRect().Intersects(ship) && !b.CollisionRect().Intersects(ship)
    requires Hits(b0, a) && !Hits(b1, a) && Hits(b1, b)
    ensures var r := Run(env, Sweep(Board([a, b], true, Slice([a, b], 2), score), Slice([b0, b1], 2), ship, false), 0, 2);
      var kids := SmallMeteors(env.m, a, env.draw(0), env.sprites.smallMeteor);
      && r.Ok?
      && r.value.board.meteors.Live() == [b, kids[1]]
      && r.value.bullets.Live() == []
      && r.value.board.score == score + BigMeteorHitScore + SmallMeteorHitScore
  {
    var s := Sweep(Board([a, b], true, Slice([a, b], 2), score), Slice([b0, b1], 2), ship, false);
    var kids := SmallMeteors(env.m, a, env.draw(0), env.sprites.smallMeteor);
    BigShotIntoNewArray(env, a, b, b0, b1, ship, score);
    var s' := Sweep(Board([b, b], false, Slice([b, kids[0], kids[1], VacantMeteor], 3), score + BigMeteorHitScore),
                    Slice([b1, b1], 1), ship, false);
    StaleSmallHit(env, b, kids[0], kids[1], b1, ship, score + BigMeteorHitScore);
    var s'' := Sweep(Board([b, b], false, Slice([b, kids[1], kids[1], VacantMeteor], 2), score + BigMeteorHitScore + SmallMeteorHitScore),
                     Slice([b1, b1], 0), ship, false);
    assert Run(env, s, 0, 2) == Run(env, s', 1, 2);
    assert Run(env, s', 1, 2) == Run(env, s'', 2, 2);
    assert s''.board.meteors.Live() == [b, kids[1]];
  }
}
