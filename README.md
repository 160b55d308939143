# Asteroids frame update, modelled in Dafny

This project models one frame of a small asteroids-style game written in Go.
The frame does this:

- The ship turns, thrusts, wraps at the screen edges and fires through a
  cooldown timer into its bullet registry.
- The spawn timer may add a big meteor.
- Every meteor and bullet moves once.
- A collision sweep runs over the meteors. A meteor touching the ship
  restarts the game: new player, no meteors, no bullets, score 0. A meteor
  hit by a bullet is removed, scoring 100 for a big one (whose two small
  halves are appended) and 50 for a small one.

The repository holds the newer `internal/` packages and an older root
package. The model follows the internal packages and compares the root
versions with them where they differ: the older ship has a third of the
thrust, no wrap, no lives and no weapon, and the older `Normalize` has no
zero guard.

`main.go` uses a player with a collision box and a bullet registry, a
`Timer` type and a `meteorType` field. Among the root files only
`meteor.go` has `meteorType`; the root `Player` has neither a collision
box nor a registry, and no root file defines `Timer`. So `Games.Game` is built on the internal
player, registry and meteor models.

Coordinates are `real`. `math.Cos`, `math.Sin` and `math.Sqrt` are
function values in a `Math` record. Lemmas that need the usual identities
(cos² + sin² = 1, even/odd symmetry, a square root whose square is its
argument) require `TrigSound` or `SqrtSound`. The parameters are:

- each `rand.Float64()` draw;
- the keys pressed this frame;
- the frame's elapsed time;
- the sprite extents.

The screen is 1600 × 900, the values from `main.go`.

Go slices are modelled as a backing array plus a length (`Slices.Slice`):

- `append(s[:i], s[i+1:]...)` shifts the tail left inside the same array.
- `append(s, xs...)` writes in place when the capacity suffices and
  otherwise copies into a new, larger array.

Both collision loops splice the slice they `range` over. The range reads
the original backing array up to the original length. Two consequences
are proved:

- The element shifted into index i is skipped on that pass.
- A hit at an index the shortened slice no longer reaches makes
  `s[i+1:]` go out of range. This is a Go run-time panic, modelled as the
  `Panic` outcome.

In the meteor sweep, a restart or a growing append moves the live slice
to a new array. The range then keeps reading the old one, and
`Frames.Board` tracks which case holds.

The imperative parts are Dafny classes over arrays:

- `Bullets.BulletManager`;
- `Players.Player`;
- `Games.Game`;
- the `Vectors.Vector` cell.

Each of their methods is proved against pure specification functions
(`Bullets.CheckCollisions`, `Frames.Run`, `Players.Wrapped`,
`Timers.Timer.Tick`, …). The properties the game relies on are proved as
lemmas about those functions.

## Model

| member | source | states |
|---|---|---|
| Vectors.Vector.constructor | internal/vector/vector.go:12-17 | NewVector stores x and y unchanged |
| Vectors.Vector.Add | internal/vector/vector.go:19-22 | adds (dx, dy) to the cell in place, componentwise |
| Vectors.AddZeroAndBack | internal/vector/vector.go:19-22 | Add(0, 0) is a no-op, and adding (dx, dy) and then (-dx, -dy) restores the vector |
| Vectors.Vector.Rotate | internal/vector/vector.go:24-33 | overwrites the receiver with (x cos θ − y sin θ, x sin θ + y cos θ), θ = deg·π/180, and returns the same cell |
| Vectors.RotateUnitX | internal/vector/vector.go:24-27 | rotating (1, 0) by deg gives (cos θ, sin θ) for θ in radians |
| Vectors.RotateKeepsLength | internal/vector/vector.go:24-27 | with sound trigonometry a rotation keeps the squared length |
| Vectors.RotateRoundTrip | internal/vector/vector.go:24-33 | with sound trigonometry, rotating by deg and then by −deg gives back the vector |
| Vectors.Vector.Normalize | internal/vector/vector.go:35-42 | returns a fresh cell holding the normalized value; the receiver is unchanged |
| Vectors.NormalizeIsUnit | internal/vector/vector.go:35-42 | below length 1e-9 the result is the zero vector; otherwise it has length one and scales back to the input |
| LegacyVectors.Normalize | vector.go:22-25 | the unguarded division is non-finite exactly when the length is zero, and otherwise scales back to the input |
| LegacyVectors.NormalizeVersionsCompared | vector.go:22-25 | at or above 1e-9 the two versions agree; strictly between 0 and 1e-9 the old one still gives a unit vector where the new one gives zero; at zero only the new one is finite |
| Collision.NewRect | internal/collision/collision.go:14-21 | stores its four arguments unchanged; MaxX = x + w and MaxY = y + h |
| Collision.Rect.MaxX | internal/collision/collision.go:23-25 | the right edge lies `width` beyond x |
| Collision.Rect.MaxY | internal/collision/collision.go:27-29 | the bottom edge lies `height` beyond y |
| Collision.IntersectsSymmetric | internal/collision/collision.go:31-36 | a.Intersects(b) iff b.Intersects(a) |
| Collision.IntersectsSelf | internal/collision/collision.go:31-36 | a rectangle of non-negative size intersects itself |
| Collision.TouchingEdgesIntersect | internal/collision/collision.go:32-35 | {0,0,10,10} and {10,0,10,10}, which share only an edge, intersect; {20,20,10,10} does not intersect the first |
| Collision.SeparatedDoNotIntersect | internal/collision/collision.go:32-35 | a rectangle strictly beyond any edge of another intersects it in neither order |
| Collision.IntersectsIffCommonPoint | internal/collision/collision.go:31-36 | for non-negative sizes the test holds exactly when some point lies in both closed rectangles |
| Collision.InsideHitsOutside | internal/collision/collision.go:31-36 | a rectangle lying within another (its edges inside the other's on both axes) is hit, in either order, only by what hits the other |
| Meteors.Meteor.CollisionRect | internal/meteor/meteor.go:97-108 | the sprite box inset by 10 on every side (the root meteor.go is the same) |
| Meteors.Meteor.Update | internal/meteor/meteor.go:110-114 | the position moves by the velocity; nothing else changes (the root meteor.go is the same) |
| Meteors.UpdateIsLinear | internal/meteor/meteor.go:110-114 | meteors never wrap or stop: after n frames they have moved by exactly n times their velocity, which is unchanged |
| Meteors.IsBigSpawnedNotSplit | internal/meteor/meteor.go:32-95 | IsBig holds iff the type is big; every spawned meteor is big and neither half of a split is, so a half is never split again |
| Meteors.NewMeteor | internal/meteor/meteor.go:32-60 | always a big meteor with the spawn sprite, and its stored angle is the drawn spawn angle (the root meteor.go spawns the same way) |
| Meteors.SpawnDrawRanges | internal/meteor/meteor.go:40-50 | with draws in [0, 1) the angle lies in [0, 2π) and the speed in [0.9, 1.9) |
| Meteors.NewMeteorHeadsToCentre | internal/meteor/meteor.go:35-51 | with sound trigonometry and square root, the spawn point lies on the circle of radius ScreenWidth/2 around the centre and the velocity is the unit vector to the centre times the speed |
| Meteors.SplitAngleRange | internal/meteor/meteor.go:67-69 | with a draw in [0, 1) the split angle lies in [10, 45) |
| Meteors.SmallMeteors | internal/meteor/meteor.go:62-91 | exactly two small meteors at the parent's position with the parent's angle, their velocities the parent's rotated by +a and −a |
| Meteors.NewSmallMeteors | internal/meteor/meteor.go:62-91 | copies the parent's velocity into two fresh cells before rotating each in place, so the result is exactly SmallMeteors and the parent's velocity is not rotated (the root meteor.go splits the same way) |
| Meteors.HitboxInsideSprite | internal/meteor/meteor.go:97-108 | whatever touches a meteor's collision box touches its full sprite box: the inset only shrinks hits |
| Meteors.SplitKeepsSpeed | internal/meteor/meteor.go:71-72 | with sound trigonometry both halves keep the parent's speed, and turning each back by its angle gives the parent's velocity |
| Timers.Timer.Update | internal/player/player.go:114 | the cooldown accumulates the frame's time and keeps its duration |
| Timers.Timer.Reset | internal/player/player.go:116 | the elapsed time returns to zero; with a positive duration the timer is then not ready |
| Timers.Timer.Tick | main.go:87-89 | the update-then-reset-if-ready pattern: zero after a firing frame, otherwise advanced by the frame time and still below the duration |
| Timers.NewTimer | internal/player/player.go:46 | a new timer has its duration and nothing elapsed |
| Timers.QuietBelowDuration | main.go:87-93 | while the accumulated time stays below the duration nothing fires, and the elapsed time is the sum of the frame times |
| Timers.FiresOnReaching | main.go:87-89 | a frame that brings the total to the duration fires and restarts the timer from zero |
| Timers.NoBackToBackFiring | internal/player/player.go:113-116 | with frames shorter than the duration, a firing frame is never followed by another firing frame |
| Slices.Slice.Splice | internal/player/bullet_manager.go:46 | removing element i keeps the capacity and shortens the slice by one |
| Slices.SpliceRemoves | internal/player/bullet_manager.go:46 | after the splice the live elements are the old ones without element i, in order; cells from the old last index on are untouched |
| Slices.SpliceShifts | internal/player/bullet_manager.go:43-46 | cell i now holds what was at i + 1; cells before i and from the old last index on are unchanged |
| Slices.SpliceKeepsBeyond | internal/player/bullet_manager.go:46 | a splice does not touch cells at or beyond the old length |
| Slices.SpliceMultiset | internal/player/bullet_manager.go:46 | a splice takes exactly one copy of element i out of the live elements, counted with multiplicity |
| Slices.SpliceIsSubsequence | internal/player/bullet_manager.go:46 | the live elements after a splice are a subsequence of those before |
| Slices.Slice.Append | internal/player/bullet_manager.go:24 | the length grows by the number appended; the capacity is kept when it suffices and becomes GrowCap otherwise |
| Slices.AppendLive | internal/player/bullet_manager.go:24 | the live elements after an append are the old ones followed by the new ones; an in-place append leaves the cells beyond untouched |
| Slices.GrowCap | main.go:116 | a needed-or-double stand-in for the runtime's growth rule: the new capacity is at least what is needed |
| Slices.SpliceInPlace | main.go:112 | on an array, the in-place shift gives exactly Slice.Splice |
| Slices.AppendTo | main.go:116 | on an array, gives exactly Slice.Append: the same array when it fits, otherwise a fresh one with the old array untouched |
| Bullets.Bullet.CollisionRect | internal/player/player.go:157-168 | the sprite box inset by 10 on every side |
| Bullets.Bullet.Update | internal/player/player.go:170-173 | the position moves by the velocity; velocity and sprite are unchanged |
| Bullets.UpdateAll | internal/player/bullet_manager.go:27-33 | same length, and each bullet moved once in place of the original |
| Bullets.ScanFrom | internal/player/bullet_manager.go:41-51 | a scan that finishes leaves a well-formed slice no longer than before |
| Bullets.ScanQuiet | internal/player/bullet_manager.go:43-44 | when no cell the loop still reads hits, the scan changes nothing |
| Bullets.ScanShrinks | internal/player/bullet_manager.go:41-51 | a finished scan keeps the capacity and the cells past the range and removes only bullets; survivors are a subsequence; `hit` is set iff it was set or something was removed |
| Bullets.ScanMissKeeps | internal/player/bullet_manager.go:42-50 | a scan from `hit = false` that ends with it false returns the slice unchanged |
| Bullets.ScanRemovesHitters | internal/player/bullet_manager.go:41-51 | a finished scan's survivors are a sub-multiset of the live bullets, and every bullet removed hits the meteor |
| Bullets.CheckCollisionsHit | internal/player/bullet_manager.go:41-51 | with no hitting bullet the result is false and nothing changes; with one, it panics or returns true; without a panic, the result is true iff the slice shrank and false iff it is unchanged; survivors are a subsequence in their original order, and every bullet removed (counted with multiplicity) hits the meteor (the root bullet_manager.go has the same loop) |
| Bullets.SingleHit | internal/player/bullet_manager.go:43-46 | with exactly one hitting bullet at k, exactly that bullet is removed and the result is true |
| Bullets.TwoHitsPanic | internal/player/bullet_manager.go:46 | two live bullets that both hit: the range reads the stale second cell at index 1 of a slice of length 1, and `bm.bullets[2:]` panics |
| Bullets.ScanKeepsPassed | internal/player/bullet_manager.go:41-51 | the scan never rewrites a cell the range has passed, keeps every passed index live, and keeps the capacity |
| Bullets.ShiftedBulletNeverChecked | internal/player/bullet_manager.go:43-46 | when the first hitting bullet at k is removed, the one behind it shifts into index k, which the range has passed: it survives at index k whether it hits or not |
| Bullets.ShiftedBulletSkipped | internal/player/bullet_manager.go:43-46 | with bullets [a, b, c] where a and b hit, b shifts to index 0, which the range has passed, and survives although it hits (the same in the root bullet_manager.go) |
| Bullets.BulletManager.constructor | internal/player/bullet_manager.go:13-17 | a new registry (NewBulletManager, or the zero value NewPlayer uses) is empty, as is the root NewBulletManager |
| Bullets.BulletManager.Reset | internal/player/bullet_manager.go:19-21 | the registry becomes the empty nil slice |
| Bullets.BulletManager.RegisterNewBullet | internal/player/bullet_manager.go:23-25 | exactly one bullet is appended at the end, earlier bullets unchanged and in order; the same array when the capacity suffices, a fresh one otherwise (the root append is the same) |
| Bullets.BulletManager.UpdateBullets | internal/player/bullet_manager.go:27-33 | every live bullet moves once; length, order and cells beyond the length are unchanged |
| Bullets.BulletManager.RemoveAt | internal/player/bullet_manager.go:46 | the in-place splice of a live index |
| Bullets.BulletManager.CheckCollisionsWithMeteor | internal/player/bullet_manager.go:41-51 | panics exactly when CheckCollisions does; otherwise returns its hit flag and leaves the registry holding its slice (the root method is the same loop) |
| Players.HeadingIsUnit | internal/player/player.go:74-75 | with sound trigonometry the heading (cos, sin of 270 + rotation degrees) has length one |
| Players.Turned | internal/player/player.go:77-83 | Left adds 2 and Right subtracts 2; both or neither leave the rotation unchanged |
| Players.Thrust | internal/player/player.go:84-87 | without Up the velocity is unchanged; with Up it changes by exactly the acceleration times the heading (cos, sin of 270 + rotation degrees) |
| Players.ThrustStep | internal/player/player.go:84-87 | with Up the velocity changes by a vector of length exactly the acceleration |
| Players.Wrapped | internal/player/player.go:93-104 | the wrapped position lies in [0, W] × [0, H]; on-screen coordinates, edges included, stay; beyond the far edge goes to 0, below 0 to the far edge |
| Players.WrapIdempotent | internal/player/player.go:93-104 | wrapping twice is wrapping once |
| Players.UpdatedPositionNearScreen | internal/player/player.go:93-108 | after the wrap and the move, x − vx lies in [0, W] and y − vy in [0, H] |
| Players.ShipRect | internal/player/player.go:137-148 | the ship box is the sprite box inset by 15 on every side |
| Players.StartPosition | internal/player/player.go:35-42 | the start corner plus half the sprite (integer halves) is the screen centre |
| Players.FiredBullet | internal/player/player.go:182-194 | a new bullet starts at the ship's position with the bullet sprite, and its velocity is the ship's plus 5 times the heading |
| Players.FiredBulletRelativeSpeed | internal/player/player.go:182-186 | with sound trigonometry a bullet's speed relative to the ship is exactly 5 |
| Players.Player.constructor | internal/player/player.go:32-49 | 3 lives, start position, zero velocity, rotation 0, a 200 ms cooldown and a fresh empty registry |
| Players.Player.Reset | internal/player/player.go:63-68 | one life fewer, the exact screen centre (no half-sprite offset), at rest and facing up; bullets and cooldown untouched |
| Players.Player.Shoot | internal/player/player.go:113-120 | the cooldown ticks; exactly when it fires, one bullet from the current state is appended to the registry |
| Players.Player.Wrap | internal/player/player.go:93-104 | the four edge checks give exactly Wrapped |
| Players.Player.Update | internal/player/player.go:70-111 | new rotation Turned, velocity Thrust along the heading before the turn, position Wrapped(old) plus the velocity; with Space the cooldown ticks, and a firing frame appends the bullet fired from the position before the wrap with the new velocity and rotation; lives unchanged |
| LegacyPlayers.LegacyPlayer.constructor | player.go:19-34 | centred like the internal ship, at rest, facing up |
| LegacyPlayers.LegacyPlayer.Update | player.go:36-73 | Turned rotation, Thrust with acceleration 0.01 along the heading before the turn, and one move by the velocity with no wrap |
| LegacyPlayers.ThrustVersionsCompared | player.go:51-59 | the internal ship's thrust step is three times the root ship's, in the same direction |
| LegacyPlayers.MoveVersionsCompared | player.go:68 | on screen both versions move to the same place; beyond the right edge only the internal one wraps |
| Games.MovedMeteors | main.go:95-97 | every live meteor moved once, in place of the original; length, capacity and the cells beyond the length unchanged |
| Games.MovedBullets | main.go:99-101 | the live bullets are exactly UpdateAll of the old ones, the length unchanged |
| Frames.Restarted | main.go:104-109 | after a restart: no meteors, no bullets, score 0, the new player's box, and the range still walks the old array |
| Frames.RemovedAt | main.go:112 | the splice keeps the score and the walked array's length |
| Frames.Appended | main.go:116 | the append keeps the score and the walked array's length |
| Frames.ShotDown | main.go:110-120 | a shoot-down keeps the board well-formed |
| Frames.Step | main.go:103-121 | one iteration keeps the sweep well-formed and the walked array's length; a restarted game stays restarted |
| Frames.Run | main.go:103-121 | a sweep that finishes leaves a well-formed state; a restarted game stays restarted |
| Frames.StepScore | main.go:108-118 | each iteration raises the score by multiples of 50 from where it was, or from 0 after a restart; without a restart it rises by at most 100 per bullet it used up |
| Frames.RunScore | main.go:103-121 | over a whole sweep the score only rises by multiples of 50, from its start or from 0 after a restart; without a restart it rises by at most 100 per bullet used up, so every award is paid for with a bullet (StepShootDown gives the exact award of each shoot-down) |
| Frames.RestartClears | main.go:104-110 | a meteor touching the ship restarts the game, and the empty registry cannot shoot it down |
| Frames.AfterRestartRunStays | main.go:103-121 | once the game has restarted, the rest of the sweep leaves the state exactly as it is |
| Frames.RestartFrame | main.go:103-110 | a meteor touching the ship at index i ends the sweep from i in the restarted state: no meteors, no bullets, score 0, the start ship |
| Frames.RunRestartCleared | main.go:103-121 | a sweep that restarted the game anywhere ends in the restarted state: no meteors, no bullets, score 0, the start ship |
| Frames.StepMissKeepsBoard | main.go:110-111 | a meteor that misses the ship and is not hit leaves the meteors and the score as they were |
| Frames.QuietRun | main.go:103-121 | a sweep with no ship contact and no bullet hits changes nothing |
| Frames.StepShootDown | main.go:110-119 | a hit meteor at live index i is removed; a big one's two halves are appended at the end with +100, a small one gives +50; the registry lost a bullet |
| Frames.QuietPrefix | main.go:103-111 | meteors that miss the ship and that no bullet hits are passed over without any change |
| Frames.ShotDownWalk | main.go:103-117 | after a shoot-down at k on the shared array, each later cell the range reads holds its right neighbour, except the last live one, which keeps its meteor or, after an in-place append, holds the first half |
| Frames.ShotDownCalm | main.go:103-117 | when every other meteor is calm and a big meteor's first half is calm for the remaining bullets, every meteor read after the shoot-down is calm |
| Frames.ShotDownSkipsNext | main.go:103-112 | after a shoot-down at i the next meteor sits at i, which the range has passed, so the range reads the one after it next |
| Frames.SingleShootDown | main.go:103-121 | any number of meteors on the shared array, only the one at k hit and none touching the ship, and a big one's first half calm should it be appended in place where the range reads it: after the sweep the hit bullets are gone, that meteor is removed from the live slice with a big one's halves appended, the score rises by 100 or 50, and the ship is unchanged |
| Frames.TwoSmallShotPanic | main.go:103-112 | two small meteors filling a capacity-2 array, each hit by its own bullet: the range reads the second one's stale copy at index 1 and removing index 1 of a slice of length 1 panics |
| Frames.WrongMeteorRemoved | main.go:103-117 | a big meteor and a small one filling a capacity-2 array, each hit by its own bullet: the halves go to a new array, the range reads the small one's stale copy, and index 1 of the new slice, the first half, is removed while the small meteor that was hit survives |
| Games.Game.constructor | main.go:146-152 | a new player, no meteors, score 0, a 5 s spawn timer |
| Games.Game.SweepStart | main.go:85-101 | the state before the sweep is well-formed, with the range walking the live slice's own array |
| Games.Game.Restart | main.go:104-109 | gives exactly Restarted of the old state, with a fresh player in its start state |
| Games.Game.RemoveMeteorAt | main.go:112 | the in-place splice gives exactly RemovedAt |
| Games.Game.AppendMeteors | main.go:116 | the append gives exactly Appended |
| Games.Game.Split | main.go:113-116 | +100 and the two halves appended, as Appended |
| Games.Game.ShootDown | main.go:111-120 | the state after a shoot-down is exactly ShotDown |
| Games.Game.Visit | main.go:104-120 | one iteration gives exactly Step, its panic included |
| Games.Game.ResolveCollisions | main.go:103-121 | the loop panics exactly when Run does and otherwise ends in Run's state; after a restart the player is fresh and in its start state |
| Games.Game.SpawnMeteor | main.go:87-93 | the spawn timer ticks; exactly when it fires, one new big meteor is appended at the end |
| Games.Game.MoveMeteors | main.go:95-97 | the meteors become MovedMeteors of the old ones |
| Games.Game.Prepare | main.go:85-101 | the player's frame, the spawn and the moves give exactly SweepStart |
| Games.Game.Update | main.go:84-124 | panics exactly when the sweep from SweepStart does; otherwise the game holds the sweep's end state; without a restart the player's fields are those of Player.Update; after one the player is new and there are no meteors, no bullets and score 0 |

## Left out

- Drawing, `Layout`, the score text, `ebiten.RunGame`, image and font loading, and the embedded assets: rendering, windowing and I/O. Sprite extents are parameters.
- `ebiten.IsKeyPressed` and `rand.Float64`: the keys are a `Keys` value and each draw is a real parameter. The draw ranges [0, 1) are assumed only by the lemmas that use them.
- The `game/internal/timer` and `game/config` packages are not part of this model. The timer is modelled from its use (Update, IsReady, Reset, NewTimer), and the frame time is a parameter. The screen size is taken from `main.go`.
- float64 arithmetic: coordinates are exact reals, and cos, sin and sqrt are uninterpreted. Rounding, overflow and the tolerance-based vector tests are not modelled.
- Slices.GrowCap: a needed-or-double stand-in for the runtime's growth rule. Go's rule agrees with it below capacity 256 except for rounding up to an allocator size class; from 256 on Go grows by about a quarter plus 192. Which array a growing append leaves the range reading does not depend on the capacity chosen; only the capacity, and so whether a later append fits, does.
- Pointer identity: bullets and meteors are `*Bullet` and `*Meteor` in Go. Here each slice cell holds the value, and moving a bullet or meteor rewrites its cell. In Go the old array and the live slice share pointers, and a splice leaves a second pointer to the last element in the stale cell. Nothing is lost, because no bullet or meteor is mutated while a second reference to it is read: the move loops run over the live elements, which are distinct, before the sweep, and the sweep only reads them. The split copies the parent's velocity before rotating.
- The player's debug `fmt.Println` in `player.go`.
- `Player.BulletManager()` and `Player.RemainingLives()`: field accessors with nothing to state. `Player.HasRemainingLives` is modelled as the predicate `lives > 0` and has no row, because there is nothing to prove about it beyond its definition. No core code path lets lives reach zero: the restart in `main.go` creates a new player and never calls `Reset`.
- `Game.bulletTimer` is created by `main()` and never used. The constructor sets it; nothing else reads it.
- Vectors.Vector.X and Vectors.Vector.Y return the cell's components. They have no contract of their own beyond the constructor's `Value()`.
- Frames.RunScore: bounds a whole sweep's score gain (multiples of 50, at most 100 per bullet used up) instead of summing the award of each shoot-down; the exact award of one shoot-down is stated by Frames.StepShootDown.
- Frames.ShotDown, Frames.Step, Frames.Run, Frames.RemovedAt and Frames.Appended: each one's own `ensures` states only well-formedness. Their meaning is stated by the lemmas that follow them and by the Game methods proved equal to them.
