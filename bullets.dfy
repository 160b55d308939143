/** Bullets and the bullet registry (internal/player/bullet_manager.go and
    the Bullet parts of internal/player/player.go; bullet_manager.go of the
    root package has the same append and the same collision loop).

    The registry's slice is a backing array (its length is the slice's
    capacity) and a live length. CheckCollisionsWithMeteor ranges over the
    slice as it was when the loop started while splicing the live slice:
    the range reads cell i of the backing array, which a splice at an
    earlier index has already overwritten with the cell after it, and a
    hit at an index the live slice no longer reaches makes `bm.bullets[i+1:]`
    go out of range, a run-time panic. */
module Bullets {
  import opened Platform
  import opened Vectors
  import opened Collision
  import opened Slices
  import opened Meteors

  /** Inset of a bullet's collision rectangle on every side. */
  const BulletMargin: real := 10.0

  datatype Bullet = Bullet(position: Vec, velocity: Vec, sprite: Size) {

    /** The sprite's box shrunk by BulletMargin on every side. */
    function CollisionRect(): (r: Rect)
      ensures r.x == position.x + BulletMargin && r.y == position.y + BulletMargin
      ensures r.MaxX() == position.x + sprite.width as real - BulletMargin
      ensures r.MaxY() == position.y + sprite.height as real - BulletMargin
    {
      NewRect(position.x + BulletMargin, position.y + BulletMargin,
              sprite.width as real - 2.0 * BulletMargin, sprite.height as real - 2.0 * BulletMargin)
    }

    /** Bullet.Update: the position moves by the velocity. */
    function Update(): (b: Bullet)
      ensures b.velocity == velocity && b.sprite == sprite
      ensures b.position.x - position.x == velocity.x && b.position.y - position.y == velocity.y
    {
      this.(position := position.Add(velocity.x, velocity.y))
    }
  }

  /** What an unused cell of a backing array holds (Go's nil pointer). */
  const Vacant: Bullet := Bullet(Vec(0.0, 0.0), Vec(0.0, 0.0), Size(0, 0))

  /** The test made for each bullet the loop reads. */
  predicate Hits(b: Bullet, meteor: Meteor) {
    b.CollisionRect().Intersects(meteor.CollisionRect())
  }

  /** Every bullet moved once. */
  function UpdateAll(bs: seq<Bullet>): (r: seq<Bullet>)
    ensures |r| == |bs|
    ensures forall k :: 0 <= k < |bs| ==> r[k] == bs[k].Update()
  {
    seq(|bs|, k requires 0 <= k < |bs| => bs[k].Update())
  }

  /** The state a collision check ends in: the slice and the `hit` flag. */
  datatype Checked = Checked(bullets: Slice<Bullet>, hit: bool)

  /** The loop of CheckCollisionsWithMeteor from index i on: `end` is the
      length the range statement captured, `s` the slice as it is now. */
  function ScanFrom(s: Slice<Bullet>, end: nat, i: nat, hit: bool, meteor: Meteor): (r: Outcome<Checked>)
    requires s.Valid() && end <= |s.cells| && i <= end
    ensures r.Ok? ==> r.value.bullets.Valid() && r.value.bullets.len <= s.len
    decreases end - i
  {
    if i == end then Ok(Checked(s, hit))
    else if Hits(s.cells[i], meteor) then
      if s.len <= i then Panic
      else ScanFrom(s.Splice(i), end, i + 1, true, meteor)
    else ScanFrom(s, end, i + 1, hit, meteor)
  }

  /** CheckCollisionsWithMeteor on the slice s. */
  function CheckCollisions(s: Slice<Bullet>, meteor: Meteor): Outcome<Checked>
    requires s.Valid()
  {
    ScanFrom(s, s.len, 0, false, meteor)
  }

  /** When no cell the loop still reads is hit, nothing changes. */
  lemma {:induction false} ScanQuiet(s: Slice<Bullet>, end: nat, i: nat, hit: bool, meteor: Meteor)
    requires s.Valid() && end <= |s.cells| && i <= end
    requires forall t :: i <= t < end ==> !Hits(s.cells[t], meteor)
    ensures ScanFrom(s, end, i, hit, meteor) == Ok(Checked(s, hit))
    decreases end - i
  {
    if i < end {
      ScanQuiet(s, end, i + 1, hit, meteor);
    }
  }

  /** A finished scan only removes bullets, keeps the order of the rest
      and the cells the range never reaches, and ends with `hit` set
      exactly when it entered with it set or removed something. */
  lemma {:induction false} ScanShrinks(s: Slice<Bullet>, end: nat, i: nat, hit: bool, meteor: Meteor)
    requires s.Valid() && s.len <= end <= |s.cells| && i <= end
    requires ScanFrom(s, end, i, hit, meteor).Ok?
    ensures var c := ScanFrom(s, end, i, hit, meteor).value;
      && c.bullets.Valid() && |c.bullets.cells| == |s.cells| && c.bullets.len <= s.len
      && c.bullets.cells[end..] == s.cells[end..]
      && (c.hit <==> hit || c.bullets.len < s.len)
      && IsSubsequence(c.bullets.Live(), s.Live())
    decreases end - i
  {
    if i == end {
      SubsequenceRefl(s.Live());
    } else if Hits(s.cells[i], meteor) {
      var s' := s.Splice(i);
      SpliceKeepsBeyond(s, i, end);
      SpliceIsSubsequence(s, i);
      ScanShrinks(s', end, i + 1, true, meteor);
      var c := ScanFrom(s', end, i + 1, true, meteor).value;
      SubsequenceTrans(c.bullets.Live(), s'.Live(), s.Live());
    } else {
      ScanShrinks(s, end, i + 1, hit, meteor);
    }
  }

  /** A scan that ends without `hit` set removed nothing: the slice comes
      back exactly as it went in. */
  lemma {:induction false} ScanMissKeeps(s: Slice<Bullet>, end: nat, i: nat, meteor: Meteor)
    requires s.Valid() && s.len <= end <= |s.cells| && i <= end
    requires ScanFrom(s, end, i, false, meteor).Ok?
    ensures !ScanFrom(s, end, i, false, meteor).value.hit ==> ScanFrom(s, end, i, false, meteor).value.bullets == s
    decreases end - i
  {
    if i < end {
      if Hits(s.cells[i], meteor) {
        ScanShrinks(s.Splice(i), end, i + 1, true, meteor);
      } else {
        ScanMissKeeps(s, end, i + 1, meteor);
      }
    }
  }

  /** Taking one more element x out before taking out what is removed
      later: everything gone is x or was gone later. */
  lemma RemovedAfterOneMore<T>(whole: multiset<T>, rest: multiset<T>, kept: multiset<T>, x: T)
    requires whole == rest + multiset{x} && kept <= rest
    ensures kept <= whole
    ensures forall y :: y in whole - kept ==> y == x || y in rest - kept
  {
  }

  /** A finished scan removes only bullets that hit the meteor: what is
      gone from the live bullets, counted with multiplicity, all hit it. */
  lemma {:induction false} ScanRemovesHitters(s: Slice<Bullet>, end: nat, i: nat, hit: bool, meteor: Meteor)
    requires s.Valid() && s.len <= end <= |s.cells| && i <= end
    requires ScanFrom(s, end, i, hit, meteor).Ok?
    ensures var c := ScanFrom(s, end, i, hit, meteor).value;
      && multiset(c.bullets.Live()) <= multiset(s.Live())
      && forall b :: b in multiset(s.Live()) - multiset(c.bullets.Live()) ==> Hits(b, meteor)
    decreases end - i
  {
    if i == end {
    } else if Hits(s.cells[i], meteor) {
      var s' := s.Splice(i);
      SpliceMultiset(s, i);
      ScanRemovesHitters(s', end, i + 1, true, meteor);
      var c := ScanFrom(s', end, i + 1, true, meteor).value;
      RemovedAfterOneMore(multiset(s.Live()), multiset(s'.Live()), multiset(c.bullets.Live()), s.cells[i]);
    } else {
      ScanRemovesHitters(s, end, i + 1, hit, meteor);
    }
  }

  /** CheckCollisionsWithMeteor reports a hit exactly when some bullet of
      the slice hits the meteor (a panic aside); without one it changes
      nothing; the survivors keep their order, and every bullet removed
      hits the meteor. */
  lemma CheckCollisionsHit(s: Slice<Bullet>, meteor: Meteor)
    requires s.Valid()
    ensures (forall j :: 0 <= j < s.len ==> !Hits(s.cells[j], meteor)) ==>
      CheckCollisions(s, meteor) == Ok(Checked(s, false))
    ensures (exists j :: 0 <= j < s.len && Hits(s.cells[j], meteor)) ==>
      CheckCollisions(s, meteor).Panic? || CheckCollisions(s, meteor).value.hit
    ensures CheckCollisions(s, meteor).Ok? ==>
      var c := CheckCollisions(s, meteor).value;
      && (c.hit <==> c.bullets.len < s.len)
      && (!c.hit ==> c.bullets == s)
      && IsSubsequence(c.bullets.Live(), s.Live())
      && multiset(c.bullets.Live()) <= multiset(s.Live())
      && forall b :: b in multiset(s.Live()) - multiset(c.bullets.Live()) ==> Hits(b, meteor)
  {
    if forall j :: 0 <= j < s.len ==> !Hits(s.cells[j], meteor) {
      ScanQuiet(s, s.len, 0, false, meteor);
    } else {
      assert exists j :: 0 <= j < s.len && Hits(s.cells[j], meteor);
      var k := FirstHit(s, meteor);
      ScanPrefix(s, s.len, 0, k, false, meteor);
      if ScanFrom(s.Splice(k), s.len, k + 1, true, meteor).Ok? {
        ScanShrinks(s.Splice(k), s.len, k + 1, true, meteor);
      }
    }
    if CheckCollisions(s, meteor).Ok? {
      ScanShrinks(s, s.len, 0, false, meteor);
      ScanMissKeeps(s, s.len, 0, meteor);
      ScanRemovesHitters(s, s.len, 0, false, meteor);
    }
  }

  /** The index of the first bullet that hits. */
  function FirstHit(s: Slice<Bullet>, meteor: Meteor): (k: nat)
    requires s.Valid() && exists j :: 0 <= j < s.len && Hits(s.cells[j], meteor)
    ensures k < s.len && Hits(s.cells[k], meteor)
    ensures forall t :: 0 <= t < k ==> !Hits(s.cells[t], meteor)
  {
    FirstHitFrom(s, meteor, 0)
  }

  function FirstHitFrom(s: Slice<Bullet>, meteor: Meteor, from: nat): (k: nat)
    requires s.Valid() && from <= s.len
    requires exists j :: from <= j < s.len && Hits(s.cells[j], meteor)
    ensures from <= k < s.len && Hits(s.cells[k], meteor)
    ensures forall t :: from <= t < k ==> !Hits(s.cells[t], meteor)
    decreases s.len - from
  {
    if Hits(s.cells[from], meteor) then from else FirstHitFrom(s, meteor, from + 1)
  }

  /** Cells that do not hit are passed over without change. */
  lemma {:induction false} ScanPrefix(s: Slice<Bullet>, end: nat, i: nat, k: nat, hit: bool, meteor: Meteor)
    requires s.Valid() && end <= |s.cells| && i <= k <= end
    requires forall t :: i <= t < k ==> !Hits(s.cells[t], meteor)
    ensures ScanFrom(s, end, i, hit, meteor) == ScanFrom(s, end, k, hit, meteor)
    decreases k - i
  {
    if i < k {
      ScanPrefix(s, end, i + 1, k, hit, meteor);
    }
  }

  /** With exactly one bullet hitting, that bullet is removed and nothing
      else changes. */
  lemma SingleHit(s: Slice<Bullet>, k: nat, meteor: Meteor)
    requires s.Valid() && k < s.len && Hits(s.cells[k], meteor)
    requires forall j :: 0 <= j < s.len && j != k ==> !Hits(s.cells[j], meteor)
    ensures CheckCollisions(s, meteor) == Ok(Checked(s.Splice(k), true))
    ensures s.Splice(k).Live() == s.Live()[..k] + s.Live()[k + 1..]
  {
    ScanPrefix(s, s.len, 0, k, false, meteor);
    var s' := s.Splice(k);
    forall t | k + 1 <= t < s.len ensures !Hits(s'.cells[t], meteor) {
      SpliceShifts(s, k, t);
    }
    ScanQuiet(s', s.len, k + 1, true, meteor);
    SpliceRemoves(s, k);
  }

  /** The scan never rewrites a cell the range has passed, and it keeps
      live every index the range has passed. */
  lemma {:induction false} ScanKeepsPassed(s: Slice<Bullet>, end: nat, i: nat, hit: bool, meteor: Meteor)
    requires s.Valid() && end <= |s.cells| && i <= end
    requires ScanFrom(s, end, i, hit, meteor).Ok?
    ensures var c := ScanFrom(s, end, i, hit, meteor).value;
      && |c.bullets.cells| == |s.cells|
      && (forall t :: 0 <= t < i ==> c.bullets.cells[t] == s.cells[t])
      && (if i <= s.len then i else s.len) <= c.bullets.len
    decreases end - i
  {
    if i < end {
      if Hits(s.cells[i], meteor) {
        var s' := s.Splice(i);
        ScanKeepsPassed(s', end, i + 1, true, meteor);
        forall t | 0 <= t < i ensures s'.cells[t] == s.cells[t] {
          SpliceShifts(s, i, t);
        }
      } else {
        ScanKeepsPassed(s, end, i + 1, hit, meteor);
      }
    }
  }

  /** When the bullet at i hits, the one behind it shifts into index i,
      which the range has passed: it is never checked against this meteor
      and survives the scan at index i, whether it hits or not. */
  lemma ShiftedBulletNeverChecked(s: Slice<Bullet>, k: nat, meteor: Meteor)
    requires s.Valid() && k + 1 < s.len && Hits(s.cells[k], meteor)
    requires forall t :: 0 <= t < k ==> !Hits(s.cells[t], meteor)
    ensures CheckCollisions(s, meteor).Ok? ==>
      k < CheckCollisions(s, meteor).value.bullets.len && CheckCollisions(s, meteor).value.bullets.Live()[k] == s.cells[k + 1]
  {
    ScanPrefix(s, s.len, 0, k, false, meteor);
    var s' := s.Splice(k);
    if ScanFrom(s', s.len, k + 1, true, meteor).Ok? {
      ScanKeepsPassed(s', s.len, k + 1, true, meteor);
      SpliceShifts(s, k, k);
    }
  }

  /** Two live bullets that both hit: the first is removed, the second
      moves to index 0, and the range then reads the stale copy left in
      cell 1, which hits again at an index the live slice no longer
      reaches: `bm.bullets[2:]` on a slice of length 1 panics. */
  lemma TwoHitsPanic(s: Slice<Bullet>, meteor: Meteor)
    requires s.Valid() && s.len == 2
    requires Hits(s.cells[0], meteor) && Hits(s.cells[1], meteor)
    ensures CheckCollisions(s, meteor) == Panic
  {
    var s1 := s.Splice(0);
    assert s1.cells[1] == s.cells[1];
  }

  /** Three live bullets where the first two hit and the third does not:
      after the first is removed the second sits at index 0, which the
      range has passed, so it survives although it hits. */
  lemma ShiftedBulletSkipped(s: Slice<Bullet>, meteor: Meteor)
    requires s.Valid() && s.len == 3
    requires Hits(s.cells[0], meteor) && Hits(s.cells[1], meteor) && !Hits(s.cells[2], meteor)
    ensures CheckCollisions(s, meteor) == Ok(Checked(s.Splice(0), true))
    ensures s.Splice(0).Live() == [s.cells[1], s.cells[2]]
    ensures Hits(s.Splice(0).Live()[0], meteor)
  {
    var s1 := s.Splice(0);
    assert s1.cells[1] == s.cells[2] && s1.cells[2] == s.cells[2];
    assert s1.cells[..2] == [s.cells[1], s.cells[2]];
  }

  /** The registry: `bullets` is the backing array of the slice (its
      length is the capacity), `count` the slice's length. */
  class BulletManager {
    var bullets: array<Bullet>
    var count: nat

    ghost predicate Valid()
      reads this
    {
      count <= bullets.Length
    }

    /** The slice the registry holds. */
    function View(): Slice<Bullet>
      reads this, bullets
    {
      Slice(bullets[..], count)
    }

    /** NewBulletManager (`[]*Bullet{}`) and the zero value
        `&BulletManager{}` (a nil slice) alike: no bullets, no capacity. */
    constructor ()
      ensures Valid() && View() == Empty()
    {
      bullets := new Bullet[0];
      count := 0;
    }

    /** Reset: the slice becomes nil. */
    method Reset()
      modifies this
      ensures Valid() && View() == Empty()
      ensures fresh(bullets)
    {
      bullets := new Bullet[0];
      count := 0;
    }

    /** RegisterNewBullet: `append(bm.bullets, bullet)`. */
    method RegisterNewBullet(b: Bullet)
      requires Valid()
      modifies this, bullets
      ensures Valid()
      ensures View() == old(View()).Append([b], Vacant)
      ensures View().Live() == old(View().Live()) + [b]
      ensures old(View()).Fits(1) ==> bullets == old(bullets)
      ensures !old(View()).Fits(1) ==> fresh(bullets)
    {
      bullets := AppendTo(bullets, count, [b], Vacant);
      count := count + 1;
      AppendLive(old(View()), [b], Vacant);
    }

    /** UpdateBullets: every live bullet moves once; length, order and the
        cells beyond the length are unchanged. */
    method UpdateBullets()
      requires Valid()
      modifies bullets
      ensures Valid()
      ensures bullets[..] == UpdateAll(old(bullets[..count])) + old(bullets[count..])
      ensures View().Live() == UpdateAll(old(View().Live()))
    {
      var j := 0;
      while j < count
        invariant 0 <= j <= count
        invariant forall t :: 0 <= t < j ==> bullets[t] == old(bullets[t]).Update()
        invariant forall t :: j <= t < bullets.Length ==> bullets[t] == old(bullets[t])
      {
        bullets[j] := bullets[j].Update();
        j := j + 1;
      }
      assert bullets[..] == UpdateAll(old(bullets[..count])) + old(bullets[count..]);
    }

    /** `bm.bullets = append(bm.bullets[:i], bm.bullets[i+1:]...)` for an
        index inside the live slice: the tail shifts left in place. */
    method RemoveAt(i: nat)
      requires Valid() && i < count
      modifies this`count, bullets
      ensures Valid()
      ensures View() == old(View()).Splice(i)
    {
      SpliceInPlace(bullets, count, i);
      count := count - 1;
    }

    /** CheckCollisionsWithMeteor, with the panic as an outcome. */
    method CheckCollisionsWithMeteor(meteor: Meteor) returns (r: Outcome<bool>)
      requires Valid()
      modifies this`count, bullets
      ensures Valid()
      ensures CheckCollisions(old(View()), meteor).Panic? ==> r == Panic
      ensures CheckCollisions(old(View()), meteor).Ok? ==>
        && r == Ok(CheckCollisions(old(View()), meteor).value.hit)
        && View() == CheckCollisions(old(View()), meteor).value.bullets
    {
      var hit := false;
      var end := count;
      var i := 0;
      while i < end
        invariant Valid() && i <= end <= bullets.Length && count <= end
        invariant ScanFrom(View(), end, i, hit, meteor) == CheckCollisions(old(View()), meteor)
      {
        var bullet := bullets[i];
        if bullet.CollisionRect().Intersects(meteor.CollisionRect()) {
          hit := true;
          if count <= i {
            return Panic;
          }
          RemoveAt(i);
        }
        i := i + 1;
      }
      return Ok(hit);
    }
  }
}
