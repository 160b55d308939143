/** The cooldown timer of the `game/internal/timer` package (its source is
    not part of this model): it accumulates elapsed time, is ready once the
    elapsed time reaches its duration, and is reset to zero. The frame's
    elapsed time is a parameter. */
module Timers {

  datatype Timer = Timer(duration: real, elapsed: real) {

    /** timer.Update: add the frame's elapsed time. */
    function Update(dt: real): (t: Timer)
      ensures t.duration == duration && t.elapsed == elapsed + dt
    {
      this.(elapsed := elapsed + dt)
    }

    /** timer.IsReady. */
    predicate IsReady() {
      elapsed >= duration
    }

    /** timer.Reset. */
    function Reset(): (t: Timer)
      ensures t.duration == duration && t.elapsed == 0.0
      ensures duration > 0.0 ==> !t.IsReady()
    {
      this.(elapsed := 0.0)
    }

    /** Whether the update-then-test pattern of the callers fires this
        frame: the timer is ready once the frame's time is added. */
    predicate Fires(dt: real) {
      Update(dt).IsReady()
    }

    /** The timer after the callers' pattern `Update(); if IsReady() {
        Reset(); ... }`: zero after a firing frame, otherwise advanced. */
    function Tick(dt: real): (t: Timer)
      ensures t.duration == duration
      ensures Fires(dt) ==> t.elapsed == 0.0
      ensures !Fires(dt) ==> t.elapsed == elapsed + dt && t.elapsed < duration
    {
      var u := Update(dt);
      if u.IsReady() then u.Reset() else u
    }
  }

  /** Sum of a sequence of frame times. */
  function Total(dts: seq<real>): real
    decreases |dts|
  {
    if dts == [] then 0.0 else dts[0] + Total(dts[1..])
  }

  /** The timer after one Tick per frame. */
  function TickAll(t: Timer, dts: seq<real>): Timer
    decreases |dts|
  {
    if dts == [] then t else TickAll(t.Tick(dts[0]), dts[1..])
  }

  /** How many of those frames fire. */
  function Firings(t: Timer, dts: seq<real>): nat
    decreases |dts|
  {
    if dts == [] then 0
    else (if t.Fires(dts[0]) then 1 else 0) + Firings(t.Tick(dts[0]), dts[1..])
  }

  /** While the accumulated time stays below the duration nothing fires
      and the elapsed time is exactly the sum of the frame times. */
  lemma {:induction false} QuietBelowDuration(t: Timer, dts: seq<real>)
    requires t.elapsed + Total(dts) < t.duration
    requires forall k :: 0 <= k < |dts| ==> 0.0 <= dts[k]
    ensures Firings(t, dts) == 0
    ensures TickAll(t, dts) == Timer(t.duration, t.elapsed + Total(dts))
    decreases |dts|
  {
    if dts != [] {
      TotalNonNegative(dts[1..]);
      assert !t.Fires(dts[0]);
      QuietBelowDuration(t.Tick(dts[0]), dts[1..]);
    }
  }

  lemma {:induction false} TotalNonNegative(dts: seq<real>)
    requires forall k :: 0 <= k < |dts| ==> 0.0 <= dts[k]
    ensures 0.0 <= Total(dts)
    decreases |dts|
  {
    if dts != [] {
      TotalNonNegative(dts[1..]);
    }
  }

  /** A frame that brings the accumulated time to the duration fires,
      and the timer starts again from zero. */
  lemma FiresOnReaching(t: Timer, dt: real)
    requires t.elapsed + dt >= t.duration
    ensures t.Fires(dt) && t.Tick(dt) == Timer(t.duration, 0.0)
  {
  }

  /** With a positive duration and frames no longer than it, a firing
      frame is followed by at least one frame that does not fire: two
      consecutive firings are impossible. */
  lemma NoBackToBackFiring(t: Timer, dt1: real, dt2: real)
    requires 0.0 < t.duration && 0.0 <= dt2 < t.duration
    requires t.Fires(dt1)
    ensures !t.Tick(dt1).Fires(dt2)
  {
  }

  /** timer.NewTimer. */
  function NewTimer(duration: real): (t: Timer)
    ensures t.duration == duration && t.elapsed == 0.0
  {
    Timer(duration, 0.0)
  }
}
