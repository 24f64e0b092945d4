/** Model of src/fps_limiter.rs: the older frame pacer, with the clock abstracted (module
    Clock) and every duration in integer nanoseconds. */
module FpsLimiter {
  import opened Basics
  import opened Clock

  /** The target frametime `new` derives from `fps`: zero, meaning uncapped, exactly when
      `fps <= 0.0`. `period` stands for `Duration::from_secs_f32(1.0 / fps)`, which floating
      point computes and this model takes as given. */
  function TargetFrametime(fps: real, period: nat): (t: nat)
    requires period > 0
    ensures t == 0 <==> fps <= 0.0
    ensures t != 0 ==> t == period
  {
    if fps <= 0.0 then 0 else period
  }

  /** Whether every guard reading lets the sleep loop run: it plus the spin reserve is short of
      the target time. */
  predicate GuardsPass(guards: seq<nat>, targetTime: nat, spinReserve: nat)
  {
    forall i :: 0 <= i < |guards| ==> guards[i] + spinReserve < targetTime
  }

  /** The sleeps the loop requests, one per guard reading: the poll interval, or the time
      left before the spin window if that is shorter. */
  function GuardSleeps(guards: seq<nat>, pollInterval: nat, targetTime: nat, spinReserve: nat): (s: seq<nat>)
    requires GuardsPass(guards, targetTime, spinReserve)
    ensures |s| == |guards|
    ensures forall i :: 0 <= i < |s| ==>
      s[i] <= pollInterval && guards[i] + s[i] + spinReserve <= targetTime &&
      (s[i] < pollInterval ==> guards[i] + s[i] + spinReserve == targetTime)
  {
    seq(|guards|, i requires 0 <= i < |guards| => Min(pollInterval, targetTime - guards[i] - spinReserve))
  }

  /** One more guard reading adds its own sleep at the end. */
  lemma GuardSleepsSnoc(guards: seq<nat>, g: nat, pollInterval: nat, targetTime: nat, spinReserve: nat)
    requires GuardsPass(guards, targetTime, spinReserve) && g + spinReserve < targetTime
    ensures GuardsPass(guards + [g], targetTime, spinReserve)
    ensures GuardSleeps(guards + [g], pollInterval, targetTime, spinReserve) ==
      GuardSleeps(guards, pollInterval, targetTime, spinReserve) + [Min(pollInterval, targetTime - g - spinReserve)]
  {
    assert forall i :: 0 <= i < |guards| ==> (guards + [g])[i] == guards[i];
  }

  /** One pass of the sleep loop entered with the reading `now`: sleep for the poll interval
      or the time left before the spin window if shorter, then take the next reading. */
  method SleepPass(clock: Clock, targetTime: nat, pollInterval: nat, spinReserve: nat, now: nat)
    returns (next: nat)
    requires clock.Valid() && now == clock.last && now + spinReserve < targetTime
    requires Reaches(clock.readings, targetTime, 2)
    modifies clock
    ensures clock.Valid() && next == clock.last && now <= next
    ensures next == old(clock.readings)[0] && clock.readings == old(clock.readings)[1..]
    ensures clock.sleeps == old(clock.sleeps) + [Min(pollInterval, targetTime - now - spinReserve)]
    ensures Reaches(clock.readings, targetTime, 1) && (next < targetTime ==> Reaches(clock.readings, targetTime, 2))
  {
    var remaining := targetTime - now - spinReserve;
    clock.Sleep(Min(pollInterval, remaining));
    next := NowToward(clock, targetTime, 1);
  }

  /** The sleep loop of `wait`: while the last reading plus the spin reserve is short of the
      target time, sleep for the poll interval or the time left before the spin window if
      shorter, then read the clock again. `guards` lists the reading each pass was entered
      with: the readings the clock gives in turn, up to the first one that has entered the
      spin window, which the loop ends on. */
  method SleepUntilSpinWindow(clock: Clock, targetTime: nat, pollInterval: nat, spinReserve: nat)
    returns (ghost guards: seq<nat>)
    requires clock.Valid() && Reaches(clock.readings, targetTime, 2)
    modifies clock
    ensures clock.Valid() && Reaches(clock.readings, targetTime, 1) && old(clock.last) <= clock.last
    ensures |guards| < |old(clock.readings)| && guards == old(clock.readings)[..|guards|]
    ensures clock.last == old(clock.readings)[|guards|] && clock.last + spinReserve >= targetTime
    ensures clock.readings == old(clock.readings)[|guards| + 1..]
    ensures GuardsPass(guards, targetTime, spinReserve)
    ensures clock.sleeps == old(clock.sleeps) + GuardSleeps(guards, pollInterval, targetTime, spinReserve)
  {
    ghost var rs := clock.readings;
    guards := [];
    var now: nat := NowToward(clock, targetTime, 1);
    while now + spinReserve < targetTime
      invariant clock.Valid() && now == clock.last && old(clock.last) <= now
      invariant |guards| < |rs| && guards == rs[..|guards|]
      invariant now == rs[|guards|] && clock.readings == rs[|guards| + 1..]
      invariant Reaches(clock.readings, targetTime, 1)
      invariant now < targetTime ==> Reaches(clock.readings, targetTime, 2)
      invariant GuardsPass(guards, targetTime, spinReserve)
      invariant clock.sleeps == old(clock.sleeps) + GuardSleeps(guards, pollInterval, targetTime, spinReserve)
      decreases |clock.readings|
    {
      SliceTail(rs, |guards| + 1);
      PrefixSnoc(rs, |guards|);
      GuardSleepsSnoc(guards, now, pollInterval, targetTime, spinReserve);
      guards := guards + [now];
      now := SleepPass(clock, targetTime, pollInterval, spinReserve, now);
    }
  }

  /** The capped part of `wait` up to the reading `end`: the sleep loop, the spin until a
      reading reaches the target time, and one more reading. `spun` is the number of readings
      the spin took; the last of them is the first at or after the target time. */
  method SleepSpinRead(clock: Clock, targetTime: nat, pollInterval: nat, spinReserve: nat)
    returns (end: nat, ghost guards: seq<nat>, ghost spun: nat)
    requires clock.Valid() && Reaches(clock.readings, targetTime, 2)
    modifies clock
    ensures clock.Valid() && end == clock.last && targetTime <= end
    ensures GuardsPass(guards, targetTime, spinReserve)
    ensures clock.sleeps == old(clock.sleeps) + GuardSleeps(guards, pollInterval, targetTime, spinReserve)
    ensures |guards| + spun + 1 < |old(clock.readings)| && guards == old(clock.readings)[..|guards|]
    ensures old(clock.readings)[|guards|] + spinReserve >= targetTime
    ensures forall i :: |guards| < i < |guards| + spun ==> old(clock.readings)[i] < targetTime
    ensures old(clock.readings)[|guards| + spun] >= targetTime
    ensures end == old(clock.readings)[|guards| + spun + 1]
    ensures clock.readings == old(clock.readings)[|guards| + spun + 2..]
  {
    ghost var rs := clock.readings;
    guards := SleepUntilSpinWindow(clock, targetTime, pollInterval, spinReserve);
    ghost var afterSleep := clock.readings;
    spun := SpinUntil(clock, targetTime, 0);
    SliceSlice(rs, |guards| + 1, spun);
    assert afterSleep[spun - 1] == rs[|guards| + spun];
    SliceBelow(rs, |guards| + 1, spun - 1, targetTime);
    SliceTail(rs, |guards| + 1 + spun);
    end := clock.Now();
  }

  class FPSLimiter {
    var target: nat
    var nextFrame: nat
    const pollInterval: nat
    const spinReserve: nat

    /** The stored deadline never lies less than one target before the clock's origin, so
        `next_frame - target` never underflows. */
    ghost predicate Valid()
      reads this
    {
      nextFrame >= target
    }

    /** `FPSLimiter::new`: the first deadline is one target after the clock reading. The poll
        interval and spin reserve are taken already converted to nanoseconds. */
    constructor (fps: real, period: nat, pollInterval: nat, spinReserve: nat, clock: Clock)
      requires period > 0
      requires clock.Valid() && |clock.readings| > 0
      modifies clock
      ensures Valid()
      ensures target == TargetFrametime(fps, period)
      ensures nextFrame == old(clock.readings[0]) + target
      ensures this.pollInterval == pollInterval && this.spinReserve == spinReserve
      ensures clock.Valid() && clock.readings == old(clock.readings[1..]) && clock.sleeps == old(clock.sleeps)
    {
      var t := TargetFrametime(fps, period);
      var now := clock.Now();
      target := t;
      nextFrame := now + t;
      this.pollInterval := pollInterval;
      this.spinReserve := spinReserve;
    }

    /** `wait`, returning the delta time in nanoseconds.
        Uncapped: one reading; the delta is the time since the stored deadline (zero if that is
        later) and the reading becomes the new deadline; no sleep.
        Capped: sleeps only while a reading plus the spin reserve is short of the deadline
        (`SleepUntilSpinWindow`), spins until a reading reaches it, then takes the reading
        `end`; `guards` are the readings the sleep loop was entered with, `spun` the number of
        readings the spin took, the last of them the first at or after the deadline, and `end`
        the reading after that. The delta is `end` minus one target before the deadline, and the next deadline
        is one target after the old one, or one target after `end` if `end` is later still.
        The caller's clock must reach the deadline with readings to spare (`Reaches`). */
    method Wait(clock: Clock) returns (dt: nat, ghost guards: seq<nat>, ghost spun: nat, ghost end: nat)
      requires Valid() && clock.Valid()
      requires target == 0 ==> |clock.readings| >= 1
      requires target > 0 ==> Reaches(clock.readings, nextFrame, 2)
      modifies this, clock
      ensures Valid() && clock.Valid() && target == old(target)
      ensures old(target) == 0 ==>
        end == old(clock.readings[0]) && dt == SaturatingSub(end, old(nextFrame)) &&
        nextFrame == end && guards == [] &&
        clock.readings == old(clock.readings[1..]) && clock.sleeps == old(clock.sleeps)
      ensures old(target) > 0 ==>
        GuardsPass(guards, old(nextFrame), spinReserve) &&
        |guards| + spun + 1 < |old(clock.readings)| && guards == old(clock.readings)[..|guards|] &&
        old(clock.readings)[|guards|] + spinReserve >= old(nextFrame) &&
        (forall i :: |guards| < i < |guards| + spun ==> old(clock.readings)[i] < old(nextFrame)) &&
        old(clock.readings)[|guards| + spun] >= old(nextFrame) &&
        end == old(clock.readings)[|guards| + spun + 1] &&
        clock.readings == old(clock.readings)[|guards| + spun + 2..] &&
        clock.sleeps == old(clock.sleeps) + GuardSleeps(guards, pollInterval, old(nextFrame), spinReserve) &&
        old(nextFrame) <= end == clock.last &&
        dt + old(nextFrame) == end + target && dt >= target &&
        nextFrame == (if end > old(nextFrame) + target then end + target else old(nextFrame) + target) &&
        end <= nextFrame <= end + target
    {
      if target == 0 {
        var now := clock.Now();
        dt := SaturatingSub(now, nextFrame - target);
        nextFrame := now;
        guards, spun, end := [], 0, now;
        return;
      }
      var targetTime := nextFrame;
      var e;
      e, guards, spun := SleepSpinRead(clock, targetTime, pollInterval, spinReserve);
      dt := SaturatingSub(e, nextFrame - target);
      nextFrame := targetTime + target;
      if e > nextFrame {
        nextFrame := e + target;
      }
      end := e;
    }
  }
}
