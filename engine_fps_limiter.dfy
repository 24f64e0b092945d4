/** Model of src/engine/fps_limiter.rs: the engine's frame pacer, with the clock abstracted
    (module Clock) and every duration in integer nanoseconds. */
module EngineFpsLimiter {
  import opened Wrappers
  import opened Basics
  import opened Clock

  const U32_MAX: nat := 0xFFFF_FFFF

  /** `calc_target_frametime`: zero, meaning uncapped, exactly for an fps limit of 0.
      `period` is `Duration::from_secs_f32(1.0 / fps)`, which floating point computes and this
      model takes as given. */
  function CalcTargetFrametime(fpsLimit: nat, period: nat): (t: nat)
    requires period > 0
    ensures t == 0 <==> fpsLimit == 0
    ensures t != 0 ==> t == period
  {
    if fpsLimit == 0 then 0 else period
  }

  /** The start of the frame interval `calc_delta_time` measures from: the stored timestamp
      when uncapped, else one target frametime before it, or the timestamp itself when that
      subtraction underflows (`checked_sub(..).unwrap_or(..)`). */
  function PrevFrame(nextFrameTimestamp: nat, targetFrametime: nat): (p: nat)
    ensures p <= nextFrameTimestamp
    ensures targetFrametime <= nextFrameTimestamp ==> p + targetFrametime == nextFrameTimestamp
  {
    if targetFrametime == 0 then nextFrameTimestamp
    else if nextFrameTimestamp >= targetFrametime then nextFrameTimestamp - targetFrametime
    else nextFrameTimestamp
  }

  /** `calc_delta_time` at the clock reading `now`: the time since `PrevFrame`, or zero when
      that lies in the future (`checked_duration_since(..).unwrap_or(ZERO)`). */
  function CalcDeltaTime(nextFrameTimestamp: nat, targetFrametime: nat, now: nat): (dt: nat)
    ensures now >= PrevFrame(nextFrameTimestamp, targetFrametime) ==>
      dt + PrevFrame(nextFrameTimestamp, targetFrametime) == now
    ensures now < PrevFrame(nextFrameTimestamp, targetFrametime) ==> dt == 0
  {
    SaturatingSub(now, PrevFrame(nextFrameTimestamp, targetFrametime))
  }

  /** Once the deadline has passed, the capped delta covers at least one whole frametime. */
  lemma CappedDeltaCoversFrame(deadline: nat, target: nat, now: nat)
    requires 0 < target <= deadline <= now
    ensures CalcDeltaTime(deadline, target, now) == now - deadline + target
    ensures CalcDeltaTime(deadline, target, now) >= target
  {
  }

  /** The time to sleep as `wait_for_next_frame` writes it:
      `next_frame_timestamp - Instant::now() - spin_reserve_sec`. The first `-` saturates, the
      second is `Duration - Duration`, which panics (None) when the result would be negative. */
  function SleepRemainingAsWritten(deadline: nat, now: nat, spinReserve: nat): (r: Option<nat>)
    ensures r.None? <==> SaturatingSub(deadline, now) < spinReserve
    ensures r.Some? && now <= deadline ==> r.value + now + spinReserve == deadline
    ensures r.Some? && now > deadline ==> r.value == 0
  {
    var untilDeadline := SaturatingSub(deadline, now);
    if untilDeadline < spinReserve then None else Some(untilDeadline - spinReserve)
  }

  /** The loop guard reads the clock, then the body reads it again; if the second reading has
      already entered the spin window, the subtraction panics although the guard held. */
  lemma SleepRemainingAsWrittenCanPanic()
    ensures var deadline, spinReserve, guard, now := 10, 2, 0, 9;
      guard + spinReserve < deadline && guard <= now &&
      SleepRemainingAsWritten(deadline, now, spinReserve) == None
  {
  }

  /** The time to sleep with the second subtraction saturating as well, as the guard intends:
      never past the start of the spin window, and equal to the as-written value whenever that
      one does not panic. */
  function SleepRemaining(deadline: nat, now: nat, spinReserve: nat): (r: nat)
    ensures r == 0 || r + now + spinReserve == deadline
    ensures now + r + spinReserve <= deadline || r == 0
    ensures SleepRemainingAsWritten(deadline, now, spinReserve).Some? ==>
      r == SleepRemainingAsWritten(deadline, now, spinReserve).value
    ensures now + spinReserve < deadline ==> r > 0
  {
    SaturatingSub(SaturatingSub(deadline, now), spinReserve)
  }

  /** The sleeps the capped wait requests: for each pass (guard reading, reading taken for the
      remaining time), the poll interval or the time left before the spin window if shorter. */
  function SleepsFor(wakes: seq<(nat, nat)>, pollInterval: nat, deadline: nat, spinReserve: nat): (s: seq<nat>)
    ensures |s| == |wakes|
    ensures forall i :: 0 <= i < |s| ==> s[i] <= pollInterval
  {
    seq(|wakes|, i requires 0 <= i < |wakes| => Min(pollInterval, SleepRemaining(deadline, wakes[i].1, spinReserve)))
  }

  /** One pass of the sleep loop entered with guard reading `guard`: read the clock again,
      sleep for the poll interval or the time left before the spin window, then take the next
      guard reading. */
  method SleepPass(clock: Clock, deadline: nat, pollInterval: nat, spinReserve: nat, guard: nat)
    returns (now: nat, next: nat)
    requires clock.Valid() && guard == clock.last && guard < deadline && Reaches(clock.readings, deadline, 5)
    modifies clock
    ensures clock.Valid() && next == clock.last && guard <= now <= next
    ensures Reaches(clock.readings, deadline, 3) && (next < deadline ==> Reaches(clock.readings, deadline, 5))
    ensures clock.sleeps == old(clock.sleeps) + [Min(pollInterval, SleepRemaining(deadline, now, spinReserve))]
    ensures now == old(clock.readings)[0] && next == old(clock.readings)[1]
    ensures clock.readings == old(clock.readings)[2..]
  {
    ghost var rs := clock.readings;
    SliceSlice(rs, 1, 1);
    now := NowToward(clock, deadline, 4);
    var remaining := SleepRemaining(deadline, now, spinReserve);
    clock.Sleep(Min(pollInterval, remaining));
    if now < deadline {
      next := NowToward(clock, deadline, 4);
      ReachesWeaken(next, clock.readings, deadline, 3);
    } else {
      next := NowToward(clock, deadline, 3);
    }
  }

  /** One more pass adds its own sleep at the end. */
  lemma SleepsForSnoc(wakes: seq<(nat, nat)>, w: (nat, nat), pollInterval: nat, deadline: nat, spinReserve: nat)
    ensures SleepsFor(wakes + [w], pollInterval, deadline, spinReserve) ==
      SleepsFor(wakes, pollInterval, deadline, spinReserve) + [Min(pollInterval, SleepRemaining(deadline, w.1, spinReserve))]
  {
    assert forall i :: 0 <= i < |wakes| ==> (wakes + [w])[i] == wakes[i];
  }

  /** The pass records of the sleep loop as the clock gives them: pass i holds readings 2i
      (its guard, short of the spin window) and 2i + 1 (the remaining-time reading). */
  predicate PassesOf(wakes: seq<(nat, nat)>, rs: seq<nat>, deadline: nat, spinReserve: nat)
  {
    2 * |wakes| <= |rs| &&
    forall i :: 0 <= i < |wakes| ==>
      wakes[i] == (rs[2 * i], rs[2 * i + 1]) && rs[2 * i] + spinReserve < deadline
  }

  /** A further pass whose guard is short of the spin window extends the records by the next
      two readings. */
  lemma PassesSnoc(wakes: seq<(nat, nat)>, rs: seq<nat>, deadline: nat, spinReserve: nat)
    requires PassesOf(wakes, rs, deadline, spinReserve) && 2 * |wakes| + 1 < |rs|
    requires rs[2 * |wakes|] + spinReserve < deadline
    ensures PassesOf(wakes + [(rs[2 * |wakes|], rs[2 * |wakes| + 1])], rs, deadline, spinReserve)
  {
  }

  /** With monotone readings, each pass's readings are ordered and its guard is short of the
      spin window. */
  lemma PassesOrdered(start: nat, wakes: seq<(nat, nat)>, rs: seq<nat>, deadline: nat, spinReserve: nat)
    requires Monotone(start, rs) && PassesOf(wakes, rs, deadline, spinReserve)
    ensures forall i :: 0 <= i < |wakes| ==>
      start <= wakes[i].0 <= wakes[i].1 && wakes[i].0 + spinReserve < deadline
  {
    forall i | 0 <= i < |wakes|
      ensures start <= wakes[i].0 <= wakes[i].1 && wakes[i].0 + spinReserve < deadline
    {
      assert wakes[i] == (rs[2 * i], rs[2 * i + 1]);
      MonotoneAt(start, rs, 2 * i, 2 * i + 1);
    }
  }

  /** The state of the sleep loop at a guard reading `guard`: the clock stands at it, with
      enough readings left to reach the deadline; the sleeps so far follow `log` and the pass
      records `wakes` are `PassesOf` the readings `rs` the loop began with, the guard being the
      reading after them. */
  ghost predicate SleepLoopAt(clock: Clock, rs: seq<nat>, log: seq<nat>, wakes: seq<(nat, nat)>, guard: nat,
                              deadline: nat, pollInterval: nat, spinReserve: nat)
    reads clock
  {
    clock.Valid() && guard == clock.last &&
    Reaches(clock.readings, deadline, 3) && (guard < deadline ==> Reaches(clock.readings, deadline, 5)) &&
    clock.sleeps == log + SleepsFor(wakes, pollInterval, deadline, spinReserve) &&
    2 * |wakes| < |rs| && guard == rs[2 * |wakes|] && clock.readings == rs[2 * |wakes| + 1..] &&
    PassesOf(wakes, rs, deadline, spinReserve)
  }

  /** One pass of the sleep loop together with its record: the sleep log and the pass
      records grow by this pass, and the clock stands at the next guard reading. */
  method RecordedPass(clock: Clock, deadline: nat, pollInterval: nat, spinReserve: nat, guard: nat,
                      ghost rs: seq<nat>, ghost log: seq<nat>, ghost wakes: seq<(nat, nat)>)
    returns (next: nat, ghost wakes': seq<(nat, nat)>)
    requires SleepLoopAt(clock, rs, log, wakes, guard, deadline, pollInterval, spinReserve)
    requires guard + spinReserve < deadline
    modifies clock
    ensures SleepLoopAt(clock, rs, log, wakes', next, deadline, pollInterval, spinReserve)
    ensures |clock.readings| < |old(clock.readings)|
  {
    SliceSlice(rs, 2 * |wakes| + 1, 2);
    var now;
    now, next := SleepPass(clock, deadline, pollInterval, spinReserve, guard);
    ghost var pass: (nat, nat) := (guard, now);
    SleepsForSnoc(wakes, pass, pollInterval, deadline, spinReserve);
    AppendAssoc(log, SleepsFor(wakes, pollInterval, deadline, spinReserve),
      Min(pollInterval, SleepRemaining(deadline, now, spinReserve)));
    PassesSnoc(wakes, rs, deadline, spinReserve);
    wakes' := wakes + [pass];
  }

  /** The sleep loop of `wait_for_next_frame`: while a guard reading is short of the spin
      window, read the clock again and sleep for the poll interval or the time left before the
      spin window. `wakes` lists each pass's (guard reading, remaining-time reading): the
      readings the clock gives in turn, two per pass, up to the guard reading that has entered
      the spin window, which the loop ends on. */
  method SleepUntilSpinWindow(clock: Clock, deadline: nat, pollInterval: nat, spinReserve: nat)
    returns (ghost wakes: seq<(nat, nat)>)
    requires clock.Valid() && Reaches(clock.readings, deadline, 5)
    modifies clock
    ensures clock.Valid() && Reaches(clock.readings, deadline, 3)
    ensures clock.sleeps == old(clock.sleeps) + SleepsFor(wakes, pollInterval, deadline, spinReserve)
    ensures PassesOf(wakes, old(clock.readings), deadline, spinReserve) && 2 * |wakes| < |old(clock.readings)|
    ensures clock.last == old(clock.readings)[2 * |wakes|] && clock.last + spinReserve >= deadline
    ensures clock.readings == old(clock.readings)[2 * |wakes| + 1..]
  {
    ghost var rs := clock.readings;
    ghost var log := clock.sleeps;
    wakes := [];
    var guard: nat := NowToward(clock, deadline, 4);
    ReachesWeaken(guard, clock.readings, deadline, 3);
    while guard + spinReserve < deadline
      invariant SleepLoopAt(clock, rs, log, wakes, guard, deadline, pollInterval, spinReserve)
      decreases |clock.readings|
    {
      guard, wakes := RecordedPass(clock, deadline, pollInterval, spinReserve, guard, rs, log, wakes);
    }
  }

  /** The capped part of `wait_for_next_frame` before the delta is measured: the sleep loop,
      then the spin until a reading reaches the deadline. `spun` is the number of readings the
      spin took; the last of them is the first at or after the deadline. */
  method SleepAndSpin(clock: Clock, deadline: nat, pollInterval: nat, spinReserve: nat)
    returns (ghost wakes: seq<(nat, nat)>, ghost spun: nat)
    requires clock.Valid() && Reaches(clock.readings, deadline, 5)
    modifies clock
    ensures clock.Valid() && Reaches(clock.readings, deadline, 2) && deadline <= clock.last
    ensures clock.sleeps == old(clock.sleeps) + SleepsFor(wakes, pollInterval, deadline, spinReserve)
    ensures PassesOf(wakes, old(clock.readings), deadline, spinReserve) && 2 * |wakes| + spun < |old(clock.readings)|
    ensures old(clock.readings)[2 * |wakes|] + spinReserve >= deadline
    ensures forall i :: 2 * |wakes| < i < 2 * |wakes| + spun ==> old(clock.readings)[i] < deadline
    ensures clock.last == old(clock.readings)[2 * |wakes| + spun]
    ensures clock.readings == old(clock.readings)[2 * |wakes| + spun + 1..]
  {
    ghost var rs := clock.readings;
    wakes := SleepUntilSpinWindow(clock, deadline, pollInterval, spinReserve);
    ghost var afterSleep := clock.readings;
    spun := SpinUntil(clock, deadline, 2);
    SliceSlice(rs, 2 * |wakes| + 1, spun);
    assert afterSleep[spun - 1] == rs[2 * |wakes| + spun];
    SliceBelow(rs, 2 * |wakes| + 1, spun - 1, deadline);
  }

  /** The end of a capped `wait_for_next_frame`, once the spin has reached the deadline: the
      delta from one frametime before the deadline at the next reading, `measured`; the
      lateness test at the reading after it, `checked`; and the next deadline, one frametime
      after the deadline, or one frametime after a third reading if the frame is late. */
  method MeasureFrame(clock: Clock, deadline: nat, targetFrametime: nat)
    returns (dt: nat, nextDeadline: nat, ghost measured: nat, ghost checked: nat)
    requires clock.Valid() && 0 < targetFrametime <= deadline <= clock.last
    requires |clock.readings| >= 3
    modifies clock
    ensures clock.Valid() && clock.sleeps == old(clock.sleeps)
    ensures measured == old(clock.readings)[0] && checked == old(clock.readings)[1]
    ensures deadline <= measured <= checked <= clock.last
    ensures dt == CalcDeltaTime(deadline, targetFrametime, measured)
    ensures dt == measured - deadline + targetFrametime
    ensures checked > deadline ==>
      clock.last == old(clock.readings)[2] && clock.readings == old(clock.readings)[3..] &&
      nextDeadline == clock.last + targetFrametime
    ensures checked <= deadline ==>
      clock.last == checked && clock.readings == old(clock.readings)[2..] &&
      nextDeadline == deadline + targetFrametime
  {
    var deltaNow := clock.Now();
    dt := CalcDeltaTime(deadline, targetFrametime, deltaNow);
    CappedDeltaCoversFrame(deadline, targetFrametime, deltaNow);
    var lateNow := clock.Now();
    measured, checked := deltaNow, lateNow;
    var frameIsLate := lateNow > deadline;
    if frameIsLate {
      var now := clock.Now();
      nextDeadline := now + targetFrametime;
    } else {
      nextDeadline := deadline + targetFrametime;
    }
  }

  /** What a capped `wait_for_next_frame` leaves behind, entered with the readings `rs` to
      come and the deadline `deadline`, all readings named in the order the clock gives them:
      the sleep loop's passes are `PassesOf` the first readings; the next reading is the guard that
      ends the loop; the spin then takes `spun` readings, all before the deadline but the last;
      the delta is measured at the reading after it, `measured`, and the lateness test uses
      the one after that, `checked`. The delta is one frametime more than `measured` is past
      the deadline; the next deadline is one frametime after the deadline, or one frametime
      after one more reading if the frame is late. */
  ghost predicate CappedWaitOutcome(rs: seq<nat>, deadline: nat, target: nat, spinReserve: nat,
                                    dt: nat, nextDeadline: nat, wakes: seq<(nat, nat)>, spun: nat,
                                    measured: nat, checked: nat)
  {
    var g := 2 * |wakes|;
    g + spun + 3 < |rs| && PassesOf(wakes, rs, deadline, spinReserve) &&
    rs[g] + spinReserve >= deadline &&
    (forall i :: g < i < g + spun ==> rs[i] < deadline) && deadline <= rs[g + spun] &&
    measured == rs[g + spun + 1] && checked == rs[g + spun + 2] &&
    dt == CalcDeltaTime(deadline, target, measured) && dt == measured - deadline + target &&
    nextDeadline == (if checked > deadline then rs[g + spun + 3] + target else deadline + target) &&
    nextDeadline >= deadline + target
  }

  /** The capped branch of `wait_for_next_frame`: sleep, spin, measure the delta and compute
      the next deadline, as `CappedWaitOutcome` describes. */
  method CappedWait(clock: Clock, deadline: nat, targetFrametime: nat, pollInterval: nat, spinReserve: nat)
    returns (dt: nat, nextDeadline: nat, ghost wakes: seq<(nat, nat)>, ghost spun: nat,
             ghost measured: nat, ghost checked: nat)
    requires clock.Valid() && 0 < targetFrametime <= deadline && Reaches(clock.readings, deadline, 5)
    modifies clock
    ensures clock.Valid()
    ensures CappedWaitOutcome(old(clock.readings), deadline, targetFrametime, spinReserve,
      dt, nextDeadline, wakes, spun, measured, checked)
    ensures clock.sleeps == old(clock.sleeps) + SleepsFor(wakes, pollInterval, deadline, spinReserve)
    ensures var used := 2 * |wakes| + spun + (if checked > deadline then 3 else 2);
      used < |old(clock.readings)| &&
      clock.last == old(clock.readings)[used] && clock.readings == old(clock.readings)[used + 1..]
  {
    ghost var rs := clock.readings;
    wakes, spun := SleepAndSpin(clock, deadline, pollInterval, spinReserve);
    ghost var at := 2 * |wakes| + spun + 1;
    SliceSlice(rs, at, 2);
    SliceSlice(rs, at, 3);
    dt, nextDeadline, measured, checked := MeasureFrame(clock, deadline, targetFrametime);
  }

  class FpsLimiter {
    var targetFrametime: nat
    var nextFrameTimestamp: nat
    const pollInterval: nat
    const spinReserve: nat

    /** The stored deadline is never less than one frametime, so the `checked_sub` in
        `calc_delta_time` never falls back. */
    ghost predicate Valid()
      reads this
    {
      nextFrameTimestamp >= targetFrametime
    }

    /** `FpsLimiter::new`: the first deadline is one target frametime after the clock reading.
        The poll interval and spin reserve are taken already converted to nanoseconds. */
    constructor (fpsLimit: nat, period: nat, pollInterval: nat, spinReserve: nat, clock: Clock)
      requires fpsLimit <= U32_MAX && period > 0
      requires clock.Valid() && |clock.readings| > 0
      modifies clock
      ensures Valid()
      ensures targetFrametime == CalcTargetFrametime(fpsLimit, period)
      ensures nextFrameTimestamp == old(clock.readings[0]) + targetFrametime
      ensures this.pollInterval == pollInterval && this.spinReserve == spinReserve
      ensures clock.Valid() && clock.readings == old(clock.readings[1..]) && clock.sleeps == old(clock.sleeps)
    {
      var frametime := CalcTargetFrametime(fpsLimit, period);
      var now := clock.Now();
      targetFrametime := frametime;
      nextFrameTimestamp := now + frametime;
      this.pollInterval := pollInterval;
      this.spinReserve := spinReserve;
    }

    /** `limit_fps`: a new target frametime, and the next deadline one frametime from now. */
    method LimitFps(value: nat, period: nat, clock: Clock)
      requires value <= U32_MAX && period > 0
      requires clock.Valid() && |clock.readings| > 0
      modifies this, clock
      ensures Valid()
      ensures targetFrametime == CalcTargetFrametime(value, period)
      ensures nextFrameTimestamp == old(clock.readings[0]) + targetFrametime
      ensures clock.Valid() && clock.readings == old(clock.readings[1..]) && clock.sleeps == old(clock.sleeps)
    {
      var frametime := CalcTargetFrametime(value, period);
      targetFrametime := frametime;
      var now := clock.Now();
      nextFrameTimestamp := now + frametime;
    }

    /** `wait_for_next_frame`, returning the delta time in nanoseconds.
        Uncapped: the time since the stored timestamp, which becomes the next reading; no sleep.
        Capped: sleeps only after a guard reading found the spin window not yet entered, each
        sleep the poll interval or the time left before the spin window; then spins until a
        reading reaches the deadline; the delta is measured from one frametime before the
        deadline; the next deadline is one frametime later, or one frametime after the latest
        reading if the frame is late. The caller's clock must reach the deadline with enough
        readings to spare (`Reaches`). The ghost results name the readings taken along the way,
        all in the order the clock gives them: `wakes` the guard and remaining-time readings of
        each sleep, `spun` the number of readings the spin took (the last of them the first at
        or after the deadline), then `measured`, the reading the delta is measured at, and
        `checked`, the one the lateness test uses. */
    method WaitForNextFrame(clock: Clock)
      returns (dt: nat, ghost wakes: seq<(nat, nat)>, ghost spun: nat, ghost measured: nat, ghost checked: nat)
      requires Valid() && clock.Valid()
      requires targetFrametime == 0 ==> |clock.readings| >= 2
      requires targetFrametime > 0 ==> Reaches(clock.readings, nextFrameTimestamp, 5)
      modifies this, clock
      ensures Valid() && clock.Valid()
      ensures targetFrametime == old(targetFrametime)
      ensures old(targetFrametime) == 0 ==>
        measured == old(clock.readings[0]) && checked == old(clock.readings[1]) &&
        dt == CalcDeltaTime(old(nextFrameTimestamp), 0, measured) &&
        nextFrameTimestamp == checked &&
        clock.readings == old(clock.readings[2..]) && clock.sleeps == old(clock.sleeps)
      ensures old(targetFrametime) > 0 ==>
        CappedWaitOutcome(old(clock.readings), old(nextFrameTimestamp), targetFrametime,
          spinReserve, dt, nextFrameTimestamp, wakes, spun, measured, checked) &&
        (forall i :: 0 <= i < |wakes| ==>
          old(clock.last) <= wakes[i].0 <= wakes[i].1 && wakes[i].0 + spinReserve < old(nextFrameTimestamp)) &&
        clock.sleeps == old(clock.sleeps) + SleepsFor(wakes, pollInterval, old(nextFrameTimestamp), spinReserve) &&
        var used := 2 * |wakes| + spun + (if checked > old(nextFrameTimestamp) then 3 else 2);
        clock.last == old(clock.readings)[used] && clock.readings == old(clock.readings)[used + 1..]
    {
      if targetFrametime == 0 {
        var now := clock.Now();
        dt := CalcDeltaTime(nextFrameTimestamp, 0, now);
        var reset := clock.Now();
        nextFrameTimestamp := reset;
        wakes, spun, measured, checked := [], 0, now, reset;
        return;
      }

      ghost var rs := clock.readings;
      dt, nextFrameTimestamp, wakes, spun, measured, checked :=
        CappedWait(clock, nextFrameTimestamp, targetFrametime, pollInterval, spinReserve);
      PassesOrdered(old(clock.last), wakes, rs, old(nextFrameTimestamp), spinReserve);
    }
  }
}
