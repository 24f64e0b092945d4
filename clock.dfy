/** The monotone clock and the sleep primitive both frame pacers use (`Instant::now()`,
    `thread::sleep`), abstracted: the readings the clock will give are fixed in advance and
    sleeping only records the requested duration. Time is in integer nanoseconds. */
module Clock {
  import opened Basics

  /** Readings that never go backwards and never fall below `start`: each is at least the one
      before it, the first at least `start`. */
  predicate Monotone(start: nat, rs: seq<nat>)
    decreases |rs|
  {
    |rs| == 0 || (start <= rs[0] && Monotone(rs[0], rs[1..]))
  }

  /** Any two monotone readings are in order, and both at least `start`. */
  lemma {:induction false} MonotoneAt(start: nat, rs: seq<nat>, i: nat, j: nat)
    requires Monotone(start, rs) && i <= j < |rs|
    ensures start <= rs[i] <= rs[j]
    decreases j
  {
    if i == 0 {
      if j > 0 {
        MonotoneAt(rs[0], rs[1..], 0, j - 1);
      }
    } else {
      MonotoneAt(rs[0], rs[1..], i - 1, j - 1);
    }
  }

  /** The reading k places before the last one has reached `deadline`; with monotone readings,
      so have the last k + 1 readings. */
  predicate Reaches(rs: seq<nat>, deadline: nat, k: nat)
  {
    |rs| > k && rs[|rs| - 1 - k] >= deadline
  }

  /** Taking a reading that is still before the deadline keeps the number of readings at or
      after it. */
  lemma ReachesAfterEarlyRead(start: nat, rs: seq<nat>, deadline: nat, k: nat)
    requires Monotone(start, rs) && Reaches(rs, deadline, k) && rs[0] < deadline
    ensures Reaches(rs[1..], deadline, k)
  {
    assert |rs| - 1 - k != 0;
    assert rs[1..][|rs| - 2 - k] == rs[|rs| - 1 - k];
  }

  /** Taking any reading uses up at most one of the readings at or after the deadline. */
  lemma ReachesAfterRead(start: nat, rs: seq<nat>, deadline: nat, k: nat)
    requires Monotone(start, rs) && Reaches(rs, deadline, k + 1)
    ensures Reaches(rs[1..], deadline, k)
  {
    MonotoneAt(start, rs, |rs| - 2 - k, |rs| - 1 - k);
    assert rs[1..][|rs| - 2 - k] == rs[|rs| - 1 - k];
  }

  /** With monotone readings, reaching the deadline k + 1 places before the end implies reaching
      it k places before. */
  lemma ReachesWeaken(start: nat, rs: seq<nat>, deadline: nat, k: nat)
    requires Monotone(start, rs) && Reaches(rs, deadline, k + 1)
    ensures Reaches(rs, deadline, k)
  {
    MonotoneAt(start, rs, |rs| - 2 - k, |rs| - 1 - k);
  }

  /** Dropping the first of the readings from position k on leaves those from k + 1 on. */
  lemma SliceTail(rs: seq<nat>, k: nat)
    requires k < |rs|
    ensures rs[k..][0] == rs[k] && rs[k..][1..] == rs[k + 1..]
  {
  }

  /** The readings from position a on, then from their position b on, are those from a + b on. */
  lemma SliceSlice(rs: seq<nat>, a: nat, b: nat)
    requires a + b <= |rs|
    ensures rs[a..][b..] == rs[a + b..]
  {
  }

  /** Readings before the deadline from position a on are readings before it in place. */
  lemma SliceBelow(rs: seq<nat>, a: nat, n: nat, deadline: nat)
    requires a + n <= |rs| && forall i :: 0 <= i < n ==> rs[a..][i] < deadline
    ensures forall i :: a <= i < a + n ==> rs[i] < deadline
  {
    forall i | a <= i < a + n
      ensures rs[i] < deadline
    {
      assert rs[a..][i - a] == rs[i];
    }
  }

  /** The first k + 1 readings are the first k and then reading k. */
  lemma PrefixSnoc(rs: seq<nat>, k: nat)
    requires k < |rs|
    ensures rs[..k + 1] == rs[..k] + [rs[k]]
  {
  }

  /** Appending one duration after two logs is appending it to the second. */
  lemma AppendAssoc(a: seq<nat>, b: seq<nat>, d: nat)
    ensures a + b + [d] == a + (b + [d])
  {
  }

  /** `Duration - Duration` clamped at zero (`saturating_sub`). */
  function SaturatingSub(a: nat, b: nat): (d: nat)
    ensures a >= b ==> d + b == a
    ensures a < b ==> d == 0
  {
    if a >= b then a - b else 0
  }

  class Clock {
    /** The most recent reading. */
    var last: nat
    /** The readings still to come, in order. */
    var readings: seq<nat>
    /** Every duration passed to `sleep` so far. */
    var sleeps: seq<nat>

    ghost predicate Valid()
      reads this
    {
      Monotone(last, readings)
    }

    constructor (start: nat, readings: seq<nat>)
      requires Monotone(start, readings)
      ensures Valid() && last == start && this.readings == readings && sleeps == []
    {
      last := start;
      this.readings := readings;
      sleeps := [];
    }

    /** `Instant::now()`: the next reading, never before the previous one. */
    method Now() returns (t: nat)
      requires Valid() && |readings| > 0
      modifies this
      ensures Valid()
      ensures t == old(readings[0]) && old(last) <= t && last == t
      ensures readings == old(readings[1..]) && sleeps == old(sleeps)
    {
      t := readings[0];
      last := t;
      readings := readings[1..];
    }

    /** `thread::sleep(d)`: its effect on time is already in the readings; only the request is kept. */
    method Sleep(d: nat)
      modifies this
      ensures sleeps == old(sleeps) + [d]
      ensures readings == old(readings) && last == old(last)
    {
      sleeps := sleeps + [d];
    }
  }

  /** `Instant::now()` taken while waiting for `deadline`: at most one of the readings that
      reach the deadline is used up, and none if this reading is still before it. */
  method NowToward(clock: Clock, deadline: nat, ghost k: nat) returns (t: nat)
    requires clock.Valid() && Reaches(clock.readings, deadline, k + 1)
    modifies clock
    ensures clock.Valid() && t == clock.last && old(clock.last) <= t && t == old(clock.readings[0])
    ensures clock.readings == old(clock.readings[1..]) && clock.sleeps == old(clock.sleeps)
    ensures Reaches(clock.readings, deadline, k)
    ensures t < deadline ==> Reaches(clock.readings, deadline, k + 1)
  {
    ghost var rs := clock.readings;
    t := clock.Now();
    if t < deadline {
      ReachesAfterEarlyRead(old(clock.last), rs, deadline, k + 1);
      ReachesWeaken(t, clock.readings, deadline, k);
    } else {
      ReachesAfterRead(old(clock.last), rs, deadline, k);
    }
  }

  /** The busy-wait both pacers end with (`while Instant::now() < deadline {}`): read the clock
      until a reading reaches the deadline, using up at most one of the readings that do.
      `spun` is the number of readings taken: every one but the last is before the deadline. */
  method SpinUntil(clock: Clock, deadline: nat, ghost k: nat) returns (ghost spun: nat)
    requires clock.Valid() && Reaches(clock.readings, deadline, k + 1)
    modifies clock
    ensures clock.Valid() && Reaches(clock.readings, deadline, k)
    ensures 0 < spun <= |old(clock.readings)| && clock.readings == old(clock.readings)[spun..]
    ensures clock.last == old(clock.readings)[spun - 1] && deadline <= clock.last
    ensures forall i :: 0 <= i < spun - 1 ==> old(clock.readings)[i] < deadline
    ensures old(clock.last) <= clock.last && clock.sleeps == old(clock.sleeps)
  {
    ghost var rs := clock.readings;
    var spin: nat := NowToward(clock, deadline, k);
    spun := 1;
    while spin < deadline
      invariant clock.Valid() && spin == clock.last && old(clock.last) <= spin
      invariant 0 < spun <= |rs| && clock.readings == rs[spun..] && spin == rs[spun - 1]
      invariant forall i :: 0 <= i < spun - 1 ==> rs[i] < deadline
      invariant Reaches(clock.readings, deadline, k)
      invariant spin < deadline ==> Reaches(clock.readings, deadline, k + 1)
      invariant clock.sleeps == old(clock.sleeps)
      decreases |clock.readings|
    {
      spin := NowToward(clock, deadline, k);
      spun := spun + 1;
    }
  }
}
