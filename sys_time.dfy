/**
 * The millisecond tick counter of sys_time.c: a 32-bit unsigned counter that the
 * SysTick interrupt advances once per millisecond, and the wrap-around-safe test
 * of whether a duration has elapsed since a start time.
 */
module SysTime {
  import opened Wrappers

  /** 2^32: every uint32_t result is reduced modulo this. */
  const TWO_32: int := 0x1_0000_0000

  /** A C `uint32_t`. */
  type u32 = x: int | 0 <= x < TWO_32

  /** C unsigned arithmetic on uint32_t: the exact result reduced modulo 2^32. */
  function Wrap(x: int): (r: u32)
    ensures 0 <= x < TWO_32 ==> r == x
    ensures TWO_32 <= x < 2 * TWO_32 ==> r == x - TWO_32
    ensures -TWO_32 <= x < 0 ==> r == x + TWO_32
  {
    x % TWO_32
  }

  /**
   * sys_time_is_elapsed(start, duration) for the counter snapshot `current` it
   * takes on entry. The body keeps the source's case analysis on whether the
   * counter and the end time `start + duration` have wrapped; the contract states
   * what that case analysis achieves: the wrapping difference `current - start`
   * is at least `duration`.
   */
  function IsElapsed(current: u32, start: u32, duration: u32): (r: bool)
    ensures r <==> Wrap(current - start) >= duration
  {
    var end := Wrap(start + duration);
    if current < start then
      // the counter has wrapped since start
      if end >= start then true  // but the end time has not: elapsed
      else current >= end
    else
      // the counter has not wrapped since start
      if end < start then false  // but the end time has: not yet elapsed
      else current >= end
  }

  /** A zero duration has always elapsed (the "duration is 0" cases of the TODO list). */
  lemma ZeroDurationElapsed(current: u32, start: u32)
    ensures IsElapsed(current, start, 0)
  {
  }

  /** The counter wrapped but `start + duration` did not: the duration has elapsed. */
  lemma CounterWrappedEndNot(current: u32, start: u32, duration: u32)
    requires current < start && start + duration < TWO_32
    ensures IsElapsed(current, start, duration)
  {
  }

  /** The counter did not wrap but `start + duration` did: the duration has not elapsed. */
  lemma EndWrappedCounterNot(current: u32, start: u32, duration: u32)
    requires start <= current && TWO_32 <= start + duration
    ensures !IsElapsed(current, start, duration)
  {
  }

  /**
   * What the test measures: when `ticks` increments (fewer than 2^32 of them)
   * have happened since `start`, the duration has elapsed exactly when
   * `ticks >= duration`, wherever in the counter's range `start` lies.
   */
  lemma ElapsedMeasuresTicks(start: u32, duration: u32, ticks: nat)
    requires ticks < TWO_32
    ensures IsElapsed(Wrap(start + ticks), start, duration) <==> ticks >= duration
  {
  }

  /**
   * The global `sys_time_ms`. The ghost `ticks` counts increments since the
   * last reset; `ms` is always `ticks` reduced modulo 2^32.
   */
  class Clock {
    var ms: u32
    ghost var ticks: nat

    ghost predicate Valid()
      reads this
    {
      ms == Wrap(ticks)
    }

    /** The static initialiser `uint32_t sys_time_ms = 0`. */
    constructor ()
      ensures Valid() && ms == 0 && ticks == 0
    {
      ms := 0;
      ticks := 0;
    }

    /** sys_time_init: the counter starts again from 0 (SysTick setup is not modelled). */
    method Init()
      modifies this
      ensures Valid() && ms == 0 && ticks == 0
    {
      ms := 0;
      ticks := 0;
    }

    /** _sys_time_increment, run by the SysTick interrupt: one more tick, modulo 2^32. */
    method Increment()
      requires Valid()
      modifies this
      ensures Valid() && ticks == old(ticks) + 1
      ensures ms == Wrap(old(ms) + 1)
      ensures old(ms) < TWO_32 - 1 ==> ms == old(ms) + 1
      ensures old(ms) == TWO_32 - 1 ==> ms == 0
    {
      ms := if ms == TWO_32 - 1 then 0 else ms + 1;
      ticks := ticks + 1;
    }

    /** sys_time_get_ms: the counter's value; nothing changes. */
    method GetMs() returns (t: u32)
      ensures t == ms
    {
      t := ms;
    }

    /**
     * sys_time_is_elapsed: reads the counter once, as the snapshot `current`,
     * and changes nothing.
     */
    method IsElapsedNow(start: u32, duration: u32) returns (r: bool)
      ensures r <==> Wrap(ms - start) >= duration
    {
      var current := ms;
      r := IsElapsed(current, start, duration);
    }

    /**
     * sys_time_delay(duration). The start time is the counter on entry; the loop
     * then calls sys_time_is_elapsed until it reports true. The interrupt keeps
     * advancing the counter meanwhile, so the snapshots those calls see are
     * given as `polls`, in order. Whether the loop ends depends on future ticks,
     * so the model runs over the observed snapshots only: `Some(n)` means the
     * call returned after the poll that saw `polls[n]`, `None` that it was still
     * waiting after the last of them.
     */
    method Delay(duration: u32, polls: seq<u32>) returns (returnedAt: Option<nat>)
      ensures returnedAt.Some? ==>
                returnedAt.value < |polls| && IsElapsed(polls[returnedAt.value], ms, duration)
      ensures returnedAt.Some? ==>
                forall k :: 0 <= k < returnedAt.value ==> !IsElapsed(polls[k], ms, duration)
      ensures returnedAt.None? <==> forall k :: 0 <= k < |polls| ==> !IsElapsed(polls[k], ms, duration)
    {
      var start := ms;
      var n := 0;
      while n < |polls| && !IsElapsed(polls[n], start, duration)
        invariant 0 <= n <= |polls|
        invariant forall k :: 0 <= k < n ==> !IsElapsed(polls[k], start, duration)
      {
        n := n + 1;
      }
      returnedAt := if n < |polls| then Some(n) else None;
    }
  }
}
