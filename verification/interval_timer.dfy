/**
 * `IntervalTimer` (Timers/IntervalTimer.cs): a timestamp, -1 when not
 * running.  The clock `Time.Now` is a parameter; float seconds are reals.
 */
module Timers {

  datatype IntervalTimer = IntervalTimer(timestamp: real)

  /**
   * A `CountdownTimer`, as far as this model needs it: the last `Start` and
   * its duration.  CountdownTimer.cs is not part of this model, so whether a
   * countdown has elapsed is an input wherever it is read.
   */
  datatype Countdown = NotCounting | Counting(startedAt: real, duration: real)

  /** The sentinel `GetElapsedTime` returns for a timer that has not started. */
  const NotStartedElapsed: real := 99999.9

  /** A new timer is not started. */
  function NewIntervalTimer(): (t: IntervalTimer)
    ensures !HasStarted(t)
  {
    IntervalTimer(-1.0)
  }

  /** `Start` and `Reset` do the same thing: they stamp the timer with now. */
  function Start(t: IntervalTimer, now: real): (r: IntervalTimer)
    ensures HasStarted(r) <==> now > 0.0
    ensures HasStarted(r) ==> forall later :: GetElapsedTime(r, later) == later - now
  {
    IntervalTimer(now)
  }

  function Reset(t: IntervalTimer, now: real): (r: IntervalTimer)
    ensures r == Start(t, now)
  {
    IntervalTimer(now)
  }

  /** `Invalidate`: back to not started. */
  function Invalidate(t: IntervalTimer): (r: IntervalTimer)
    ensures !HasStarted(r) && r == NewIntervalTimer()
  {
    IntervalTimer(-1.0)
  }

  /** `HasStarted`: stamped at a positive time. */
  predicate HasStarted(t: IntervalTimer) {
    t.timestamp > 0.0
  }

  /** `GetElapsedTime`: time since the stamp, or the sentinel when not started. */
  function GetElapsedTime(t: IntervalTimer, now: real): real {
    if HasStarted(t) then now - t.timestamp else NotStartedElapsed
  }

  /** `IsLessThen(duration)`: compares against the raw stamp, started or not. */
  predicate IsLessThen(t: IntervalTimer, now: real, duration: real) {
    now - t.timestamp < duration
  }

  /** `IsGreaterThen(duration)`: compares against the raw stamp, started or not. */
  predicate IsGreaterThen(t: IntervalTimer, now: real, duration: real) {
    now - t.timestamp > duration
  }

  /**
   * On a started timer the comparisons agree with the elapsed time.  On a
   * timer that has not started they do not: an invalidated timer reports the
   * sentinel as its elapsed time, but the comparisons see now + 1.
   */
  lemma ComparisonsUseRawStamp(t: IntervalTimer, now: real, duration: real)
    ensures HasStarted(t) ==>
      (IsLessThen(t, now, duration) <==> GetElapsedTime(t, now) < duration)
      && (IsGreaterThen(t, now, duration) <==> GetElapsedTime(t, now) > duration)
    ensures var i := Invalidate(t);
      GetElapsedTime(i, now) == NotStartedElapsed
      && (IsLessThen(i, now, duration) <==> now + 1.0 < duration)
      && (IsGreaterThen(i, now, duration) <==> now + 1.0 > duration)
  {
  }
}
