/**
 * Look-at arbitration (Components/Locomotion/NextBotLocomotion.Look.cs): who
 * or what the head aims at, at what priority, for how long, and whether the
 * aim has been steady.  `LookAtPriorityType` is not part of this model; a
 * priority is its enum value, compared as the source compares it.  Whether
 * the expire countdown has elapsed is an input; the clock is a parameter.
 */
module Look {
  import opened Wrappers
  import opened Knowledge
  import opened Timers

  /** `nb_head_aim_steady_max_rate` (server default). */
  const HeadAimSteadyMaxRate: real := 100.0
  /** `nb_head_aim_settle_duration` (server default). */
  const HeadAimSettleDuration: real := 0.3
  /** The expire time used for a request with no positive duration. */
  const DefaultLookDuration: real := 0.1

  datatype LookState = LookState(
    lookAtPosition: Vec3,
    lookAtSubject: Option<Ent>,
    lookAtPriority: int,
    lookAtExpireTimer: Countdown,
    lookAtDurationTimer: IntervalTimer,
    headSteadyTimer: IntervalTimer,
    aimRate: real,
    isSightedIn: bool)

  /** `IsHeadSteady`. */
  predicate IsHeadSteady(l: LookState) {
    HasStarted(l.headSteadyTimer)
  }

  /** `GetHeadSteadyDuration`: how long the head has been steady, 0 when it is not. */
  function GetHeadSteadyDuration(l: LookState, now: real): (r: real)
    ensures !IsHeadSteady(l) ==> r == 0.0
    ensures IsHeadSteady(l) ==> r == now - l.headSteadyTimer.timestamp
  {
    if HasStarted(l.headSteadyTimer) then GetElapsedTime(l.headSteadyTimer, now) else 0.0
  }

  /** `CanAimHead`: whether a request at `priority` may take over the head. */
  function CanAimHead(l: LookState, priority: int, now: real, expireElapsed: bool): (r: bool)
    // equal priority: only once the current aim has settled
    ensures l.lookAtPriority == priority ==>
      (r <==> IsHeadSteady(l) && now - l.headSteadyTimer.timestamp >= HeadAimSettleDuration)
    // lower priority: only once the current look-at has expired
    ensures l.lookAtPriority > priority ==> (r <==> expireElapsed)
    // higher priority: always
    ensures l.lookAtPriority < priority ==> r
  {
    if l.lookAtPriority == priority && (!IsHeadSteady(l) || GetHeadSteadyDuration(l, now) < HeadAimSettleDuration) then false
    else if l.lookAtPriority > priority && !expireElapsed then false
    else true
  }

  /** The expire time a request asks for: a non-positive duration becomes 0.1. */
  function ExpireDuration(duration: real): (r: real)
    ensures r > 0.0
    ensures duration > 0.0 ==> r == duration
    ensures duration <= 0.0 ==> r == 0.1
  {
    if duration <= 0.0 then DefaultLookDuration else duration
  }

  /**
   * `AimHeadTowards(subject, priority, duration)`.  A rejected request changes
   * nothing.  An accepted one restarts the expire countdown; for the subject
   * already looked at it changes only the priority, and for another subject
   * it takes the subject and priority, restarts the duration timer and is no
   * longer sighted in.  The aim point, the aim rate and the steady timer are
   * never touched.
   */
  function AimHeadTowards(l: LookState, subject: Option<Ent>, priority: int, duration: real, now: real, expireElapsed: bool): (r: LookState)
    ensures !CanAimHead(l, priority, now, expireElapsed) ==> r == l
    ensures CanAimHead(l, priority, now, expireElapsed) ==>
      && r.lookAtExpireTimer == Counting(now, ExpireDuration(duration))
      && r.lookAtSubject == subject && r.lookAtPriority == priority
      && r.lookAtPosition == l.lookAtPosition && r.headSteadyTimer == l.headSteadyTimer && r.aimRate == l.aimRate
    ensures CanAimHead(l, priority, now, expireElapsed) && l.lookAtSubject == subject ==>
      r.lookAtDurationTimer == l.lookAtDurationTimer && r.isSightedIn == l.isSightedIn
    ensures CanAimHead(l, priority, now, expireElapsed) && l.lookAtSubject != subject ==>
      r.lookAtDurationTimer == Start(l.lookAtDurationTimer, now) && !r.isSightedIn
  {
    if !CanAimHead(l, priority, now, expireElapsed) then l
    else
      var l1 := l.(lookAtExpireTimer := Counting(now, ExpireDuration(duration)));
      if l1.lookAtSubject == subject then l1.(lookAtPriority := priority)
      else l1.(lookAtSubject := subject, lookAtPriority := priority,
               lookAtDurationTimer := Start(l1.lookAtDurationTimer, now), isSightedIn := false)
  }

  /**
   * A request at a strictly higher priority always takes over, and the next
   * request at that same priority is held back until the head has settled.
   */
  lemma HigherPriorityTakesOver(l: LookState, subject: Option<Ent>, priority: int, duration: real, now: real,
                                expireElapsed: bool, other: Option<Ent>, later: real, laterElapsed: bool)
    requires l.lookAtPriority < priority
    ensures var r := AimHeadTowards(l, subject, priority, duration, now, expireElapsed);
      && r.lookAtSubject == subject && r.lookAtPriority == priority
      && (CanAimHead(r, priority, later, laterElapsed) <==>
            IsHeadSteady(l) && later - l.headSteadyTimer.timestamp >= HeadAimSettleDuration)
  {
  }

  /**
   * `TrackAimSteady`: below the max rate the head is steady (the steady timer
   * starts only if it has not already); otherwise the timer is invalidated.
   */
  function TrackAimSteady(l: LookState, now: real): (r: (LookState, bool))
    ensures r.1 <==> l.aimRate < HeadAimSteadyMaxRate
    ensures r.1 && IsHeadSteady(l) ==> r.0 == l
    ensures r.1 && !IsHeadSteady(l) ==> r.0 == l.(headSteadyTimer := Start(l.headSteadyTimer, now))
    ensures !r.1 ==> r.0 == l.(headSteadyTimer := NewIntervalTimer()) && !IsHeadSteady(r.0)
  {
    if l.aimRate < HeadAimSteadyMaxRate then
      if !HasStarted(l.headSteadyTimer) then (l.(headSteadyTimer := Start(l.headSteadyTimer, now)), true)
      else (l, true)
    else (l.(headSteadyTimer := Invalidate(l.headSteadyTimer)), false)
  }

  /**
   * While the aim stays slow, the steady duration keeps counting from the
   * first steady tick: a second tracking call does not restart it.
   */
  lemma SteadyDurationAccumulates(l: LookState, t1: real, t2: real, now: real)
    requires l.aimRate < HeadAimSteadyMaxRate && !IsHeadSteady(l) && t1 > 0.0
    ensures var r := TrackAimSteady(TrackAimSteady(l, t1).0, t2).0;
      IsHeadSteady(r) && GetHeadSteadyDuration(r, now) == now - t1
  {
  }

  function Abs(x: real): real { if x < 0.0 then -x else x }

  /** The delta `ApproachAngle` uses: `target - value`, wrapped once into range. */
  function WrappedDelta(target: real, value: real): real {
    var delta := target - value;
    if delta < -180.0 then delta + 360.0
    else if delta > 180.0 then delta - 360.0
    else delta
  }

  /**
   * `ApproachAngle(target, value, speed)`: the target when the once-wrapped
   * delta is within |speed|; otherwise exactly |speed| towards it.
   */
  function ApproachAngle(target: real, value: real, speed: real): (r: real)
    ensures Abs(WrappedDelta(target, value)) <= Abs(speed) ==> r == target
    ensures WrappedDelta(target, value) > Abs(speed) ==> r == value + Abs(speed)
    ensures WrappedDelta(target, value) < -Abs(speed) ==> r == value - Abs(speed)
  {
    var delta := WrappedDelta(target, value);
    var sp := if speed < 0.0 then -speed else speed;
    if delta > sp then value + sp
    else if delta < -sp then value - sp
    else target
  }

  /** `ApproachAngle` applied `n` times at the same speed. */
  function ApproachTimes(target: real, value: real, speed: real, n: nat): real
    decreases n
  {
    if n == 0 then value else ApproachTimes(target, ApproachAngle(target, value, speed), speed, n - 1)
  }

  /**
   * An angle within half a turn of the target reaches it in `n` steps once
   * `n` steps of |speed| cover the distance, and stays there.
   */
  lemma {:induction false} ApproachReaches(target: real, value: real, speed: real, n: nat)
    requires -180.0 <= target - value <= 180.0
    requires Abs(target - value) <= (n as real) * Abs(speed)
    ensures ApproachTimes(target, value, speed, n) == target
    decreases n
  {
    if n > 0 {
      var next := ApproachAngle(target, value, speed);
      assert WrappedDelta(target, value) == target - value;
      if Abs(target - value) <= Abs(speed) {
        assert next == target;
        StaysAtTarget(target, speed, n - 1);
      } else {
        assert Abs(target - next) == Abs(target - value) - Abs(speed);
        ApproachReaches(target, next, speed, n - 1);
      }
    } else {
      assert Abs(target - value) <= 0.0;
    }
  }

  lemma {:induction false} StaysAtTarget(target: real, speed: real, n: nat)
    ensures ApproachTimes(target, target, speed, n) == target
    decreases n
  {
    if n > 0 {
      assert ApproachAngle(target, target, speed) == target;
      StaysAtTarget(target, speed, n - 1);
    }
  }
}
