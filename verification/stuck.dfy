/**
 * Stuck detection (Components/Locomotion/NextBotLocomotion.Stuck.cs): an
 * anchor position, the time the bot has spent near it, and the stuck flag.
 * What the monitor reads each call (time since a move was requested, the
 * bot's feet and position, the clock, whether the still-stuck countdown has
 * elapsed) is an input; the events it raises are its output.
 */
module Stuck {
  import opened Wrappers
  import opened Knowledge
  import opened Timers

  const StuckRadius: real := 100.0
  /** A move request older than this means the bot does not want to move. */
  const IdleTime: real := 0.25
  /** Seconds near the anchor after which the bot is stuck. */
  const EscapeTime: real := 2.0
  /** The still-stuck countdown, in seconds. */
  const StillStuckInterval: real := 1.0

  datatype StuckEvent = StuckRaised | UnStuckRaised

  datatype StuckState = StuckState(isStuck: bool, stuckPosition: Vec3, stuckSince: real, stillStuckTimer: Countdown)

  datatype Tick = Tick(timeSinceMoveRequested: real, feet: Vec3, position: Vec3, now: real, stillStuckElapsed: bool)

  /** `Distance(a, b) > StuckRadius`, compared on squares. */
  predicate Far(a: Vec3, b: Vec3) {
    LengthSquared(Sub(a, b)) > StuckRadius * StuckRadius
  }

  /** `TimeSinceStuck`. */
  function TimeSinceStuck(s: StuckState, now: real): real {
    now - s.stuckSince
  }

  /**
   * `ClearStuckStatus`: UnStuck only when the bot was stuck; the anchor moves
   * to the feet and the time near it restarts in every case.
   */
  function ClearStuckStatus(s: StuckState, feet: Vec3, now: real): (r: (StuckState, seq<StuckEvent>))
    ensures !r.0.isStuck && r.0.stuckPosition == feet && TimeSinceStuck(r.0, now) == 0.0
    ensures r.0.stillStuckTimer == s.stillStuckTimer
    ensures r.1 == if s.isStuck then [UnStuckRaised] else []
  {
    (s.(isStuck := false, stuckPosition := feet, stuckSince := now), if s.isStuck then [UnStuckRaised] else [])
  }

  /** `StuckMonitor`. */
  function StuckMonitor(s: StuckState, t: Tick): (r: (StuckState, seq<StuckEvent>))
    // no wish to move: re-anchor, no event, flag unchanged
    ensures t.timeSinceMoveRequested > IdleTime ==>
      r.1 == [] && r.0 == s.(stuckPosition := t.feet, stuckSince := t.now)
    // stuck and moved away: un-stuck with exactly one UnStuck
    ensures t.timeSinceMoveRequested <= IdleTime && s.isStuck && Far(t.position, s.stuckPosition) ==>
      !r.0.isStuck && r.1 == [UnStuckRaised]
    // stuck and still near: Stuck again only when the countdown has run out, which restarts it
    ensures t.timeSinceMoveRequested <= IdleTime && s.isStuck && !Far(t.position, s.stuckPosition) ==>
      && r.0.isStuck && r.0.stuckPosition == s.stuckPosition
      && (t.stillStuckElapsed ==> r.1 == [StuckRaised] && r.0.stillStuckTimer == Counting(t.now, StillStuckInterval))
      && (!t.stillStuckElapsed ==> r == (s, []))
    // not stuck and moved away: re-anchor, stay not stuck
    ensures t.timeSinceMoveRequested <= IdleTime && !s.isStuck && Far(t.position, s.stuckPosition) ==>
      r.1 == [] && r.0 == s.(stuckPosition := t.feet, stuckSince := t.now)
    // not stuck, near, for too long: stuck, exactly one Stuck, countdown started
    ensures t.timeSinceMoveRequested <= IdleTime && !s.isStuck && !Far(t.position, s.stuckPosition) ==>
      if TimeSinceStuck(s, t.now) > EscapeTime then
        r.0.isStuck && r.1 == [StuckRaised] && r.0.stillStuckTimer == Counting(t.now, StillStuckInterval)
      else r == (s, [])
  {
    if t.timeSinceMoveRequested > IdleTime then
      (s.(stuckPosition := t.feet, stuckSince := t.now), [])
    else if s.isStuck then
      if Far(t.position, s.stuckPosition) then ClearStuckStatus(s, t.feet, t.now)
      else if t.stillStuckElapsed then (s.(stillStuckTimer := Counting(t.now, StillStuckInterval)), [StuckRaised])
      else (s, [])
    else if Far(t.position, s.stuckPosition) then
      (s.(stuckPosition := t.feet, stuckSince := t.now), [])
    else if TimeSinceStuck(s, t.now) > EscapeTime then
      (s.(isStuck := true, stillStuckTimer := Counting(t.now, StillStuckInterval)), [StuckRaised])
    else (s, [])
  }

  /** The monitor over a run of ticks, with all events in order. */
  function Monitor(s: StuckState, ticks: seq<Tick>): (StuckState, seq<StuckEvent>)
    decreases |ticks|
  {
    if |ticks| == 0 then (s, [])
    else
      var first := StuckMonitor(s, ticks[0]);
      var rest := Monitor(first.0, ticks[1..]);
      (rest.0, first.1 + rest.1)
  }

  /**
   * What a listener concludes from the events alone: Stuck means stuck,
   * UnStuck means no longer stuck and is only ever heard while stuck.
   * `None` is an UnStuck heard while not stuck.
   */
  function Listen(stuck: bool, events: seq<StuckEvent>): Option<bool>
    decreases |events|
  {
    if |events| == 0 then Some(stuck)
    else if events[0] == UnStuckRaised && !stuck then None
    else Listen(events[0] == StuckRaised, events[1..])
  }

  lemma ListenAppend(stuck: bool, a: seq<StuckEvent>, b: seq<StuckEvent>, mid: bool)
    requires Listen(stuck, a) == Some(mid)
    ensures Listen(stuck, a + b) == Listen(mid, b)
    decreases |a|
  {
    if |a| > 0 {
      assert (a + b)[1..] == a[1..] + b;
      ListenAppend(a[0] == StuckRaised, a[1..], b, mid);
    } else {
      assert a + b == b;
    }
  }

  /**
   * The events are a faithful account of the flag: replaying them from the
   * initial flag never hears UnStuck while not stuck and ends at the final
   * flag, whatever the ticks.
   */
  lemma {:induction false} EventsTrackTheFlag(s: StuckState, ticks: seq<Tick>)
    ensures Listen(s.isStuck, Monitor(s, ticks).1) == Some(Monitor(s, ticks).0.isStuck)
    decreases |ticks|
  {
    if |ticks| > 0 {
      var first := StuckMonitor(s, ticks[0]);
      assert Listen(s.isStuck, first.1) == Some(first.0.isStuck);
      EventsTrackTheFlag(first.0, ticks[1..]);
      ListenAppend(s.isStuck, first.1, Monitor(first.0, ticks[1..]).1, first.0.isStuck);
    }
  }
}
