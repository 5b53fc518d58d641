/**
 * Synthesised player input (NextBotController.Input.cs): a button bitmask,
 * a deadline per button mask, an analog move vector and its deadline.
 * `InputButton` is an engine flags type that is not part of this model: a
 * mask is the set of its bit positions, so `|` is union, `& ~` is
 * difference and `HasFlag` is inclusion.  The deadline dictionary is a list in
 * insertion order, which is the order a .NET `Dictionary` that is never
 * removed from enumerates in: writing an existing key keeps its place,
 * writing a new key appends it.  The clock is a parameter.
 */
module Input {
  import opened Wrappers
  import opened Knowledge

  type Buttons = set<nat>

  /** The bit width of a mask. */
  const Width: nat := 64

  /** `HasFlag`: every bit of `button` is set. */
  predicate HasFlag(b: Buttons, button: Buttons) {
    button <= b
  }

  datatype InputState = InputState(buttons: Buttons, buttonTimes: seq<(Buttons, real)>, analogMove: Vec3, analogMoveTime: real)

  /** The keys of the deadline list are distinct, as a dictionary's are. */
  predicate KeysDistinct(times: seq<(Buttons, real)>) {
    forall i, j :: 0 <= i < j < |times| ==> times[i].0 != times[j].0
  }

  /** The deadline recorded for `button`, if any. */
  function DeadlineOf(times: seq<(Buttons, real)>, button: Buttons): (r: Option<real>)
    ensures r.None? <==> forall i :: 0 <= i < |times| ==> times[i].0 != button
    decreases |times|
  {
    if |times| == 0 then None
    else if times[0].0 == button then Some(times[0].1)
    else DeadlineOf(times[1..], button)
  }

  /** `InputButtonsTime[button] = deadline`. */
  function SetDeadline(times: seq<(Buttons, real)>, button: Buttons, deadline: real): (r: seq<(Buttons, real)>)
    ensures KeysDistinct(times) ==> KeysDistinct(r)
    ensures DeadlineOf(r, button) == Some(deadline)
    ensures forall other :: other != button ==> DeadlineOf(r, other) == DeadlineOf(times, other)
    ensures |r| == |times| || (|r| == |times| + 1 && r[..|times|] == times)
    ensures forall i :: 0 <= i < |r| ==> r[i].0 == button || r[i] in times
    decreases |times|
  {
    if |times| == 0 then [(button, deadline)]
    else if times[0].0 == button then [(button, deadline)] + times[1..]
    else [times[0]] + SetDeadline(times[1..], button, deadline)
  }

  /** `PressInputButton(button, duration)`: the bits are set and the deadline is now + duration. */
  function PressInputButton(s: InputState, button: Buttons, duration: real, now: real): (r: InputState)
    ensures r.buttons == s.buttons + button && HasFlag(r.buttons, button)
    ensures DeadlineOf(r.buttonTimes, button) == Some(now + duration)
    ensures forall other :: other != button ==> DeadlineOf(r.buttonTimes, other) == DeadlineOf(s.buttonTimes, other)
    ensures r.analogMove == s.analogMove && r.analogMoveTime == s.analogMoveTime
  {
    s.(buttons := s.buttons + button, buttonTimes := SetDeadline(s.buttonTimes, button, now + duration))
  }

  /** `ReleaseInputButton(button)`: only those bits are cleared, and the deadline becomes -1. */
  function ReleaseInputButton(s: InputState, button: Buttons): (r: InputState)
    ensures r.buttons * button == {}
    ensures r.buttons - button == s.buttons - button
    ensures DeadlineOf(r.buttonTimes, button) == Some(-1.0)
    ensures forall other :: other != button ==> DeadlineOf(r.buttonTimes, other) == DeadlineOf(s.buttonTimes, other)
    ensures r.analogMove == s.analogMove && r.analogMoveTime == s.analogMoveTime
  {
    s.(buttons := s.buttons - button, buttonTimes := SetDeadline(s.buttonTimes, button, -1.0))
  }

  /**
   * The button loop of `ReleaseExpiredButtons`: in dictionary order, a key
   * whose bits are all still pressed and whose deadline has passed has its
   * bits cleared.
   */
  function ReleaseExpired(b: Buttons, times: seq<(Buttons, real)>, now: real): (r: Buttons)
    ensures r <= b
    decreases |times|
  {
    if |times| == 0 then b
    else
      var next := if HasFlag(b, times[0].0) && times[0].1 < now then b - times[0].0 else b;
      ReleaseExpired(next, times[1..], now)
  }

  /** The bits of the keys that are pressed in `b` and have expired. */
  function ExpiredBits(b: Buttons, times: seq<(Buttons, real)>, now: real): Buttons
    decreases |times|
  {
    if |times| == 0 then {}
    else
      (if HasFlag(b, times[0].0) && times[0].1 < now then times[0].0 else {}) + ExpiredBits(b, times[1..], now)
  }

  /** The keys share no bits, as distinct single buttons do not. */
  predicate KeysDisjoint(times: seq<(Buttons, real)>) {
    forall i, j :: 0 <= i < j < |times| ==> times[i].0 * times[j].0 == {}
  }

  /** `ReleaseExpiredButtons`: the button sweep, then the analog move is zeroed once its deadline has passed. */
  function ReleaseExpiredButtons(s: InputState, now: real): (r: InputState)
    ensures r.buttons <= s.buttons
    ensures KeysDisjoint(s.buttonTimes) ==> r.buttons == s.buttons - ExpiredBits(s.buttons, s.buttonTimes, now)
    ensures r.analogMove == if s.analogMoveTime < now then Zero() else s.analogMove
    ensures r.buttonTimes == s.buttonTimes && r.analogMoveTime == s.analogMoveTime
  {
    ExpiredSweepIsExact(s.buttons, s.buttonTimes, now);
    s.(buttons := ReleaseExpired(s.buttons, s.buttonTimes, now),
       analogMove := if s.analogMoveTime < now then Zero() else s.analogMove)
  }

  /** Clearing bits disjoint from a key leaves the key's pressed state alone. */
  lemma ClearOtherKeepsFlag(b: Buttons, k: Buttons, j: Buttons)
    requires k * j == {}
    ensures HasFlag(b - k, j) <==> HasFlag(b, j)
  {
    forall x | x in j ensures x !in k {
      assert x !in k * j;
    }
  }

  /** Clearing bits disjoint from the later keys does not change which of them expire. */
  lemma {:induction false} ExpiredBitsIgnoresOther(b: Buttons, k: Buttons, times: seq<(Buttons, real)>, now: real)
    requires forall i :: 0 <= i < |times| ==> k * times[i].0 == {}
    ensures ExpiredBits(b - k, times, now) == ExpiredBits(b, times, now)
    decreases |times|
  {
    if |times| > 0 {
      ClearOtherKeepsFlag(b, k, times[0].0);
      ExpiredBitsIgnoresOther(b, k, times[1..], now);
    }
  }

  /**
   * With keys that share no bits, the sweep clears exactly the bits of the
   * pressed keys whose deadline has passed and leaves every other bit.
   */
  lemma {:induction false} ExpiredSweepIsExact(b: Buttons, times: seq<(Buttons, real)>, now: real)
    ensures KeysDisjoint(times) ==> ReleaseExpired(b, times, now) == b - ExpiredBits(b, times, now)
    decreases |times|
  {
    if |times| > 0 && KeysDisjoint(times) {
      var k := times[0].0;
      var rest := times[1..];
      assert KeysDisjoint(rest) by {
        forall i, j | 0 <= i < j < |rest| ensures rest[i].0 * rest[j].0 == {} {
          assert rest[i] == times[i + 1] && rest[j] == times[j + 1];
        }
      }
      assert forall i :: 0 <= i < |rest| ==> k * rest[i].0 == {} by {
        forall i | 0 <= i < |rest| ensures k * rest[i].0 == {} {
          assert rest[i] == times[i + 1];
        }
      }
      var next := if HasFlag(b, k) && times[0].1 < now then b - k else b;
      ExpiredSweepIsExact(next, rest, now);
      if HasFlag(b, k) && times[0].1 < now {
        ExpiredBitsIgnoresOther(b, k, rest, now);
        var e := ExpiredBits(b, rest, now);
        assert (b - k) - e == b - (k + e);
      }
    }
  }

  /**
   * A key whose deadline has passed is not fully pressed after the sweep,
   * whatever the other keys are: either it is cleared at its turn or one of
   * its bits was already gone.
   */
  lemma {:induction false} ExpiredKeyReleased(b: Buttons, times: seq<(Buttons, real)>, now: real, i: nat)
    requires i < |times| && times[i].0 != {} && times[i].1 < now
    ensures !HasFlag(ReleaseExpired(b, times, now), times[i].0)
    decreases |times|
  {
    var next := if HasFlag(b, times[0].0) && times[0].1 < now then b - times[0].0 else b;
    if i == 0 {
      var k := times[0].0;
      assert !HasFlag(next, k);
      var r := ReleaseExpired(next, times[1..], now);
    } else {
      assert times[1..][i - 1] == times[i];
      ExpiredKeyReleased(next, times[1..], now, i - 1);
    }
  }

  /**
   * A press with the default duration (-1) is released by the next sweep:
   * its deadline is already in the past at any later time.
   */
  lemma DefaultPressReleasedBySweep(s: InputState, button: Buttons, now: real, later: real)
    requires button != {} && later >= now
    ensures var pressed := PressInputButton(s, button, -1.0, now);
      !HasFlag(ReleaseExpiredButtons(pressed, later).buttons, button)
  {
    var pressed := PressInputButton(s, button, -1.0, now);
    var i := DeadlineIndex(pressed.buttonTimes, button);
    ExpiredKeyReleased(pressed.buttons, pressed.buttonTimes, later, i);
  }

  /** Where a recorded deadline sits in the list. */
  lemma {:induction false} DeadlineIndex(times: seq<(Buttons, real)>, button: Buttons) returns (i: nat)
    requires DeadlineOf(times, button).Some?
    ensures i < |times| && times[i] == (button, DeadlineOf(times, button).value)
    decreases |times|
  {
    if times[0].0 == button {
      i := 0;
    } else {
      var j := DeadlineIndex(times[1..], button);
      i := j + 1;
    }
  }

  /**
   * With keys that overlap the dictionary order matters: when the masks
   * {0} and {0, 1} have both expired and both are held, the sweep keeps bit
   * 1 if {0} comes first and clears it if {0, 1} comes first.
   */
  lemma OverlappingKeysDependOnOrder(now: real)
    ensures ReleaseExpired({0, 1}, [({0}, now - 1.0), ({0, 1}, now - 1.0)], now) == {1}
    ensures ReleaseExpired({0, 1}, [({0, 1}, now - 1.0), ({0}, now - 1.0)], now) == {}
  {
    var d := now - 1.0;
    assert {0, 1} - {0} == {1};
    assert 1 !in {0} && 0 !in {1};
    assert !HasFlag({1}, {0, 1});
    assert [({0}, d), ({0, 1}, d)][1..] == [({0, 1}, d)];
    assert ReleaseExpired({1}, [({0, 1}, d)], now) == {1};
    assert {0, 1} - {0, 1} == {};
    assert [({0, 1}, d), ({0}, d)][1..] == [({0}, d)];
    assert ReleaseExpired({}, [({0}, d)], now) == {};
  }

  /** `AnalogMove(vector, duration)`: the vector is set until now + duration; a sweep after that zeroes it. */
  function AnalogMove(s: InputState, v: Vec3, duration: real, now: real): (r: InputState)
    ensures r.analogMove == v && r.buttons == s.buttons && r.buttonTimes == s.buttonTimes
    ensures forall later :: ReleaseExpiredButtons(r, later).analogMove == if later > now + duration then Zero() else v
  {
    s.(analogMove := v, analogMoveTime := now + duration)
  }

  /** The engine's movement buttons; their values are not part of this model. */
  datatype MoveButtons = MoveButtons(forward: Buttons, back: Buttons, left: Buttons, right: Buttons)

  /** What `BuildInput` hands the engine: buttons pressed, buttons released, and the direction before it is clamped and normalised. */
  datatype Built = Built(pressed: Buttons, released: Buttons, direction: Vec3)

  function Unit(b: bool): real { if b then 1.0 else 0.0 }

  /**
   * `BuildInput`: the held bits are pressed and all others released; forward
   * and back add +1 and -1 along x, left and right +1 and -1 along y.
   */
  function BuildInput(s: InputState, keys: MoveButtons): (r: Built)
    ensures forall i :: 0 <= i < Width ==> (i in r.pressed || i in r.released)
    ensures r.pressed * r.released == {}
    ensures r.pressed == s.buttons
    ensures r.direction.z == s.analogMove.z
    ensures r.direction.x - s.analogMove.x == Unit(HasFlag(s.buttons, keys.forward)) - Unit(HasFlag(s.buttons, keys.back))
    ensures r.direction.y - s.analogMove.y == Unit(HasFlag(s.buttons, keys.left)) - Unit(HasFlag(s.buttons, keys.right))
  {
    var m := s.analogMove;
    var x1 := if HasFlag(s.buttons, keys.forward) then m.x + 1.0 else m.x;
    var x2 := if HasFlag(s.buttons, keys.back) then x1 - 1.0 else x1;
    var y1 := if HasFlag(s.buttons, keys.right) then m.y - 1.0 else m.y;
    var y2 := if HasFlag(s.buttons, keys.left) then y1 + 1.0 else y1;
    Built(s.buttons, (set i: nat | i < Width && i !in s.buttons), Vec3(x2, y2, m.z))
  }

  /** Holding both buttons of an opposite pair cancels along that axis. */
  lemma OppositeButtonsCancel(s: InputState, keys: MoveButtons)
    requires HasFlag(s.buttons, keys.forward) && HasFlag(s.buttons, keys.back)
    requires HasFlag(s.buttons, keys.left) && HasFlag(s.buttons, keys.right)
    ensures BuildInput(s, keys).direction == s.analogMove
  {
  }
}
