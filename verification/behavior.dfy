/**
 * The per-tick driver of an action stack (`NextBotBehavior`) and the intention
 * component that owns one (`NextBotIntention.Reset`).  The behaviour holds the
 * current action, or nothing once the whole stack has finished, and remembers
 * whether it has been given a bot (`Me`); the bot itself is only its presence.
 */
module Behaviour {
  import opened Wrappers
  import opened Results
  import opened Actions
  import opened Engine
  import opened Transitions

  datatype Behavior = Behavior(hasMe: bool, action: Option<Id>)

  /** `IsEmpty`: no action is held. */
  predicate IsEmpty(bh: Behavior) {
    bh.action.None?
  }

  /** A new behaviour holds its initial action and has no bot yet. */
  function NewBehavior(initial: Id): (bh: Behavior)
    ensures !IsEmpty(bh) && !bh.hasMe
    ensures bh.action == Some(initial)
  {
    Behavior(false, Some(initial))
  }

  /**
   * `Update(me, interval)`: nothing without a bot or without an action;
   * otherwise remember the bot and replace the held action by
   * `ApplyResult(InvokeUpdate)`, which is `None` once the stack has finished.
   */
  function Update(cb: Callbacks, st: State, bh: Behavior, me: bool, fuel: nat): (r: Run<Behavior>)
    ensures !me || IsEmpty(bh) ==> r == Ran(st, bh)
    ensures r.Ran? ==> st.trace <= r.st.trace
    ensures r.Ran? && me && !IsEmpty(bh) ==> r.val.hasMe
  {
    if !me || IsEmpty(bh) then Ran(st, bh)
    else
      var a := bh.action.value;
      var updated :- InvokeUpdate(cb, st, a, fuel);
      var applied :- ApplyResult(cb, updated.0, a, updated.1, fuel);
      Ran(applied.0, Behavior(true, applied.1))
  }

  /** `n` ticks of `Update` with the same bot. */
  function Ticks(cb: Callbacks, st: State, bh: Behavior, me: bool, n: nat, fuel: nat): Run<Behavior>
    decreases n
  {
    if n == 0 then Ran(st, bh)
    else
      var once :- Update(cb, st, bh, me, fuel);
      Ticks(cb, once.0, once.1, me, n - 1, fuel)
  }

  /** Once the stack has finished the behaviour stays empty: no later tick runs anything. */
  lemma {:induction false} EmptyStaysEmpty(cb: Callbacks, st: State, bh: Behavior, me: bool, n: nat, fuel: nat)
    requires IsEmpty(bh)
    ensures Ticks(cb, st, bh, me, n, fuel) == Ran(st, bh)
    decreases n
  {
    if n > 0 {
      EmptyStaysEmpty(cb, st, bh, me, n - 1, fuel);
    }
  }

  /**
   * Lazy start: the first tick of a never-started root action with nothing
   * buried starts it through a ChangeTo to itself, so exactly one OnStart
   * fires, with the action as its own prior action, and it stays current.
   */
  lemma FirstUpdateStartsRoot(cb: Callbacks, st: State, a: Id, fuel: nat)
    requires !Get(st, a).started && Get(st, a).buried.None?
    requires QuietStart(cb, a) && fuel >= 2
    ensures var r := Update(cb, st, NewBehavior(a), true, fuel);
      && r.Ran? && r.val == Behavior(true, Some(a))
      && r.st.trace == st.trace + [OnStartCall(a, Some(a))]
      && Get(r.st, a).started && Get(r.st, a).covering.None? && Get(r.st, a).buried.None?
  {
    assert InvokeUpdate(cb, st, a, fuel) == Ran(st, Some(ChangeToResult(Some(a), "Starting Action")));
    assert InvokeOnEnd(cb, st, a, Some(a), fuel - 1) == Ran(st, ());
    QuietStartLinks(cb, st, a, Some(a), None, fuel - 1);
    var started := InvokeOnStart(cb, st, a, Some(a), None, fuel - 1);
    assert ApplyResult(cb, started.st, a, started.val, fuel - 1) == Ran(started.st, Some(a));
  }

  /**
   * A Done that reaches the bottom of the stack empties the behaviour: a
   * started childless, uncovered action with nothing buried and a Done
   * pending in its own slot ends (one OnEnd, with no next action) and the
   * behaviour holds nothing afterwards.
   */
  lemma BottomDoneEmpties(cb: Callbacks, st: State, a: Id, fuel: nat)
    requires Get(st, a).started && Get(st, a).buried.None?
    requires Get(st, a).child.None? && Get(st, a).covering.None?
    requires Get(st, a).pending.kind == Done && fuel >= 2
    ensures var r := Update(cb, st, Behavior(true, Some(a)), true, fuel);
      && r.Ran? && IsEmpty(r.val)
      && r.st.trace == st.trace + [OnEndCall(a, None)]
      && !Get(r.st, a).started
  {
    var s1 := SetPending(st, a, EmptySlot());
    assert InvokeUpdate(cb, st, a, fuel) == Ran(s1, Some(ToActionResult(Get(st, a).pending)));
    var s2 := SetStarted(s1, a, false);
    assert EndChildren(cb, s2, None, None, fuel - 2) == Ran(s2, ());
    assert InvokeOnEnd(cb, s1, a, None, fuel - 1) == Ran(Fire(s2, OnEndCall(a, None)), ());
  }

  /**
   * `OnEvent`: forwarded to the held action only.  No other action's state
   * changes, so a contained child never receives an event along this path;
   * an empty behaviour ignores events.
   */
  function OnEvent(cb: Callbacks, st: State, bh: Behavior, ev: Event, fuel: nat): (r: Option<State>)
    ensures IsEmpty(bh) ==> r == Some(st)
    ensures r.Some? ==> st.trace <= r.value.trace
    ensures r.Some? && bh.action.Some? ==> forall x: Id :: x != bh.action.value ==> Get(r.value, x) == Get(st, x)
  {
    match bh.action
    case None => Some(st)
    case Some(a) => Actions.OnEvent(cb, st, a, ev, fuel)
  }

  /**
   * `Stop`: only with a bot and an action; ends the held action (its
   * children and whatever covers it, never what it buried), forgets the bot
   * and keeps the action reference.
   */
  function Stop(cb: Callbacks, st: State, bh: Behavior, fuel: nat): (r: Run<Behavior>)
    ensures !bh.hasMe || IsEmpty(bh) ==> r == Ran(st, bh)
    ensures r.Ran? && bh.hasMe && !IsEmpty(bh) ==>
      && r.val == Behavior(false, bh.action)
      && EndsOnly(st, r.st, None)
      && !Get(r.st, bh.action.value).started
      && (Get(st, bh.action.value).started ==> exists p :: EndedInOrder(st, r.st, bh.action.value, None, p, fuel))
  {
    if bh.hasMe && bh.action.Some? then
      var ended :- InvokeOnEnd(cb, st, bh.action.value, None, fuel);
      Ran(ended.0, Behavior(false, bh.action))
    else Ran(st, bh)
  }

  /** An empty behaviour is inert: ticks, events and Stop leave the state and the behaviour alone. */
  lemma EmptyBehaviourIsInert(cb: Callbacks, st: State, bh: Behavior, me: bool, ev: Event, fuel: nat)
    requires IsEmpty(bh)
    ensures Update(cb, st, bh, me, fuel) == Ran(st, bh)
    ensures OnEvent(cb, st, bh, ev, fuel) == Some(st)
    ensures Stop(cb, st, bh, fuel) == Ran(st, bh)
  {
  }

  /**
   * Stopping a behaviour whose held action has no child and nothing on top of
   * it fires exactly one OnEnd and changes no other action.
   */
  lemma StopEndsOnlyTheTop(cb: Callbacks, st: State, a: Id, fuel: nat)
    requires Get(st, a).started && Get(st, a).child.None? && Get(st, a).covering.None?
    requires fuel >= 2
    ensures var r := Stop(cb, st, Behavior(true, Some(a)), fuel);
      && r.Ran? && r.st.trace == st.trace + [OnEndCall(a, None)]
      && forall x: Id :: x != a ==> Get(r.st, x) == Get(st, x)
  {
    var s1 := SetStarted(st, a, false);
    assert EndChildren(cb, s1, None, None, fuel - 1) == Ran(s1, ());
  }

  /**
   * Stopping ends only actions of a region around the held action: `R` holds
   * it, whatever covers an action of `R`, and every action of the child
   * chains of actions of `R`.  Every action outside `R` keeps its node; in
   * particular, when the held action's BuriedUnderMe chain lies outside `R`,
   * as it does in a stack where the chains above an action never reach back
   * below it, no buried action changes.
   */
  lemma StopLeavesBuriedAlone(cb: Callbacks, st: State, a: Id, fuel: nat, R: set<Id>, C: set<Id>, below: seq<Id>)
    requires EndRegion(st, R, C) && a in R
    requires Get(st, a).buried.Some? ==> IsBuriedChain(st, Get(st, a).buried.value, below)
    requires forall x :: x in below ==> x !in R
    ensures var r := Stop(cb, st, Behavior(true, Some(a)), fuel);
      && (r.Ran? ==> forall x: Id :: x !in R ==> Get(r.st, x) == Get(st, x))
      && (r.Ran? && Get(st, a).buried.Some? ==> forall x :: x in below ==> Get(r.st, x) == Get(st, x))
  {
    var r := InvokeOnEnd(cb, st, a, None, fuel);
    if r.Ran? {
      EndStaysInRegion(cb, st, a, None, fuel, R, C, r.st);
    }
  }

  /** `NextBotIntention.Reset`: stop the current behaviour, then hold a new one on a fresh initial action. */
  function Reset(cb: Callbacks, st: State, bh: Option<Behavior>, initial: Id, fuel: nat): (r: Run<Behavior>)
    ensures r.Ran? ==> r.val == NewBehavior(initial) && st.trace <= r.st.trace
    ensures bh.None? ==> r == Ran(st, NewBehavior(initial))
    // the old behaviour is stopped first: Reset runs exactly when that Stop does
    ensures bh.Some? ==> (r.Ran? <==> Stop(cb, st, bh.value, fuel).Ran?)
    ensures r.Ran? && bh.Some? && (!bh.value.hasMe || IsEmpty(bh.value)) ==> r.st == st
    ensures r.Ran? && bh.Some? && bh.value.hasMe && !IsEmpty(bh.value) ==>
      var a := bh.value.action.value;
      && EndsOnly(st, r.st, None)
      && !Get(r.st, a).started
      && (Get(st, a).started ==> exists p :: EndedInOrder(st, r.st, a, None, p, fuel))
  {
    match bh
    case None => Ran(st, NewBehavior(initial))
    case Some(current) =>
      var stopped :- Stop(cb, st, current, fuel);
      Ran(stopped.0, NewBehavior(initial))
  }

  /**
   * Resetting a behaviour whose held action has no child and nothing on top
   * of it fires exactly that action's OnEnd, changes no other action, and
   * leaves a new behaviour on the initial action.
   */
  lemma ResetStopsOld(cb: Callbacks, st: State, a: Id, initial: Id, fuel: nat)
    requires Get(st, a).started && Get(st, a).child.None? && Get(st, a).covering.None?
    requires fuel >= 2
    ensures var r := Reset(cb, st, Some(Behavior(true, Some(a))), initial, fuel);
      && r.Ran? && r.val.action == Some(initial) && !r.val.hasMe
      && r.st.trace == st.trace + [OnEndCall(a, None)]
      && !Get(r.st, a).started
      && forall x: Id :: x != a ==> Get(r.st, x) == Get(st, x)
  {
    StopEndsOnlyTheTop(cb, st, a, fuel);
  }
}
