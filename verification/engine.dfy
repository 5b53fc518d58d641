/**
 * The transition engine of an action (Action.cs `ApplyResult` and
 * Action.Invoke.cs): applying a result, and starting, updating, ending,
 * suspending and resuming an action together with its contained child and the
 * actions stacked on it.
 *
 * These are mutually recursive and follow links the callbacks can point
 * anywhere, so every function takes a `fuel` bound.  Every step that needs no
 * recursion (a Continue or Sustain result, a ChangeTo a null action, ending an
 * action that is not started, a blocked resume) consumes no fuel, so its
 * contract holds unconditionally.
 *
 * Where a contract follows from the callees' contracts alone, the body `hide`s
 * the predicates (and the callee bodies) it does not need.
 */
module Engine {
  import opened Wrappers
  import opened Results
  import opened Actions

  /** Outcome of an engine step: the new state and value, fuel ran out, or a null dereference. */
  datatype Run<T> = Ran(st: State, val: T) | Exhausted | Faulted {
    predicate IsFailure() {
      !Ran?
    }

    function PropagateFailure<U>(): Run<U>
      requires IsFailure()
    {
      if Exhausted? then Exhausted else Faulted
    }

    function Extract(): (State, T)
      requires !IsFailure()
    {
      (st, val)
    }
  }

  // --------------------------------------------------- callback invocation

  /** Record the call, run the callback on the history including it, and apply its SuspendFor side effect. */
  function Invoke(st: State, self: Id, c: Call, f: seq<Call> -> Option<ActionResult>): (r: (State, Option<ActionResult>))
    ensures r.0.trace == st.trace + [c]
    ensures r.1 == f(st.trace + [c])
    ensures Get(r.0, self) == Get(st, self).(pending := Get(r.0, self).pending)
    ensures forall x: Id :: x != self ==> Get(r.0, x) == Get(st, x)
  {
    var s1 := Fire(st, c);
    var res := f(s1.trace);
    (Emit(s1, self, res), res)
  }

  /** Only `started` flags may change, and only from true to false. */
  ghost predicate OnlyEnds(st: State, st': State) {
    forall x: Id :: Get(st', x) == Get(st, x).(started := Get(st', x).started) && (Get(st', x).started ==> Get(st, x).started)
  }

  /**
   * The calls appended between `st` and `st'` are OnEnd calls with the given
   * next action, each for an action started before and not started after,
   * no action twice.
   */
  ghost predicate OnlyEndCalls(st: State, st': State, next: Option<Id>) {
    && st.trace <= st'.trace
    && (forall i :: |st.trace| <= i < |st'.trace| ==>
          && st'.trace[i].OnEndCall? && st'.trace[i].next == next
          && Get(st, st'.trace[i].id).started && !Get(st', st'.trace[i].id).started)
    && (forall i, j :: |st.trace| <= i < j < |st'.trace| ==> CalledAt(st'.trace, i) != CalledAt(st'.trace, j))
  }

  /**
   * The action named by the call at position `i` of `t`; the distinctness
   * of `OnlyEndCalls` is stated with it so that it applies to pairs of calls
   * a proof names rather than to every pair of positions in sight.
   */
  ghost function CalledAt(t: seq<Call>, i: int): Id
    requires 0 <= i < |t|
  {
    t[i].id
  }

  /**
   * The converse of `OnlyEndCalls`: every action that stopped being started
   * has an OnEnd call among the calls appended.  Together the two say that
   * every ended action gets exactly one OnEnd call.
   */
  ghost predicate EndsAreCalled(st: State, st': State, next: Option<Id>) {
    && |st.trace| <= |st'.trace|
    && forall x: Id :: Get(st, x).started && !Get(st', x).started ==> OnEndCall(x, next) in st'.trace[|st.trace|..]
  }

  /** Whatever covered an action that ended between `st` and `st'` is not started in `st'` either. */
  ghost predicate CoverersEnded(st: State, st': State) {
    forall x: Id :: Get(st, x).started && !Get(st', x).started && CoverOf(st, x).Some? ==>
      !Get(st', CoverOf(st, x).value).started
  }

  /**
   * What covers `x` in `st`.  `CoverersEnded` is stated with it so that it
   * applies to the actions a proof names rather than following CoveringMe
   * links from every action in sight.
   */
  ghost function CoverOf(st: State, x: Id): Option<Id> {
    Get(st, x).covering
  }

  /** Everything `InvokeOnEnd` and the child loop promise about the states before and after. */
  ghost predicate EndsOnly(st: State, st': State, next: Option<Id>) {
    OnlyEnds(st, st') && OnlyEndCalls(st, st', next) && EndsAreCalled(st, st', next) && CoverersEnded(st, st')
  }

  /** Every action on the BuriedUnderMe chain from `child` is not started in `st'`. */
  ghost predicate ChainEnded(st: State, st': State, child: Id, fuel: nat) {
    && Below(st, child, fuel).Some?
    && forall x :: x in Below(st, child, fuel).value ==> !Get(st', x).started
  }

  /**
   * The order of `InvokeOnEnd(self)`: its own OnEnd call sits at position `p`;
   * every action of its child chain is ended, those started before with their
   * OnEnd call ahead of `p`; whatever covers it is ended, after `p` unless it
   * was already ended together with the children.
   */
  ghost predicate EndedInOrder(st: State, st': State, self: Id, next: Option<Id>, p: int, fuel: nat) {
    && |st.trace| <= p < |st'.trace| && st'.trace[p] == OnEndCall(self, next)
    && (Get(st, self).child.Some? ==>
          && fuel > 0 && Below(st, Get(st, self).child.value, fuel - 1).Some?
          && forall x :: x in Below(st, Get(st, self).child.value, fuel - 1).value ==>
               && !Get(st', x).started
               && (x != self && Get(st, x).started ==> OnEndCall(x, next) in st'.trace[|st.trace|..p]))
    && (Get(st, self).covering.Some? ==>
          var c := Get(st, self).covering.value;
          && !Get(st', c).started
          && (c != self && Get(st, c).started && OnEndCall(c, next) !in st'.trace[|st.trace|..p] ==>
                OnEndCall(c, next) in st'.trace[p + 1..]))
  }

  /** BuriedUnderMe, CoveringMe and Parent of every action are as they were. */
  ghost predicate KeepsStackLinks(st: State, st': State) {
    forall x: Id :: Get(st', x).buried == Get(st, x).buried && Get(st', x).covering == Get(st, x).covering
      && Get(st', x).parent == Get(st, x).parent
  }

  /** No action becomes started or stops being suspended. */
  ghost predicate OnlySuspends(st: State, st': State) {
    forall x: Id :: (Get(st', x).started ==> Get(st, x).started) && (Get(st, x).suspended ==> Get(st', x).suspended)
  }

  lemma OnlyEndsTrans(a: State, b: State, c: State)
    requires OnlyEnds(a, b) && OnlyEnds(b, c)
    ensures OnlyEnds(a, c)
  {
  }

  lemma OnlyEndCallsTrans(a: State, b: State, c: State, next: Option<Id>)
    requires OnlyEnds(a, b) && OnlyEnds(b, c) && OnlyEndCalls(a, b, next) && OnlyEndCalls(b, c, next)
    ensures OnlyEndCalls(a, c, next)
  {
    forall i | |a.trace| <= i < |c.trace|
      ensures c.trace[i].OnEndCall? && c.trace[i].next == next
      ensures Get(a, c.trace[i].id).started && !Get(c, c.trace[i].id).started
    {
      if i < |b.trace| {
        assert c.trace[i] == b.trace[i];
      }
    }
    forall i, j | |a.trace| <= i < j < |c.trace|
      ensures CalledAt(c.trace, i) != CalledAt(c.trace, j)
    {
      if i < |b.trace| {
        assert c.trace[i] == b.trace[i];
        if j < |b.trace| {
          assert c.trace[j] == b.trace[j];
          assert CalledAt(b.trace, i) != CalledAt(b.trace, j);
        }
      }
    }
  }

  /** A call among those appended from `b` to `c` is among those appended from `a` to `c`. */
  lemma CallInLongerTail(a: seq<Call>, b: seq<Call>, c: seq<Call>, x: Call)
    requires a <= b <= c && x in c[|b|..]
    ensures x in c[|a|..]
  {
    var k :| 0 <= k < |c| - |b| && c[|b|..][k] == x;
    assert c[|a|..][k + |b| - |a|] == x;
  }

  /** A call among those appended from `a` to `b` is still among them once `b` is extended to `c`. */
  lemma CallInPrefix(a: seq<Call>, b: seq<Call>, c: seq<Call>, x: Call)
    requires a <= b <= c && x in b[|a|..]
    ensures x in c[|a|..|b|] && x in c[|a|..]
  {
    var k :| 0 <= k < |b| - |a| && b[|a|..][k] == x;
    assert c[|a|..|b|][k] == x;
    assert c[|a|..][k] == x;
  }

  lemma EndsAreCalledTrans(a: State, b: State, c: State, next: Option<Id>)
    requires a.trace <= b.trace <= c.trace && OnlyEnds(b, c)
    requires EndsAreCalled(a, b, next) && EndsAreCalled(b, c, next)
    ensures EndsAreCalled(a, c, next)
  {
    forall x: Id | Get(a, x).started && !Get(c, x).started
      ensures OnEndCall(x, next) in c.trace[|a.trace|..]
    {
      if Get(b, x).started {
        CallInLongerTail(a.trace, b.trace, c.trace, OnEndCall(x, next));
      } else {
        CallInPrefix(a.trace, b.trace, c.trace, OnEndCall(x, next));
      }
    }
  }

  lemma EndsOnlyTrans(a: State, b: State, c: State, next: Option<Id>)
    requires EndsOnly(a, b, next) && EndsOnly(b, c, next)
    ensures EndsOnly(a, c, next)
  {
    OnlyEndsTrans(a, b, c);
    OnlyEndCallsTrans(a, b, c, next);
    EndsAreCalledTrans(a, b, c, next);
    forall x: Id | Get(a, x).started && !Get(c, x).started && CoverOf(a, x).Some?
      ensures !Get(c, CoverOf(a, x).value).started
    {
      assert Get(b, x).covering == Get(a, x).covering;
      if Get(b, x).started {
        assert !Get(c, CoverOf(b, x).value).started;
      } else {
        assert !Get(b, CoverOf(a, x).value).started;
      }
    }
  }

  /** The child loop: ending `k` and then the chain below it ends the whole chain from `k`. */
  lemma ChainStep(st: State, e: State, r: State, k: Id, next: Option<Id>, fuel: nat)
    requires fuel > 0
    requires EndsOnly(st, e, next) && EndsOnly(e, r, next) && !Get(e, k).started
    requires Get(st, k).buried.Some? ==> ChainEnded(e, r, Get(st, k).buried.value, fuel - 1)
    ensures EndsOnly(st, r, next) && ChainEnded(st, r, k, fuel)
  {
    EndsOnlyTrans(st, e, r, next);
    match Get(st, k).buried
    case None =>
    case Some(b) =>
      BelowFollowsBuried(st, e, b, fuel - 1);
  }

  /** Stopping `self`, the child loop (`SetStarted(a, self, false)` to `sc`) and the OnEnd call only end actions, each once. */
  lemma EndStep(a: State, sc: State, self: Id, next: Option<Id>)
    requires Get(a, self).started
    requires EndsOnly(SetStarted(a, self, false), sc, next)
    ensures var s2 := Fire(sc, OnEndCall(self, next));
      && OnlyEnds(a, s2) && OnlyEndCalls(a, s2, next) && EndsAreCalled(a, s2, next)
      && s2.trace[|sc.trace|] == OnEndCall(self, next) && !Get(s2, self).started
  {
    var s1 := SetStarted(a, self, false);
    var s2 := Fire(sc, OnEndCall(self, next));
    var p := |sc.trace|;
    assert s1.trace == a.trace;
    assert OnlyEnds(a, s1);
    OnlyEndsTrans(a, s1, sc);
    assert s2.trace[|s2.trace| - 1] == OnEndCall(self, next);
    forall i | |a.trace| <= i < |s2.trace|
      ensures s2.trace[i].OnEndCall? && s2.trace[i].next == next
      ensures Get(a, s2.trace[i].id).started && !Get(s2, s2.trace[i].id).started
    {
      if i < |sc.trace| {
        assert s2.trace[i] == sc.trace[i];
      }
    }
    forall i, j | |a.trace| <= i < j < |s2.trace|
      ensures CalledAt(s2.trace, i) != CalledAt(s2.trace, j)
    {
      assert s2.trace[i] == sc.trace[i];
      if j < |sc.trace| {
        assert s2.trace[j] == sc.trace[j];
        assert CalledAt(sc.trace, i) != CalledAt(sc.trace, j);
      }
    }
    forall x: Id | Get(a, x).started && !Get(s2, x).started
      ensures OnEndCall(x, next) in s2.trace[|a.trace|..]
    {
      if x == self {
        assert s2.trace[|a.trace|..][p - |a.trace|] == OnEndCall(self, next);
      } else {
        CallInPrefix(s1.trace, sc.trace, s2.trace, OnEndCall(x, next));
      }
    }
  }

  /**
   * Stopping `self`, the child loop, the OnEnd call and ending the coverer
   * (to `fin`) together end actions in the order `InvokeOnEnd` promises.
   */
  lemma EndCompose(a: State, sc: State, fin: State, self: Id, next: Option<Id>, fuel: nat)
    requires Get(a, self).started && fuel > 0
    requires EndsOnly(SetStarted(a, self, false), sc, next)
    requires Get(a, self).child.Some? ==> ChainEnded(SetStarted(a, self, false), sc, Get(a, self).child.value, fuel - 1)
    requires EndsOnly(Fire(sc, OnEndCall(self, next)), fin, next)
    requires Get(a, self).covering.None? ==> fin == Fire(sc, OnEndCall(self, next))
    requires Get(a, self).covering.Some? ==> !Get(fin, Get(a, self).covering.value).started
    ensures EndsOnly(a, fin, next) && !Get(fin, self).started
    ensures exists p :: EndedInOrder(a, fin, self, next, p, fuel)
  {
    var s1 := SetStarted(a, self, false);
    var s2 := Fire(sc, OnEndCall(self, next));
    EndStep(a, sc, self, next);
    OnlyEndsTrans(a, s2, fin);
    OnlyEndCallsTrans(a, s2, fin, next);
    EndsAreCalledTrans(a, s2, fin, next);
    forall x: Id | Get(a, x).started && !Get(fin, x).started && CoverOf(a, x).Some?
      ensures !Get(fin, CoverOf(a, x).value).started
    {
      assert Get(s2, x).covering == Get(a, x).covering;
      if x != self && !Get(sc, x).started {
        assert Get(s1, x).covering == Get(a, x).covering;
        assert !Get(sc, CoverOf(s1, x).value).started;
      } else if x != self {
        assert !Get(fin, CoverOf(s2, x).value).started;
      }
    }
    EndOrder(a, sc, fin, self, next, fuel);
  }

  /** The order part of `EndCompose`: the children ahead of `self`'s OnEnd call, the coverer after it. */
  lemma EndOrder(a: State, sc: State, fin: State, self: Id, next: Option<Id>, fuel: nat)
    requires Get(a, self).started && fuel > 0
    requires EndsOnly(SetStarted(a, self, false), sc, next)
    requires Get(a, self).child.Some? ==> ChainEnded(SetStarted(a, self, false), sc, Get(a, self).child.value, fuel - 1)
    requires EndsOnly(Fire(sc, OnEndCall(self, next)), fin, next)
    requires Get(a, self).covering.Some? ==> !Get(fin, Get(a, self).covering.value).started
    ensures EndedInOrder(a, fin, self, next, |sc.trace|, fuel)
  {
    var s1 := SetStarted(a, self, false);
    var s2 := Fire(sc, OnEndCall(self, next));
    var p := |sc.trace|;
    assert s1.trace == a.trace;
    assert fin.trace[p] == OnEndCall(self, next) by {
      assert fin.trace[p] == s2.trace[p];
    }
    if Get(a, self).child.Some? {
      var k := Get(a, self).child.value;
      BelowFollowsBuried(a, s1, k, fuel - 1);
      forall x | x in Below(a, k, fuel - 1).value
        ensures !Get(fin, x).started
        ensures x != self && Get(a, x).started ==> OnEndCall(x, next) in fin.trace[|a.trace|..p]
      {
        assert !Get(sc, x).started;
        if x != self && Get(a, x).started {
          CallInPrefix(s1.trace, sc.trace, fin.trace, OnEndCall(x, next));
        }
      }
    }
    if Get(a, self).covering.Some? {
      var c := Get(a, self).covering.value;
      if c != self && Get(a, c).started && OnEndCall(c, next) !in fin.trace[|a.trace|..p] {
        if !Get(sc, c).started {
          CallInPrefix(s1.trace, sc.trace, fin.trace, OnEndCall(c, next));
        }
        assert Get(s2, c).started;
        assert fin.trace[p + 1..] == fin.trace[|s2.trace|..];
      }
    }
  }

  // ------------------------------------------------------------ the engine

  /** The lifecycle callbacks of `self`, as functions of the history. */
  function OnStartOf(cb: Callbacks, self: Id, prior: Option<Id>): seq<Call> -> Option<ActionResult> {
    h => cb.onStart(self, prior, h)
  }

  function UpdateOf(cb: Callbacks, self: Id): seq<Call> -> Option<ActionResult> {
    h => cb.update(self, h)
  }

  function OnSuspendOf(cb: Callbacks, self: Id, interrupting: Option<Id>): seq<Call> -> Option<ActionResult> {
    h => cb.onSuspend(self, interrupting, h)
  }

  function OnResumeOf(cb: Callbacks, self: Id, interrupting: Option<Id>): seq<Call> -> Option<ActionResult> {
    h => cb.onResume(self, interrupting, h)
  }

  /**
   * `ApplyResult`: carry out a result returned to `self`; the value is the
   * action that is current afterwards (`None` when the whole stack is done).
   */
  function ApplyResult(cb: Callbacks, st: State, self: Id, res: Option<ActionResult>, fuel: nat): (r: Run<Option<Id>>)
    decreases fuel, 1
    ensures r.Ran? ==> st.trace <= r.st.trace
    ensures res.None? || res.value.kind == Continue || res.value.kind == Sustain ==> r == Ran(st, Some(self))
    ensures res.Some? && res.value.kind == ChangeTo && res.value.target.None? ==> r == Ran(st, Some(self))
    ensures res.Some? && res.value.kind == SuspendFor && res.value.target.None? ==> !r.Ran?
    ensures res.Some? && res.value.kind == Done && Get(st, self).buried.None? && r.Ran? ==>
      r.val.None? && !Get(r.st, self).started
  {
    hide OnlyEnds, EndsAreCalled, CoverersEnded, EndedInOrder, ChainEnded, KeepsStackLinks, OnlySuspends, SuspendAnswered, ChildResumedFirst;
    match res
    case None => Ran(st, Some(self))
    case Some(result) =>
      match result.kind
      case Continue => Ran(st, Some(self))
      case Sustain => Ran(st, Some(self))
      case ChangeTo =>
        (match result.target
         case None => Ran(st, Some(self))
         case Some(next) =>
           if fuel == 0 then Exhausted
           else
             var ended :- InvokeOnEnd(cb, st, self, Some(next), fuel - 1);
             var started :- InvokeOnStart(cb, ended.0, next, Some(self), Get(ended.0, self).buried, fuel - 1);
             ApplyResult(cb, started.0, next, started.1, fuel - 1))
      case SuspendFor =>
        if fuel == 0 then Exhausted
        else
          (match FindTop(st, self, fuel - 1)
           case None => Exhausted
           case Some(top) =>
             var suspended :- InvokeOnSuspend(cb, st, top, result.target, fuel - 1);
             match result.target
             case None => Faulted
             case Some(next) =>
               var newTop := suspended.1;
               var started :- InvokeOnStart(cb, suspended.0, next, newTop, newTop, fuel - 1);
               ApplyResult(cb, started.0, next, started.1, fuel - 1))
      case Done =>
        var resumed := Get(st, self).buried;
        if fuel == 0 then Exhausted
        else
          var ended :- InvokeOnEnd(cb, st, self, resumed, fuel - 1);
          match resumed
          case None => Ran(ended.0, None)
          case Some(b) =>
            var resumeResult :- InvokeOnResume(cb, ended.0, b, Some(self), fuel - 1);
            ApplyResult(cb, resumeResult.0, b, resumeResult.1, fuel - 1)
  }

  /**
   * `InvokeOnStart`: link `self` into the stack, start its contained action
   * (if any) as a ChangeTo to itself, then run `OnStart`.
   */
  function InvokeOnStart(cb: Callbacks, st: State, self: Id, prior: Option<Id>, buried: Option<Id>, fuel: nat): (r: Run<Option<ActionResult>>)
    decreases fuel, 1
    ensures r.Ran? ==> st.trace < r.st.trace && r.st.trace[|r.st.trace| - 1] == OnStartCall(self, prior)
    ensures cb.initialContained(self, st.trace).None? ==>
      var (s, res) := Invoke(SetChild(StartLinks(st, self, prior, buried), self, None), self,
                             OnStartCall(self, prior), OnStartOf(cb, self, prior));
      r == Ran(s, res)
  {
    var s1 := StartLinks(st, self, prior, buried);
    var kid := cb.initialContained(self, s1.trace);
    var s2 := SetChild(s1, self, kid);
    match kid
    case None =>
      var (s3, res) := Invoke(s2, self, OnStartCall(self, prior), OnStartOf(cb, self, prior));
      Ran(s3, res)
    case Some(k) =>
      if fuel == 0 then Exhausted
      else
        var s3 := SetParent(s2, k, Some(self));
        var childNow :- ApplyResult(cb, s3, k, Some(ChangeToResult(Some(k), "Starting child Action")), fuel - 1);
        var s4 := SetChild(childNow.0, self, childNow.1);
        var (s5, res) := Invoke(s4, self, OnStartCall(self, prior), OnStartOf(cb, self, prior));
        Ran(s5, res)
  }

  /** The checks ahead of `Update` all pass: in scope, started, and no pending event change to honour. */
  predicate UpdateRuns(st: State, self: Id, fuel: nat) {
    && IsOutOfScope(st, self, fuel) == Some(false) && Get(st, self).started
    && ProcessPendingEvents(st, self, fuel).Some? && ProcessPendingEvents(st, self, fuel).value.1.kind == Continue
  }

  /**
   * `InvokeUpdate`: Done when out of scope, a ChangeTo to itself when not
   * started, a pending event change when there is one (none of these runs any
   * Update); otherwise update the child first and then `self`, whose answer
   * is the result.
   */
  function InvokeUpdate(cb: Callbacks, st: State, self: Id, fuel: nat): (r: Run<Option<ActionResult>>)
    decreases fuel, 1
    ensures r.Ran? ==> st.trace <= r.st.trace
    ensures IsOutOfScope(st, self, fuel) == Some(true) ==> r == Ran(st, Some(DoneResult("Out of scope")))
    ensures IsOutOfScope(st, self, fuel) == Some(false) && !Get(st, self).started ==>
      r == Ran(st, Some(ChangeToResult(Some(self), "Starting Action")))
    ensures IsOutOfScope(st, self, fuel) == Some(false) && Get(st, self).started && RequestsChange(Get(st, self).pending.kind) ==>
      r == Ran(SetPending(st, self, EmptySlot()), Some(ToActionResult(Get(st, self).pending)))
    ensures var pending := ProcessPendingEvents(st, self, fuel);
      IsOutOfScope(st, self, fuel) == Some(false) && Get(st, self).started
      && pending.Some? && pending.value.1.kind != Continue
      ==> r == Ran(pending.value.0, Some(pending.value.1))
    ensures UpdateRuns(st, self, fuel) && r.Ran? ==>
      && st.trace < r.st.trace && r.st.trace[|r.st.trace| - 1] == UpdateCall(self)
      && r.val == cb.update(self, r.st.trace)
    ensures UpdateRuns(st, self, fuel) && r.Ran? && Get(st, self).child.Some? ==>
      fuel > 0 && (UpdateRuns(ProcessPendingEvents(st, self, fuel).value.0, Get(st, self).child.value, fuel - 1) ==>
        UpdateCall(Get(st, self).child.value) in r.st.trace[|st.trace|..|r.st.trace| - 1])
  {
    match IsOutOfScope(st, self, fuel)
    case None => Exhausted
    case Some(outOfScope) =>
      if outOfScope then Ran(st, Some(DoneResult("Out of scope")))
      else if !Get(st, self).started then Ran(st, Some(ChangeToResult(Some(self), "Starting Action")))
      else
        match ProcessPendingEvents(st, self, fuel)
        case None => Exhausted
        case Some((s1, eventResult)) =>
          if eventResult.kind != Continue then Ran(s1, Some(eventResult))
          else
            match Get(s1, self).child
            case None =>
              var (s2, res) := Invoke(s1, self, UpdateCall(self), UpdateOf(cb, self));
              Ran(s2, res)
            case Some(k) =>
              if fuel == 0 then Exhausted
              else
                var childResult :- InvokeUpdate(cb, s1, k, fuel - 1);
                var childNow :- ApplyResult(cb, childResult.0, k, childResult.1, fuel - 1);
                var s2 := SetChild(childNow.0, self, childNow.1);
                var (s3, res) := Invoke(s2, self, UpdateCall(self), UpdateOf(cb, self));
                ChildCallFirst(st.trace, childResult.0.trace, s3.trace, UpdateCall(k));
                Ran(s3, res)
  }

  /** The child's last call stays ahead of the one call appended for `self`. */
  lemma ChildCallFirst(t0: seq<Call>, t1: seq<Call>, t3: seq<Call>, c: Call)
    requires |t3| > 0 && t0 <= t1 <= t3[..|t3| - 1]
    ensures t0 < t1 && t1[|t1| - 1] == c ==> c in t3[|t0|..|t3| - 1]
  {
    if t0 < t1 && t1[|t1| - 1] == c {
      assert t3[|t0|..|t3| - 1][|t1| - 1 - |t0|] == t1[|t1| - 1];
    }
  }

  /**
   * `InvokeOnEnd`: nothing for an action that is not started; otherwise stop,
   * end the contained child chain, run `OnEnd`, then end whatever covers us.
   * Only `started` flags change, every ended action gets exactly one OnEnd
   * call, and the calls come in that order.
   */
  function InvokeOnEnd(cb: Callbacks, st: State, self: Id, next: Option<Id>, fuel: nat): (r: Run<()>)
    decreases fuel, 0
    ensures !Get(st, self).started ==> r == Ran(st, ())
    ensures r.Ran? ==> EndsOnly(st, r.st, next)
    ensures r.Ran? ==> !Get(r.st, self).started
    ensures r.Ran? && Get(st, self).started ==> exists p :: EndedInOrder(st, r.st, self, next, p, fuel)
  {
    if !Get(st, self).started then Ran(st, ())
    else if fuel == 0 then Exhausted
    else
      var s1 := SetStarted(st, self, false);
      var children :- EndChildren(cb, s1, Get(s1, self).child, next, fuel - 1);
      var s2 := Fire(children.0, OnEndCall(self, next));
      match Get(s2, self).covering
      case None =>
        EndCompose(st, children.0, s2, self, next, fuel);
        Ran(s2, ())
      case Some(c) =>
        var covered :- InvokeOnEnd(cb, s2, c, next, fuel - 1);
        EndCompose(st, children.0, covered.0, self, next, fuel);
        Ran(covered.0, ())
  }

  /**
   * The `for` loop of `InvokeOnEnd` over the child and the actions buried
   * under it: every action of that chain is ended.
   */
  function EndChildren(cb: Callbacks, st: State, child: Option<Id>, next: Option<Id>, fuel: nat): (r: Run<()>)
    decreases fuel, 0
    ensures r.Ran? ==> EndsOnly(st, r.st, next)
    ensures r.Ran? && child.Some? ==> ChainEnded(st, r.st, child.value, fuel)
  {
    match child
    case None => Ran(st, ())
    case Some(k) =>
      if fuel == 0 then Exhausted
      else
        var after := Get(st, k).buried;
        var ended :- InvokeOnEnd(cb, st, k, next, fuel - 1);
        var rest :- EndChildren(cb, ended.0, after, next, fuel - 1);
        ChainStep(st, ended.0, rest.0, k, next, fuel);
        Ran(rest.0, ())
  }

  /**
   * Position `i` of `st'` holds `self`'s OnSuspend call and the answer it gave
   * there decides the outcome `val`: a Done answer ends `self` and hands back
   * what it buried; any other (non-null) answer keeps `self` on top, and
   * nothing is recorded after its OnSuspend call.
   */
  ghost predicate SuspendAnswered(cb: Callbacks, st: State, st': State, self: Id, interrupting: Option<Id>, i: int, val: Option<Id>) {
    && |st.trace| <= i < |st'.trace| && st'.trace[i] == OnSuspendCall(self, interrupting)
    && var answer := cb.onSuspend(self, interrupting, st'.trace[..i + 1]);
    && answer.Some?
    && (answer.value.kind == Done ==> val == Get(st, self).buried && !Get(st', self).started)
    && (answer.value.kind != Done ==> val == Some(self) && i == |st'.trace| - 1)
  }

  /**
   * `InvokeOnSuspend`: suspend the child first, then `self`; an `OnSuspend`
   * answering Done ends `self` instead and hands the top of the stack to the
   * action it buried.  The stack links are left alone; the child link now
   * names what the child's suspension handed back.
   */
  function InvokeOnSuspend(cb: Callbacks, st: State, self: Id, interrupting: Option<Id>, fuel: nat): (r: Run<Option<Id>>)
    decreases fuel, 2
    ensures r.Ran? ==> st.trace <= r.st.trace
    ensures r.Ran? ==> r.val == Some(self) || r.val == Get(st, self).buried
    ensures r.Ran? ==> Get(r.st, self).suspended
    ensures r.Ran? ==> KeepsStackLinks(st, r.st) && OnlySuspends(st, r.st)
    ensures r.Ran? ==> exists i ::
      && SuspendAnswered(cb, st, r.st, self, interrupting, i, r.val)
      && (Get(st, self).child.Some? ==> OnSuspendCall(Get(st, self).child.value, interrupting) in r.st.trace[|st.trace|..i])
    ensures r.Ran? && Get(st, self).child.Some? ==>
      var k := Get(st, self).child.value;
      Get(r.st, self).child == Some(k) || Get(r.st, self).child == Get(st, k).buried
  {
    if fuel == 0 then Exhausted
    else
      match Get(st, self).child
      case None => FinishSuspend(cb, st, self, interrupting, fuel - 1)
      case Some(k) =>
        var childNow :- InvokeOnSuspend(cb, st, k, interrupting, fuel - 1);
        var s1 := SetChild(childNow.0, self, childNow.1);
        var fin :- FinishSuspend(cb, s1, self, interrupting, fuel - 1);
        SuspendChildFirst(cb, st, childNow.0, fin.0, self, k, interrupting, childNow.1, fin.1);
        Ran(fin.0, fin.1)
  }

  /** The child's OnSuspend call comes before `self`'s, which decides the outcome. */
  lemma SuspendChildFirst(cb: Callbacks, st: State, cs: State, fin: State, self: Id, k: Id, interrupting: Option<Id>, v: Option<Id>, val: Option<Id>)
    requires st.trace <= cs.trace <= fin.trace
    requires KeepsStackLinks(st, cs) && OnlySuspends(st, cs)
    requires KeepsStackLinks(SetChild(cs, self, v), fin) && OnlySuspends(SetChild(cs, self, v), fin)
    requires Get(fin, self).child == v
    requires exists j :: SuspendAnswered(cb, st, cs, k, interrupting, j, v)
    requires SuspendAnswered(cb, SetChild(cs, self, v), fin, self, interrupting, |cs.trace|, val)
    ensures KeepsStackLinks(st, fin) && OnlySuspends(st, fin)
    ensures val == Some(self) || val == Get(st, self).buried
    ensures exists i ::
      && SuspendAnswered(cb, st, fin, self, interrupting, i, val)
      && OnSuspendCall(k, interrupting) in fin.trace[|st.trace|..i]
  {
    var j :| SuspendAnswered(cb, st, cs, k, interrupting, j, v);
    var i := |cs.trace|;
    var s1 := SetChild(cs, self, v);
    forall x: Id
      ensures Get(fin, x).buried == Get(st, x).buried && Get(fin, x).covering == Get(st, x).covering
      ensures Get(fin, x).parent == Get(st, x).parent
      ensures (Get(fin, x).started ==> Get(st, x).started) && (Get(st, x).suspended ==> Get(fin, x).suspended)
    {
      assert Get(s1, x) == Get(cs, x).(child := Get(s1, x).child);
    }
    assert Get(s1, self).buried == Get(st, self).buried;
    assert fin.trace[..i] == cs.trace;
    assert fin.trace[|st.trace|..i][j - |st.trace|] == cs.trace[j];
    assert SuspendAnswered(cb, st, fin, self, interrupting, i, val);
  }

  /**
   * The part of `InvokeOnSuspend` after the child: mark suspended, `OnSuspend`,
   * and end on Done.  A `null` answer faults (`result.IsDone` dereferences it).
   */
  function FinishSuspend(cb: Callbacks, st: State, self: Id, interrupting: Option<Id>, fuel: nat): (r: Run<Option<Id>>)
    decreases fuel, 1
    ensures r.Ran? ==> st.trace <= r.st.trace
    ensures r.Ran? ==> r.val == Some(self) || r.val == Get(st, self).buried
    ensures r.Ran? ==> Get(r.st, self).suspended && Get(r.st, self).child == Get(st, self).child
    ensures r.Ran? ==> KeepsStackLinks(st, r.st) && OnlySuspends(st, r.st)
    ensures cb.onSuspend(self, interrupting, st.trace + [OnSuspendCall(self, interrupting)]).None? ==> r == Faulted
    ensures r.Ran? ==> SuspendAnswered(cb, st, r.st, self, interrupting, |st.trace|, r.val)
    ensures var answer := cb.onSuspend(self, interrupting, st.trace + [OnSuspendCall(self, interrupting)]);
      r.Ran? && Get(st, self).started && answer.Some? && answer.value.kind == Done ==>
      OnEndCall(self, None) in r.st.trace[|st.trace| + 1..]
  {
    var s1 := SetSuspended(st, self, true);
    var (s2, res) := Invoke(s1, self, OnSuspendCall(self, interrupting), OnSuspendOf(cb, self, interrupting));
    match res
    case None => Faulted
    case Some(result) =>
      if result.kind == Done then
        var ended :- InvokeOnEnd(cb, s2, self, None, fuel);
        SuspendFrame(st, s2, ended.0, self);
        OptOutEnds(s2, ended.0, self, fuel);
        SuspendAnsweredAt(cb, st, s2, ended.0, self, interrupting, Get(ended.0, self).buried);
        Ran(ended.0, Get(ended.0, self).buried)
      else
        SuspendFrame(st, s2, s2, self);
        SuspendAnsweredAt(cb, st, s2, s2, self, interrupting, Some(self));
        Ran(s2, Some(self))
  }

  /** Marking `self` suspended, its OnSuspend call and ending actions keep the stack links and the child link. */
  lemma SuspendFrame(st: State, s2: State, fin: State, self: Id)
    requires Get(s2, self) == Get(st, self).(suspended := true, pending := Get(s2, self).pending)
    requires forall x: Id :: x != self ==> Get(s2, x) == Get(st, x)
    requires OnlyEnds(s2, fin)
    ensures Get(fin, self).suspended && Get(fin, self).child == Get(st, self).child
    ensures Get(fin, self).buried == Get(st, self).buried
    ensures KeepsStackLinks(st, fin) && OnlySuspends(st, fin)
  {
    assert Get(fin, self) == Get(s2, self).(started := Get(fin, self).started);
    forall x: Id
      ensures Get(fin, x).buried == Get(st, x).buried && Get(fin, x).covering == Get(st, x).covering
      ensures Get(fin, x).parent == Get(st, x).parent
      ensures (Get(fin, x).started ==> Get(st, x).started) && (Get(st, x).suspended ==> Get(fin, x).suspended)
    {
      assert Get(fin, x) == Get(s2, x).(started := Get(fin, x).started);
    }
  }

  /** An opt-out's OnEnd call lands after the OnSuspend call. */
  lemma OptOutEnds(s2: State, ended: State, self: Id, fuel: nat)
    requires Get(s2, self).started ==> exists p :: EndedInOrder(s2, ended, self, None, p, fuel)
    ensures Get(s2, self).started ==> OnEndCall(self, None) in ended.trace[|s2.trace|..]
  {
    if Get(s2, self).started {
      var p :| EndedInOrder(s2, ended, self, None, p, fuel);
      assert ended.trace[|s2.trace|..][p - |s2.trace|] == OnEndCall(self, None);
    }
  }

  /** The OnSuspend call sits right after `st`'s history, and its answer was computed on the history up to it. */
  lemma SuspendAnsweredAt(cb: Callbacks, st: State, s2: State, fin: State, self: Id, interrupting: Option<Id>, val: Option<Id>)
    requires s2.trace == st.trace + [OnSuspendCall(self, interrupting)] && s2.trace <= fin.trace
    requires var answer := cb.onSuspend(self, interrupting, s2.trace);
      && answer.Some?
      && (answer.value.kind == Done ==> val == Get(st, self).buried && !Get(fin, self).started)
      && (answer.value.kind != Done ==> val == Some(self) && fin == s2)
    ensures SuspendAnswered(cb, st, fin, self, interrupting, |st.trace|, val)
  {
    assert fin.trace[..|st.trace| + 1] == s2.trace;
  }

  /** `self` can actually resume: it is suspended and no change is already pending on it. */
  predicate Resumable(st: State, self: Id) {
    Get(st, self).suspended && !RequestsChange(Get(st, self).pending.kind)
  }

  /**
   * `InvokeOnResume`: Continue without any effect when `self` is not
   * suspended or a change is already pending on it; otherwise unlink the
   * coverer, become our parent's child again, resume the child, then run
   * `OnResume`, whose answer is the result.
   */
  function InvokeOnResume(cb: Callbacks, st: State, self: Id, interrupting: Option<Id>, fuel: nat): (r: Run<Option<ActionResult>>)
    decreases fuel, 1
    ensures r.Ran? ==> st.trace <= r.st.trace
    ensures !Resumable(st, self) ==> r == Ran(st, Some(ContinueResult()))
    ensures Resumable(st, self) && r.Ran? ==>
      && st.trace < r.st.trace && r.st.trace[|r.st.trace| - 1] == OnResumeCall(self, interrupting)
      && r.val == cb.onResume(self, interrupting, r.st.trace)
    ensures Resumable(st, self) && Get(st, self).child.None? ==>
      var (s, res) := Invoke(ResumeLinks(st, self), self, OnResumeCall(self, interrupting), OnResumeOf(cb, self, interrupting));
      r == (if fuel == 0 then Exhausted else Ran(s, res))
    ensures Resumable(st, self) ==> ChildResumedFirst(st, self, interrupting, r)
  {
    if !Resumable(st, self) then Ran(st, Some(ContinueResult()))
    else ResumeNow(cb, st, self, interrupting, fuel)
  }

  /** The resuming part of `InvokeOnResume`, once `self` is known to be resumable. */
  function ResumeNow(cb: Callbacks, st: State, self: Id, interrupting: Option<Id>, fuel: nat): (r: Run<Option<ActionResult>>)
    decreases fuel, 0
    ensures r.Ran? ==>
      && st.trace < r.st.trace && r.st.trace[|r.st.trace| - 1] == OnResumeCall(self, interrupting)
      && r.val == cb.onResume(self, interrupting, r.st.trace)
    ensures Get(st, self).child.None? ==>
      var (s, res) := Invoke(ResumeLinks(st, self), self, OnResumeCall(self, interrupting), OnResumeOf(cb, self, interrupting));
      r == (if fuel == 0 then Exhausted else Ran(s, res))
    ensures ChildResumedFirst(st, self, interrupting, r)
  {
    if fuel == 0 then Exhausted
    else
      var s1 := ResumeLinks(st, self);
      match Get(s1, self).child
      case None =>
        var (s2, res) := Invoke(s1, self, OnResumeCall(self, interrupting), OnResumeOf(cb, self, interrupting));
        OwnResumeAnswer(cb, s1, self, interrupting);
        Ran(s2, res)
      case Some(k) =>
        ResumeLinksKeepsChild(st, self, k);
        ResumeChildThenSelf(cb, st, self, k, interrupting, fuel - 1)
  }

  /**
   * When `self` is not its own parent, its child (if it can resume and is not
   * `self`) gets its OnResume call before `self`'s own.
   */
  ghost predicate ChildResumedFirst(st: State, self: Id, interrupting: Option<Id>, r: Run<Option<ActionResult>>) {
    var n := Get(st, self);
    r.Ran? && n.parent != Some(self) && n.child.Some? && n.child.value != self && Resumable(st, n.child.value)
    ==> |st.trace| < |r.st.trace| && OnResumeCall(n.child.value, interrupting) in r.st.trace[|st.trace|..|r.st.trace| - 1]
  }

  /** `self`'s own OnResume call is recorded last, and its answer is computed on the history including it. */
  lemma OwnResumeAnswer(cb: Callbacks, st: State, self: Id, interrupting: Option<Id>)
    ensures var (s, res) := Invoke(st, self, OnResumeCall(self, interrupting), OnResumeOf(cb, self, interrupting));
      && st.trace < s.trace && s.trace[|s.trace| - 1] == OnResumeCall(self, interrupting)
      && res == cb.onResume(self, interrupting, s.trace)
  {
  }

  /** Resuming `self` does not change whether another action can resume. */
  lemma ResumeLinksKeepsChild(st: State, self: Id, k: Id)
    ensures Get(st, self).parent != Some(self) ==> Get(ResumeLinks(st, self), self).child == Get(st, self).child
    ensures k != self ==> Resumable(ResumeLinks(st, self), k) == Resumable(st, k)
  {
    var s1 := ResumeLinks(st, self);
    if k != self {
      assert Get(s1, k) == Get(st, k).(child := Get(s1, k).child);
    }
  }

  /**
   * The part of `InvokeOnResume` for an action with a child: unlink the
   * coverer and relink to the parent, resume the
   * child and carry out its answer, then run our own `OnResume`, whose answer
   * is the result.
   */
  function ResumeChildThenSelf(cb: Callbacks, st: State, self: Id, k: Id, interrupting: Option<Id>, fuel: nat): (r: Run<Option<ActionResult>>)
    decreases fuel, 2
    ensures r.Ran? ==> st.trace < r.st.trace && r.st.trace[|r.st.trace| - 1] == OnResumeCall(self, interrupting)
    ensures r.Ran? ==> r.val == cb.onResume(self, interrupting, r.st.trace)
    ensures r.Ran? && k != self && Resumable(st, k) ==> OnResumeCall(k, interrupting) in r.st.trace[|st.trace|..|r.st.trace| - 1]
    ensures k == self && Get(ResumeLinks(st, self), self).child == Some(self) ==>
      var (s, res) := Invoke(ResumeLinks(st, self), self, OnResumeCall(self, interrupting), OnResumeOf(cb, self, interrupting));
      r == Ran(s, res)
  {
    hide InvokeOnResume, ResumeNow, ApplyResult, InvokeOnEnd, InvokeOnStart, EndChildren, InvokeOnSuspend, FinishSuspend, EndsOnly, EndedInOrder, ChainEnded, KeepsStackLinks, OnlySuspends, SuspendAnswered, ChildResumedFirst;
    var s1 := ResumeLinks(st, self);
    ResumeLinksKeepsChild(st, self, k);
    var childResult :- InvokeOnResume(cb, s1, k, interrupting, fuel);
    var childNow :- ApplyResult(cb, childResult.0, k, childResult.1, fuel);
    var s2 := SetChild(childNow.0, self, childNow.1);
    var (s3, res) := Invoke(s2, self, OnResumeCall(self, interrupting), OnResumeOf(cb, self, interrupting));
    ChildCallFirst(st.trace, childResult.0.trace, s3.trace, OnResumeCall(k, interrupting));
    Ran(s3, res)
  }
}
