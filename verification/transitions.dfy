/**
 * What the transitions of `ApplyResult` do to the stack, stated over whole
 * runs of the engine: the ordering of the lifecycle callbacks they fire and
 * the links they leave behind.
 *
 * A proof that needs only the contracts of the engine functions `hide`s their
 * bodies, and the engine predicates it does not use, so that the solver does
 * not unfold them at every engine call in sight.
 */
module Transitions {
  import opened Wrappers
  import opened Results
  import opened Actions
  import opened Engine

  /**
   * An action whose start is uneventful: it creates no contained action and
   * its `OnStart` requests no change.
   */
  ghost predicate QuietStart(cb: Callbacks, id: Id) {
    && (forall h :: cb.initialContained(id, h).None?)
    && (forall p, h :: cb.onStart(id, p, h).None? || !RequestsChange(cb.onStart(id, p, h).value.kind))
  }

  function SuspendForResult(next: Id, reason: string): ActionResult {
    ActionResult(SuspendFor, Some(next), reason)
  }

  // ------------------------------------------------------------------ ending

  /**
   * The actions `InvokeOnEnd(a)` with `fuel` may end, read off the links of
   * `L` alone: `a`, the scope of every action of its child chain, and the
   * scope of whatever covers it.
   */
  ghost function EndScope(L: State, a: Id, fuel: nat): set<Id>
    decreases fuel, 1
  {
    if fuel == 0 then {}
    else
      {a} + ChildScope(L, Get(L, a).child, fuel - 1)
      + (match Get(L, a).covering case None => {} case Some(c) => EndScope(L, c, fuel - 1))
  }

  /** The actions the child loop from `child` may end: each action of the chain with its own scope. */
  ghost function ChildScope(L: State, child: Option<Id>, fuel: nat): set<Id>
    decreases fuel, 0
  {
    match child
    case None => {}
    case Some(k) => if fuel == 0 then {} else EndScope(L, k, fuel - 1) + ChildScope(L, Get(L, k).buried, fuel - 1)
  }

  /** One unfolding of `EndScope` with the fuel `f` one below. */
  lemma EndScopeStep(L: State, a: Id, fuel: nat, f: nat)
    requires fuel == f + 1
    ensures ChildScope(L, Get(L, a).child, f) <= EndScope(L, a, fuel)
    ensures Get(L, a).covering.Some? ==> EndScope(L, Get(L, a).covering.value, f) <= EndScope(L, a, fuel)
  {
  }

  /** One unfolding of `ChildScope` with the fuel `f` one below. */
  lemma ChildScopeStep(L: State, k: Id, fuel: nat, f: nat)
    requires fuel == f + 1
    ensures EndScope(L, k, f) <= ChildScope(L, Some(k), fuel)
    ensures ChildScope(L, Get(L, k).buried, f) <= ChildScope(L, Some(k), fuel)
  {
  }

  /** `st` has the links of `L`: only started flags, pending slots or the trace may differ. */
  ghost predicate SameLinks(L: State, st: State) {
    forall y: Id :: && Get(st, y).child == Get(L, y).child && Get(st, y).covering == Get(L, y).covering
                    && Get(st, y).buried == Get(L, y).buried
  }

  lemma EndingKeepsLinks(L: State, st: State, st': State)
    requires SameLinks(L, st) && OnlyEnds(st, st')
    ensures SameLinks(L, st')
  {
    forall y
      ensures Get(st', y).child == Get(st, y).child && Get(st', y).covering == Get(st, y).covering
      ensures Get(st', y).buried == Get(st, y).buried
    {
      assert Get(st', y) == Get(st, y).(started := Get(st', y).started);
    }
  }

  /**
   * The stages of ending a started action: its flag, the child loop, the
   * OnEnd call, then the coverer, each with the fuel `f` one below.
   */
  lemma EndSteps(cb: Callbacks, st: State, a: Id, next: Option<Id>, fuel: nat, e: State) returns (f: nat, sc: State)
    requires Get(st, a).started && InvokeOnEnd(cb, st, a, next, fuel) == Ran(e, ())
    ensures fuel == f + 1
    ensures EndChildren(cb, SetStarted(st, a, false), Get(st, a).child, next, f) == Ran(sc, ())
    ensures Get(st, a).covering.None? ==> e == Fire(sc, OnEndCall(a, next))
    ensures Get(st, a).covering.Some? ==>
      InvokeOnEnd(cb, Fire(sc, OnEndCall(a, next)), Get(st, a).covering.value, next, f) == Ran(e, ())
  {
    hide InvokeOnEnd, EndChildren, EndsOnly, EndedInOrder, ChainEnded;
    sc := EndStepsAt(cb, st, a, next, fuel, e);
    EndStepsRest(cb, st, a, next, fuel, e, sc);
    f := fuel - 1;
  }

  /** `EndSteps` with the fuel written `fuel - 1`, as in the body of `InvokeOnEnd`. */
  lemma EndStepsAt(cb: Callbacks, st: State, a: Id, next: Option<Id>, fuel: nat, e: State) returns (sc: State)
    requires Get(st, a).started && InvokeOnEnd(cb, st, a, next, fuel) == Ran(e, ())
    ensures fuel > 0
    ensures EndChildren(cb, SetStarted(st, a, false), Get(st, a).child, next, fuel - 1) == Ran(sc, ())
  {
    hide EndsOnly, EndedInOrder, ChainEnded;
    var children := EndChildren(cb, SetStarted(st, a, false), Get(st, a).child, next, fuel - 1);
    assert children.Ran?;
    sc := children.st;
  }

  /** The last stages of `InvokeOnEnd`, once the child loop has run. */
  lemma EndStepsRest(cb: Callbacks, st: State, a: Id, next: Option<Id>, fuel: nat, e: State, sc: State)
    requires Get(st, a).started && InvokeOnEnd(cb, st, a, next, fuel) == Ran(e, ())
    requires fuel > 0 && EndChildren(cb, SetStarted(st, a, false), Get(st, a).child, next, fuel - 1) == Ran(sc, ())
    ensures Get(st, a).covering.None? ==> e == Fire(sc, OnEndCall(a, next))
    ensures Get(st, a).covering.Some? ==>
      InvokeOnEnd(cb, Fire(sc, OnEndCall(a, next)), Get(st, a).covering.value, next, fuel - 1) == Ran(e, ())
  {
    hide OnlyEndCalls, EndsAreCalled, CoverersEnded, EndedInOrder, ChainEnded;
    var s1 := SetStarted(st, a, false);
    assert Get(s1, a).child == Get(st, a).child;
    assert OnlyEnds(s1, sc);
    assert Get(sc, a) == Get(s1, a).(started := Get(sc, a).started);
    assert Get(Fire(sc, OnEndCall(a, next)), a).covering == Get(st, a).covering;
    if Get(st, a).covering.Some? {
      var covered := InvokeOnEnd(cb, Fire(sc, OnEndCall(a, next)), Get(st, a).covering.value, next, fuel - 1);
      assert covered.Ran? && covered.st == e;
      assert covered.val == ();
    }
  }

  /** The child loop's two stages: ending its first action, then the chain below it. */
  lemma EndChildrenSteps(cb: Callbacks, st: State, k: Id, next: Option<Id>, fuel: nat, e: State) returns (f: nat, mid: State)
    requires EndChildren(cb, st, Some(k), next, fuel) == Ran(e, ())
    ensures fuel == f + 1
    ensures InvokeOnEnd(cb, st, k, next, f) == Ran(mid, ())
    ensures EndChildren(cb, mid, Get(st, k).buried, next, f) == Ran(e, ())
  {
    hide InvokeOnEnd, EndChildren, EndsOnly, EndedInOrder, ChainEnded;
    mid := EndChildrenFirst(cb, st, k, next, fuel, e);
    EndChildrenRest(cb, st, k, next, fuel, e, mid);
    f := fuel - 1;
  }

  /** `EndChildrenSteps` with the fuel written `fuel - 1`, as in the body of `EndChildren`. */
  lemma EndChildrenFirst(cb: Callbacks, st: State, k: Id, next: Option<Id>, fuel: nat, e: State) returns (mid: State)
    requires EndChildren(cb, st, Some(k), next, fuel) == Ran(e, ())
    ensures fuel > 0 && InvokeOnEnd(cb, st, k, next, fuel - 1) == Ran(mid, ())
  {
    hide EndsOnly, EndedInOrder, ChainEnded;
    var ended := InvokeOnEnd(cb, st, k, next, fuel - 1);
    assert ended.Ran?;
    mid := ended.st;
  }

  /** The second stage of the child loop, once the first has run. */
  lemma EndChildrenRest(cb: Callbacks, st: State, k: Id, next: Option<Id>, fuel: nat, e: State, mid: State)
    requires EndChildren(cb, st, Some(k), next, fuel) == Ran(e, ())
    requires fuel > 0 && InvokeOnEnd(cb, st, k, next, fuel - 1) == Ran(mid, ())
    ensures EndChildren(cb, mid, Get(st, k).buried, next, fuel - 1) == Ran(e, ())
  {
    hide EndsOnly, EndedInOrder, ChainEnded;
  }

  /** Ending `a` leaves the started flag of every action outside its scope as it was. */
  lemma {:induction false} EndFrame(cb: Callbacks, L: State, st: State, a: Id, next: Option<Id>, fuel: nat, e: State, x: Id)
    requires SameLinks(L, st) && InvokeOnEnd(cb, st, a, next, fuel) == Ran(e, ())
    requires x !in EndScope(L, a, fuel)
    ensures Get(e, x).started == Get(st, x).started
    decreases fuel, 2
  {
    if Get(st, a).started {
      var f, sc := EndSteps(cb, st, a, next, fuel, e);
      EndScopeStep(L, a, fuel, f);
      StepsFrame(cb, L, st, a, next, fuel, e, x, f, sc);
    }
  }

  /** `EndFrame` for a started action, stage by stage. */
  lemma {:induction false} StepsFrame(cb: Callbacks, L: State, st: State, a: Id, next: Option<Id>, fuel: nat, e: State, x: Id, f: nat, sc: State)
    requires SameLinks(L, st) && fuel == f + 1
    requires x != a && x !in ChildScope(L, Get(L, a).child, f)
    requires Get(L, a).covering.Some? ==> x !in EndScope(L, Get(L, a).covering.value, f)
    requires EndChildren(cb, SetStarted(st, a, false), Get(st, a).child, next, f) == Ran(sc, ())
    requires Get(st, a).covering.None? ==> e == Fire(sc, OnEndCall(a, next))
    requires Get(st, a).covering.Some? ==>
      InvokeOnEnd(cb, Fire(sc, OnEndCall(a, next)), Get(st, a).covering.value, next, f) == Ran(e, ())
    ensures Get(e, x).started == Get(st, x).started
    decreases fuel, 1
  {
    hide ApplyResult, InvokeOnStart, InvokeOnEnd, EndChildren, InvokeOnSuspend, FinishSuspend, InvokeOnResume, ResumeNow, ResumeChildThenSelf, InvokeUpdate, OnlyEndCalls, EndsAreCalled, CoverersEnded, EndedInOrder, ChainEnded;
    var s1 := SetStarted(st, a, false);
    EndingKeepsLinks(L, st, s1);
    ChildFrame(cb, L, s1, Get(st, a).child, next, f, sc, x);
    if Get(st, a).covering.Some? {
      EndingKeepsLinks(L, s1, sc);
      EndFrame(cb, L, Fire(sc, OnEndCall(a, next)), Get(st, a).covering.value, next, f, e, x);
    }
  }

  /** Running the child loop from `child` leaves the started flag of every action outside its scope as it was. */
  lemma {:induction false} ChildFrame(cb: Callbacks, L: State, st: State, child: Option<Id>, next: Option<Id>, fuel: nat, e: State, x: Id)
    requires SameLinks(L, st) && EndChildren(cb, st, child, next, fuel) == Ran(e, ())
    requires x !in ChildScope(L, child, fuel)
    ensures Get(e, x).started == Get(st, x).started
    decreases fuel, 0
  {
    if child.Some? {
      var k := child.value;
      var f, mid := EndChildrenSteps(cb, st, k, next, fuel, e);
      ChildScopeStep(L, k, fuel, f);
      EndFrame(cb, L, st, k, next, f, mid, x);
      EndingKeepsLinks(L, st, mid);
      ChildFrame(cb, L, mid, Get(st, k).buried, next, f, e, x);
    }
  }

  /**
   * A region of the stack that ending an action of `R` cannot leave: the
   * child of every action of `R` is in `C`, the chain set, which is closed
   * under BuriedUnderMe, and whatever covers an action of `R` is in `R`.
   */
  ghost predicate EndRegion(st: State, R: set<Id>, C: set<Id>) {
    && (forall k {:trigger Member(C, k)} :: Member(C, k) ==> k in R)
    && (forall y {:trigger Member(R, y)} :: Member(R, y) && Get(st, y).child.Some? ==> Get(st, y).child.value in C)
    && (forall y {:trigger Member(R, y)} :: Member(R, y) && Get(st, y).covering.Some? ==> Get(st, y).covering.value in R)
    && (forall k {:trigger Member(C, k)} :: Member(C, k) && Get(st, k).buried.Some? ==> Get(st, k).buried.value in C)
  }

  /** Set membership, as a term only the region lemmas mention, so that the region's quantifiers fire only on demand. */
  ghost predicate Member(R: set<Id>, y: Id) {
    y in R
  }

  /** Every action ending `a` may end lies in a region that holds `a`. */
  lemma {:induction false} ScopeInRegion(L: State, R: set<Id>, C: set<Id>, a: Id, fuel: nat)
    requires EndRegion(L, R, C) && a in R
    ensures EndScope(L, a, fuel) <= R
    decreases fuel, 1
  {
    if fuel > 0 {
      var f: nat := fuel - 1;
      assert Member(R, a);
      ChildScopeInRegion(L, R, C, Get(L, a).child, f);
      if Get(L, a).covering.Some? {
        ScopeInRegion(L, R, C, Get(L, a).covering.value, f);
      }
    }
  }

  /** Every action the child loop from `child` may end lies in the region, when `child` is in its chain set. */
  lemma {:induction false} ChildScopeInRegion(L: State, R: set<Id>, C: set<Id>, child: Option<Id>, fuel: nat)
    requires EndRegion(L, R, C) && (child.Some? ==> child.value in C)
    ensures ChildScope(L, child, fuel) <= R
    decreases fuel, 0
  {
    if child.Some? && fuel > 0 {
      var k := child.value;
      var f: nat := fuel - 1;
      assert Member(C, k);
      ScopeInRegion(L, R, C, k, f);
      ChildScopeInRegion(L, R, C, Get(L, k).buried, f);
    }
  }

  /** Ending an action of a region leaves every action outside the region exactly as it was. */
  lemma EndStaysInRegion(cb: Callbacks, st: State, a: Id, next: Option<Id>, fuel: nat, R: set<Id>, C: set<Id>, e: State)
    requires EndRegion(st, R, C) && a in R
    requires InvokeOnEnd(cb, st, a, next, fuel) == Ran(e, ())
    ensures forall x: Id :: x !in R ==> Get(e, x) == Get(st, x)
  {
    ScopeInRegion(st, R, C, a, fuel);
    forall x: Id | x !in R
      ensures Get(e, x) == Get(st, x)
    {
      EndFrame(cb, st, st, a, next, fuel, e, x);
      assert Get(e, x) == Get(st, x).(started := Get(e, x).started);
    }
  }

  // ---------------------------------------------------------------- ChangeTo

  /**
   * Among `calls` are the OnEnd calls (naming `next`) of `self`, of every
   * started action on its child chain, and of its coverer if that was started.
   */
  ghost predicate EndCallsAmong(st: State, calls: seq<Call>, self: Id, next: Option<Id>, fuel: nat) {
    var n := Get(st, self);
    && OnEndCall(self, next) in calls
    && (n.child.Some? ==>
          && fuel > 0 && Below(st, n.child.value, fuel - 1).Some?
          && forall x :: x in Below(st, n.child.value, fuel - 1).value && Get(st, x).started ==> OnEndCall(x, next) in calls)
    && (n.covering.Some? && Get(st, n.covering.value).started ==> OnEndCall(n.covering.value, next) in calls)
  }

  /** A call in a middle or final stretch of a trace is in the whole tail from `a`. */
  lemma InTail(t: seq<Call>, a: nat, b: nat, x: Call)
    requires a <= b <= |t| && (x in t[a..b] || x in t[b..])
    ensures x in t[a..]
  {
    if x in t[a..b] {
      var k :| 0 <= k < b - a && t[a..b][k] == x;
      assert t[a..][k] == x;
    } else {
      var k :| 0 <= k < |t| - b && t[b..][k] == x;
      assert t[a..][k + b - a] == x;
    }
  }

  /**
   * Ending a started action appends only OnEnd calls naming `next`, and among
   * them those of the action, of its started child chain and of its started
   * coverer.
   */
  lemma EndingFiresEndCalls(cb: Callbacks, st: State, self: Id, next: Option<Id>, fuel: nat)
    requires Get(st, self).started
    requires InvokeOnEnd(cb, st, self, next, fuel).Ran?
    ensures var e := InvokeOnEnd(cb, st, self, next, fuel).st;
      && st.trace <= e.trace
      && (forall q :: |st.trace| <= q < |e.trace| ==> e.trace[q].OnEndCall? && e.trace[q].next == next)
      && EndCallsAmong(st, e.trace[|st.trace|..], self, next, fuel)
  {
    var e := InvokeOnEnd(cb, st, self, next, fuel).st;
    var t := e.trace;
    var a := |st.trace|;
    var p :| EndedInOrder(st, e, self, next, p, fuel);
    assert t[a..][p - a] == OnEndCall(self, next);
    var n := Get(st, self);
    if n.child.Some? {
      forall x | x in Below(st, n.child.value, fuel - 1).value && Get(st, x).started
        ensures OnEndCall(x, next) in t[a..]
      {
        if x != self {
          InTail(t, a, p, OnEndCall(x, next));
        }
      }
    }
    if n.covering.Some? && Get(st, n.covering.value).started {
      var c := n.covering.value;
      if c != self {
        if OnEndCall(c, next) in t[a..p] {
          InTail(t, a, p, OnEndCall(c, next));
        } else {
          InTail(t, a, p + 1, OnEndCall(c, next));
        }
      }
    }
  }

  /**
   * ChangeTo ends the current action, with its child chain and its coverer,
   * before the replacement's OnStart runs: the calls up to some point are all
   * OnEnd calls naming the replacement and include those endings, and the
   * replacement's OnStart comes after that point.
   */
  lemma ChangeToEndsBeforeStarting(cb: Callbacks, st: State, self: Id, next: Id, reason: string, fuel: nat)
    requires Get(st, self).started
    requires ApplyResult(cb, st, self, Some(ChangeToResult(Some(next), reason)), fuel).Ran?
    ensures var t := ApplyResult(cb, st, self, Some(ChangeToResult(Some(next), reason)), fuel).st.trace;
      exists m, j ::
        && |st.trace| <= m <= j < |t| && t[j] == OnStartCall(next, Some(self))
        && (forall q :: |st.trace| <= q < m ==> t[q].OnEndCall? && t[q].next == Some(next))
        && fuel > 0 && EndCallsAmong(st, t[|st.trace|..m], self, Some(next), fuel - 1)
  {
    hide EndsOnly, EndedInOrder, ChainEnded;
    ChangeToStages(cb, st, self, next, reason, fuel);
    var ended := InvokeOnEnd(cb, st, self, Some(next), fuel - 1);
    var started := InvokeOnStart(cb, ended.st, next, Some(self), Get(ended.st, self).buried, fuel - 1);
    var fin := ApplyResult(cb, started.st, next, started.val, fuel - 1);
    ChangeToTrace(cb, st, self, next, fuel, ended.st, started.st, fin);
  }

  /** `ChangeToEndsBeforeStarting` over the three stages of the run. */
  lemma ChangeToTrace(cb: Callbacks, st: State, self: Id, next: Id, fuel: nat, e: State, s: State, fin: Run<Option<Id>>)
    requires Get(st, self).started && fuel > 0
    requires InvokeOnEnd(cb, st, self, Some(next), fuel - 1) == Ran(e, ())
    requires InvokeOnStart(cb, e, next, Some(self), Get(e, self).buried, fuel - 1).Ran?
    requires s == InvokeOnStart(cb, e, next, Some(self), Get(e, self).buried, fuel - 1).st
    requires fin.Ran? && s.trace <= fin.st.trace
    ensures var t := fin.st.trace;
      exists m, j ::
        && |st.trace| <= m <= j < |t| && t[j] == OnStartCall(next, Some(self))
        && (forall q :: |st.trace| <= q < m ==> t[q].OnEndCall? && t[q].next == Some(next))
        && fuel > 0 && EndCallsAmong(st, t[|st.trace|..m], self, Some(next), fuel - 1)
  {
    hide InvokeOnEnd, InvokeOnStart, ApplyResult, EndChildren, InvokeOnSuspend, FinishSuspend, InvokeOnResume, ResumeNow, ResumeChildThenSelf, InvokeUpdate, EndsOnly, EndedInOrder, ChainEnded;
    EndingFiresEndCalls(cb, st, self, Some(next), fuel - 1);
    EndsThenStarts(st.trace, e.trace, s.trace, fin.st.trace, self, next, st, fuel);
  }

  /** A ChangeTo that runs is the ending, then the replacement's start, then its answer carried out. */
  lemma ChangeToStages(cb: Callbacks, st: State, self: Id, next: Id, reason: string, fuel: nat)
    requires Get(st, self).started
    requires ApplyResult(cb, st, self, Some(ChangeToResult(Some(next), reason)), fuel).Ran?
    ensures fuel > 0
    ensures var ended := InvokeOnEnd(cb, st, self, Some(next), fuel - 1);
      && ended.Ran?
      && var started := InvokeOnStart(cb, ended.st, next, Some(self), Get(ended.st, self).buried, fuel - 1);
      && started.Ran?
      && ApplyResult(cb, st, self, Some(ChangeToResult(Some(next), reason)), fuel) == ApplyResult(cb, started.st, next, started.val, fuel - 1)
  {
  }

  /** The trace facts of `ChangeToEndsBeforeStarting`, once the three stages are known. */
  lemma EndsThenStarts(t0: seq<Call>, t1: seq<Call>, t2: seq<Call>, t: seq<Call>, self: Id, next: Id, st: State, fuel: nat)
    requires t0 == st.trace && t0 <= t1 < t2 <= t && t2[|t2| - 1] == OnStartCall(next, Some(self))
    requires forall q :: |t0| <= q < |t1| ==> t1[q].OnEndCall? && t1[q].next == Some(next)
    requires fuel > 0 && EndCallsAmong(st, t1[|t0|..], self, Some(next), fuel - 1)
    ensures exists m, j ::
      && |t0| <= m <= j < |t| && t[j] == OnStartCall(next, Some(self))
      && (forall q :: |t0| <= q < m ==> t[q].OnEndCall? && t[q].next == Some(next))
      && fuel > 0 && EndCallsAmong(st, t[|t0|..m], self, Some(next), fuel - 1)
  {
    var m := |t1|;
    var j := |t2| - 1;
    assert t[|t0|..m] == t1[|t0|..];
    assert t[j] == t2[j];
  }

  /**
   * A ChangeTo from a childless top action to a quiet replacement: exactly
   * OnEnd then OnStart fire, the replacement becomes current and takes over
   * what the old action buried.
   */
  lemma ChangeToReplacesOnStack(cb: Callbacks, st: State, self: Id, next: Id, reason: string, fuel: nat)
    requires Get(st, self).started && Get(st, self).child.None? && Get(st, self).covering.None?
    requires next != self && QuietStart(cb, next) && fuel >= 2
    ensures var r := ApplyResult(cb, st, self, Some(ChangeToResult(Some(next), reason)), fuel);
      var b := Get(st, self).buried;
      && r.Ran? && r.val == Some(next)
      && r.st.trace == st.trace + [OnEndCall(self, Some(next)), OnStartCall(next, Some(self))]
      && !Get(r.st, self).started
      && Get(r.st, next).started && Get(r.st, next).buried == b && Get(r.st, next).covering.None?
      && (b.Some? && b.value != next ==> Get(r.st, b.value).covering == Some(next))
      && Get(r.st, next).parent == Get(st, self).parent
  {
    var s2, s3 := ChangeToQuietRun(cb, st, self, next, reason, fuel);
    QuietStartLinks(cb, s2, next, Some(self), Get(st, self).buried, fuel - 1);
  }

  /** The run of a ChangeTo from a childless top action to a quiet replacement: OnEnd, then the replacement's start. */
  lemma ChangeToQuietRun(cb: Callbacks, st: State, self: Id, next: Id, reason: string, fuel: nat) returns (s2: State, s3: State)
    requires Get(st, self).started && Get(st, self).child.None? && Get(st, self).covering.None?
    requires QuietStart(cb, next) && fuel >= 2
    ensures s2 == Fire(SetStarted(st, self, false), OnEndCall(self, Some(next)))
    ensures InvokeOnStart(cb, s2, next, Some(self), Get(st, self).buried, fuel - 1).Ran?
    ensures s3 == InvokeOnStart(cb, s2, next, Some(self), Get(st, self).buried, fuel - 1).st
    ensures ApplyResult(cb, st, self, Some(ChangeToResult(Some(next), reason)), fuel) == Ran(s3, Some(next))
  {
    hide EndsOnly, EndedInOrder, ChainEnded;
    s2 := QuietEnd(cb, st, self, Some(next), fuel - 1);
    var b := Get(st, self).buried;
    assert Get(s2, self).buried == b;
    QuietStartRuns(cb, s2, next, Some(self), b, fuel - 1);
    var started := InvokeOnStart(cb, s2, next, Some(self), b, fuel - 1);
    s3 := started.st;
    assert ApplyResult(cb, started.st, next, started.val, fuel - 1) == Ran(started.st, Some(next));
    assert InvokeOnEnd(cb, st, self, Some(next), fuel - 1) == Ran(s2, ());
  }

  /** Ending a started action with no child and nothing covering it: one OnEnd call, and only its flag changes. */
  lemma QuietEnd(cb: Callbacks, st: State, self: Id, next: Option<Id>, fuel: nat) returns (s2: State)
    requires Get(st, self).started && Get(st, self).child.None? && Get(st, self).covering.None? && fuel >= 1
    ensures s2 == Fire(SetStarted(st, self, false), OnEndCall(self, next))
    ensures InvokeOnEnd(cb, st, self, next, fuel) == Ran(s2, ())
    ensures s2.trace == st.trace + [OnEndCall(self, next)]
    ensures Get(s2, self) == Get(st, self).(started := false)
    ensures forall x: Id :: x != self ==> Get(s2, x) == Get(st, x)
  {
    var s1 := SetStarted(st, self, false);
    assert EndChildren(cb, s1, None, next, fuel - 1) == Ran(s1, ());
    s2 := Fire(s1, OnEndCall(self, next));
  }

  /** Starting a quiet action: the link step, one OnStart call, and a result that requests no change. */
  lemma QuietStartLinks(cb: Callbacks, st: State, next: Id, prior: Option<Id>, buried: Option<Id>, fuel: nat)
    requires QuietStart(cb, next)
    ensures var r := InvokeOnStart(cb, st, next, prior, buried, fuel);
      && r.Ran? && (r.val.None? || !RequestsChange(r.val.value.kind))
      && r.st.trace == st.trace + [OnStartCall(next, prior)]
      && Get(r.st, next).started && Get(r.st, next).buried == buried && Get(r.st, next).covering.None?
      && Get(r.st, next).suspended == Get(st, next).suspended
      && Get(r.st, next).parent == (if prior.Some? then Get(st, prior.value).parent else Get(st, next).parent)
      && (var p := Get(r.st, next).parent; p.Some? && p.value != next ==> Get(r.st, p.value).child == Some(next))
      && (buried.Some? && buried.value != next ==> Get(r.st, buried.value).covering == Some(next))
      && (forall x: Id :: x != next && Some(x) != buried && Some(x) != Get(r.st, next).parent ==> Get(r.st, x) == Get(st, x))
      && (forall x: Id :: x != next ==> Get(r.st, x) == Get(st, x).(child := Get(r.st, x).child, covering := Get(r.st, x).covering))
  {
    assert cb.initialContained(next, st.trace).None?;
    var linked := SetChild(StartLinks(st, next, prior, buried), next, None);
    var (s3, res) := Invoke(linked, next, OnStartCall(next, prior), OnStartOf(cb, next, prior));
    assert res == cb.onStart(next, prior, st.trace + [OnStartCall(next, prior)]);
  }

  /** Starting a quiet action runs to an answer that requests no change. */
  lemma QuietStartRuns(cb: Callbacks, st: State, next: Id, prior: Option<Id>, buried: Option<Id>, fuel: nat)
    requires QuietStart(cb, next)
    ensures var r := InvokeOnStart(cb, st, next, prior, buried, fuel);
      r.Ran? && (r.val.None? || !RequestsChange(r.val.value.kind))
  {
    assert cb.initialContained(next, st.trace).None?;
    assert cb.onStart(next, prior, st.trace + [OnStartCall(next, prior)]) == InvokeOnStart(cb, st, next, prior, buried, fuel).val;
  }

  // --------------------------------------------------------------- SuspendFor

  /**
   * SuspendFor suspends the top of the covering chain and starts the new
   * (quiet) action above whatever `InvokeOnSuspend` handed back: the old top,
   * or what the top buried when it opted out.  The new action inherits the
   * parent of the action it buries and becomes that parent's child.
   */
  lemma SuspendForPushesOnTop(cb: Callbacks, st: State, self: Id, next: Id, reason: string, fuel: nat)
    requires QuietStart(cb, next)
    requires ApplyResult(cb, st, self, Some(SuspendForResult(next, reason)), fuel).Ran?
    ensures fuel > 0 && FindTop(st, self, fuel - 1).Some?
    ensures var r := ApplyResult(cb, st, self, Some(SuspendForResult(next, reason)), fuel);
      var top := FindTop(st, self, fuel - 1).value;
      var b := Get(r.st, next).buried;
      && r.val == Some(next)
      && Get(r.st, next).started && Get(r.st, next).covering.None?
      && (b == Some(top) || b == Get(st, top).buried)
      && (b.Some? && b.value != next ==> Get(r.st, b.value).covering == Some(next))
      && (b.Some? ==> Get(r.st, next).parent == Get(st, b.value).parent)
      && (var p := Get(r.st, next).parent; p.Some? && p.value != next ==> Get(r.st, p.value).child == Some(next))
  {
    hide ApplyResult, InvokeOnStart, InvokeOnEnd, EndChildren, InvokeOnSuspend, InvokeOnResume, ResumeNow, ResumeChildThenSelf, InvokeUpdate, FinishSuspend, EndsOnly, EndedInOrder, ChainEnded, SuspendAnswered, OnlySuspends, ChildResumedFirst;
    var top, s, newTop := SuspendForRuns(cb, st, self, next, reason, fuel);
    QuietStartLinks(cb, s, next, newTop, newTop, fuel - 1);
    if newTop.Some? {
      assert Get(s, newTop.value).parent == Get(st, newTop.value).parent;
    }
  }

  /** The stages of a SuspendFor that runs: find the top, suspend it, start the new action above what it hands back. */
  lemma SuspendForRuns(cb: Callbacks, st: State, self: Id, next: Id, reason: string, fuel: nat) returns (top: Id, s: State, newTop: Option<Id>)
    requires QuietStart(cb, next)
    requires ApplyResult(cb, st, self, Some(SuspendForResult(next, reason)), fuel).Ran?
    ensures fuel > 0 && FindTop(st, self, fuel - 1) == Some(top)
    ensures InvokeOnSuspend(cb, st, top, Some(next), fuel - 1) == Ran(s, newTop)
    ensures InvokeOnStart(cb, s, next, newTop, newTop, fuel - 1).Ran?
    ensures ApplyResult(cb, st, self, Some(SuspendForResult(next, reason)), fuel)
      == Ran(InvokeOnStart(cb, s, next, newTop, newTop, fuel - 1).st, Some(next))
  {
    hide InvokeOnEnd, EndChildren, InvokeOnResume, ResumeNow, ResumeChildThenSelf, InvokeUpdate, FinishSuspend, EndsOnly, EndedInOrder, ChainEnded, SuspendAnswered, OnlySuspends, ChildResumedFirst;
    top := FindTop(st, self, fuel - 1).value;
    var suspended := InvokeOnSuspend(cb, st, top, Some(next), fuel - 1);
    s, newTop := suspended.st, suspended.val;
    QuietStartRuns(cb, s, next, newTop, newTop, fuel - 1);
  }

  /** The stack after a SuspendFor from a childless top whose OnSuspend does not opt out. */
  lemma SuspendForFromQuietTop(cb: Callbacks, st: State, self: Id, next: Id, reason: string, fuel: nat)
    requires Get(st, self).covering.None? && Get(st, self).child.None?
    requires forall h :: cb.onSuspend(self, Some(next), h).Some? && cb.onSuspend(self, Some(next), h).value.kind != Done
    requires next != self && QuietStart(cb, next) && fuel >= 2
    ensures var r := ApplyResult(cb, st, self, Some(SuspendForResult(next, reason)), fuel);
      && r.Ran? && r.val == Some(next)
      && r.st.trace == st.trace + [OnSuspendCall(self, Some(next)), OnStartCall(next, Some(self))]
      && Get(r.st, self).suspended && Get(r.st, self).started == Get(st, self).started
      && Get(r.st, self).covering == Some(next)
      && Get(r.st, next).buried == Some(self) && Get(r.st, next).started
      && Get(r.st, next).parent == Get(st, self).parent
  {
    hide ApplyResult, InvokeOnStart, InvokeOnEnd, EndChildren, InvokeOnSuspend, FinishSuspend, InvokeOnResume, ResumeNow, ResumeChildThenSelf, InvokeUpdate, EndsOnly, EndedInOrder, ChainEnded, SuspendAnswered, OnlySuspends, ChildResumedFirst;
    var s2, s3 := SuspendForQuietRun(cb, st, self, next, reason, fuel);
    QuietStartLinks(cb, s2, next, Some(self), Some(self), fuel - 1);
  }

  /**
   * SuspendFor hands activity over: the suspended action is no longer
   * active and the action started above it is.
   */
  lemma SuspendForHandsOverActivity(cb: Callbacks, st: State, self: Id, next: Id, reason: string, fuel: nat)
    requires Get(st, self).covering.None? && Get(st, self).child.None?
    requires forall h :: cb.onSuspend(self, Some(next), h).Some? && cb.onSuspend(self, Some(next), h).value.kind != Done
    requires next != self && QuietStart(cb, next) && !Get(st, next).suspended && fuel >= 2
    ensures var r := ApplyResult(cb, st, self, Some(SuspendForResult(next, reason)), fuel);
      r.Ran? && !IsActive(Get(r.st, self)) && IsActive(Get(r.st, next))
  {
    var s2, s3 := SuspendForQuietRun(cb, st, self, next, reason, fuel);
    QuietStartLinks(cb, s2, next, Some(self), Some(self), fuel - 1);
    assert Get(s3, self).suspended;
  }

  /** The run of a SuspendFor from a childless top that does not opt out: OnSuspend, then the new action's start. */
  lemma SuspendForQuietRun(cb: Callbacks, st: State, self: Id, next: Id, reason: string, fuel: nat) returns (s2: State, s3: State)
    requires Get(st, self).covering.None? && Get(st, self).child.None?
    requires forall h :: cb.onSuspend(self, Some(next), h).Some? && cb.onSuspend(self, Some(next), h).value.kind != Done
    requires QuietStart(cb, next) && fuel >= 2
    ensures s2.trace == st.trace + [OnSuspendCall(self, Some(next))]
    ensures Get(s2, self) == Get(st, self).(suspended := true, pending := Get(s2, self).pending)
    ensures forall x: Id :: x != self ==> Get(s2, x) == Get(st, x)
    ensures InvokeOnStart(cb, s2, next, Some(self), Some(self), fuel - 1).Ran?
    ensures s3 == InvokeOnStart(cb, s2, next, Some(self), Some(self), fuel - 1).st
    ensures ApplyResult(cb, st, self, Some(SuspendForResult(next, reason)), fuel) == Ran(s3, Some(next))
  {
    assert FindTop(st, self, fuel - 1) == Some(self);
    s2 := QuietSuspend(cb, st, self, next, fuel - 1);
    QuietStartRuns(cb, s2, next, Some(self), Some(self), fuel - 1);
    var started := InvokeOnStart(cb, s2, next, Some(self), Some(self), fuel - 1);
    s3 := started.st;
    assert ApplyResult(cb, started.st, next, started.val, fuel - 1) == Ran(started.st, Some(next));
  }

  /** Suspending a childless action whose OnSuspend answers and does not opt out: one OnSuspend call, and it stays on top. */
  lemma QuietSuspend(cb: Callbacks, st: State, self: Id, next: Id, fuel: nat) returns (s2: State)
    requires Get(st, self).child.None?
    requires forall h :: cb.onSuspend(self, Some(next), h).Some? && cb.onSuspend(self, Some(next), h).value.kind != Done
    requires fuel >= 1
    ensures InvokeOnSuspend(cb, st, self, Some(next), fuel) == Ran(s2, Some(self))
    ensures s2.trace == st.trace + [OnSuspendCall(self, Some(next))]
    ensures Get(s2, self) == Get(st, self).(suspended := true, pending := Get(s2, self).pending)
    ensures forall x: Id :: x != self ==> Get(s2, x) == Get(st, x)
  {
    var s1 := SetSuspended(st, self, true);
    var inv := Invoke(s1, self, OnSuspendCall(self, Some(next)), OnSuspendOf(cb, self, Some(next)));
    s2 := inv.0;
    assert inv.1.Some? && inv.1.value.kind != Done;
    assert FinishSuspend(cb, st, self, Some(next), fuel - 1) == Ran(s2, Some(self));
  }

  /**
   * Suspend opt-out: an `OnSuspend` answering Done ends the action, hands back
   * what it buried, and leaves its `IsSuspended` flag set, whether or not it
   * has a child (which is suspended first).
   */
  lemma SuspendOptOutKeepsFlag(cb: Callbacks, st: State, self: Id, interrupting: Option<Id>, fuel: nat)
    requires forall h :: cb.onSuspend(self, interrupting, h).Some? && cb.onSuspend(self, interrupting, h).value.kind == Done
    requires InvokeOnSuspend(cb, st, self, interrupting, fuel).Ran?
    ensures var r := InvokeOnSuspend(cb, st, self, interrupting, fuel);
      && r.val == Get(st, self).buried && Get(r.st, self).suspended && !Get(r.st, self).started
      && (exists i :: |st.trace| <= i < |r.st.trace| && r.st.trace[i] == OnSuspendCall(self, interrupting))
  {
  }

  // --------------------------------------------------------------------- Done

  /** Done ends the action, then resumes the action it buried (when that one can resume). */
  lemma DoneEndsThenResumes(cb: Callbacks, st: State, self: Id, b: Id, reason: string, fuel: nat)
    requires Get(st, self).started && Get(st, self).buried == Some(b)
    requires Get(st, b).suspended && !RequestsChange(Get(st, b).pending.kind)
    requires ApplyResult(cb, st, self, Some(DoneResult(reason)), fuel).Ran?
    ensures var t := ApplyResult(cb, st, self, Some(DoneResult(reason)), fuel).st.trace;
      exists i, j :: |st.trace| <= i < j < |t| && t[i] == OnEndCall(self, Some(b)) && t[j] == OnResumeCall(b, Some(self))
  {
    var ended := InvokeOnEnd(cb, st, self, Some(b), fuel - 1);
    var t1 := ended.st.trace;
    var tail := t1[|st.trace|..];
    var k :| 0 <= k < |tail| && tail[k] == OnEndCall(self, Some(b));
    var i := |st.trace| + k;
    ResumeAfterEnd(st, ended.st, b);
    var resumed := InvokeOnResume(cb, ended.st, b, Some(self), fuel - 1);
    var t2 := resumed.st.trace;
    var j := |t2| - 1;
    var t := ApplyResult(cb, resumed.st, b, resumed.val, fuel - 1).st.trace;
    assert t[i] == t2[i] == t1[i];
    assert t[j] == t2[j];
  }

  /** Ending actions leaves the suspended flag and the pending slot of every action alone. */
  lemma ResumeAfterEnd(st: State, st': State, b: Id)
    requires OnlyEnds(st, st')
    ensures Get(st', b).suspended == Get(st, b).suspended && Get(st', b).pending == Get(st, b).pending
  {
    assert Get(st', b) == Get(st, b).(started := Get(st', b).started);
  }

  /**
   * A blocked resume: when the buried action has a change pending, Done ends
   * the current action, fires no OnResume, and hands the still suspended
   * buried action back as current; its pending change is honoured by its next
   * `InvokeUpdate`.
   */
  lemma BlockedResumeStaysSuspended(cb: Callbacks, st: State, self: Id, b: Id, reason: string, fuel: nat)
    requires Get(st, self).buried == Some(b)
    requires Get(st, b).suspended && RequestsChange(Get(st, b).pending.kind)
    requires ApplyResult(cb, st, self, Some(DoneResult(reason)), fuel).Ran?
    ensures var r := ApplyResult(cb, st, self, Some(DoneResult(reason)), fuel);
      && r.val == Some(b)
      && OnlyEnds(st, r.st) && OnlyEndCalls(st, r.st, Some(b))
      && Get(r.st, b).suspended && Get(r.st, b).pending == Get(st, b).pending
  {
    var ended := InvokeOnEnd(cb, st, self, Some(b), fuel - 1);
    assert Get(ended.st, b).suspended && Get(ended.st, b).pending == Get(st, b).pending;
  }

  /**
   * Done on a childless top action over a quiet suspended action: exactly
   * OnEnd then OnResume fire, and the buried action is current, active-linked
   * and uncovered again.
   */
  lemma DoneResumesBuried(cb: Callbacks, st: State, self: Id, b: Id, reason: string, fuel: nat)
    requires Get(st, self).started && Get(st, self).child.None? && Get(st, self).covering.None?
    requires Get(st, self).buried == Some(b) && b != self
    requires Get(st, b).suspended && !RequestsChange(Get(st, b).pending.kind) && Get(st, b).child.None?
    requires forall h :: cb.onResume(b, Some(self), h).None? || !RequestsChange(cb.onResume(b, Some(self), h).value.kind)
    requires fuel >= 2
    ensures var r := ApplyResult(cb, st, self, Some(DoneResult(reason)), fuel);
      && r.Ran? && r.val == Some(b)
      && r.st.trace == st.trace + [OnEndCall(self, Some(b)), OnResumeCall(b, Some(self))]
      && !Get(r.st, self).started
      && !Get(r.st, b).suspended && Get(r.st, b).covering.None? && Get(r.st, b).started == Get(st, b).started
  {
    var s2, s3 := DoneQuietRun(cb, st, self, b, reason, fuel);
    assert Get(s2, b) == Get(st, b);
  }

  /**
   * Done hands activity back: the ended action is no longer active and the
   * started action it buried is active again.
   */
  lemma DoneHandsBackActivity(cb: Callbacks, st: State, self: Id, b: Id, reason: string, fuel: nat)
    requires Get(st, self).started && Get(st, self).child.None? && Get(st, self).covering.None?
    requires Get(st, self).buried == Some(b) && b != self && Get(st, b).started
    requires Get(st, b).suspended && !RequestsChange(Get(st, b).pending.kind) && Get(st, b).child.None?
    requires forall h :: cb.onResume(b, Some(self), h).None? || !RequestsChange(cb.onResume(b, Some(self), h).value.kind)
    requires fuel >= 2
    ensures var r := ApplyResult(cb, st, self, Some(DoneResult(reason)), fuel);
      r.Ran? && !IsActive(Get(r.st, self)) && IsActive(Get(r.st, b))
  {
    DoneResumesBuried(cb, st, self, b, reason, fuel);
  }

  /** The run of a Done over a quiet suspended action: OnEnd, then the buried action's resume. */
  lemma DoneQuietRun(cb: Callbacks, st: State, self: Id, b: Id, reason: string, fuel: nat) returns (s2: State, s3: State)
    requires Get(st, self).started && Get(st, self).child.None? && Get(st, self).covering.None?
    requires Get(st, self).buried == Some(b) && b != self
    requires Get(st, b).suspended && !RequestsChange(Get(st, b).pending.kind) && Get(st, b).child.None?
    requires forall h :: cb.onResume(b, Some(self), h).None? || !RequestsChange(cb.onResume(b, Some(self), h).value.kind)
    requires fuel >= 2
    ensures s2 == Fire(SetStarted(st, self, false), OnEndCall(self, Some(b)))
    ensures s3 == Invoke(ResumeLinks(s2, b), b, OnResumeCall(b, Some(self)), OnResumeOf(cb, b, Some(self))).0
    ensures ApplyResult(cb, st, self, Some(DoneResult(reason)), fuel) == Ran(s3, Some(b))
  {
    hide InvokeOnEnd, EndChildren, InvokeOnStart, InvokeOnSuspend, FinishSuspend, InvokeUpdate, ResumeChildThenSelf, EndsOnly, EndedInOrder, ChainEnded, SuspendAnswered, OnlySuspends, ChildResumedFirst;
    s2 := QuietEnd(cb, st, self, Some(b), fuel - 1);
    var res;
    var inv := Invoke(ResumeLinks(s2, b), b, OnResumeCall(b, Some(self)), OnResumeOf(cb, b, Some(self)));
    s3, res := inv.0, inv.1;
    assert InvokeOnResume(cb, s2, b, Some(self), fuel - 1) == Ran(s3, res);
    assert res.None? || !RequestsChange(res.value.kind);
    assert ApplyResult(cb, s3, b, res, fuel - 1) == Ran(s3, Some(b));
  }

  // ------------------------------------------------------------------- update

  /** An action `InvokeUpdate` will run: started, burying nothing, with no change pending. */
  predicate ReadyAtBottom(st: State, id: Id) {
    Get(st, id).started && Get(st, id).buried.None? && !RequestsChange(Get(st, id).pending.kind)
  }

  /** Updating a ready action with no child: exactly one Update call, whose answer is the result. */
  lemma ReadyUpdate(cb: Callbacks, st: State, id: Id, fuel: nat)
    requires ReadyAtBottom(st, id) && Get(st, id).child.None?
    ensures var (s, res) := Invoke(st, id, UpdateCall(id), UpdateOf(cb, id));
      InvokeUpdate(cb, st, id, fuel) == Ran(s, res)
  {
    assert ProcessPendingEvents(st, id, fuel) == Some((st, ContinueResult()));
  }

  /**
   * Updating an action whose childless child answers Update without a change
   * request: the child's Update runs first, then the action's own, and the
   * child stays in place.
   */
  lemma ChildUpdatedFirst(cb: Callbacks, st: State, self: Id, k: Id, fuel: nat)
    requires ReadyAtBottom(st, self) && ReadyAtBottom(st, k)
    requires Get(st, self).child == Some(k) && k != self && Get(st, k).child.None?
    requires forall h :: cb.update(k, h).None? || !RequestsChange(cb.update(k, h).value.kind)
    requires fuel >= 1
    ensures var r := InvokeUpdate(cb, st, self, fuel);
      && r.Ran?
      && r.st.trace == st.trace + [UpdateCall(k), UpdateCall(self)]
      && r.val == cb.update(self, r.st.trace)
      && Get(r.st, self).child == Some(k) && Get(r.st, k).started
  {
    assert ProcessPendingEvents(st, self, fuel) == Some((st, ContinueResult()));
    ReadyUpdate(cb, st, k, fuel - 1);
    var (c, res) := Invoke(st, k, UpdateCall(k), UpdateOf(cb, k));
    assert res.None? || !RequestsChange(res.value.kind);
    assert ApplyResult(cb, c, k, res, fuel - 1) == Ran(c, Some(k));
    var s2 := SetChild(c, self, Some(k));
    var (s3, res3) := Invoke(s2, self, UpdateCall(self), UpdateOf(cb, self));
    assert InvokeUpdate(cb, st, self, fuel) == Ran(s3, res3);
  }

  /**
   * A childless, uncovered child that answers Done and buries nothing is ended
   * during its parent's update, before the parent's own Update, and the parent
   * is left without a child.
   */
  lemma FinishedChildIsDropped(cb: Callbacks, st: State, self: Id, k: Id, fuel: nat)
    requires ReadyAtBottom(st, self) && ReadyAtBottom(st, k)
    requires Get(st, self).child == Some(k) && k != self
    requires Get(st, k).child.None? && Get(st, k).covering.None?
    requires forall h :: cb.update(k, h).Some? && cb.update(k, h).value.kind == Done
    requires fuel >= 3
    ensures var r := InvokeUpdate(cb, st, self, fuel);
      && r.Ran?
      && r.st.trace == st.trace + [UpdateCall(k), OnEndCall(k, None), UpdateCall(self)]
      && r.val == cb.update(self, r.st.trace)
      && Get(r.st, self).child.None? && !Get(r.st, k).started
  {
    hide InvokeOnEnd, InvokeOnStart, ApplyResult, EndChildren, InvokeOnSuspend, FinishSuspend, InvokeOnResume, ResumeNow, ResumeChildThenSelf, ChildResumedFirst, EndsOnly, EndedInOrder, ChainEnded;
    var e := ChildDoneEnds(cb, st, k, fuel - 1);
    assert ProcessPendingEvents(st, self, fuel) == Some((st, ContinueResult()));
    var s2 := SetChild(e, self, None);
    var (s3, res3) := Invoke(s2, self, UpdateCall(self), UpdateOf(cb, self));
    assert InvokeUpdate(cb, st, self, fuel) == Ran(s3, res3);
  }

  /** A childless, uncovered child with nothing buried that answers Done: its Update runs, then it ends. */
  lemma ChildDoneEnds(cb: Callbacks, st: State, k: Id, fuel: nat) returns (e: State)
    requires ReadyAtBottom(st, k) && Get(st, k).child.None? && Get(st, k).covering.None?
    requires forall h :: cb.update(k, h).Some? && cb.update(k, h).value.kind == Done
    requires fuel >= 2
    ensures var (c, res) := Invoke(st, k, UpdateCall(k), UpdateOf(cb, k));
      && InvokeUpdate(cb, st, k, fuel) == Ran(c, res)
      && ApplyResult(cb, c, k, res, fuel) == Ran(e, None)
    ensures e.trace == st.trace + [UpdateCall(k), OnEndCall(k, None)]
    ensures !Get(e, k).started
  {
    ReadyUpdate(cb, st, k, fuel);
    var (c, res) := Invoke(st, k, UpdateCall(k), UpdateOf(cb, k));
    assert res.Some? && res.value.kind == Done;
    e := QuietEnd(cb, c, k, None, fuel - 1);
    assert ApplyResult(cb, c, k, res, fuel) == Ran(e, None);
  }

  /**
   * A SuspendFor waiting on the action just below an in-scope action is
   * honoured instead of the update: its slot is emptied, no Update runs, and the SuspendFor is the
   * result.
   */
  lemma BuriedSuspendForPreemptsUpdate(cb: Callbacks, st: State, self: Id, b: Id, fuel: nat)
    requires Get(st, self).started && Get(st, self).buried == Some(b)
    requires !RequestsChange(Get(st, self).pending.kind)
    requires Get(st, b).pending.kind == SuspendFor
    requires IsOutOfScope(st, self, fuel) == Some(false)
    ensures var r := InvokeUpdate(cb, st, self, fuel);
      && r == Ran(SetPending(st, b, EmptySlot()), Some(ToActionResult(Get(st, b).pending)))
      && r.st.trace == st.trace && r.val.value.kind == SuspendFor
  {
  }

  // ------------------------------------------------------------------- resume

  /** An action whose `OnResume` never requests a change. */
  ghost predicate QuietResume(cb: Callbacks, id: Id, interrupting: Option<Id>) {
    forall h :: cb.onResume(id, interrupting, h).None? || !RequestsChange(cb.onResume(id, interrupting, h).value.kind)
  }

  /**
   * Resuming an action whose (childless) child resumes quietly: the child's
   * OnResume runs first when it can resume, then the action's own; afterwards
   * the action is no longer suspended or covered, still holds the same child,
   * and is its parent's child again.
   */
  lemma ResumeRestoresLinks(cb: Callbacks, st: State, self: Id, k: Id, interrupting: Option<Id>, fuel: nat)
    requires Resumable(st, self)
    requires Get(st, self).child == Some(k) && k != self
    requires Get(st, self).parent != Some(self) && Get(st, self).parent != Some(k)
    requires Get(st, k).parent == Some(self) && Get(st, k).child.None?
    requires QuietResume(cb, k, interrupting)
    requires fuel >= 2
    ensures var r := InvokeOnResume(cb, st, self, interrupting, fuel);
      && r.Ran?
      && r.st.trace == st.trace + (if Resumable(st, k) then [OnResumeCall(k, interrupting)] else []) + [OnResumeCall(self, interrupting)]
      && r.val == cb.onResume(self, interrupting, r.st.trace)
      && !Get(r.st, self).suspended && Get(r.st, self).covering.None? && Get(r.st, self).child == Some(k)
      && (Get(st, self).parent.Some? ==> Get(r.st, Get(st, self).parent.value).child == Some(self))
  {
    hide InvokeOnEnd, InvokeOnStart, ApplyResult, EndChildren, InvokeOnSuspend, FinishSuspend, InvokeUpdate, InvokeOnResume, ResumeNow, ResumeChildThenSelf, ChildResumedFirst, EndsOnly, EndedInOrder, ChainEnded;
    var s1 := ResumeLinks(st, self);
    assert Get(s1, self).child == Some(k);
    assert Get(s1, k) == Get(st, k);
    var c := QuietChildResume(cb, s1, self, k, interrupting, fuel - 1);
    ChildThenSelfRuns(cb, st, self, k, interrupting, fuel - 1, c);
    ResumeEntersChild(cb, st, self, k, interrupting, fuel);
    SelfResumedLinks(cb, st, self, k, interrupting, c);
  }

  /** The action's own OnResume after its child's part: the links `ResumeRestoresLinks` promises. */
  lemma SelfResumedLinks(cb: Callbacks, st: State, self: Id, k: Id, interrupting: Option<Id>, c: State)
    requires Resumable(st, self) && Get(st, self).child == Some(k) && k != self
    requires Get(st, self).parent != Some(self) && Get(st, self).parent != Some(k)
    requires c.trace == st.trace + (if Resumable(st, k) then [OnResumeCall(k, interrupting)] else [])
    requires Get(c, self) == Get(ResumeLinks(st, self), self)
    requires forall x: Id :: x != k ==> Get(c, x) == Get(ResumeLinks(st, self), x)
    ensures var (s3, res) := Invoke(SetChild(c, self, Some(k)), self, OnResumeCall(self, interrupting), OnResumeOf(cb, self, interrupting));
      && s3.trace == st.trace + (if Resumable(st, k) then [OnResumeCall(k, interrupting)] else []) + [OnResumeCall(self, interrupting)]
      && res == cb.onResume(self, interrupting, s3.trace)
      && !Get(s3, self).suspended && Get(s3, self).covering.None? && Get(s3, self).child == Some(k)
      && (Get(st, self).parent.Some? ==> Get(s3, Get(st, self).parent.value).child == Some(self))
  {
    var s1 := ResumeLinks(st, self);
    if Get(st, self).parent.Some? {
      var p := Get(st, self).parent.value;
      assert Get(c, p) == Get(s1, p);
    }
  }

  /** Once the child's part has run to `c`, the action's own OnResume follows on `c` with the child kept. */
  lemma ChildThenSelfRuns(cb: Callbacks, st: State, self: Id, k: Id, interrupting: Option<Id>, fuel: nat, c: State)
    requires var childResult := InvokeOnResume(cb, ResumeLinks(st, self), k, interrupting, fuel);
      && childResult.Ran? && childResult.st == c
      && ApplyResult(cb, c, k, childResult.val, fuel) == Ran(c, Some(k))
    ensures ResumeChildThenSelf(cb, st, self, k, interrupting, fuel)
      == Ran(Invoke(SetChild(c, self, Some(k)), self, OnResumeCall(self, interrupting), OnResumeOf(cb, self, interrupting)).0,
             Invoke(SetChild(c, self, Some(k)), self, OnResumeCall(self, interrupting), OnResumeOf(cb, self, interrupting)).1)
  {
    hide InvokeOnEnd, InvokeOnStart, ApplyResult, EndChildren, InvokeOnSuspend, FinishSuspend, InvokeUpdate, InvokeOnResume, ResumeNow, EndsOnly, EndedInOrder, ChainEnded;
  }

  /** Resuming an action that is not its own parent and has child `k` is resuming `k`, then itself. */
  lemma ResumeEntersChild(cb: Callbacks, st: State, self: Id, k: Id, interrupting: Option<Id>, fuel: nat)
    requires Resumable(st, self) && Get(st, self).child == Some(k) && Get(st, self).parent != Some(self)
    requires fuel >= 2
    ensures InvokeOnResume(cb, st, self, interrupting, fuel) == ResumeChildThenSelf(cb, st, self, k, interrupting, fuel - 1)
  {
    hide ResumeChildThenSelf, EndsOnly, EndedInOrder, ChainEnded;
    ResumeLinksKeepsChild(st, self, k);
  }

  /** The child's part of resuming an action: a quiet childless child resumes (when it can) and stays current. */
  lemma QuietChildResume(cb: Callbacks, s1: State, self: Id, k: Id, interrupting: Option<Id>, fuel: nat) returns (c: State)
    requires k != self && Get(s1, self).child == Some(k)
    requires Get(s1, k).parent == Some(self) && Get(s1, k).child.None?
    requires QuietResume(cb, k, interrupting)
    requires fuel >= 1
    ensures var childResult := InvokeOnResume(cb, s1, k, interrupting, fuel);
      && childResult.Ran? && childResult.st == c
      && ApplyResult(cb, c, k, childResult.val, fuel) == Ran(c, Some(k))
    ensures c.trace == s1.trace + (if Resumable(s1, k) then [OnResumeCall(k, interrupting)] else [])
    ensures Get(c, self) == Get(s1, self)
    ensures forall x: Id :: x != k ==> Get(c, x) == Get(s1, x)
  {
    if Resumable(s1, k) {
      var l := ResumeLinks(s1, k);
      assert Get(l, self) == Get(s1, self);
      var inv := Invoke(l, k, OnResumeCall(k, interrupting), OnResumeOf(cb, k, interrupting));
      c := inv.0;
      assert InvokeOnResume(cb, s1, k, interrupting, fuel) == Ran(c, inv.1);
      assert inv.1.None? || !RequestsChange(inv.1.value.kind);
    } else {
      c := s1;
    }
  }

  // ------------------------------------------------------------------- start

  /** The contained action is started (through its own ChangeTo) before the container's OnStart runs. */
  lemma ChildStartsBeforeParent(cb: Callbacks, st: State, self: Id, prior: Option<Id>, buried: Option<Id>, k: Id, fuel: nat)
    requires cb.initialContained(self, st.trace) == Some(k)
    requires InvokeOnStart(cb, st, self, prior, buried, fuel).Ran?
    ensures var t := InvokeOnStart(cb, st, self, prior, buried, fuel).st.trace;
      && (exists i :: |st.trace| <= i < |t| - 1 && t[i] == OnStartCall(k, Some(k)))
      && t[|t| - 1] == OnStartCall(self, prior)
  {
    hide InvokeOnEnd, ApplyResult, EndChildren, InvokeOnSuspend, FinishSuspend, InvokeOnResume, ResumeNow, ResumeChildThenSelf, InvokeUpdate, EndsOnly, EndedInOrder, ChainEnded;
    var s1 := StartLinks(st, self, prior, buried);
    assert s1.trace == st.trace;
    var s3 := SetParent(SetChild(s1, self, Some(k)), k, Some(self));
    var applied := ApplyResult(cb, s3, k, Some(ChangeToResult(Some(k), "Starting child Action")), fuel - 1);
    var i := ChangeToSelfStarts(cb, s3, k, fuel - 1);
    var s4 := SetChild(applied.st, self, applied.val);
    var (s5, res) := Invoke(s4, self, OnStartCall(self, prior), OnStartOf(cb, self, prior));
    assert s5.trace[i] == applied.st.trace[i];
  }

  /** A ChangeTo to oneself that runs fires that action's OnStart, with itself as the prior action. */
  lemma ChangeToSelfStarts(cb: Callbacks, st: State, k: Id, fuel: nat) returns (i: nat)
    requires ApplyResult(cb, st, k, Some(ChangeToResult(Some(k), "Starting child Action")), fuel).Ran?
    ensures var t := ApplyResult(cb, st, k, Some(ChangeToResult(Some(k), "Starting child Action")), fuel).st.trace;
      |st.trace| <= i < |t| && t[i] == OnStartCall(k, Some(k))
  {
    hide EndChildren, InvokeOnSuspend, FinishSuspend, InvokeOnResume, ResumeNow, ResumeChildThenSelf, InvokeUpdate, OnlyEnds, EndsAreCalled, CoverersEnded, EndedInOrder, ChainEnded;
    var applied := ApplyResult(cb, st, k, Some(ChangeToResult(Some(k), "Starting child Action")), fuel);
    var ended := InvokeOnEnd(cb, st, k, Some(k), fuel - 1);
    var started := InvokeOnStart(cb, ended.st, k, Some(k), Get(ended.st, k).buried, fuel - 1);
    i := |started.st.trace| - 1;
    assert applied.st.trace[i] == started.st.trace[i];
  }
}
