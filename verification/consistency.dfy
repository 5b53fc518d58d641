/**
 * Stack consistency: the links between started actions agree with each
 * other.  What an action buries is covered by it, what covers an action
 * buries it, and an action's contained child names it as parent.  Actions
 * that have ended keep stale links (ChangeTo and Done do not clear them), so
 * the invariant speaks about started actions only.
 */
module Consistency {
  import opened Wrappers
  import opened Results
  import opened Actions
  import opened Engine
  import opened Transitions

  /** The links of `x` agree with the links of the actions they name. */
  ghost predicate LinksAgree(st: State, x: Id) {
    && (Get(st, x).buried.Some? ==> Get(st, Get(st, x).buried.value).covering == Some(x))
    && (Get(st, x).covering.Some? ==> Get(st, Get(st, x).covering.value).buried == Some(x))
    && (Get(st, x).child.Some? ==> Get(st, Get(st, x).child.value).parent == Some(x))
  }

  /** Every started action's links agree. */
  ghost predicate WellFormed(st: State) {
    forall x: Id :: Get(st, x).started ==> LinksAgree(st, x)
  }

  /** No link changes between `st` and `st'`, and no action becomes started. */
  ghost predicate LinksKept(st: State, st': State) {
    forall x: Id ::
      && Get(st', x).buried == Get(st, x).buried && Get(st', x).covering == Get(st, x).covering
      && Get(st', x).child == Get(st, x).child && Get(st', x).parent == Get(st, x).parent
      && (Get(st', x).started ==> Get(st, x).started)
  }

  /** An action no link can reach: nothing buried, covering, parent or child. */
  ghost predicate Unlinked(n: Node) {
    n.buried.None? && n.covering.None? && n.parent.None? && n.child.None?
  }

  /** Consistency survives any step that changes no link and starts nothing. */
  lemma KeptLinksKeepWellFormed(st: State, st': State)
    requires WellFormed(st) && LinksKept(st, st')
    ensures WellFormed(st')
  {
    forall x: Id | Get(st', x).started
      ensures LinksAgree(st', x)
    {
      assert LinksAgree(st, x);
      var n := Get(st, x);
      if n.buried.Some? {
        assert Get(st', n.buried.value).covering == Get(st, n.buried.value).covering;
      }
      if n.covering.Some? {
        assert Get(st', n.covering.value).buried == Get(st, n.covering.value).buried;
      }
      if n.child.Some? {
        assert Get(st', n.child.value).parent == Get(st, n.child.value).parent;
      }
    }
  }

  /** The result of calling into an action (and its pending slot) changes no link. */
  lemma InvokeKeepsLinks(st: State, self: Id, c: Call, f: seq<Call> -> Option<ActionResult>)
    ensures LinksKept(st, Invoke(st, self, c, f).0)
  {
  }

  /**
   * The link step of a start, exactly: apart from `self`, only the new
   * parent's child and the buried action's covering change.
   */
  lemma StartLinksExact(st: State, self: Id, prior: Option<Id>, buried: Option<Id>)
    ensures var r := StartLinks(st, self, prior, buried);
      var p := Get(r, self).parent;
      forall x: Id :: x != self ==>
        && Get(r, x).child == (if p == Some(x) then Some(self) else Get(st, x).child)
        && Get(r, x).covering == (if buried == Some(x) then Some(self) else Get(st, x).covering)
        && Get(r, x).buried == Get(st, x).buried && Get(r, x).parent == Get(st, x).parent
        && Get(r, x).started == Get(st, x).started
  {
    var s1 := StartSelf(st, self, prior);
    var s2 := RegisterWithParent(s1, self);
    var r := Bury(s2, self, buried);
    assert Get(s1, self).parent == Get(r, self).parent;
    forall x: Id | x != self
      ensures Get(r, x).child == (if Get(r, self).parent == Some(x) then Some(self) else Get(st, x).child)
      ensures Get(r, x).covering == (if buried == Some(x) then Some(self) else Get(st, x).covering)
    {
      assert Get(s2, x).child == Get(r, x).child;
      assert Get(s2, x).covering == Get(s1, x).covering;
    }
  }

  /**
   * Starting `next` above `b` (with `prior` as its prior action) keeps the
   * stack consistent, when `next` is unlinked, is not the prior action's
   * parent, and no started action covers `b`.
   */
  lemma StartKeepsWellFormed(st: State, next: Id, prior: Id, b: Option<Id>)
    requires WellFormed(st) && Unlinked(Get(st, next))
    requires Get(st, prior).parent != Some(next)
    requires b.Some? ==> b.value != next && (Get(st, b.value).covering.None? || !Get(st, Get(st, b.value).covering.value).started)
    ensures WellFormed(SetChild(StartLinks(st, next, Some(prior), b), next, None))
  {
    hide StartLinks, StartSelf, RegisterWithParent, Bury;
    var s1 := StartLinks(st, next, Some(prior), b);
    var r := SetChild(s1, next, None);
    var p := Get(st, prior).parent;
    StartLinksExact(st, next, Some(prior), b);
    assert Get(r, next) == Get(s1, next).(child := None);
    forall x: Id | Get(r, x).started
      ensures LinksAgree(r, x)
    {
      if x == next {
        if b.Some? {
          assert Get(r, b.value).covering == Some(next);
        }
        if p.Some? {
          assert Get(r, p.value).child == Some(next);
        }
      } else {
        assert Get(st, x).started && LinksAgree(st, x);
        var n := Get(st, x);
        if n.buried.Some? {
          var y := n.buried.value;
          assert y != next;
          assert b == Some(y) ==> false;
          assert Get(r, y).covering == Get(st, y).covering;
        }
        if Get(r, x).covering.Some? && b != Some(x) {
          var c := n.covering.value;
          assert c != next;
          assert Get(r, c).buried == Get(st, c).buried;
        }
        if Get(r, x).child.Some? && p != Some(x) {
          var k := n.child.value;
          assert k != next;
          assert Get(r, k).parent == Get(st, k).parent;
        }
      }
    }
  }

  /**
   * Resuming `b` keeps the stack consistent, when no started action covers
   * it: it is uncovered and its parent's child again.
   */
  lemma ResumeKeepsWellFormed(st: State, b: Id)
    requires WellFormed(st)
    requires Get(st, b).covering.None? || !Get(st, Get(st, b).covering.value).started
    ensures WellFormed(ResumeLinks(st, b))
  {
    var r := ResumeLinks(st, b);
    var p := Get(st, b).parent;
    assert Get(r, b).child == (if p == Some(b) then Some(b) else Get(st, b).child);
    forall x: Id | Get(r, x).started
      ensures LinksAgree(r, x)
    {
      assert Get(st, x).started && LinksAgree(st, x);
      var n := Get(st, x);
      if n.buried.Some? {
        var y := n.buried.value;
        assert y != b;
        assert Get(r, y).covering == Get(st, y).covering;
      }
      if Get(r, x).covering.Some? {
        var c := n.covering.value;
        assert Get(r, c).buried == Get(st, c).buried;
      }
      if Get(r, x).child.Some? && p != Some(x) {
        var k := n.child.value;
        assert Get(r, k).parent == Get(st, k).parent;
      }
    }
  }

  /** Clearing a started flag and recording a call change no link. */
  lemma EndOneKeepsLinks(st: State, self: Id, c: Call)
    ensures LinksKept(st, Fire(SetStarted(st, self, false), c))
  {
  }

  /**
   * ChangeTo keeps the stack consistent: a childless, uncovered top action
   * replaced by a new, unlinked, quiet action.
   */
  lemma ChangeToKeepsWellFormed(cb: Callbacks, st: State, self: Id, next: Id, reason: string, fuel: nat)
    requires WellFormed(st)
    requires Get(st, self).started && Get(st, self).child.None? && Get(st, self).covering.None?
    requires next != self && QuietStart(cb, next) && Unlinked(Get(st, next))
    requires Get(st, self).parent != Some(next) && fuel >= 2
    ensures var r := ApplyResult(cb, st, self, Some(ChangeToResult(Some(next), reason)), fuel);
      r.Ran? && WellFormed(r.st)
  {
    var s2, s3 := ChangeToQuietRun(cb, st, self, next, reason, fuel);
    EndOneKeepsLinks(st, self, OnEndCall(self, Some(next)));
    KeptLinksKeepWellFormed(st, s2);
    assert LinksAgree(st, self);
    var b := Get(st, self).buried;
    StartKeepsWellFormed(s2, next, self, b);
    StartedQuietly(cb, s2, next, self, b, fuel - 1, s3);
  }

  /** A quiet start's final state has the links of its link step. */
  lemma StartedQuietly(cb: Callbacks, st: State, next: Id, prior: Id, b: Option<Id>, fuel: nat, s3: State)
    requires QuietStart(cb, next)
    requires InvokeOnStart(cb, st, next, Some(prior), b, fuel).Ran? && s3 == InvokeOnStart(cb, st, next, Some(prior), b, fuel).st
    requires WellFormed(SetChild(StartLinks(st, next, Some(prior), b), next, None))
    ensures WellFormed(s3)
  {
    assert cb.initialContained(next, st.trace).None?;
    var linked := SetChild(StartLinks(st, next, Some(prior), b), next, None);
    InvokeKeepsLinks(linked, next, OnStartCall(next, Some(prior)), OnStartOf(cb, next, Some(prior)));
    KeptLinksKeepWellFormed(linked, s3);
  }

  /**
   * SuspendFor keeps the stack consistent: a childless, uncovered top action
   * that does not opt out is suspended under a new, unlinked, quiet action.
   */
  lemma SuspendForKeepsWellFormed(cb: Callbacks, st: State, self: Id, next: Id, reason: string, fuel: nat)
    requires WellFormed(st)
    requires Get(st, self).covering.None? && Get(st, self).child.None?
    requires forall h :: cb.onSuspend(self, Some(next), h).Some? && cb.onSuspend(self, Some(next), h).value.kind != Done
    requires next != self && QuietStart(cb, next) && Unlinked(Get(st, next))
    requires Get(st, self).parent != Some(next) && fuel >= 2
    ensures var r := ApplyResult(cb, st, self, Some(SuspendForResult(next, reason)), fuel);
      r.Ran? && WellFormed(r.st)
  {
    var s2, s3 := SuspendForQuietRun(cb, st, self, next, reason, fuel);
    assert LinksKept(st, s2);
    KeptLinksKeepWellFormed(st, s2);
    StartKeepsWellFormed(s2, next, self, Some(self));
    StartedQuietly(cb, s2, next, self, Some(self), fuel - 1, s3);
  }

  /**
   * Done keeps the stack consistent: a childless, uncovered top action ends
   * and the quiet action it buried resumes.
   */
  lemma DoneKeepsWellFormed(cb: Callbacks, st: State, self: Id, b: Id, reason: string, fuel: nat)
    requires WellFormed(st)
    requires Get(st, self).started && Get(st, self).child.None? && Get(st, self).covering.None?
    requires Get(st, self).buried == Some(b) && b != self
    requires Get(st, b).suspended && !RequestsChange(Get(st, b).pending.kind) && Get(st, b).child.None?
    requires forall h :: cb.onResume(b, Some(self), h).None? || !RequestsChange(cb.onResume(b, Some(self), h).value.kind)
    requires fuel >= 2
    ensures var r := ApplyResult(cb, st, self, Some(DoneResult(reason)), fuel);
      r.Ran? && WellFormed(r.st)
  {
    var s2, s3 := DoneQuietRun(cb, st, self, b, reason, fuel);
    EndOneKeepsLinks(st, self, OnEndCall(self, Some(b)));
    KeptLinksKeepWellFormed(st, s2);
    assert LinksAgree(st, self);
    ResumeKeepsWellFormed(s2, b);
    var linked := ResumeLinks(s2, b);
    InvokeKeepsLinks(linked, b, OnResumeCall(b, Some(self)), OnResumeOf(cb, b, Some(self)));
    KeptLinksKeepWellFormed(linked, s3);
  }
}
