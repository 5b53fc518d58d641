/**
 * The action node and the parts of the action protocol that do not recurse
 * into user callbacks: the arena of nodes, the buried/covering chains,
 * `IsOutOfScope`, the link steps of start and resume, pending-event
 * arbitration (`StorePendingEventResult`, `ProcessPendingEvents`), the event
 * walk (`OnEvent`) and the contextual-query walk (`OnQuery`).
 *
 * The C# object graph becomes an arena `map<Id, Node>`.  Reading an id that is
 * not in the arena yields a freshly constructed node: a callback that returns
 * `new SomeAction()` is modelled as returning an id nobody has touched yet.
 * Every pointer walk of the source gets a `fuel` bound; running out of fuel
 * (which in the source is a cycle, i.e. a hang) yields `None`.
 */
module Actions {
  import opened Wrappers
  import opened Results
  import Subscriptions

  /** The exact runtime type of an event; the ten built-in event classes plus user-defined ones. */
  datatype EventType =
    | Killed | Injured | Stuck | UnStuck | MoveToSuccess | MoveToFailure
    | Sight | LostSight | LeaveGround | LandOnGround
    | OtherEvent(tag: nat)

  /** An event object: its exact type and an opaque payload. */
  datatype Event = Event(kind: EventType, payload: nat)

  /**
   * What a subscription points at: the overridable built-in callback for one of
   * the ten event types, or a delegate registered by user code.
   */
  datatype Handler = Virtual(builtIn: EventType) | Delegate(tag: nat)

  /** The exact runtime type of a contextual query and its opaque arguments. */
  datatype Query = Query(kind: nat, args: nat)

  datatype Node = Node(
    buried: Option<Id>,      // BuriedUnderMe: the action we are suspending
    covering: Option<Id>,    // CoveringMe: the action suspending us
    parent: Option<Id>,      // Parent: the action whose InitialContainedAction created us
    child: Option<Id>,       // Child: our contained action
    started: bool,
    suspended: bool,
    pending: EventResult,    // EventResult: the arbitrated, not yet applied event outcome
    events: map<EventType, Handler>,
    queries: map<nat, nat>)  // query type -> handler tag

  /** Active means started and not suspended by another action. */
  predicate IsActive(n: Node) {
    n.started && !n.suspended
  }

  const BuiltInEvents: set<EventType> :=
    {Killed, Injured, Stuck, UnStuck, MoveToSuccess, MoveToFailure, Sight, LostSight, LeaveGround, LandOnGround}

  /** The subscriptions the constructor wires: each built-in type to its own virtual callback. */
  function DefaultEventSubscriptions(): (m: map<EventType, Handler>)
    ensures m.Keys == BuiltInEvents
    ensures forall t :: t in m ==> m[t] == Virtual(t)
  {
    map t | t in BuiltInEvents :: Virtual(t)
  }

  /** A newly constructed action. */
  function Fresh(): (n: Node)
    ensures !n.started && !n.suspended && !IsActive(n)
    ensures n.pending.kind == Continue && n.pending.priority == NoPriority
    ensures n.buried.None? && n.covering.None? && n.parent.None? && n.child.None?
    ensures n.events == DefaultEventSubscriptions() && n.queries == map[]
  {
    Node(None, None, None, None, false, false, EmptySlot(), DefaultEventSubscriptions(), map[])
  }

  /** One observable callback invocation, in the order they happen. */
  datatype Call =
    | OnStartCall(id: Id, prior: Option<Id>)
    | UpdateCall(id: Id)
    | OnEndCall(id: Id, next: Option<Id>)
    | OnSuspendCall(id: Id, cause: Option<Id>)
    | OnResumeCall(id: Id, cause: Option<Id>)
    | EventCall(id: Id, ev: Event)

  /** The arena plus the history of callback invocations so far. */
  datatype State = State(nodes: map<Id, Node>, trace: seq<Call>)

  /**
   * The user-overridable parts of every action, as functions of the action and
   * the history so far (which stands for whatever actor state they consult).
   * A lifecycle callback may return `null` (`None`).
   */
  datatype Callbacks = Callbacks(
    initialContained: (Id, seq<Call>) -> Option<Id>,
    onStart: (Id, Option<Id>, seq<Call>) -> Option<ActionResult>,
    update: (Id, seq<Call>) -> Option<ActionResult>,
    onSuspend: (Id, Option<Id>, seq<Call>) -> Option<ActionResult>,
    onResume: (Id, Option<Id>, seq<Call>) -> Option<ActionResult>,
    handle: (Id, Handler, Event, seq<Call>) -> Option<EventResult>)

  // ---------------------------------------------------------------- arena

  function Get(st: State, id: Id): Node {
    if id in st.nodes then st.nodes[id] else Fresh()
  }

  function Put(st: State, id: Id, n: Node): (r: State)
    ensures Get(r, id) == n && r.trace == st.trace
    ensures forall x: Id :: x != id ==> Get(r, x) == Get(st, x)
  {
    st.(nodes := st.nodes[id := n])
  }

  function SetStarted(st: State, id: Id, v: bool): State {
    Put(st, id, Get(st, id).(started := v))
  }

  function SetSuspended(st: State, id: Id, v: bool): State {
    Put(st, id, Get(st, id).(suspended := v))
  }

  function SetParent(st: State, id: Id, v: Option<Id>): State {
    Put(st, id, Get(st, id).(parent := v))
  }

  function SetChild(st: State, id: Id, v: Option<Id>): State {
    Put(st, id, Get(st, id).(child := v))
  }

  function SetBuried(st: State, id: Id, v: Option<Id>): State {
    Put(st, id, Get(st, id).(buried := v))
  }

  function SetCovering(st: State, id: Id, v: Option<Id>): State {
    Put(st, id, Get(st, id).(covering := v))
  }

  function SetPending(st: State, id: Id, v: EventResult): State {
    Put(st, id, Get(st, id).(pending := v))
  }

  /** Record a callback invocation. */
  function Fire(st: State, c: Call): (r: State)
    ensures r.nodes == st.nodes && r.trace == st.trace + [c]
  {
    st.(trace := st.trace + [c])
  }

  /**
   * `SuspendFor(action, reason)`: builds the result and clears the caller's
   * own pending slot, so that the suspension is not immediately out of scope.
   */
  function SuspendForHelper(st: State, self: Id, next: Option<Id>, reason: string): (r: (State, ActionResult))
    ensures r.1.kind == SuspendFor && r.1.target == next
    ensures Get(r.0, self).pending == EmptySlot()
    ensures Get(r.0, self) == Get(st, self).(pending := EmptySlot())
    ensures r.0.trace == st.trace && forall x: Id :: x != self ==> Get(r.0, x) == Get(st, x)
  {
    (SetPending(st, self, EmptySlot()), ActionResult(SuspendFor, next, reason))
  }

  /**
   * The state after a callback of `self` returned `r`.  Callbacks build their
   * results with the node's own helpers, so a SuspendFor result has cleared
   * `self`'s pending slot; every other result leaves the state alone.
   */
  function Emit(st: State, self: Id, r: Option<ActionResult>): (out: State)
    ensures out.trace == st.trace
    ensures Get(out, self) == Get(st, self).(pending := Get(out, self).pending)
    ensures forall x: Id :: x != self ==> Get(out, x) == Get(st, x)
    ensures r.None? || r.value.kind != SuspendFor ==> out == st
  {
    match r
    case Some(res) => if res.kind == SuspendFor then SuspendForHelper(st, self, res.target, res.reason).0 else st
    case None => st
  }

  // ------------------------------------------------------ chains of links

  /**
   * The suspension stack from `id` downwards: `id`, its BuriedUnderMe, that
   * one's BuriedUnderMe, ... to the bottom.  `None` when `fuel` links do not
   * reach the bottom.
   */
  function Below(st: State, id: Id, fuel: nat): (r: Option<seq<Id>>)
    decreases fuel
    ensures r.Some? ==> IsBuriedChain(st, id, r.value)
  {
    match Get(st, id).buried
    case None => Some([id])
    case Some(b) =>
      if fuel == 0 then None
      else
        match Below(st, b, fuel - 1)
        case None => None
        case Some(rest) => Some([id] + rest)
  }

  /** `c` starts at `id`, follows BuriedUnderMe link by link, and ends at a node that buries nothing. */
  ghost predicate IsBuriedChain(st: State, id: Id, c: seq<Id>) {
    && |c| >= 1 && c[0] == id
    && (forall k :: 0 <= k < |c| - 1 ==> Get(st, c[k]).buried == Some(c[k + 1]))
    && Get(st, c[|c| - 1]).buried.None?
  }

  /** The covering chain from `id` upwards, to the node nothing covers. */
  function Above(st: State, id: Id, fuel: nat): (r: Option<seq<Id>>)
    decreases fuel
    ensures r.Some? ==> IsCoveringChain(st, id, r.value)
  {
    match Get(st, id).covering
    case None => Some([id])
    case Some(c) =>
      if fuel == 0 then None
      else
        match Above(st, c, fuel - 1)
        case None => None
        case Some(rest) => Some([id] + rest)
  }

  ghost predicate IsCoveringChain(st: State, id: Id, c: seq<Id>) {
    && |c| >= 1 && c[0] == id
    && (forall k :: 0 <= k < |c| - 1 ==> Get(st, c[k]).covering == Some(c[k + 1]))
    && Get(st, c[|c| - 1]).covering.None?
  }

  /** Any chain satisfying the link predicate is the one `Below` builds: the walk is deterministic. */
  lemma {:induction false} BuriedChainIsBelow(st: State, id: Id, c: seq<Id>)
    requires IsBuriedChain(st, id, c)
    ensures Below(st, id, |c| - 1) == Some(c)
    decreases |c|
  {
    if |c| > 1 {
      assert Get(st, c[0]).buried == Some(c[1]);
      assert IsBuriedChain(st, c[1], c[1..]);
      BuriedChainIsBelow(st, c[1], c[1..]);
      assert c == [id] + c[1..];
    } else {
      assert c == [id];
    }
  }

  // ------------------------------------------------------ top of the stack

  /** The loop in the SuspendFor branch of ApplyResult: follow CoveringMe to the top. */
  function FindTop(st: State, id: Id, fuel: nat): (r: Option<Id>)
    decreases fuel
    ensures r.Some? ==> Get(st, r.value).covering.None?
  {
    match Get(st, id).covering
    case None => Some(id)
    case Some(c) => if fuel == 0 then None else FindTop(st, c, fuel - 1)
  }

  /** The top `FindTop` reaches is the last node of the covering chain. */
  lemma {:induction false} FindTopIsEndOfCoveringChain(st: State, id: Id, fuel: nat)
    requires Above(st, id, fuel).Some?
    ensures FindTop(st, id, fuel) == Some(Last(Above(st, id, fuel).value))
    decreases fuel
  {
    match Get(st, id).covering
    case None =>
    case Some(c) =>
      FindTopIsEndOfCoveringChain(st, c, fuel - 1);
  }

  function Last<T>(s: seq<T>): T
    requires |s| > 0
  {
    s[|s| - 1]
  }

  // ------------------------------------------------------------ out of scope

  /** A pending ChangeTo or Done (but never SuspendFor or Sustain) puts the actions above out of scope. */
  predicate PendingEndsOrReplaces(n: Node) {
    n.pending.kind == ChangeTo || n.pending.kind == Done
  }

  /** `IsOutOfScope`: the loop over BuriedUnderMe, starting strictly below `self`. */
  function IsOutOfScope(st: State, self: Id, fuel: nat): (r: Option<bool>)
    ensures Get(st, self).buried.None? ==> r == Some(false)
    ensures Below(st, self, fuel).Some? ==> r.Some?
  {
    match Get(st, self).buried
    case None => Some(false)
    case Some(b) => if fuel == 0 then None else ScopeWalk(st, b, fuel - 1)
  }

  /** The walk from `under` down the BuriedUnderMe chain; it answers whenever the chain ends within `fuel` links. */
  function ScopeWalk(st: State, under: Id, fuel: nat): (r: Option<bool>)
    decreases fuel
    ensures Below(st, under, fuel).Some? ==> r.Some?
    ensures PendingEndsOrReplaces(Get(st, under)) ==> r == Some(true)
  {
    if PendingEndsOrReplaces(Get(st, under)) then Some(true)
    else
      match Get(st, under).buried
      case None => Some(false)
      case Some(b) => if fuel == 0 then None else ScopeWalk(st, b, fuel - 1)
  }

  /** `IsOutOfScope` holds iff some action strictly below `self` has a pending ChangeTo or Done. */
  lemma {:induction false} OutOfScopeIffPendingBelow(st: State, self: Id, fuel: nat)
    requires Below(st, self, fuel).Some?
    ensures var c := Below(st, self, fuel).value;
      IsOutOfScope(st, self, fuel)
        == Some(exists k :: 1 <= k < |c| && PendingEndsOrReplaces(Get(st, c[k])))
  {
    var c := Below(st, self, fuel).value;
    match Get(st, self).buried
    case None =>
      assert |c| == 1;
    case Some(b) =>
      ScopeWalkChain(st, b, fuel - 1);
      var rest := Below(st, b, fuel - 1).value;
      assert c == [self] + rest;
      assert (exists k :: 1 <= k < |c| && PendingEndsOrReplaces(Get(st, c[k])))
        == (exists k :: 0 <= k < |rest| && PendingEndsOrReplaces(Get(st, rest[k]))) by {
        if exists k :: 1 <= k < |c| && PendingEndsOrReplaces(Get(st, c[k])) {
          var k :| 1 <= k < |c| && PendingEndsOrReplaces(Get(st, c[k]));
          assert rest[k - 1] == c[k];
        }
        if exists k :: 0 <= k < |rest| && PendingEndsOrReplaces(Get(st, rest[k])) {
          var k :| 0 <= k < |rest| && PendingEndsOrReplaces(Get(st, rest[k]));
          assert c[k + 1] == rest[k];
        }
      }
  }

  lemma {:induction false} ScopeWalkChain(st: State, under: Id, fuel: nat)
    requires Below(st, under, fuel).Some?
    ensures var c := Below(st, under, fuel).value;
      ScopeWalk(st, under, fuel) == Some(exists k :: 0 <= k < |c| && PendingEndsOrReplaces(Get(st, c[k])))
    decreases fuel
  {
    var c := Below(st, under, fuel).value;
    if PendingEndsOrReplaces(Get(st, under)) {
      assert c[0] == under;
    } else {
      match Get(st, under).buried
      case None =>
        assert c == [under];
      case Some(b) =>
        ScopeWalkChain(st, b, fuel - 1);
        var rest := Below(st, b, fuel - 1).value;
        assert c == [under] + rest;
        if exists k :: 0 <= k < |c| && PendingEndsOrReplaces(Get(st, c[k])) {
          var k :| 0 <= k < |c| && PendingEndsOrReplaces(Get(st, c[k]));
          assert k != 0;
          assert rest[k - 1] == c[k];
        }
        if exists k :: 0 <= k < |rest| && PendingEndsOrReplaces(Get(st, rest[k])) {
          var k :| 0 <= k < |rest| && PendingEndsOrReplaces(Get(st, rest[k]));
          assert c[k + 1] == rest[k];
        }
    }
  }

  // ------------------------------------------------------------ link steps

  /**
   * The first half of `InvokeOnStart`, before the contained action and
   * `OnStart`: mark started, inherit the prior action's parent and register
   * with it, bury `buried` under us, and sit on top of the stack.
   */
  function StartLinks(st: State, self: Id, prior: Option<Id>, buried: Option<Id>): (r: State)
    ensures Get(r, self).started
    ensures Get(r, self).buried == buried && Get(r, self).covering.None?
    ensures Get(r, self).parent == (if prior.Some? then Get(st, prior.value).parent else Get(st, self).parent)
    ensures var p := Get(r, self).parent; p.Some? && p.value != self ==> Get(r, p.value).child == Some(self)
    ensures buried.Some? && buried.value != self ==> Get(r, buried.value).covering == Some(self)
    ensures Get(r, self).suspended == Get(st, self).suspended && Get(r, self).pending == Get(st, self).pending
    ensures r.trace == st.trace
    ensures forall x: Id :: x != self && Some(x) != buried && Some(x) != Get(r, self).parent ==> Get(r, x) == Get(st, x)
    ensures forall x: Id :: x != self ==> Get(r, x) == Get(st, x).(child := Get(r, x).child, covering := Get(r, x).covering)
  {
    var s1 := StartSelf(st, self, prior);
    var s2 := RegisterWithParent(s1, self);
    Bury(s2, self, buried)
  }

  /** Mark `self` started and let it inherit the prior action's parent. */
  function StartSelf(st: State, self: Id, prior: Option<Id>): (r: State)
    ensures Get(r, self) == Get(st, self).(started := true,
      parent := if prior.Some? then Get(st, prior.value).parent else Get(st, self).parent)
    ensures r.trace == st.trace
    ensures forall x: Id :: x != self ==> Get(r, x) == Get(st, x)
  {
    var p := if prior.Some? then Get(st, prior.value).parent else Get(st, self).parent;
    Put(st, self, Get(st, self).(started := true, parent := p))
  }

  /** `Parent.Child = this`, when there is a parent. */
  function RegisterWithParent(st: State, self: Id): (r: State)
    ensures var p := Get(st, self).parent;
      p.Some? ==> Get(r, p.value) == Get(st, p.value).(child := Some(self))
    ensures var p := Get(st, self).parent;
      p.Some? && p.value == self ==> Get(r, self).parent == p
    ensures r.trace == st.trace
    ensures forall x: Id :: Some(x) != Get(st, self).parent ==> Get(r, x) == Get(st, x)
    ensures forall x: Id :: Get(r, x) == Get(st, x).(child := Get(r, x).child)
  {
    match Get(st, self).parent
    case None => st
    case Some(p) => SetChild(st, p, Some(self))
  }

  /** `BuriedUnderMe = buried`, `buried.CoveringMe = this`, `CoveringMe = null`. */
  function Bury(st: State, self: Id, buried: Option<Id>): (r: State)
    ensures Get(r, self) == Get(st, self).(buried := buried, covering := None)
    ensures buried.Some? && buried.value != self ==> Get(r, buried.value) == Get(st, buried.value).(covering := Some(self))
    ensures r.trace == st.trace
    ensures forall x: Id :: x != self && Some(x) != buried ==> Get(r, x) == Get(st, x)
    ensures forall x: Id :: x != self ==> Get(r, x) == Get(st, x).(covering := Get(r, x).covering)
  {
    var s1 := SetBuried(st, self, buried);
    var s2 := match buried { case None => s1 case Some(b) => SetCovering(s1, b, Some(self)) };
    SetCovering(s2, self, None)
  }

  /**
   * The link half of a successful `InvokeOnResume`: no longer suspended,
   * nothing covers us, and we are once again our parent's child.
   */
  function ResumeLinks(st: State, self: Id): (r: State)
    ensures !Get(r, self).suspended && Get(r, self).covering.None?
    ensures Get(r, self).started == Get(st, self).started
    ensures Get(r, self).buried == Get(st, self).buried && Get(r, self).parent == Get(st, self).parent
    ensures var p := Get(st, self).parent; p.Some? && p.value != self ==> Get(r, p.value).child == Some(self)
    ensures r.trace == st.trace
    ensures forall x: Id :: x != self && Some(x) != Get(st, self).parent ==> Get(r, x) == Get(st, x)
    ensures forall x: Id :: x != self ==> Get(r, x) == Get(st, x).(child := Get(r, x).child)
  {
    var s1 := SetSuspended(st, self, false);
    var s2 := SetCovering(s1, self, None);
    match Get(s2, self).parent
    case None => s2
    case Some(p) => SetChild(s2, p, Some(self))
  }

  // ------------------------------------------------- pending event results

  /**
   * `StorePendingEventResult` on one slot.  Returns the new slot and whether
   * the critical-collision error was logged.
   */
  function Store(slot: EventResult, r: EventResult): (out: (EventResult, bool))
    ensures out.0 == slot || out.0 == r
    ensures r.kind == Continue ==> out == (slot, false)
    ensures r.kind != Continue && Rank(r.priority) >= Rank(slot.priority) ==> out.0 == r
    ensures Rank(r.priority) < Rank(slot.priority) ==> out.0 == slot
    ensures Rank(out.0.priority) >= Rank(slot.priority)
    ensures out.1 <==> r.kind != Continue && slot.priority == Critical && r.priority == Critical
  {
    if r.kind == Continue then (slot, false)
    else if Rank(r.priority) >= Rank(slot.priority) then (r, slot.priority == Critical)
    else (slot, false)
  }

  /** Several answers arriving at the same slot, in order. */
  function StoreAll(slot: EventResult, rs: seq<EventResult>): (r: EventResult)
    decreases |rs|
    ensures Rank(r.priority) >= Rank(slot.priority)
  {
    if |rs| == 0 then slot else Store(StoreAll(slot, rs[..|rs| - 1]), rs[|rs| - 1]).0
  }

  /** Index `j` holds a non-Continue answer whose priority no other non-Continue answer exceeds, and no later one reaches. */
  ghost predicate IsArbitrationWinner(rs: seq<EventResult>, j: int) {
    && 0 <= j < |rs| && rs[j].kind != Continue
    && (forall k :: 0 <= k < |rs| && rs[k].kind != Continue ==> Rank(rs[k].priority) <= Rank(rs[j].priority))
    && (forall k :: j < k < |rs| && rs[k].kind != Continue ==> Rank(rs[k].priority) < Rank(rs[j].priority))
  }

  /**
   * Priority arbitration: starting from an empty slot, the stored answer is the
   * highest-priority non-Continue answer, ties going to the latest; if every
   * answer was Continue the slot stays empty.
   */
  lemma {:induction false} ArbitrationKeepsLatestHighest(rs: seq<EventResult>)
    ensures (forall k :: 0 <= k < |rs| ==> rs[k].kind == Continue) ==> StoreAll(EmptySlot(), rs) == EmptySlot()
    ensures (exists k :: 0 <= k < |rs| && rs[k].kind != Continue) ==>
      exists j :: IsArbitrationWinner(rs, j) && StoreAll(EmptySlot(), rs) == rs[j]
    decreases |rs|
  {
    if |rs| == 0 {
      return;
    }
    var n := |rs| - 1;
    var pre := rs[..n];
    var e := rs[n];
    ArbitrationKeepsLatestHighest(pre);
    assert StoreAll(EmptySlot(), rs) == Store(StoreAll(EmptySlot(), pre), e).0;
    if forall k :: 0 <= k < |pre| ==> pre[k].kind == Continue {
      assert StoreAll(EmptySlot(), pre) == EmptySlot();
      assert forall k :: 0 <= k < n ==> rs[k] == pre[k];
      if e.kind != Continue {
        assert IsArbitrationWinner(rs, n);
      } else {
        forall k | 0 <= k < |rs|
          ensures rs[k].kind == Continue
        {
          if k < n {
            assert rs[k] == pre[k];
          }
        }
      }
    } else {
        var j :| IsArbitrationWinner(pre, j) && StoreAll(EmptySlot(), pre) == pre[j];
      assert rs[j] == pre[j];
      if e.kind != Continue && Rank(e.priority) >= Rank(pre[j].priority) {
        NewLastWins(rs, j);
      } else {
        WinnerStays(rs, j);
      }
    }
  }

  /** A last answer at least as high as the previous winner becomes the winner. */
  lemma NewLastWins(rs: seq<EventResult>, j: int)
    requires |rs| > 0 && IsArbitrationWinner(rs[..|rs| - 1], j)
    requires rs[|rs| - 1].kind != Continue && Rank(rs[|rs| - 1].priority) >= Rank(rs[j].priority)
    ensures IsArbitrationWinner(rs, |rs| - 1)
  {
    var n := |rs| - 1;
    forall k | 0 <= k < |rs| && rs[k].kind != Continue
      ensures Rank(rs[k].priority) <= Rank(rs[n].priority)
    {
      if k < n {
        assert rs[k] == rs[..n][k];
      }
    }
  }

  /** A last answer that is Continue or lower than the winner leaves the winner in place. */
  lemma WinnerStays(rs: seq<EventResult>, j: int)
    requires |rs| > 0 && IsArbitrationWinner(rs[..|rs| - 1], j)
    requires rs[|rs| - 1].kind == Continue || Rank(rs[|rs| - 1].priority) < Rank(rs[j].priority)
    ensures IsArbitrationWinner(rs, j)
  {
    var n := |rs| - 1;
    assert rs[j] == rs[..n][j];
    forall k | 0 <= k < |rs| && rs[k].kind != Continue
      ensures Rank(rs[k].priority) <= Rank(rs[j].priority)
    {
      if k < n {
        assert rs[k] == rs[..n][k];
      }
    }
    forall k | j < k < |rs| && rs[k].kind != Continue
      ensures Rank(rs[k].priority) < Rank(rs[j].priority)
    {
      if k < n {
        assert rs[k] == rs[..n][k];
      }
    }
  }

  /**
   * A Sustain holds its slot against lower-priority answers, yet is never
   * handed to the transition engine.
   */
  lemma SustainBlocksButNeverTransitions(slot: EventResult, r: EventResult)
    requires slot.kind == Sustain && Rank(r.priority) < Rank(slot.priority)
    ensures Store(slot, r).0 == slot
    ensures !RequestsChange(slot.kind) && slot.kind != SuspendFor
  {
  }

  /**
   * `ProcessPendingEvents`: a change requested in our own slot wins and the
   * slot is cleared; otherwise the first buried action whose slot holds a
   * SuspendFor is honoured in place; otherwise Continue.  `None` when fuel
   * runs out.
   */
  function ProcessPendingEvents(st: State, self: Id, fuel: nat): (r: Option<(State, ActionResult)>)
    ensures r.Some? ==> r.value.0.trace == st.trace
    ensures r.Some? ==> r.value.1.kind == Continue || RequestsChange(r.value.1.kind)
    ensures r.Some? ==> forall x: Id :: Get(r.value.0, x) == Get(st, x).(pending := Get(r.value.0, x).pending)
  {
    var n := Get(st, self);
    if RequestsChange(n.pending.kind) then
      Some((SetPending(st, self, EmptySlot()), ToActionResult(n.pending)))
    else
      match n.buried
      case None => Some((st, ContinueResult()))
      case Some(b) => if fuel == 0 then None else SuspendScan(st, b, fuel - 1)
  }

  function SuspendScan(st: State, under: Id, fuel: nat): (r: Option<(State, ActionResult)>)
    decreases fuel
    ensures r.Some? ==> r.value.0.trace == st.trace
    ensures r.Some? ==> r.value.1.kind == Continue || r.value.1.kind == SuspendFor
    ensures r.Some? ==> forall x: Id :: Get(r.value.0, x) == Get(st, x).(pending := Get(r.value.0, x).pending)
  {
    var n := Get(st, under);
    if n.pending.kind == SuspendFor then
      Some((SetPending(st, under, EmptySlot()), ToActionResult(n.pending)))
    else
      match n.buried
      case None => Some((st, ContinueResult()))
      case Some(b) => if fuel == 0 then None else SuspendScan(st, b, fuel - 1)
  }

  /** Index of the first action of `c` at or after `from` whose slot holds a SuspendFor, or `|c|`. */
  ghost function FirstSuspendFor(st: State, c: seq<Id>, from: nat): (j: nat)
    requires from <= |c|
    ensures from <= j <= |c|
    ensures j < |c| ==> Get(st, c[j]).pending.kind == SuspendFor
    ensures forall k :: from <= k < j ==> Get(st, c[k]).pending.kind != SuspendFor
    decreases |c| - from
  {
    if from == |c| then from
    else if Get(st, c[from]).pending.kind == SuspendFor then from
    else FirstSuspendFor(st, c, from + 1)
  }

  /**
   * What `ProcessPendingEvents` does, stated over the suspension stack `c`
   * below `self`: our own change request first (slot reset), else the first
   * buried SuspendFor (that slot reset; buried ChangeTo/Done are ignored), else
   * Continue with nothing changed.
   */
  lemma {:induction false} ProcessPendingEventsOverStack(st: State, self: Id, fuel: nat)
    requires Below(st, self, fuel).Some?
    ensures var c := Below(st, self, fuel).value;
      var own := Get(st, self).pending;
      var j := FirstSuspendFor(st, c, 1);
      ProcessPendingEvents(st, self, fuel) ==
        if RequestsChange(own.kind) then Some((SetPending(st, self, EmptySlot()), ToActionResult(own)))
        else if j < |c| then Some((SetPending(st, c[j], EmptySlot()), ToActionResult(Get(st, c[j]).pending)))
        else Some((st, ContinueResult()))
  {
    var c := Below(st, self, fuel).value;
    if !RequestsChange(Get(st, self).pending.kind) {
      match Get(st, self).buried
      case None =>
        assert |c| == 1;
      case Some(b) =>
        var rest := Below(st, b, fuel - 1).value;
        assert c == [self] + rest;
        SuspendScanOverStack(st, b, fuel - 1);
        FirstSuspendForShift(st, c, rest, 0);
    }
  }

  lemma {:induction false} SuspendScanOverStack(st: State, under: Id, fuel: nat)
    requires Below(st, under, fuel).Some?
    ensures var c := Below(st, under, fuel).value;
      var j := FirstSuspendFor(st, c, 0);
      SuspendScan(st, under, fuel) ==
        if j < |c| then Some((SetPending(st, c[j], EmptySlot()), ToActionResult(Get(st, c[j]).pending)))
        else Some((st, ContinueResult()))
    decreases fuel
  {
    var c := Below(st, under, fuel).value;
    if Get(st, under).pending.kind != SuspendFor {
      match Get(st, under).buried
      case None =>
        assert c == [under];
        assert FirstSuspendFor(st, c, 1) == 1;
      case Some(b) =>
        var rest := Below(st, b, fuel - 1).value;
        assert c == [under] + rest;
        SuspendScanOverStack(st, b, fuel - 1);
        FirstSuspendForShift(st, c, rest, 0);
    }
  }

  /** Dropping the head of the chain shifts the search by one. */
  lemma {:induction false} FirstSuspendForShift(st: State, c: seq<Id>, rest: seq<Id>, from: nat)
    requires |c| == |rest| + 1 && rest == c[1..] && from <= |rest|
    ensures FirstSuspendFor(st, c, from + 1) == FirstSuspendFor(st, rest, from) + 1
    ensures from == 0 && Get(st, c[0]).pending.kind != SuspendFor ==> FirstSuspendFor(st, c, 0) == FirstSuspendFor(st, c, 1)
    decreases |rest| - from
  {
    if from < |rest| {
      assert c[from + 1] == rest[from];
      if Get(st, rest[from]).pending.kind != SuspendFor {
        FirstSuspendForShift(st, c, rest, from + 1);
      }
    }
  }

  // ------------------------------------------------------------------ events

  /** `InvokeEventDelegate`: the subscribed handler for the exact type, or `TryContinue()`. */
  function InvokeEventDelegate(cb: Callbacks, st: State, a: Id, ev: Event): (r: (State, Option<EventResult>))
    ensures r.0 == Fire(st, EventCall(a, ev))
    ensures ev.kind !in Get(st, a).events ==> r.1 == Some(TryContinue(Try))
  {
    var s1 := Fire(st, EventCall(a, ev));
    match Subscriptions.Lookup(Get(st, a).events, ev.kind)
    case Some(h) => (s1, cb.handle(a, h, ev, s1.trace))
    case None => (s1, Some(TryContinue(Try)))
  }

  /** A non-null answer other than Continue stops the walk. */
  predicate Stops(r: Option<EventResult>) {
    r.Some? && r.value.kind != Continue
  }

  /**
   * The `while` loop of `OnEvent`: consult `a`, then the actions buried under
   * it, until one answers with something other than Continue.  Returns the
   * state (with the consultations recorded) and the responder with its answer.
   */
  function EventWalk(cb: Callbacks, st: State, a: Id, ev: Event, fuel: nat): (r: Option<(State, Option<(Id, EventResult)>)>)
    decreases fuel
    ensures r.Some? ==> r.value.0.nodes == st.nodes && st.trace < r.value.0.trace
  {
    var (s1, r) := InvokeEventDelegate(cb, st, a, ev);
    if Stops(r) then Some((s1, Some((a, r.value))))
    else
      match Get(s1, a).buried
      case None => Some((s1, None))
      case Some(b) => if fuel == 0 then None else EventWalk(cb, s1, b, ev, fuel - 1)
  }

  /**
   * `NextBotAction.OnEvent`: nothing for an action that is not started;
   * otherwise the winning answer is stored in the slot of the action this was
   * called on, not in the responder's.
   */
  function OnEvent(cb: Callbacks, st: State, self: Id, ev: Event, fuel: nat): (r: Option<State>)
    ensures !Get(st, self).started ==> r == Some(st)
    ensures r.Some? ==> st.trace <= r.value.trace
    ensures r.Some? ==> forall x: Id :: x != self ==> Get(r.value, x) == Get(st, x)
    ensures r.Some? ==> Rank(Get(r.value, self).pending.priority) >= Rank(Get(st, self).pending.priority)
  {
    if !Get(st, self).started then Some(st)
    else
      match EventWalk(cb, st, self, ev, fuel)
      case None => None
      case Some((s1, None)) => Some(s1)
      case Some((s1, Some((_, answer)))) =>
        var n := Get(s1, self);
        Some(Put(s1, self, n.(pending := Store(n.pending, answer).0)))
  }

  /** The trace a walk leaves after consulting the actions `c[..k]`. */
  function EventCalls(c: seq<Id>, ev: Event): (r: seq<Call>)
    ensures |r| == |c|
    ensures forall k :: 0 <= k < |c| ==> r[k] == EventCall(c[k], ev)
  {
    seq(|c|, k requires 0 <= k < |c| => EventCall(c[k], ev))
  }

  /** The answer the `k`-th action of the stack gives when it is consulted. */
  function AnswerAt(cb: Callbacks, st: State, c: seq<Id>, k: nat, ev: Event): Option<EventResult>
    requires k < |c|
  {
    InvokeEventDelegate(cb, st.(trace := st.trace + EventCalls(c[..k], ev)), c[k], ev).1
  }

  /** Index of the first action of `c` (from `from`) whose answer stops the walk, or `|c|`. */
  ghost function FirstResponder(cb: Callbacks, st: State, c: seq<Id>, ev: Event, from: nat): (j: nat)
    requires from <= |c|
    ensures from <= j <= |c|
    ensures j < |c| ==> Stops(AnswerAt(cb, st, c, j, ev))
    ensures forall k :: from <= k < j ==> !Stops(AnswerAt(cb, st, c, k, ev))
    decreases |c| - from
  {
    if from == |c| then from
    else if Stops(AnswerAt(cb, st, c, from, ev)) then from
    else FirstResponder(cb, st, c, ev, from + 1)
  }

  /**
   * The event walk consults the stack from `a` downwards in order, stops at
   * the first action whose answer is non-null and not Continue, and consults
   * nothing deeper; it changes no node.
   */
  lemma {:induction false} EventWalkOverStack(cb: Callbacks, st: State, a: Id, ev: Event, fuel: nat)
    requires Below(st, a, fuel).Some?
    ensures var c := Below(st, a, fuel).value;
      var j := FirstResponder(cb, st, c, ev, 0);
      EventWalk(cb, st, a, ev, fuel) == WalkOutcome(cb, st, c, j, ev)
    decreases fuel
  {
    var c := Below(st, a, fuel).value;
    var s1 := Fire(st, EventCall(a, ev));
    assert c[..0] == [];
    assert EventCalls(c[..0], ev) == [];
    assert st.(trace := st.trace + []) == st;
    assert AnswerAt(cb, st, c, 0, ev) == InvokeEventDelegate(cb, st, a, ev).1;
    if Stops(InvokeEventDelegate(cb, st, a, ev).1) {
      assert EventCalls(c[..1], ev) == [EventCall(a, ev)];
    } else {
      match Get(s1, a).buried
      case None =>
        assert c == [a];
        assert EventCalls(c, ev) == [EventCall(a, ev)];
        assert FirstResponder(cb, st, c, ev, 1) == 1;
      case Some(b) =>
        BelowIgnoresTrace(st, s1, b, fuel - 1);
        var rest := Below(s1, b, fuel - 1).value;
        assert c == [a] + rest;
        EventWalkOverStack(cb, s1, b, ev, fuel - 1);
        FirstResponderShift(cb, st, s1, c, rest, ev, 0);
        WalkOutcomeShift(cb, st, s1, c, rest, FirstResponder(cb, s1, rest, ev, 0), ev);
    }
  }

  /** The result of a walk over `c` whose first responder is at index `j` (`|c|` for none). */
  function WalkOutcome(cb: Callbacks, st: State, c: seq<Id>, j: nat, ev: Event): Option<(State, Option<(Id, EventResult)>)>
    requires j <= |c|
  {
    if j < |c| && Stops(AnswerAt(cb, st, c, j, ev)) then
      Some((st.(trace := st.trace + EventCalls(c[..j + 1], ev)), Some((c[j], AnswerAt(cb, st, c, j, ev).value))))
    else Some((st.(trace := st.trace + EventCalls(c, ev)), None))
  }

  /** The outcome over `rest` after consulting `c[0]` is the outcome over `c`. */
  lemma WalkOutcomeShift(cb: Callbacks, st: State, s1: State, c: seq<Id>, rest: seq<Id>, j: nat, ev: Event)
    requires |c| == |rest| + 1 && rest == c[1..] && j <= |rest|
    requires s1 == Fire(st, EventCall(c[0], ev))
    requires j < |rest| ==> AnswerAt(cb, s1, rest, j, ev) == AnswerAt(cb, st, c, j + 1, ev)
    ensures WalkOutcome(cb, s1, rest, j, ev) == WalkOutcome(cb, st, c, j + 1, ev)
  {
    if j < |rest| {
      TraceAfterConsulting(st, s1, c, rest, j + 1, ev);
      assert c[j + 1] == rest[j];
      if Stops(AnswerAt(cb, s1, rest, j, ev)) {
        assert WalkOutcome(cb, st, c, j + 1, ev)
          == Some((st.(trace := st.trace + EventCalls(c[..j + 2], ev)), Some((c[j + 1], AnswerAt(cb, st, c, j + 1, ev).value))));
      } else {
        TraceAfterConsulting(st, s1, c, rest, |rest|, ev);
        assert c[..|c|] == c && rest[..|rest|] == rest;
      }
    } else {
      TraceAfterConsulting(st, s1, c, rest, |rest|, ev);
      assert c[..|c|] == c && rest[..|rest|] == rest;
    }
  }

  /** Recording `c[0]` and then `rest[..k]` records `c[..k + 1]`. */
  lemma TraceAfterConsulting(st: State, s1: State, c: seq<Id>, rest: seq<Id>, k: nat, ev: Event)
    requires |c| == |rest| + 1 && rest == c[1..] && k <= |rest|
    requires s1 == Fire(st, EventCall(c[0], ev))
    ensures s1.(trace := s1.trace + EventCalls(rest[..k], ev)) == st.(trace := st.trace + EventCalls(c[..k + 1], ev))
  {
    assert EventCalls(c[..k + 1], ev) == [EventCall(c[0], ev)] + EventCalls(rest[..k], ev);
  }

  /** Chains depend only on the nodes, not on the history. */
  lemma {:induction false} BelowIgnoresTrace(st: State, st': State, id: Id, fuel: nat)
    requires st'.nodes == st.nodes
    ensures Below(st', id, fuel) == Below(st, id, fuel)
    decreases fuel
  {
    assert Get(st', id) == Get(st, id);
    match Get(st, id).buried
    case None =>
    case Some(b) =>
      if fuel > 0 {
        BelowIgnoresTrace(st, st', b, fuel - 1);
      }
  }

  /** Chains depend only on the BuriedUnderMe links, not on any other field. */
  lemma {:induction false} BelowFollowsBuried(st: State, st': State, id: Id, fuel: nat)
    requires forall x: Id :: Get(st', x).buried == Get(st, x).buried
    ensures Below(st', id, fuel) == Below(st, id, fuel)
    decreases fuel
  {
    match Get(st, id).buried
    case None =>
    case Some(b) =>
      if fuel > 0 {
        BelowFollowsBuried(st, st', b, fuel - 1);
      }
  }

  /** Consulting the head of the chain first shifts the answers of the rest by one. */
  lemma {:induction false} FirstResponderShift(cb: Callbacks, st: State, s1: State, c: seq<Id>, rest: seq<Id>, ev: Event, from: nat)
    requires |c| == |rest| + 1 && rest == c[1..] && from <= |rest|
    requires s1 == Fire(st, EventCall(c[0], ev))
    requires !Stops(AnswerAt(cb, st, c, 0, ev))
    ensures FirstResponder(cb, st, c, ev, from + 1) == FirstResponder(cb, s1, rest, ev, from) + 1
    ensures from == 0 ==> FirstResponder(cb, st, c, ev, 0) == FirstResponder(cb, st, c, ev, 1)
    ensures forall k :: 0 <= k < |rest| ==> AnswerAt(cb, s1, rest, k, ev) == AnswerAt(cb, st, c, k + 1, ev)
    decreases |rest| - from
  {
    forall k | 0 <= k < |rest|
      ensures AnswerAt(cb, s1, rest, k, ev) == AnswerAt(cb, st, c, k + 1, ev)
    {
      assert EventCalls(c[..k + 1], ev) == [EventCall(c[0], ev)] + EventCalls(rest[..k], ev);
      assert s1.trace + EventCalls(rest[..k], ev) == st.trace + EventCalls(c[..k + 1], ev);
    }
    if from < |rest| {
      if !Stops(AnswerAt(cb, s1, rest, from, ev)) {
        FirstResponderShift(cb, st, s1, c, rest, ev, from + 1);
      }
    }
  }

  /**
   * What `OnEvent` does, over the stack `c` below the receiver: the answer of
   * the first responder is arbitrated into the receiver's own slot; with no
   * responder no slot changes.
   */
  lemma OnEventStoresOnReceiver(cb: Callbacks, st: State, self: Id, ev: Event, fuel: nat)
    requires Get(st, self).started && Below(st, self, fuel).Some?
    ensures var c := Below(st, self, fuel).value;
      var j := FirstResponder(cb, st, c, ev, 0);
      var slot := Get(st, self).pending;
      OnEvent(cb, st, self, ev, fuel) ==
        if j < |c| then
          Some(Put(st, self, Get(st, self).(pending := Store(slot, AnswerAt(cb, st, c, j, ev).value).0))
                 .(trace := st.trace + EventCalls(c[..j + 1], ev)))
        else Some(st.(trace := st.trace + EventCalls(c, ev)))
  {
    EventWalkOverStack(cb, st, self, ev, fuel);
  }

  /** The built-in virtual callbacks of the base class (Action.Callbacks.cs) all answer `TryContinue()`. */
  function DefaultCallbackAnswer(t: EventType): (r: EventResult)
    requires t in BuiltInEvents
    ensures r.kind == Continue && r.priority == Try && !RequestsChange(r.kind)
  {
    TryContinue(Try)
  }

  /** An action that overrides none of the ten built-in callbacks. */
  ghost predicate OverridesNone(cb: Callbacks, id: Id) {
    forall t, ev, h :: t in BuiltInEvents ==> cb.handle(id, Virtual(t), ev, h) == Some(DefaultCallbackAnswer(t))
  }

  /**
   * With constructor-wired subscriptions only and no override, no action on the
   * stack ever stops the walk, so nothing is stored.
   */
  lemma {:induction false} DefaultsNeverStopTheWalk(cb: Callbacks, st: State, self: Id, ev: Event, fuel: nat)
    requires Below(st, self, fuel).Some?
    requires forall k :: 0 <= k < |Below(st, self, fuel).value| ==>
      var x := Below(st, self, fuel).value[k]; OverridesNone(cb, x) && Get(st, x).events == DefaultEventSubscriptions()
    ensures var c := Below(st, self, fuel).value;
      OnEvent(cb, st, self, ev, fuel) == Some(if Get(st, self).started then st.(trace := st.trace + EventCalls(c, ev)) else st)
  {
    var c := Below(st, self, fuel).value;
    if Get(st, self).started {
      OnEventStoresOnReceiver(cb, st, self, ev, fuel);
      var j := FirstResponder(cb, st, c, ev, 0);
      if j < |c| {
        assert false;
      }
    }
  }

  // ----------------------------------------------------------------- queries

  /** `InvokeQueryDelegate`: the handler for the exact query type, or the default answer. */
  function InvokeQueryDelegate<R>(st: State, a: Id, q: Query, answer: (Id, nat, Query) -> R, dflt: R): (r: R)
    ensures q.kind !in Get(st, a).queries ==> r == dflt
    ensures q.kind in Get(st, a).queries ==> r == answer(a, Get(st, a).queries[q.kind], q)
  {
    match Subscriptions.Lookup(Get(st, a).queries, q.kind)
    case Some(h) => answer(a, h, q)
    case None => dflt
  }

  /** `SubscribeToContextualQuery`: one handler per query type, the later one wins. */
  function SubscribeToContextualQuery(n: Node, queryType: nat, handler: nat): (r: Node)
    ensures r.queries.Keys == n.queries.Keys + {queryType} && r.queries[queryType] == handler
    ensures forall t :: t in r.queries && t != queryType ==> r.queries[t] == n.queries[t]
    ensures r == n.(queries := r.queries)
  {
    n.(queries := Subscriptions.Subscribe(n.queries, queryType, handler))
  }

  /** `SubscribeToEvent`: one handler per exact event type, the later one wins. */
  function SubscribeToEvent(n: Node, t: EventType, handler: Handler): (r: Node)
    ensures r.events.Keys == n.events.Keys + {t} && r.events[t] == handler
    ensures forall u :: u in r.events && u != t ==> r.events[u] == n.events[u]
    ensures r == n.(events := r.events)
  {
    n.(events := Subscriptions.Subscribe(n.events, t, handler))
  }

  function QueryWalk<R(==)>(st: State, a: Id, q: Query, answer: (Id, nat, Query) -> R, dflt: R, fuel: nat): Option<R>
    decreases fuel
  {
    var r := InvokeQueryDelegate(st, a, q, answer, dflt);
    if r != dflt then Some(r)
    else
      match Get(st, a).buried
      case None => Some(r)
      case Some(b) => if fuel == 0 then None else QueryWalk(st, b, q, answer, dflt, fuel - 1)
  }

  /** `NextBotAction.OnQuery`: default when not started, else the first non-default answer down the stack. */
  function OnQuery<R(==)>(st: State, self: Id, q: Query, answer: (Id, nat, Query) -> R, dflt: R, fuel: nat): (r: Option<R>)
    ensures !Get(st, self).started ==> r == Some(dflt)
  {
    if !Get(st, self).started then Some(dflt) else QueryWalk(st, self, q, answer, dflt, fuel)
  }

  /** Reference definition: the first element of `answers` that is not `dflt`, else `dflt`. */
  function FirstNonDefault<R(==)>(answers: seq<R>, dflt: R): R {
    if |answers| == 0 then dflt
    else if answers[0] != dflt then answers[0]
    else FirstNonDefault(answers[1..], dflt)
  }

  function StackAnswers<R>(st: State, c: seq<Id>, q: Query, answer: (Id, nat, Query) -> R, dflt: R): (r: seq<R>)
    ensures |r| == |c|
    ensures forall k :: 0 <= k < |c| ==> r[k] == InvokeQueryDelegate(st, c[k], q, answer, dflt)
  {
    seq(|c|, k requires 0 <= k < |c| => InvokeQueryDelegate(st, c[k], q, answer, dflt))
  }

  /** A started action answers with the first non-default answer of its stack, top to bottom. */
  lemma {:induction false} OnQueryIsFirstNonDefault<R>(st: State, self: Id, q: Query, answer: (Id, nat, Query) -> R, dflt: R, fuel: nat)
    requires Get(st, self).started && Below(st, self, fuel).Some?
    ensures OnQuery(st, self, q, answer, dflt, fuel)
      == Some(FirstNonDefault(StackAnswers(st, Below(st, self, fuel).value, q, answer, dflt), dflt))
  {
    QueryWalkIsFirstNonDefault(st, self, q, answer, dflt, fuel);
  }

  lemma {:induction false} QueryWalkIsFirstNonDefault<R>(st: State, a: Id, q: Query, answer: (Id, nat, Query) -> R, dflt: R, fuel: nat)
    requires Below(st, a, fuel).Some?
    ensures QueryWalk(st, a, q, answer, dflt, fuel)
      == Some(FirstNonDefault(StackAnswers(st, Below(st, a, fuel).value, q, answer, dflt), dflt))
    decreases fuel
  {
    var c := Below(st, a, fuel).value;
    var xs := StackAnswers(st, c, q, answer, dflt);
    assert xs[0] == InvokeQueryDelegate(st, a, q, answer, dflt);
    if xs[0] == dflt {
      match Get(st, a).buried
      case None =>
        assert c == [a];
        assert xs[1..] == [];
      case Some(b) =>
        QueryWalkIsFirstNonDefault(st, b, q, answer, dflt, fuel - 1);
        var rest := Below(st, b, fuel - 1).value;
        assert c == [a] + rest;
        assert xs[1..] == StackAnswers(st, rest, q, answer, dflt);
    }
  }
}
