/**
 * The example bot of the repository (Examples/SimpleBot.cs) run through the
 * engine: `SimpleBotIdle` suspends itself for `SimpleBotLook` when it sees a
 * player, `SimpleBotLook` is Done once its target is gone, and Idle resumes.
 * The world is folded into the callbacks: a player is in range on Idle's
 * first `Update`, and the target is gone on Look's first `Update`.
 */
module SimpleBot {
  import opened Wrappers
  import opened Results
  import opened Actions
  import opened Engine
  import opened Transitions
  import opened Behaviour

  const Idle: Id := 0
  const Look: Id := 1

  /** Idle's `Update`: SuspendFor a new Look on its first update (a player is near), Continue afterwards. */
  function IdleUpdate(h: seq<Call>): Option<ActionResult>
    requires |h| > 0
  {
    if UpdateCall(Idle) in h[..|h| - 1] then Some(ContinueResult())
    else Some(SuspendForResult(Look, "I am seeing someone!"))
  }

  /** Both actions keep every other callback of the base class: Continue, and no contained action. */
  function Bot(): Callbacks {
    Callbacks(
      (id, h) => None,
      (id, prior, h) => Some(ContinueResult()),
      (id, h) => if id == Idle && |h| > 0 then IdleUpdate(h) else Some(DoneResult("My target doesn't exist anymore.")),
      (id, interrupting, h) => Some(ContinueResult()),
      (id, interrupting, h) => Some(ContinueResult()),
      (id, handler, ev, h) => Some(TryContinue(Try)))
  }

  /** The whole trace of the three ticks. */
  function Story(): seq<Call> {
    [ OnStartCall(Idle, Some(Idle)), UpdateCall(Idle), OnSuspendCall(Idle, Some(Look)),
      OnStartCall(Look, Some(Idle)), UpdateCall(Look), OnEndCall(Look, Some(Idle)), OnResumeCall(Idle, Some(Look)) ]
  }

  function S0(): State { State(map[], []) }

  function S1(): State { State(map[Idle := Fresh().(started := true)], Story()[..1]) }

  function S2(): State {
    State(map[Idle := Fresh().(started := true, suspended := true, covering := Some(Look)),
              Look := Fresh().(started := true, buried := Some(Idle))],
          Story()[..4])
  }

  function S3(): State {
    State(map[Idle := Fresh().(started := true), Look := Fresh().(buried := Some(Idle))], Story())
  }

  /** Tick 1: Idle is started lazily through a ChangeTo to itself. */
  lemma Tick1()
    ensures Update(Bot(), S0(), NewBehavior(Idle), true, 3) == Ran(S1(), Behavior(true, Some(Idle)))
  {
    var cb := Bot();
    var st := S0();
    assert InvokeUpdate(cb, st, Idle, 3) == Ran(st, Some(ChangeToResult(Some(Idle), "Starting Action")));
    assert InvokeOnEnd(cb, st, Idle, Some(Idle), 2) == Ran(st, ());
    var linked := SetChild(StartLinks(st, Idle, Some(Idle), None), Idle, None);
    assert linked.nodes == S1().nodes;
    assert InvokeOnStart(cb, st, Idle, Some(Idle), None, 2) == Ran(S1(), Some(ContinueResult()));
  }

  /** Tick 2: Idle sees a player and suspends itself for Look, which starts on top of it. */
  lemma Tick2()
    ensures Update(Bot(), S1(), Behavior(true, Some(Idle)), true, 3) == Ran(S2(), Behavior(true, Some(Look)))
  {
    IdleUpdateSuspends();
    SuspendStartsLook();
  }

  /** Idle's first `Update` answers SuspendFor Look. */
  lemma IdleUpdateSuspends()
    ensures InvokeUpdate(Bot(), S1(), Idle, 3)
      == Ran(Fire(S1(), UpdateCall(Idle)), Some(SuspendForResult(Look, "I am seeing someone!")))
  {
    var cb := Bot();
    var st := S1();
    assert ProcessPendingEvents(st, Idle, 3) == Some((st, ContinueResult()));
    var s1 := Fire(st, UpdateCall(Idle));
    assert s1.trace[..|s1.trace| - 1] == [OnStartCall(Idle, Some(Idle))];
    assert IdleUpdate(s1.trace) == Some(SuspendForResult(Look, "I am seeing someone!"));
    assert cb.update(Idle, s1.trace) == Some(SuspendForResult(Look, "I am seeing someone!"));
    var s2 := SetPending(s1, Idle, EmptySlot());
    assert s2 == s1;
  }

  /** The SuspendFor suspends Idle and starts Look on top of it. */
  lemma SuspendStartsLook()
    ensures ApplyResult(Bot(), Fire(S1(), UpdateCall(Idle)), Idle, Some(SuspendForResult(Look, "I am seeing someone!")), 3)
      == Ran(S2(), Some(Look))
  {
    var cb := Bot();
    var s1 := Fire(S1(), UpdateCall(Idle));
    assert FindTop(s1, Idle, 2) == Some(Idle);
    var s3 := Fire(SetSuspended(s1, Idle, true), OnSuspendCall(Idle, Some(Look)));
    assert InvokeOnSuspend(cb, s1, Idle, Some(Look), 2) == Ran(s3, Some(Idle));
    var linked := SetChild(StartLinks(s3, Look, Some(Idle), Some(Idle)), Look, None);
    assert linked.nodes == S2().nodes;
    assert InvokeOnStart(cb, s3, Look, Some(Idle), Some(Idle), 2) == Ran(S2(), Some(ContinueResult()));
  }

  /** Tick 3: Look's target is gone, so Look is Done: it ends and Idle resumes. */
  lemma Tick3()
    ensures Update(Bot(), S2(), Behavior(true, Some(Look)), true, 3) == Ran(S3(), Behavior(true, Some(Idle)))
  {
    LookUpdateIsDone();
    LookDoneResumesIdle();
  }

  /** Look's first `Update` answers Done. */
  lemma LookUpdateIsDone()
    ensures InvokeUpdate(Bot(), S2(), Look, 3)
      == Ran(Fire(S2(), UpdateCall(Look)), Some(DoneResult("My target doesn't exist anymore.")))
  {
    var st := S2();
    assert IsOutOfScope(st, Look, 3) == Some(false);
    assert ProcessPendingEvents(st, Look, 3) == Some((st, ContinueResult()));
  }

  /** Look's Done ends Look and resumes Idle, which answers Continue. */
  lemma LookDoneResumesIdle()
    ensures ApplyResult(Bot(), Fire(S2(), UpdateCall(Look)), Look, Some(DoneResult("My target doesn't exist anymore.")), 3)
      == Ran(S3(), Some(Idle))
  {
    var cb := Bot();
    var s1 := Fire(S2(), UpdateCall(Look));
    var s2 := SetStarted(s1, Look, false);
    assert EndChildren(cb, s2, None, Some(Idle), 1) == Ran(s2, ());
    var s3 := Fire(s2, OnEndCall(Look, Some(Idle)));
    assert InvokeOnEnd(cb, s1, Look, Some(Idle), 2) == Ran(s3, ());
    var s4 := Fire(ResumeLinks(s3, Idle), OnResumeCall(Idle, Some(Look)));
    assert s4.nodes == S3().nodes;
    assert InvokeOnResume(cb, s3, Idle, Some(Look), 2) == Ran(S3(), Some(ContinueResult()));
  }

  /**
   * Idle suspends for Look, Look is Done, Idle resumes: three ticks fire
   * exactly the callbacks of `Story`, in that order, and leave Idle current,
   * active and uncovered, with Look ended.
   */
  lemma IdleLookIdle()
    ensures Ticks(Bot(), S0(), NewBehavior(Idle), true, 3, 3) == Ran(S3(), Behavior(true, Some(Idle)))
    ensures S3().trace == Story()
    ensures IsActive(Get(S3(), Idle)) && Get(S3(), Idle).covering.None? && !Get(S3(), Look).started
  {
    Tick1();
    Tick2();
    Tick3();
  }
}
