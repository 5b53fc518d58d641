/**
 * The result algebra of an action: the control results a lifecycle callback
 * returns (`ActionResult`) and the event results with a priority that an event
 * handler returns (`EventResult`).  Reason strings are carried but never
 * inspected by the engine.
 */
module Results {
  import opened Wrappers

  /** Identity of an action node in the arena. */
  type Id = nat

  datatype ResultType = Continue | ChangeTo | SuspendFor | Done | Sustain

  /** Event result priority, ordered None < Try < Important < Critical. */
  datatype Priority = NoPriority | Try | Important | Critical

  function Rank(p: Priority): nat {
    match p
    case NoPriority => 0
    case Try => 1
    case Important => 2
    case Critical => 3
  }

  datatype ActionResult = ActionResult(kind: ResultType, target: Option<Id>, reason: string)

  datatype EventResult = EventResult(kind: ResultType, target: Option<Id>, priority: Priority, reason: string)

  /** `IsRequestingChange`: ChangeTo, SuspendFor or Done, never Continue or Sustain. */
  predicate RequestsChange(k: ResultType) {
    k == ChangeTo || k == SuspendFor || k == Done
  }

  // Constructors of the C# base class (the `Continue()`, `ChangeTo(...)`,
  // `Done(...)` helpers; `SuspendFor` also touches the pending slot and lives
  // with the action state).

  function ContinueResult(): ActionResult {
    ActionResult(Continue, None, "")
  }

  function ChangeToResult(next: Option<Id>, reason: string): ActionResult {
    ActionResult(ChangeTo, next, reason)
  }

  function DoneResult(reason: string): ActionResult {
    ActionResult(Done, None, reason)
  }

  function TryContinue(p: Priority): EventResult {
    EventResult(Continue, None, p, "")
  }

  function TryChangeTo(next: Option<Id>, p: Priority, reason: string): EventResult {
    EventResult(ChangeTo, next, p, reason)
  }

  function TrySuspendFor(next: Option<Id>, p: Priority, reason: string): EventResult {
    EventResult(SuspendFor, next, p, reason)
  }

  function TryDone(p: Priority, reason: string): EventResult {
    EventResult(Done, None, p, reason)
  }

  function TryToSustain(p: Priority, reason: string): EventResult {
    EventResult(Sustain, None, p, reason)
  }

  /**
   * The event helpers carry what the plain helpers carry: once arbitrated,
   * `TryContinue`, `TryChangeTo` and `TryDone` are `Continue`, `ChangeTo`
   * and `Done`; of all the helpers only ChangeTo, SuspendFor and Done
   * request a change.
   */
  lemma EventHelpersMatchPlainResults(next: Option<Id>, p: Priority, reason: string)
    ensures ToActionResult(TryContinue(p)) == ContinueResult()
    ensures ToActionResult(TryChangeTo(next, p, reason)) == ChangeToResult(next, reason)
    ensures ToActionResult(TryDone(p, reason)) == DoneResult(reason)
    ensures RequestsChange(TryChangeTo(next, p, reason).kind) && RequestsChange(TrySuspendFor(next, p, reason).kind)
    ensures RequestsChange(TryDone(p, reason).kind)
    ensures !RequestsChange(TryContinue(p).kind) && !RequestsChange(TryToSustain(p, reason).kind)
    ensures TryContinue(p).priority == p && TryToSustain(p, reason).priority == p
  {
  }

  /** The empty pending slot: Continue at priority None. */
  function EmptySlot(): EventResult {
    TryContinue(NoPriority)
  }

  /** The plain result an arbitrated event result turns into (same type, target and reason). */
  function ToActionResult(e: EventResult): (r: ActionResult)
    ensures r.kind == e.kind && r.target == e.target && r.reason == e.reason
  {
    ActionResult(e.kind, e.target, e.reason)
  }
}
