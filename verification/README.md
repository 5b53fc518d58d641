# NextBots in Dafny

A model of the core of sbox-NextBots, a Source-engine style "NextBot" AI
framework for s&box. The model covers the following.

- **The action stack engine** (`NextBotAction`). Actions are nodes in an
  arena and the stack links are ids. The model covers:
  - the lifecycle entry points `InvokeOnStart`, `InvokeUpdate`,
    `InvokeOnEnd`, `InvokeOnSuspend` and `InvokeOnResume`;
  - `ApplyResult` for Continue, ChangeTo, SuspendFor, Done and Sustain;
  - the out-of-scope test;
  - pending event results, with their priority arbitration and
    `ProcessPendingEvents`;
  - the event walk down the suspension stack and the query walk.

  User callbacks are functions of the action id and of the history of
  callback calls, so an action may answer differently on each call.
- **`NextBotBehavior`**, and `NextBotIntention.Reset`, which holds one
  behaviour.
- **The controller's responder tree.** It broadcasts an event to every
  responder in pre-order. It answers a query through a pre hook, then the
  tree, then a post hook.
- **The component subscription tables**, for events and for queries.
- **The threat query** `NextBotQuerySelectMoreDangerousThreat`.
- **The smaller components:**
  - the path follower's node bookkeeping;
  - the stuck monitor;
  - look-at arbitration and head steadiness;
  - what the vision component knows about entities (`KnownEntity` and the
    known-entity list);
  - `IntervalTimer`;
  - synthesised player input;
  - the bot registry and its tick;
  - the debug flags.
- **The `SimpleBot` example**, run as a three-tick scenario.

Engine state is passed in as parameters: the clock, entity validity, life
state and positions, what is visible, and whether this is the server.
Floats are reals.

Where the code's behaviour is easy to misread, the model follows the
code:

- **SuspendFor with a null action.** The code first suspends the top of the
  stack. It then dereferences the null action while starting it, so the
  model faults (`Faulted`). The target is not simply dropped.
- **Parent of an action started by SuspendFor.** The action inherits the
  parent of the action it buries, because `InvokeOnStart` copies the prior
  action's `Parent`. It is not parentless.
- **OnSuspend answering Done.** The action is ended, but its `IsSuspended`
  flag stays set.
- **Null OnSuspend result.** `InvokeOnSuspend` dereferences it, so it faults.
- **Signature of the threat hooks.** The pre and post hooks of the threat
  query take the bot as a parameter. The controller calls the base class's
  hooks, which take no parameter. The model wires the hooks the query
  defines, because that is evidently what is meant.

## Model

| member | source | states |
|---|---|---|
| Actions.DefaultEventSubscriptions | Actions/Action.cs:41-54 | the constructor subscribes every built-in event type to its own virtual callback, and nothing else |
| Actions.Fresh | Actions/Action.cs:37-55 | a new action is neither started nor suspended, has no links, has an empty pending slot (Continue at priority None), the default event subscriptions and no query handlers |
| Actions.SuspendForHelper | Actions/Action.cs:111-118 | `SuspendFor` yields a SuspendFor result for the given action and empties the caller's own pending slot, leaving every other action alone |
| Actions.Below | Actions/Action.cs:8-12 | the BuriedUnderMe walk from an action yields a chain in which each element is buried under the previous one |
| Actions.BuriedChainIsBelow | Actions/Action.cs:8-12 | the BuriedUnderMe chain is unique: any chain that follows the links is the one the walk produces |
| Actions.FindTop | Actions/Action.cs:224-228 | the loop that climbs CoveringMe stops at an action that nothing covers |
| Actions.FindTopIsEndOfCoveringChain | Actions/Action.cs:224-228 | the top that SuspendFor suspends is the last action of the covering chain |
| Actions.OutOfScopeIffPendingBelow | Actions/Action.cs:269-278 | an action is out of scope exactly when some action strictly below it on the stack has a ChangeTo or Done pending |
| Actions.IsOutOfScope | Actions/Action.cs:266-277 | an action that buries nothing is not out of scope, and the walk answers whenever the BuriedUnderMe chain ends within the fuel |
| Actions.StartLinks | Actions/Action.Invoke.cs:8-25 | starting marks the action started, takes the prior action's parent, becomes that parent's child, buries the given action (which the new one now covers), and leaves the action uncovered; suspended flag and pending slot are kept |
| Actions.StartSelf | Actions/Action.Invoke.cs:8-13 | start marks the action started and takes the prior action's parent (its own when there is none) and changes no other action |
| Actions.RegisterWithParent | Actions/Action.Invoke.cs:15-16 | the parent's child link now points at the action; only the parent's child link changes |
| Actions.Bury | Actions/Action.Invoke.cs:19-25 | the action buries the given one, which is then covered by it, and the action itself is uncovered; no other action changes |
| Actions.ResumeLinks | Actions/Action.Invoke.cs:134-141 | a resuming action is no longer suspended or covered, is again its parent's child, and keeps its started flag, buried action and parent |
| Actions.Store | Actions/Action.Events.cs:58-74 | a Continue answer never changes the slot; another answer replaces it when its priority is at least the slot's; the slot's priority never drops; the collision error is logged exactly when a non-Continue Critical answer meets a Critical slot |
| Actions.ArbitrationKeepsLatestHighest | Actions/Action.Events.cs:58-74 | over any run of answers into an empty slot, the slot ends up holding the highest-priority non-Continue answer, the latest among equals, or stays empty if all were Continue |
| Actions.NewLastWins | Actions/Action.Events.cs:63-72 | a new answer at least as important as the current winner becomes the winner |
| Actions.WinnerStays | Actions/Action.Events.cs:60-63 | a Continue, or a less important answer, leaves the winner in place |
| Actions.StoreAll | Actions/Action.Events.cs:58-74 | however many answers arrive at a slot, its priority never drops |
| Actions.SustainBlocksButNeverTransitions | Actions/Action.cs:183-186 | a pending Sustain keeps lower-priority answers out of the slot yet never requests a transition |
| Actions.ProcessPendingEvents | Actions/Action.Events.cs:76-108 | the pending-event check returns Continue or a change request and records no callback call |
| Actions.SuspendScan | Actions/Action.Events.cs:90-105 | the scan of the buried actions returns Continue or a SuspendFor, never a ChangeTo or Done |
| Actions.ProcessPendingEventsOverStack | Actions/Action.Events.cs:76-108 | the action's own change request wins and its slot is emptied; otherwise the first buried action holding a SuspendFor has it honoured and that slot emptied, with buried ChangeTo and Done ignored; otherwise Continue and nothing changes |
| Actions.InvokeEventDelegate | Actions/Action.Events.cs:43-54 | consulting an action records one call, and an action with no subscription for the event's exact type answers TryContinue |
| Actions.EventWalk | Actions/Action.Events.cs:18-25 | the event walk consults at least one action and changes no action |
| Actions.OnEvent | Actions/Action.Events.cs:10-32 | an action that is not started ignores the event; otherwise only the receiver's slot may change, and its priority never drops |
| Actions.EventWalkOverStack | Actions/Action.Events.cs:18-25 | the walk consults the stack from the receiver downwards in order, stops at the first answer that is neither null nor Continue, and consults nothing deeper |
| Actions.OnEventStoresOnReceiver | Actions/Action.Events.cs:10-32 | the first responder's answer is arbitrated into the slot of the action the event was sent to, not the responder's; with no responder no slot changes |
| Actions.DefaultCallbackAnswer | Actions/Action.Callbacks.cs:8-48 | every built-in virtual event callback answers Continue at priority Try |
| Actions.DefaultsNeverStopTheWalk | Actions/Action.Callbacks.cs:8-48 | a stack of actions that override no callback consults every action and stores nothing |
| Actions.InvokeQueryDelegate | Actions/Action.Queries.cs:31-40 | an action answers a query with its handler for the exact query type, or with the default when it has none |
| Actions.SubscribeToContextualQuery | Actions/Action.Queries.cs:42-46 | an action keeps one handler per query type, the later one replacing the earlier; nothing else about the action changes |
| Actions.SubscribeToEvent | Actions/Action.Events.cs:37-41 | an action keeps one handler per exact event type, the later one replacing the earlier; other types keep theirs |
| Actions.OnQuery | Actions/Action.Queries.cs:10-13 | an action that is not started answers the default |
| Actions.OnQueryIsFirstNonDefault | Actions/Action.Queries.cs:10-29 | a started action answers with the first non-default answer of its stack, from itself downwards, or the default |
| Results.ToActionResult | Actions/Action.Events.cs:81 | the action result made from a pending event result has the same type, target action and reason |
| Results.EventHelpersMatchPlainResults | Actions/Action.cs:90-187 | once arbitrated, TryContinue, TryChangeTo and TryDone give exactly Continue, ChangeTo and Done with the same target and reason; TryChangeTo, TrySuspendFor and TryDone request a change, TryContinue and TryToSustain do not, and both keep the priority they are given |
| Engine.Invoke | Actions/Action.cs:111-118 | a callback call is recorded and sees the history including itself; under the assumption on callbacks stated under Left out, it changes at most the caller's own pending slot |
| Engine.ApplyResult | Actions/Action.cs:188-264 | a null, Continue or Sustain result, or a ChangeTo to null, keeps the action current with nothing changed; a SuspendFor to null faults; a Done with nothing buried ends the action and leaves no current action; history only grows |
| Engine.InvokeOnStart | Actions/Action.Invoke.cs:5-37 | starting ends with the action's own OnStart call, and, without a contained action, is the link step followed by that one call |
| Engine.InvokeUpdate | Actions/Action.Invoke.cs:39-66 | out of scope gives Done; not started gives a ChangeTo to itself; a pending change of its own, or a SuspendFor waiting below, is returned as it was pending; none of these runs any Update. Otherwise the action's own Update is the last call and its answer is the result, and a child whose update runs has its Update called before that |
| Engine.InvokeOnEnd | Actions/Action.Invoke.cs:68-93 | ending an action that is not started does nothing. Otherwise only started flags change, from true to false; the calls added are OnEnd calls naming the next action, exactly one for each action that ended; whatever covered an ended action ends too; the action itself ends, after every started action of its child chain (all of which end), and its coverer ends, after the action's own OnEnd unless it ended with the children |
| Engine.EndChildren | Actions/Action.Invoke.cs:79-83 | every action of the chain from the contained action through BuriedUnderMe ends; nothing but started flags changes, and each ended action gets exactly one OnEnd naming the next action |
| Engine.EndStep | Actions/Action.Invoke.cs:75-86 | clearing the flag, ending the children and the OnEnd call together only end actions, each once |
| Engine.InvokeOnSuspend | Actions/Action.Invoke.cs:95-117 | suspending keeps every BuriedUnderMe, CoveringMe and Parent link, starts nothing, clears no suspended flag, and leaves the action flagged suspended; the action's OnSuspend is called after its child's; an OnSuspend answering Done ends the action and hands back what it buried, any other answer hands back the action itself with OnSuspend the last call; the child link names the child or what the child buried |
| Engine.FinishSuspend | Actions/Action.Invoke.cs:103-116 | after the child: no OnSuspend answer faults; otherwise the flag is set and OnSuspend is called first; a Done answer ends the action, with an OnEnd naming no next action, and hands back what it buried; any other answer hands back the action and calls nothing more |
| Engine.InvokeOnResume | Actions/Action.Invoke.cs:119-152 | an action that is not suspended, or has a change pending, answers Continue with no effect. Otherwise its own OnResume is the last call and gives the result; without a child, the links are restored and that is the only call; a resumable child (other than the action, which is not its own parent) has its OnResume called earlier |
| Engine.ResumeChildThenSelf | Actions/Action.Invoke.cs:134-151 | with a child: the action's own OnResume is the last call and gives the result, and a resumable child other than the action itself has its OnResume called before it |
| Transitions.ChangeToEndsBeforeStarting | Actions/Action.cs:196-218 | a ChangeTo first adds only OnEnd calls naming the new action: the old action's, one for each started action of its child chain and one for its started coverer. Only then comes the new action's OnStart |
| Transitions.EndingFiresEndCalls | Actions/Action.Invoke.cs:68-93 | ending a started action adds only OnEnd calls naming the next action, among them its own, one for each started action of its child chain and one for its started coverer |
| Transitions.EndStaysInRegion | Actions/Action.Invoke.cs:68-93 | ending an action leaves every action outside a region exactly as it was, when the region holds the action, whatever covers an action of the region, and the child chains of its actions |
| Transitions.ChangeToReplacesOnStack | Actions/Action.cs:196-218 | a ChangeTo from a childless top action fires exactly OnEnd then OnStart; the new action is current, takes over what the old one buried and its parent, and the old one is ended |
| Transitions.SuspendForPushesOnTop | Actions/Action.cs:221-237 | SuspendFor starts the new action on top, burying the old top or, when the top opted out, what the top buried, and the new action takes over the buried action's parent and becomes that parent's child |
| Transitions.SuspendForFromQuietTop | Actions/Action.cs:221-237 | from a childless top that does not opt out: exactly OnSuspend then OnStart fire, the old top is suspended and covered by the new action, which buries it and is current |
| Transitions.SuspendForHandsOverActivity | Actions/Action.cs:35 | after a SuspendFor from a quiet top, the suspended action is no longer active and the new action is |
| Transitions.SuspendOptOutKeepsFlag | Actions/Action.Invoke.cs:97-113 | for an action whose OnSuspend answers Done, with or without a child (which is suspended first): the action's OnSuspend is called, the action ends and hands back what it buried, and its suspended flag stays set |
| Transitions.DoneEndsThenResumes | Actions/Action.cs:240-257 | a Done fires the action's OnEnd before the OnResume of the action it buried |
| Transitions.ResumeAfterEnd | Actions/Action.Invoke.cs:68-93 | ending actions changes no suspended flag or pending slot, so the buried action can still resume |
| Transitions.BlockedResumeStaysSuspended | Actions/Action.Invoke.cs:127-132 | when the buried action has a change pending, Done ends the current action, fires no OnResume, and hands back the buried action still suspended with its change intact |
| Transitions.DoneResumesBuried | Actions/Action.cs:240-257 | a Done from a childless top fires exactly OnEnd then OnResume; the buried action is current, no longer suspended and uncovered |
| Transitions.DoneHandsBackActivity | Actions/Action.cs:35 | after a Done over a quiet suspended action that was started, the ended action is not active and the resumed one is |
| Transitions.ChildStartsBeforeParent | Actions/Action.Invoke.cs:28-36 | a contained action is started, through a ChangeTo to itself, before the container's own OnStart, which is the last call |
| Transitions.ChildUpdatedFirst | Actions/Action.Invoke.cs:58-65 | a childless child that does not request a change has its Update called before its container's; the container's answer is the result and the child stays in place, started |
| Transitions.FinishedChildIsDropped | Actions/Action.Invoke.cs:58-65 | a childless, uncovered child answering Done with nothing buried is updated, then ended with one OnEnd naming no next action, before its container's Update; the container is left without a child |
| Transitions.BuriedSuspendForPreemptsUpdate | Actions/Action.Events.cs:89-105 | a SuspendFor pending on the action buried just below an in-scope action is returned instead of any Update, and only that slot is emptied |
| Transitions.ResumeRestoresLinks | Actions/Action.Invoke.cs:119-152 | resuming an action whose childless child resumes quietly calls the child's OnResume (when it can resume) and then the action's own; the action is no longer suspended or covered, keeps its child and is its parent's child again |
| Behaviour.NewBehavior | Components/Intention/NextBotBehaviour.cs:13-18 | a new behaviour holds its initial action and no bot |
| Behaviour.Update | Components/Intention/NextBotBehaviour.cs:20-30 | without a bot or an action an update does nothing; otherwise the bot is remembered |
| Behaviour.EmptyStaysEmpty | Components/Intention/NextBotBehaviour.cs:18-23 | once the stack has finished, no later update runs anything |
| Behaviour.FirstUpdateStartsRoot | Components/Intention/NextBotBehaviour.cs:20-30 | the first update of a new behaviour starts its root action lazily: one OnStart, with the action as its own prior action, and it stays current |
| Behaviour.BottomDoneEmpties | Components/Intention/NextBotBehaviour.cs:20-30 | a Done at the bottom of the stack ends the action with one OnEnd naming no next action, and the behaviour becomes empty |
| Behaviour.OnEvent | Components/Intention/NextBotBehaviour.cs:32-35 | an event goes to the held action only; an empty behaviour ignores it |
| Behaviour.Stop | Components/Intention/NextBotBehaviour.cs:37-44 | without a bot or an action nothing happens. Otherwise Stop forgets the bot and keeps the action; it only ends actions, with exactly one OnEnd each naming no next action; the held action is no longer started and, if it was, every started action of its child chain ends before it and its coverer ends too |
| Behaviour.StopLeavesBuriedAlone | Components/Intention/NextBotBehaviour.cs:37-44 | Stop changes nothing outside a region that holds the held action, whatever covers an action of the region, and the child chains of its actions; so the held action's BuriedUnderMe chain, when it lies outside that region, is left exactly as it was |
| Behaviour.StopEndsOnlyTheTop | Components/Intention/NextBotBehaviour.cs:37-44 | stopping a childless, uncovered started action fires exactly its OnEnd and changes no other action |
| Behaviour.EmptyBehaviourIsInert | Components/Intention/NextBotBehaviour.cs:18-44 | an empty behaviour ignores updates, events and Stop: state and behaviour stay as they were |
| Behaviour.Reset | Components/Intention/NextBotIntention.cs:26-30 | Reset stops the old behaviour first: it runs exactly when that Stop runs, ends what Stop ends (the held action, its child chain and its coverer, in order) and nothing else, and then holds a new behaviour on the initial action |
| Behaviour.ResetStopsOld | Components/Intention/NextBotIntention.cs:26-30 | resetting a behaviour on a started, childless, uncovered action fires exactly that action's OnEnd, changes no other action and holds a new behaviour on the initial action |
| Consistency.StartKeepsWellFormed | Actions/Action.Invoke.cs:8-25 | starting an unlinked action above another keeps the stack consistent: what an action buries is covered by it, what covers an action buries it, and a contained child names its container as parent |
| Consistency.ResumeKeepsWellFormed | Actions/Action.Invoke.cs:134-141 | restoring the links of a resuming action that no started action covers keeps the stack consistent |
| Consistency.ChangeToKeepsWellFormed | Actions/Action.cs:196-218 | a ChangeTo from a childless, uncovered top to an unlinked, quiet action keeps the stack consistent |
| Consistency.SuspendForKeepsWellFormed | Actions/Action.cs:221-237 | a SuspendFor from a childless, uncovered top that does not opt out, to an unlinked, quiet action, keeps the stack consistent |
| Consistency.DoneKeepsWellFormed | Actions/Action.cs:240-257 | a Done from a childless, uncovered top over a quiet suspended action keeps the stack consistent |
| Components.NewComponent | Components/NextBotComponent.Events.cs:8 | a new component has no event or query subscriptions |
| Components.SubscribeToEvent | Components/NextBotComponent.Events.cs:10-14 | subscribing replaces any earlier callback for that exact event type and touches nothing else |
| Components.OnEvent | Components/NextBotComponent.Events.cs:16-23 | the callback subscribed to the exact event type runs, at most one, and none without a subscription |
| Components.SubscribedCallbackRuns | Components/NextBotComponent.Events.cs:10-23 | after subscribing, that type's events run exactly the new callback and other types are unaffected |
| Components.SubscribeToContextualQuery | Components/NextBotComponent.Queries.cs:10-14 | subscribing replaces any earlier handler for that query type and touches nothing else |
| Components.OnQuery | Components/NextBotComponent.Queries.cs:16-25 | a component answers with its handler for the exact query type, or the default |
| Components.LaterQueryHandlerWins | Components/NextBotComponent.Queries.cs:10-25 | subscribing twice to a query type keeps only the later handler's answers |
| Subscriptions.Subscribe | Components/NextBotComponent.Events.cs:10-14 | writing a handler makes it the one found for its key and moves no other entry |
| Subscriptions.Lookup | Components/NextBotComponent.Events.cs:18-20 | lookup by exact key finds the stored handler, or nothing |
| Subscriptions.LaterSubscriptionWins | Components/NextBotComponent.Events.cs:10-14 | subscribing twice to the same key is the same as subscribing once with the second handler |
| Controller.Deliveries | NextBotController.Events.cs:23-31 | a broadcast delivers to the responder itself first |
| Controller.DeliveriesAreMembers | NextBotController.Events.cs:23-31 | a broadcast delivers to every responder of the tree exactly as often as it occurs in the tree |
| Controller.EveryResponderOnce | NextBotController.Events.cs:10-31 | with distinct responders, each receives the event exactly once, nobody outside the tree receives it, and the controller receives it first |
| Controller.ParentBeforeContained | NextBotController.Events.cs:23-31 | a responder receives the event before everything it contains, and each contained subtree receives it as one contiguous block |
| Controller.TreeAnswerIsFirstInPreOrder | NextBotController.Queries.cs:24-38 | the tree answers with the first non-default answer in delivery order |
| Controller.InvokeQuery | NextBotController.Queries.cs:7-22 | a non-default pre-hook answer wins without consulting the tree; then the tree's answer; the post hook only when both are default; the result is default exactly when nobody answered |
| Controller.UndefinedIffNobodyAnswers | NextBotController.Queries.cs:7-38 | a yes/no query is Undefined exactly when the pre hook, every responder and the post hook all say Undefined |
| Threats.PreInvocation | Util/Queries.cs:16-31 | the pre hook decides exactly when one of the two threats is live, and then picks that one |
| Threats.PreInvocationCases | Util/Queries.cs:16-31 | no live threat or two live threats defer; otherwise the live one wins |
| Threats.PostInvocationAsWritten | Util/Queries.cs:33-47 | the post hook answers null for an invalid bot, faults when either threat is null, and otherwise picks one of the two threats |
| Threats.PostPicksNearer | Util/Queries.cs:39-46 | the post hook picks a threat no farther than the other, the second on a tie, so order matters only on a tie |
| Threats.SelectAsWritten | NextBotController.Queries.cs:7-22 | the threat query faults only when the pre hook defers and no responder answers |
| Threats.SelectIsInvokeQuery | NextBotController.Queries.cs:7-22 | when the post hook does not fault, the threat query is the controller's InvokeQuery over the responder tree |
| Threats.NoLiveThreatFaults | Util/Queries.cs:33-47 | with no live threat and no responder answering, a null threat makes the query fault, and two obsolete threats make it return an obsolete one |
| Threats.TwoNullThreatsFault | Util/Queries.cs:40-41 | two null threats, a valid bot and no responder answering: the query faults |
| Threats.PostInvocation | Util/Queries.cs:33-47 | the corrected post hook picks a threat only between two live threats, and that one is no farther than either |
| Threats.SelectMoreDangerousThreat | Util/Queries.cs:16-47 | the corrected threat query never faults; unless a responder decides, it names a live threat exactly when one exists, and the only live one when there is one |
| Threats.CorrectionAgreesOtherwise | Util/Queries.cs:16-47 | the correction changes nothing when at least one threat is live |
| Knowledge.UpdatePosition | KnownEntity.cs:31-38 | only a valid entity refreshes the remembered position and the time it was last known |
| Knowledge.NewKnown | KnownEntity.cs:18-29 | a new record has never been seen, is not visible, is known since now, and has its position refreshed only for a valid entity |
| Knowledge.UpdateVisibilityStatus | KnownEntity.cs:40-54 | seeing stamps the last-seen time, and the became-visible time only on a change from invisible; losing sight only clears the flag |
| Knowledge.Equals | KnownEntity.cs:97-103 | two records are equal exactly when they are about the same non-null entity |
| Knowledge.EqualsSymmetricNotReflexive | KnownEntity.cs:97-103 | equality is symmetric, and a record about null is not equal to itself |
| Knowledge.LostSightStaysRecentForThreeSeconds | KnownEntity.cs:86-95 | a record seen and then lost counts as visible recently for under 3 seconds after it was last seen, and not afterwards |
| Knowledge.NewRecordObsoleteAfterTenSeconds | KnownEntity.cs:81-84 | a new record about a valid, living entity becomes obsolete only after more than 10 seconds without news; a record about null is obsolete at once |
| Knowledge.SightingMakesEverVisible | KnownEntity.cs:56-59 | a sighting at a positive time makes a record ever-visible and visible recently; losing sight never changes whether it was ever seen, and leaves it visible recently exactly while it was seen less than 3 seconds ago |
| Vision.IndexOf | Components/Vision/NextBotVision.cs:366 | the first record about an entity, obsolete or not |
| Vision.GetKnown | Components/Vision/NextBotVision.cs:95-107 | nothing for a null or invalid entity; otherwise the first record about it that is not obsolete (no earlier record is a live one about it), or nothing when there is none |
| Vision.AlertOfEntity | Components/Vision/NextBotVision.cs:359-375 | null, invalid and world entities are ignored; a known entity only has its position refreshed; an unknown one gets one new record at the end |
| Vision.AlertKeepsUnique | Components/Vision/NextBotVision.cs:359-375 | alerting never creates a second record about an entity |
| Vision.AlertThenKnown | Components/Vision/NextBotVision.cs:359-375 | after an alert about a valid, living, non-world entity, that entity is known |
| Vision.ForgetEntity | Components/Vision/NextBotVision.cs:377-389 | forgetting removes the first record about the entity and only that one |
| Vision.ForgetUndoesAlert | Components/Vision/NextBotVision.cs:359-389 | forgetting an entity that was not known before undoes an alert about it |
| Vision.ForgottenIsUnknown | Components/Vision/NextBotVision.cs:377-389 | with one record per entity, a forgotten entity is no longer known |
| Vision.ForgetAll | Components/Vision/NextBotVision.cs:391-394 | forgetting everything leaves nothing known |
| Vision.Recognize | Components/Vision/NextBotVision.cs:264-280 | each visible entity without a record gets a new visible record at the end; existing records are kept in place |
| Vision.Refresh | Components/Vision/NextBotVision.cs:294-327 | a visible entity's record is refreshed and marked visible; a record that stops being visible is marked invisible |
| Vision.Lost | Components/Vision/NextBotVision.cs:313-319 | LostSight is raised for the records that were visible and whose entity no longer is, in list order |
| Vision.RecognizeNew | Components/Vision/NextBotVision.cs:264-280 | the first loop, with its linear scan, produces the recognised list |
| Vision.Sweep | Components/Vision/NextBotVision.cs:282-329 | the second loop, removing in place with the index stepping back, keeps exactly the records that are not obsolete, refreshes them and raises LostSight for each record that loses sight |
| Vision.UpdateKnownEntities | Components/Vision/NextBotVision.cs:259-342 | the update runs both loops in order |
| Vision.Update | Components/Vision/NextBotVision.cs:68-77 | when blind every record is dropped; otherwise the known list is brought up to date |
| Vision.UpdatedRecordsAreCurrent | Components/Vision/NextBotVision.cs:282-329 | after an update no record is obsolete, and a record is marked visible exactly when its entity is visible now |
| Vision.UpdateKeepsUnique | Components/Vision/NextBotVision.cs:259-342 | an update never creates a second record about an entity |
| Vision.VisibleEntityKnownIff | Components/Vision/NextBotVision.cs:264-292 | a visible entity is known after the update exactly when it had no record or its first record was not obsolete |
| Vision.StaleRecordDropped | Components/Vision/NextBotVision.cs:267-292 | an entity whose record is obsolete is not known after the update, even when it is visible now |
| Vision.LostSightIff | Components/Vision/NextBotVision.cs:311-319 | LostSight is raised for an entity exactly when it had a record that was not obsolete, was marked visible, and the entity is no longer visible |
| Vision.LostSightOnce | Components/Vision/NextBotVision.cs:311-319 | with one record per entity, no entity raises LostSight twice in an update |
| Paths.GetNode | PathFollower.cs:358-368 | a node exists exactly for indices inside the list |
| Paths.AccessorsAgreeWithValidity | PathFollower.cs:366-370 | on a well-formed follower a valid path has a prior and a target node, an invalid one has none of the three, and the next node exists exactly when the target is not the last node |
| Paths.Invalidate | PathFollower.cs:46-51 | an invalidated path has no nodes, no prior, target or next node, and its age restarts |
| Paths.Build | PathFollower.cs:25-44 | fewer than two planned nodes leave the path invalid and answer false; otherwise the path is the planned nodes, moving from the first towards the second, and answers the planner's verdict |
| Paths.IsAtGoal | PathFollower.cs:297-356 | with no prior node the bot is at its goal; otherwise it is at the goal exactly when horizontally within tolerance of the target, whatever the height, and a missing target faults |
| Paths.CheckProgress | PathFollower.cs:212-295 | at the goal with a next node the target advances by one; at the last node progress stops and the path is invalidated only when it has aged; elsewhere nothing changes |
| Paths.FollowToEnd | PathFollower.cs:212-295 | a bot near every node walks a built path to its end in one check per remaining node, and the last check ends it |
| Stuck.ClearStuckStatus | Components/Locomotion/NextBotLocomotion.Stuck.cs:93-107 | UnStuck is raised only when the bot was stuck; the anchor moves to the feet and the time near it restarts in every case |
| Stuck.StuckMonitor | Components/Locomotion/NextBotLocomotion.Stuck.cs:14-91 | an idle bot re-anchors silently; a stuck bot that moved away becomes un-stuck with one UnStuck; a stuck bot still near raises Stuck again only when the countdown has elapsed; a free bot near its anchor for more than 2 seconds becomes stuck with one Stuck |
| Stuck.EventsTrackTheFlag | Components/Locomotion/NextBotLocomotion.Stuck.cs:14-107 | over any run of ticks, a listener replaying the Stuck and UnStuck events never hears UnStuck while not stuck and ends at the monitor's flag |
| Look.GetHeadSteadyDuration | Components/Locomotion/NextBotLocomotion.Look.cs:270-275 | the steady duration is 0 when the head is not steady, and otherwise the time since the steady timer started |
| Look.CanAimHead | Components/Locomotion/NextBotLocomotion.Look.cs:246-265 | an equal priority may take over only once the head has settled for 0.3 s; a lower one only once the current look has expired; a higher one always |
| Look.ExpireDuration | Components/Locomotion/NextBotLocomotion.Look.cs:224-225 | a non-positive duration becomes 0.1 s; a positive one is kept |
| Look.AimHeadTowards | Components/Locomotion/NextBotLocomotion.Look.cs:219-244 | a rejected request changes nothing; an accepted one restarts the expire countdown and, for a new subject, takes the subject and priority, restarts the duration timer and clears "sighted in"; for the same subject only the priority changes |
| Look.HigherPriorityTakesOver | Components/Locomotion/NextBotLocomotion.Look.cs:219-265 | a strictly higher priority always takes over, and a next request at that priority waits until the head has settled |
| Look.TrackAimSteady | Components/Locomotion/NextBotLocomotion.Look.cs:168-183 | below the max aim rate the head is steady and the steady timer starts only if not already running; otherwise the timer is invalidated |
| Look.SteadyDurationAccumulates | Components/Locomotion/NextBotLocomotion.Look.cs:168-183 | while the aim stays slow, the steady duration counts from the first steady tick |
| Look.ApproachAngle | Components/Locomotion/NextBotLocomotion.Look.cs:289-310 | the angle jumps to the target when the once-wrapped difference is within the speed, and otherwise moves exactly the speed towards it |
| Look.ApproachReaches | Components/Locomotion/NextBotLocomotion.Look.cs:289-310 | an angle within half a turn of the target reaches it once enough steps of the speed cover the distance, and stays there |
| Timers.NewIntervalTimer | Timers/IntervalTimer.cs:9-12 | a new timer has not started |
| Timers.Start | Timers/IntervalTimer.cs:19-22 | starting at a positive time starts the timer, and the elapsed time is then measured from that time |
| Timers.Reset | Timers/IntervalTimer.cs:14-17 | Reset is the same as Start |
| Timers.Invalidate | Timers/IntervalTimer.cs:24-27 | an invalidated timer is back to the not-started state of a new timer |
| Timers.ComparisonsUseRawStamp | Timers/IntervalTimer.cs:29-47 | on a started timer the comparisons agree with the elapsed time; on an invalidated timer they compare against now + 1 while the elapsed time is 99999.9 |
| Input.DeadlineOf | NextBotController.Input.cs:9 | a button mask has a recorded deadline exactly when it is a key of the table |
| Input.SetDeadline | NextBotController.Input.cs:18 | writing a deadline records it for that mask only, keeps the keys distinct, and appends a new key or keeps an existing key's place |
| Input.PressInputButton | NextBotController.Input.cs:15-19 | pressing sets the mask's bits and records now + duration as its deadline, changing no other deadline |
| Input.ReleaseInputButton | NextBotController.Input.cs:24-28 | releasing clears only the mask's bits and records -1 as its deadline |
| Input.ReleaseExpired | NextBotController.Input.cs:72-84 | the sweep only ever clears bits |
| Input.ReleaseExpiredButtons | NextBotController.Input.cs:69-89 | with keys that share no bits, the sweep clears exactly the bits of held keys whose deadline has passed; the analog move is zeroed once its deadline has passed |
| Input.ExpiredSweepIsExact | NextBotController.Input.cs:72-84 | with keys that share no bits, the sweep clears exactly the bits of the held, expired keys and no others |
| Input.ExpiredKeyReleased | NextBotController.Input.cs:72-84 | a key whose deadline has passed is not fully held after the sweep, whatever the other keys |
| Input.DefaultPressReleasedBySweep | NextBotController.Input.cs:15-19 | a press with the default duration is released by the next sweep |
| Input.OverlappingKeysDependOnOrder | NextBotController.Input.cs:72-84 | with overlapping keys, which bits the sweep leaves depends on the table's enumeration order |
| Input.AnalogMove | NextBotController.Input.cs:91-95 | the analog move holds until now + duration, and a sweep after that zeroes it |
| Input.BuildInput | NextBotController.Input.cs:30-56 | held bits are pressed and all others released; forward and back add +1 and -1 on x, left and right +1 and -1 on y, to the analog move |
| Input.OppositeButtonsCancel | NextBotController.Input.cs:44-56 | holding both buttons of each opposite pair leaves the analog move as the direction |
| Registry.Register | NextBots.cs:31-43 | off the server, or for a bot already listed, nothing changes; otherwise the bot is appended; on the server the bot is then registered |
| Registry.RegisterKeepsNoDuplicates | NextBots.cs:31-43 | registration never lists a bot twice |
| Registry.ValidMembers | NextBots.cs:58-71 | a bot survives the purge exactly when it was listed and is valid |
| Registry.RemoveInvalidKeepsValid | NextBots.cs:68 | removing an invalid bot does not change the valid ones |
| Registry.PurgeDeletedBots | NextBots.cs:58-71 | the backwards purge leaves exactly the valid bots in their original order |
| Registry.Tick | NextBots.cs:45-56 | a tick purges first, then runs Upkeep and Update on each remaining bot in list order |
| DebugFlags.IsDebuggingCases | NextBots.Debug.cs:12-16 | the empty flag always counts as on, and any non-empty flag being on means debugging |
| DebugFlags.Msg | NextBots.Debug.cs:22-32 | a message is logged as information exactly when its flags are on |
| DebugFlags.MsgError | NextBots.Debug.cs:38-48 | a message is logged as an error exactly when its flags are on |
| DebugFlags.NbDebug | NextBots.Debug.cs:50-63 | a flag that is wholly on is turned off, otherwise it is turned wholly on, and no other bit changes |
| DebugFlags.NbDebugToggles | NextBots.Debug.cs:50-63 | toggling flips whether a non-empty flag is on, and toggling None changes nothing |
| DebugFlags.NbDebugTwiceRestores | NextBots.Debug.cs:50-79 | toggling a single-bit flag twice restores the flags |
| DebugFlags.NbDebugTwicePartial | NextBots.Debug.cs:50-79 | toggling a partly-on multi-bit flag twice turns all of it off rather than restoring it |
| SimpleBot.IdleUpdateSuspends | Examples/SimpleBot.cs:36-47 | Idle's first update, with a player near, suspends Idle for a new Look |
| SimpleBot.SuspendStartsLook | Examples/SimpleBot.cs:43 | that SuspendFor suspends Idle and starts Look on top of it |
| SimpleBot.LookUpdateIsDone | Examples/SimpleBot.cs:57-60 | Look's update with no target answers Done |
| SimpleBot.LookDoneResumesIdle | Examples/SimpleBot.cs:57-60 | Look's Done ends Look and resumes Idle |
| SimpleBot.IdleLookIdle | Examples/SimpleBot.cs:29-66 | three ticks fire exactly Idle's OnStart, its update, its OnSuspend, Look's OnStart, Look's update, Look's OnEnd and Idle's OnResume, in that order, and leave Idle current and uncovered, with Look ended |

## Left out

- Physics, movement and the aim maths are left out: the steering in `PathFollower.Update`, ground locomotion, interpolation, the vector overload of `AimHeadTowards` and `AngleDiff`. They are engine vector and float arithmetic.
- The caught-sight (`Sight`) event of the vision update is left out. Its timing reads `GetMinRecognizeTime` and the previous update time, which are 0 by default. Collecting the visible entities (field of view, traces, ignore lists) is an input.
- Logging text, debug drawing and display text are left out: they are side channels. `DebugFlags.Msg` returns the line it would log.
- `CountdownTimer` and `LookAtPriorityType` are not part of this model. Whether a countdown has elapsed is an input. A look priority is its enum value.
- Floats are reals, so rounding is not modelled.
- ConVars are fixed at their server defaults.
- `nb_update_frequency` and the controller's update interval are not modelled.
- The `Actor`/`Me` reference is reduced to whether a bot is present.
- `FaceTowards` and the view-angle output of `BuildInput` are left out: rotations are engine types.
- Input.BuildInput: the direction is given before `Clamp(-1, 1)` and `Normal`, which are engine vector operations.
- The numeric values of `InputButton` are left out: a mask is the set of its bit positions, at most 64 of them.
- Engine.ApplyResult: the engine functions carry a fuel bound. A run that needs more nested calls than the fuel allows is `Exhausted`, and the contracts say nothing about that case.
- Engine.Invoke: user callbacks are assumed to change nothing but their answer, and to build a SuspendFor answer only through the calling action's own `SuspendFor` helper, which empties that action's pending slot. The source also lets a callback construct a result directly (the `IActionResult` constructor is public, Actions/Action.cs:287) or call another action's `SuspendFor`, which empties that other action's slot; the model does not cover those callbacks.
- Engine.InvokeOnStart: the contract states the run fully only for an action with no contained action. With one, the order of the calls is stated (Transitions.ChildStartsBeforeParent) but the final state is not.
- Engine.InvokeUpdate: the child link after the child's update is not stated in general, only the order of the calls. Transitions.ChildUpdatedFirst and Transitions.FinishedChildIsDropped state it for a childless child.
- Engine.InvokeOnResume: with a child, the restored links and the child link afterwards are stated only for a quiet, childless child (Transitions.ResumeRestoresLinks).
- Consistency.ChangeToKeepsWellFormed: consistency of the links is proved for ChangeTo, SuspendFor and Done from a childless, uncovered top action to quiet actions, as the Consistency lemmas state. Transitions that run nested callbacks or contained children are not covered.
- Behaviour.StopLeavesBuriedAlone: the region that Stop stays inside is a hypothesis. That the buried chain lies outside it is a property of the stack the caller supplies; it is not derived from the consistency invariant.
- Behaviour.Update: the contract does not restate the new action. The scenarios in Behaviour and SimpleBot state it for the cases they cover.
- Paths.Build: path planning (`NavMesh.BuildPathEx`) is an input, given as the node list and whether a path was found.
- Stuck.StuckMonitor: the time since a move was requested, the positions and the countdown's elapsed state are inputs.
- The hold-position check of `PathFollower.Update` is left out, along with its `MoveToFailure` event: it needs vector normalisation.
- Entity lookups (`FindInSphere`) in `SimpleBot` are left out: the scenario fixes that a player is near on the second tick and gone on the third.

## Findings

| source | as written | input that shows it | evidently intended | confidence | as-written member | corrected member |
|---|---|---|---|---|---|---|
| Util/Queries.cs:33-47 | when the pre hook defers and no responder answers, the post hook reads `LastKnownPosition` of both threats, even when one is null | two null threats, a valid bot, no responder answering | the post hook compares ranges only between two live threats and returns null otherwise, as the pre hook does | not executed | Threats.TwoNullThreatsFault | Threats.SelectMoreDangerousThreat |
