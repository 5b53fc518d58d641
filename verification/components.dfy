/**
 * The subscription tables every bot component keeps
 * (Components/NextBotComponent.Events.cs and .Queries.cs): one callback per
 * exact event type and one handler per exact query type.  Callbacks and
 * handlers are named by tags; what a callback does is outside the model, the
 * model records which one runs.
 */
module Components {
  import opened Wrappers
  import opened Actions
  import opened Subscriptions

  datatype Component = Component(eventSubscriptions: map<EventType, nat>, querySubscriptions: map<nat, nat>)

  function NewComponent(): (c: Component)
    ensures c.eventSubscriptions == map[] && c.querySubscriptions == map[]
  {
    Component(map[], map[])
  }

  /** `SubscribeToEvent<T>(callback)`: replaces any previous callback for T. */
  function SubscribeToEvent(c: Component, t: EventType, callback: nat): (r: Component)
    ensures r.querySubscriptions == c.querySubscriptions
    ensures r.eventSubscriptions.Keys == c.eventSubscriptions.Keys + {t}
    ensures forall u :: u in r.eventSubscriptions ==>
      r.eventSubscriptions[u] == if u == t then callback else c.eventSubscriptions[u]
  {
    c.(eventSubscriptions := Subscribe(c.eventSubscriptions, t, callback))
  }

  /**
   * `OnEvent(args)`: the callback that runs for the event's exact type, at
   * most one, none when the type has no subscription.
   */
  function OnEvent(c: Component, ev: Event): (r: Option<nat>)
    ensures r.Some? <==> ev.kind in c.eventSubscriptions
    ensures r.Some? ==> r.value == c.eventSubscriptions[ev.kind]
  {
    Lookup(c.eventSubscriptions, ev.kind)
  }

  /** After subscribing to T, an event of type T runs exactly the new callback; other types are unaffected. */
  lemma SubscribedCallbackRuns(c: Component, t: EventType, callback: nat, ev: Event)
    ensures var r := SubscribeToEvent(c, t, callback);
      OnEvent(r, ev) == if ev.kind == t then Some(callback) else OnEvent(c, ev)
  {
  }

  /** `SubscribeToContextualQuery<T, U>(handler)`: replaces any previous handler for T. */
  function SubscribeToContextualQuery(c: Component, queryType: nat, handler: nat): (r: Component)
    ensures r.eventSubscriptions == c.eventSubscriptions
    ensures r.querySubscriptions.Keys == c.querySubscriptions.Keys + {queryType}
    ensures forall u :: u in r.querySubscriptions ==>
      r.querySubscriptions[u] == if u == queryType then handler else c.querySubscriptions[u]
  {
    c.(querySubscriptions := Subscribe(c.querySubscriptions, queryType, handler))
  }

  /**
   * `OnQuery(args)`: the subscribed handler's answer for the query's exact
   * type, or the default when there is none.
   */
  function OnQuery<R>(c: Component, q: Query, answer: (nat, Query) -> R, dflt: R): (r: R)
    ensures q.kind !in c.querySubscriptions ==> r == dflt
    ensures q.kind in c.querySubscriptions ==> r == answer(c.querySubscriptions[q.kind], q)
  {
    match Lookup(c.querySubscriptions, q.kind)
    case Some(handler) => answer(handler, q)
    case None => dflt
  }

  /** Subscribing twice to a query type keeps only the later handler's answers. */
  lemma LaterQueryHandlerWins<R>(c: Component, queryType: nat, first: nat, second: nat, q: Query, answer: (nat, Query) -> R, dflt: R)
    requires q.kind == queryType
    ensures var r := SubscribeToContextualQuery(SubscribeToContextualQuery(c, queryType, first), queryType, second);
      OnQuery(r, q, answer, dflt) == answer(second, q)
  {
  }
}
