/**
 * Per-type subscription tables.  Both actions and components keep a
 * dictionary keyed by the exact runtime type of an event or query, holding at
 * most one handler per type; subscribing again replaces the handler.
 */
module Subscriptions {
  import opened Wrappers

  /** `dict[type] = handler`: the later subscription wins, no other entry moves. */
  function Subscribe<K, H>(table: map<K, H>, key: K, handler: H): (r: map<K, H>)
    ensures Lookup(r, key) == Some(handler)
    ensures r.Keys == table.Keys + {key}
    ensures forall k :: k in r && k != key ==> r[k] == table[k]
  {
    table[key := handler]
  }

  /** `TryGetValue` on the exact type. */
  function Lookup<K, H>(table: map<K, H>, key: K): (r: Option<H>)
    ensures r.Some? <==> key in table
    ensures r.Some? ==> r.value == table[key]
  {
    if key in table then Some(table[key]) else None
  }

  /** Subscribing twice to the same type keeps only the second handler. */
  lemma LaterSubscriptionWins<K, H>(table: map<K, H>, key: K, first: H, second: H)
    ensures Subscribe(Subscribe(table, key, first), key, second) == Subscribe(table, key, second)
  {
  }
}
