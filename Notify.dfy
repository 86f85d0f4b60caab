/**
 * The listener arrays of the source's event systems, with callbacks replaced
 * by listener identities. Emitting an event to a listener array appends one
 * delivery per listener, in registration order, to an event log.
 */
module Notify {
  import opened Wrappers
  import opened Seqs

  /** The identity of a registered callback (the source compares callbacks by reference). */
  type ListenerId = nat

  /** One callback invocation: `listener` was called with `event`. */
  datatype Delivery<E> = Delivery(listener: ListenerId, event: E)

  /** `listeners.forEach(callback => callback(e))`. */
  function Broadcast<E>(listeners: seq<ListenerId>, e: E): (r: seq<Delivery<E>>)
    ensures |r| == |listeners|
    ensures forall i :: 0 <= i < |r| ==> r[i] == Delivery(listeners[i], e)
  {
    if listeners == [] then [] else [Delivery(listeners[0], e)] + Broadcast(listeners[1..], e)
  }

  /** A listener that is not registered is never called. */
  lemma UnregisteredHearsNothing<E>(listeners: seq<ListenerId>, e: E, l: ListenerId)
    requires l !in listeners
    ensures forall d :: d in Broadcast(listeners, e) ==> d.listener != l
  {
  }

  /** `const i = ls.indexOf(l); if (i > -1) ls.splice(i, 1)`: drops the first occurrence of `l`. */
  function RemoveFirst(ls: seq<ListenerId>, l: ListenerId): (r: seq<ListenerId>)
    ensures l !in ls ==> r == ls
    ensures l in ls ==> |r| == |ls| - 1 && multiset(r) == multiset(ls) - multiset{l}
    ensures l in ls ==> exists i :: 0 <= i < |ls| && ls[i] == l && l !in ls[..i] && r == ls[..i] + ls[i + 1..]
  {
    match FirstIndex(ls, x => x == l)
    case None => ls
    case Some(i) =>
      assert ls == ls[..i] + [ls[i]] + ls[i + 1..];
      assert l !in ls[..i] by {
        forall j | 0 <= j < i ensures ls[..i][j] != l { }
      }
      ls[..i] + ls[i + 1..]
  }

  /** A listener array keyed by event kind, as the source's `Map<EventType, Callback[]>`. */
  type ListenerTable<K> = map<K, seq<ListenerId>>

  /** `addEventListener`/`on`: appends to the kind's array, if the kind has one. */
  function Subscribe<K>(table: ListenerTable<K>, kind: K, l: ListenerId): (r: ListenerTable<K>)
    ensures r.Keys == table.Keys
    ensures kind in table ==> r[kind] == table[kind] + [l]
    ensures forall k :: k in table && k != kind ==> r[k] == table[k]
  {
    if kind in table then table[kind := table[kind] + [l]] else table
  }

  /** `removeListener`/`off`: removes the first registration of `l` for `kind`. */
  function Unsubscribe<K>(table: ListenerTable<K>, kind: K, l: ListenerId): (r: ListenerTable<K>)
    ensures r.Keys == table.Keys
    ensures kind in table ==> r[kind] == RemoveFirst(table[kind], l)
    ensures forall k :: k in table && k != kind ==> r[k] == table[k]
  {
    if kind in table then table[kind := RemoveFirst(table[kind], l)] else table
  }

  /** `emit(kind, e)`: calls the kind's listeners; a kind without an array calls nobody. */
  function Emit<K, E>(table: ListenerTable<K>, kind: K, e: E): (r: seq<Delivery<E>>)
    ensures kind !in table ==> r == []
    ensures kind in table ==> |r| == |table[kind]|
    ensures kind in table ==> forall i :: 0 <= i < |r| ==> r[i] == Delivery(table[kind][i], e)
  {
    if kind in table then Broadcast(table[kind], e) else []
  }

  /** The deliveries that emitting `events` in order makes, each to the listeners of its own kind. */
  function Publish<K, E>(table: ListenerTable<K>, kindOf: E -> K, events: seq<E>): seq<Delivery<E>> {
    if events == [] then [] else Emit(table, kindOf(events[0]), events[0]) + Publish(table, kindOf, events[1..])
  }

  /** Publishing two runs of events in a row is publishing their concatenation. */
  lemma {:induction false} PublishConcat<K, E>(table: ListenerTable<K>, kindOf: E -> K, a: seq<E>, b: seq<E>)
    ensures Publish(table, kindOf, a + b) == Publish(table, kindOf, a) + Publish(table, kindOf, b)
    decreases |a|
  {
    if a != [] {
      assert (a + b)[0] == a[0] && (a + b)[1..] == a[1..] + b;
      PublishConcat(table, kindOf, a[1..], b);
    } else {
      assert a + b == b;
    }
  }

  /** A listener registered once and then removed receives nothing further. */
  lemma {:induction false} RemovedListenerHearsNothing<K, E>(table: ListenerTable<K>, kind: K, l: ListenerId, e: E)
    requires kind in table && multiset(table[kind])[l] == 1
    ensures forall d :: d in Emit(Unsubscribe(table, kind, l), kind, e) ==> d.listener != l
  {
    var after := Unsubscribe(table, kind, l)[kind];
    assert l in table[kind];
    assert multiset(after)[l] == 0;
    assert l !in after;
    UnregisteredHearsNothing(after, e, l);
  }
}
