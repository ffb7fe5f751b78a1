/** The front end's selector controller: it keeps a value selected from a
    state-machine actor's snapshots and asks its host to re-render when a
    newly emitted snapshot selects a value the comparison calls different.
    The actor's subscriptions are a `Hub` of live subscription ids, so that
    what connecting and disconnecting leave subscribed can be stated.
    JavaScript's `undefined` is `None`. */
module SelectorControl {
  import opened Wrappers

  /** The live subscriptions of an actor, and the id the next one gets. */
  datatype Hub = Hub(live: set<nat>, next: nat)

  predicate HubValid(h: Hub)
  {
    forall x | x in h.live :: x < h.next
  }

  /** `actorRef.subscribe(...)`: a fresh live subscription. */
  function Subscribe(h: Hub): (r: (Hub, nat))
    requires HubValid(h)
    ensures HubValid(r.0) && r.1 !in h.live && r.0.live == h.live + {r.1}
  {
    (Hub(h.live + {h.next}, h.next + 1), h.next)
  }

  /** `subscription.unsubscribe()`: idempotent. */
  function Unsubscribe(h: Hub, id: nat): (r: Hub)
    requires HubValid(h)
    ensures HubValid(r) && r.live == h.live - {id}
  {
    Hub(h.live - {id}, h.next)
  }

  /** What an actor offers: `getSnapshot` (outer `Some`) returning a
      snapshot or `undefined`, and/or a `state` property. */
  datatype Actor<E> = Actor(getSnapshot: Option<Option<E>>, state: Option<Option<E>>)

  /** `getSnapshot`: the actor's own `getSnapshot()` when it has one, else
      its `state` when it has one, else `undefined`. */
  function GetSnapshot<E>(actor: Actor<E>): (r: Option<E>)
    ensures actor.getSnapshot.Some? ==> r == actor.getSnapshot.value
    ensures actor.getSnapshot.None? && actor.state.Some? ==> r == actor.state.value
    ensures actor.getSnapshot.None? && actor.state.None? ==> r.None?
  {
    match actor.getSnapshot
    case Some(s) => s
    case None =>
      match actor.state
      case Some(s) => s
      case None => None
  }

  /** A selector controller: the selected value and its subscription. */
  datatype Selector<T> = Selector(selected: T, subscription: nat)

  /** The constructor: selects from the current snapshot and subscribes. */
  function Connect<E, T>(h: Hub, actor: Actor<E>, selector: Option<E> -> T): (r: (Hub, Selector<T>))
    requires HubValid(h)
    ensures HubValid(r.0) && r.0.live == h.live + {r.1.subscription} && r.1.subscription !in h.live
    ensures r.1.selected == selector(GetSnapshot(actor))
  {
    var (h', id) := Subscribe(h);
    (h', Selector(selector(GetSnapshot(actor)), id))
  }

  /** One emission delivered to the subscription callback: the newly
      selected value replaces the old, with an update request, only when
      `compare` calls them different; an emission reaches only a live
      subscription.  Returns the controller and whether an update was
      requested. */
  function Emit<E, T>(h: Hub, c: Selector<T>, emitted: E, selector: Option<E> -> T, compare: (T, T) -> bool): (r: (Selector<T>, bool))
    ensures r.1 <==> c.subscription in h.live && !compare(c.selected, selector(Some(emitted)))
    ensures r.0.subscription == c.subscription
    ensures r.0.selected == if r.1 then selector(Some(emitted)) else c.selected
  {
    if c.subscription !in h.live then (c, false)
    else
      var next := selector(Some(emitted));
      if !compare(c.selected, next) then (Selector(next, c.subscription), true) else (c, false)
  }

  /** A run of emissions; returns the controller and the number of update
      requests. */
  function EmitAll<E, T>(h: Hub, c: Selector<T>, emitted: seq<E>, selector: Option<E> -> T, compare: (T, T) -> bool): (r: (Selector<T>, nat))
    ensures r.1 <= |emitted|
    ensures r.0.subscription == c.subscription
    decreases |emitted|
  {
    if emitted == [] then (c, 0)
    else
      var (c1, asked) := Emit(h, c, emitted[0], selector, compare);
      var (c2, n) := EmitAll(h, c1, emitted[1..], selector, compare);
      (c2, n + if asked then 1 else 0)
  }

  /** `hostDisconnected`: ends the subscription. */
  function Disconnect<T>(h: Hub, c: Selector<T>): (r: Hub)
    requires HubValid(h)
    ensures HubValid(r) && c.subscription !in r.live && r.live == h.live - {c.subscription}
  {
    Unsubscribe(h, c.subscription)
  }

  /** With equality as the comparison (the default `===` on values it is
      reflexive for), a subscribed controller ends a run of emissions
      holding the value selected from the latest one. */
  lemma {:induction false} TracksLatest<E, T>(h: Hub, c: Selector<T>, emitted: seq<E>, selector: Option<E> -> T)
    requires c.subscription in h.live && emitted != []
    ensures var r := EmitAll(h, c, emitted, selector, (a: T, b: T) => a == b);
      r.0.selected == selector(Some(emitted[|emitted| - 1]))
    decreases |emitted|
  {
    var eq := (a: T, b: T) => a == b;
    var (c1, _) := Emit(h, c, emitted[0], selector, eq);
    assert c1.selected == selector(Some(emitted[0]));
    if |emitted| > 1 {
      TracksLatest(h, c1, emitted[1..], selector);
      assert emitted[1..][|emitted[1..]| - 1] == emitted[|emitted| - 1];
    }
  }

  /** After `hostDisconnected` no emission changes the controller or asks
      for an update. */
  lemma {:induction false} DisconnectedIsSilent<E, T>(h: Hub, c: Selector<T>, emitted: seq<E>, selector: Option<E> -> T, compare: (T, T) -> bool)
    requires HubValid(h)
    ensures EmitAll(Disconnect(h, c), c, emitted, selector, compare) == (c, 0)
    decreases |emitted|
  {
    if emitted != [] {
      DisconnectedIsSilent(h, c, emitted[1..], selector, compare);
    }
  }

  /** While the comparison calls every newly selected value the same as
      the held one (arrays of equal contents under `compareArrays`, say),
      the controller keeps the value it holds and never asks for an
      update. */
  lemma {:induction false} SameAlwaysKeeps<E, T>(h: Hub, c: Selector<T>, emitted: seq<E>, selector: Option<E> -> T, compare: (T, T) -> bool)
    requires forall k | 0 <= k < |emitted| :: compare(c.selected, selector(Some(emitted[k])))
    ensures EmitAll(h, c, emitted, selector, compare) == (c, 0)
    decreases |emitted|
  {
    if emitted != [] {
      assert compare(c.selected, selector(Some(emitted[0])));
      assert forall k | 0 <= k < |emitted[1..]| :: emitted[1..][k] == emitted[k + 1];
      SameAlwaysKeeps(h, c, emitted[1..], selector, compare);
    }
  }
}
