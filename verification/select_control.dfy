/** The older `SelectController` of the front end: it stores the value
    selected from every state the service emits and asks for an update when
    it had no value yet or the comparison calls the new one different.
    Subscriptions are `SelectorControl.Hub` ids. */
module SelectControl {
  import opened Wrappers
  import opened SelectorControl

  /** The controller: its value (`undefined` before the first update) and
      the stored `unsubscribe` function, named by its subscription id. */
  datatype Control<T> = Control(value: Option<T>, unsubscribe: Option<nat>)

  /** `onUpdate`: always stores the newly selected value; asks for an update
      when there was no value or `compare` calls old and new different. */
  function OnUpdate<S, T>(c: Control<T>, newState: S, selector: S -> T, compare: (T, T) -> bool): (r: (Control<T>, bool))
    ensures r.0 == Control(Some(selector(newState)), c.unsubscribe)
    ensures r.1 <==> c.value.None? || !compare(c.value.value, selector(newState))
  {
    var next := selector(newState);
    (Control(Some(next), c.unsubscribe), c.value.None? || !compare(c.value.value, next))
  }

  /** `hostConnected`: subscribes when the context holds a service and
      stores its `unsubscribe`; without a service the stored `unsubscribe`
      becomes `undefined`. */
  function HostConnected<T>(h: Hub, c: Control<T>, hasService: bool): (r: (Hub, Control<T>))
    requires HubValid(h)
    ensures HubValid(r.0) && r.1.value == c.value
    ensures hasService ==> r.1.unsubscribe.Some? && r.1.unsubscribe.value !in h.live && r.0.live == h.live + {r.1.unsubscribe.value}
    ensures !hasService ==> r == (h, Control(c.value, None))
  {
    if hasService then
      var (h', id) := Subscribe(h);
      (h', Control(c.value, Some(id)))
    else (h, Control(c.value, None))
  }

  /** `hostDisconnected`: calls the stored `unsubscribe`, if any (and keeps
      it). */
  function HostDisconnected<T>(h: Hub, c: Control<T>): (r: Hub)
    requires HubValid(h)
    ensures HubValid(r)
    ensures c.unsubscribe.Some? ==> r.live == h.live - {c.unsubscribe.value}
    ensures c.unsubscribe.None? ==> r == h
  {
    match c.unsubscribe
    case None => h
    case Some(id) => Unsubscribe(h, id)
  }

  /** Connecting and then disconnecting leaves exactly the subscriptions
      there were before. */
  lemma ConnectThenDisconnect<T>(h: Hub, c: Control<T>, hasService: bool)
    requires HubValid(h)
    ensures var (h1, c1) := HostConnected(h, c, hasService);
      HostDisconnected(h1, c1).live == h.live
  {
  }

  /** Unlike `SelectState`, connecting twice without a disconnect in
      between forgets the first `unsubscribe`: after a disconnect the first
      subscription is still live. */
  lemma ReconnectKeepsFirstSubscription<T>(c: Control<T>)
    ensures var (h1, c1) := HostConnected(Hub({}, 0), c, true);
      var (h2, c2) := HostConnected(h1, c1, true);
      HostDisconnected(h2, c2).live == {0}
  {
  }

  /** Once both hold a value, this controller and the selector controller
      ask for an update on the same emissions; they differ in what they
      keep when the comparison calls the values the same (this one stores
      the new value, the selector controller keeps the old one). */
  lemma SameRequestsAsSelector<E, T>(h: Hub, s: SelectorControl.Selector<T>, c: Control<T>, emitted: E, selector: Option<E> -> T, compare: (T, T) -> bool)
    requires s.subscription in h.live && c.value == Some(s.selected)
    ensures OnUpdate(c, Some(emitted), selector, compare).1 == Emit(h, s, emitted, selector, compare).1
  {
  }
}
