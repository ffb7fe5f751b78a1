/** The front end's `SelectState` controller, which (re)creates a selector
    controller on the state service whenever its host element connects,
    and the two comparison helpers components pass to it.  JavaScript's
    `===` on array entries and property values is the parameter
    `strictEquals`; objects are maps from their own enumerable string keys
    to the property values. */
module SelectStates {
  import opened Wrappers
  import opened SelectorControl

  /** `compareArrays`: same length and strictly equal entries, index by
      index. */
  predicate CompareArrays<V>(a: seq<V>, b: seq<V>, strictEquals: (V, V) -> bool)
  {
    |a| == |b| && forall k | 0 <= k < |a| :: strictEquals(a[k], b[k])
  }

  /** `compareObjects`: as many keys, and each key of `obj1` an own property
      of `obj2` with a strictly equal value. */
  predicate CompareObjects<V>(obj1: map<string, V>, obj2: map<string, V>, strictEquals: (V, V) -> bool)
  {
    |obj1.Keys| == |obj2.Keys| && forall key | key in obj1 :: key in obj2 && strictEquals(obj1[key], obj2[key])
  }

  /** Under plain equality (the default `===` on values it is reflexive
      for), `compareArrays` is equality of the arrays. */
  lemma CompareArraysIsEquality<V>(a: seq<V>, b: seq<V>)
    ensures CompareArrays(a, b, (x: V, y: V) => x == y) <==> a == b
  {
    if CompareArrays(a, b, (x: V, y: V) => x == y) {
      assert forall k | 0 <= k < |a| :: a[k] == b[k];
    }
  }

  /** `compareArrays` is reflexive on arrays whose entries are strictly
      equal to themselves (not on one holding `NaN`), and symmetric where
      the strict equality of the paired entries is. */
  lemma CompareArraysReflexiveSymmetric<V>(a: seq<V>, b: seq<V>, strictEquals: (V, V) -> bool)
    ensures (forall k | 0 <= k < |a| :: strictEquals(a[k], a[k])) <==> CompareArrays(a, a, strictEquals)
    ensures (forall k | 0 <= k < |a| && k < |b| :: strictEquals(a[k], b[k]) == strictEquals(b[k], a[k])) ==>
      (CompareArrays(a, b, strictEquals) <==> CompareArrays(b, a, strictEquals))
  {
  }

  lemma SubsetOfSameSize<K>(a: set<K>, b: set<K>)
    requires a <= b && |a| == |b|
    ensures a == b
  {
    assert |b - a| == |b| - |a|;
  }

  /** Objects that `compareObjects` calls equal have the same keys, so with
      a symmetric strict equality the comparison is symmetric. */
  lemma CompareObjectsSameKeys<V>(obj1: map<string, V>, obj2: map<string, V>, strictEquals: (V, V) -> bool)
    requires CompareObjects(obj1, obj2, strictEquals)
    ensures obj1.Keys == obj2.Keys
  {
    SubsetOfSameSize(obj1.Keys, obj2.Keys);
  }

  /** Where the strict equality of the shared keys' values is symmetric,
      so is `compareObjects`. */
  lemma CompareObjectsSymmetric<V>(obj1: map<string, V>, obj2: map<string, V>, strictEquals: (V, V) -> bool)
    requires forall key | key in obj1 && key in obj2 :: strictEquals(obj1[key], obj2[key]) == strictEquals(obj2[key], obj1[key])
    requires CompareObjects(obj1, obj2, strictEquals)
    ensures CompareObjects(obj2, obj1, strictEquals)
  {
    CompareObjectsSameKeys(obj1, obj2, strictEquals);
  }

  /** Under plain equality `compareObjects` is equality of the objects'
      own enumerable properties. */
  lemma CompareObjectsIsEquality<V>(obj1: map<string, V>, obj2: map<string, V>)
    ensures CompareObjects(obj1, obj2, (x: V, y: V) => x == y) <==> obj1 == obj2
  {
    if CompareObjects(obj1, obj2, (x: V, y: V) => x == y) {
      CompareObjectsSameKeys(obj1, obj2, (x: V, y: V) => x == y);
    }
  }

  /** A `SelectState`: the selector controller it created last, if any. */
  datatype SelectState<T> = SelectState(controller: Option<Selector<T>>)

  /** The outcome of `hostConnected`: the subscriptions, the controller
      state, and the error thrown when the context holds no service (the
      non-null assertion on `serviceContext.value` is unchecked). */
  datatype Connected<T> = Connected(hub: Hub, state: SelectState<T>, thrown: Option<string>)

  /** `value`: the controller's selected value, `undefined` before the
      first connection. */
  function Value<T>(st: SelectState<T>): (r: Option<T>)
    ensures r.Some? <==> st.controller.Some?
    ensures r.Some? ==> r.value == st.controller.value.selected
  {
    match st.controller
    case None => None
    case Some(c) => Some(c.selected)
  }

  /** Only the current controller's subscription may be live. */
  predicate Owned<T>(h: Hub, st: SelectState<T>)
  {
    forall x | x in h.live :: st.controller.Some? && x == st.controller.value.subscription
  }

  /** `hostDisconnected`: the current controller, if any, unsubscribes. */
  function HostDisconnected<T>(h: Hub, st: SelectState<T>): (r: Hub)
    requires HubValid(h)
    ensures HubValid(r)
    ensures Owned(h, st) ==> r.live == {}
  {
    match st.controller
    case None => h
    case Some(c) => Disconnect(h, c)
  }

  /** `hostConnected`: a controller from an earlier connection is
      disconnected first; then a new selector controller subscribes to the
      service and selects from its snapshot.  However often the host
      connects, at most one subscription is live afterwards, and it is the
      current controller's. */
  function HostConnected<E, T>(h: Hub, st: SelectState<T>, service: Option<Actor<E>>, selector: Option<E> -> T): (r: Connected<T>)
    requires HubValid(h)
    ensures HubValid(r.hub)
    ensures r.thrown.Some? <==> service.None?
    ensures r.thrown.None? ==> Value(r.state) == Some(selector(GetSnapshot(service.value)))
    ensures Owned(h, st) ==> Owned(r.hub, r.state)
    ensures Owned(h, st) && r.thrown.None? ==> r.hub.live == {r.state.controller.value.subscription}
    ensures Owned(h, st) && r.thrown.Some? ==> r.hub.live == {}
  {
    var h1 := if st.controller.Some? then HostDisconnected(h, st) else h;
    match service
    case None => Connected(h1, st, Some("TypeError"))
    case Some(actor) =>
      var (h2, c) := Connect(h1, actor, selector);
      Connected(h2, SelectState(Some(c)), None)
  }

  /** `connectState`: a fresh, unconnected `SelectState`. */
  function ConnectState<T>(): (r: SelectState<T>)
    ensures Value(r).None?
  {
    SelectState(None)
  }
}
