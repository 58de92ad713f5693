/// `BindRef`: a read-only handle on a plain or a computed binding. It holds
/// the number of the binding it refers to, so every clone of a handle, and
/// the binding itself, read and watch the same cell of the store.
module BindRefs {
  import opened Wrappers
  import opened Notify
  import opened Bindings

  /// What a `BindRef` refers to. Stream bindings are not part of this model.
  datatype BindRef = OfBinding(binding: nat) | OfComputed(computed: nat)

  /// The handle refers to a binding of `store`.
  ghost predicate Refers<V(!new)>(store: BindingStore<V>, r: BindRef)
    reads store
  {
    match r
    case OfBinding(b) => b in store.values
    case OfComputed(j) => j < |store.computeds|
  }

  /// The value the referenced binding has now: a plain binding's value, or
  /// what a computed binding's function computes from the current values.
  ghost function Current<V(!new)>(store: BindingStore<V>, r: BindRef): V
    requires Refers(store, r)
    reads store
  {
    match r
    case OfBinding(b) => store.values[b]
    case OfComputed(j) => store.computeds[j].calculate.eval(store.values)
  }

  /// `BindRef::from(&value)`: a new plain binding holding `v`, and a handle on it.
  method FromValue<V(==, !new)>(store: BindingStore<V>, v: V) returns (r: BindRef)
    requires store.Valid()
    modifies store
    ensures store.Valid() && r.OfBinding? && r.binding !in old(store.values)
    ensures store.values == old(store.values)[r.binding := v] && store.computeds == old(store.computeds)
    ensures Refers(store, r) && Current(store, r) == v
  {
    var b := store.Bind(v);
    r := OfBinding(b);
  }

  /// `get`, delegated to the referenced binding: the current value. Reading
  /// a plain binding changes nothing; reading a computed binding may fill
  /// its cache, which leaves every value unchanged.
  method Get<V(==, !new)>(store: BindingStore<V>, r: BindRef) returns (v: V)
    requires store.Valid() && Refers(store, r)
    modifies store
    ensures store.Valid() && Refers(store, r)
    ensures v == old(Current(store, r)) && v == Current(store, r)
    ensures store.values == old(store.values) && store.listeners == old(store.listeners)
    ensures |store.computeds| == |old(store.computeds)|
    ensures r.OfBinding? ==> store.computeds == old(store.computeds)
    ensures r.OfComputed? ==>
      var c := old(store.computeds)[r.computed];
      store.computeds == old(store.computeds)[r.computed := c.(
        cached := Some(v),
        deps := c.calculate.inputs(store.values),
        evaluations := c.evaluations + (if c.cached.None? then 1 else 0))]
  {
    match r
    case OfBinding(b) =>
      v := store.Get(b);
    case OfComputed(j) =>
      v := store.GetComputed(j);
  }

  /// `when_changed`, delegated to the referenced binding.
  method WhenChanged<V(==, !new)>(store: BindingStore<V>, r: BindRef) returns (id: nat)
    requires store.Valid() && Refers(store, r)
    modifies store
    ensures store.Valid() && Refers(store, r) && store.values == old(store.values)
    ensures r.OfBinding? ==>
      && id == NextId(old(store.listeners)[r.binding])
      && store.listeners == old(store.listeners)[r.binding := Add(old(store.listeners)[r.binding], Callback)]
      && store.computeds == old(store.computeds)
    ensures r.OfComputed? ==>
      && id == NextId(old(store.computeds)[r.computed].listeners)
      && store.listeners == old(store.listeners)
      && store.computeds == old(store.computeds)[r.computed := old(store.computeds)[r.computed].(
           listeners := Add(old(store.computeds)[r.computed].listeners, Callback))]
  {
    match r
    case OfBinding(b) =>
      id := store.WhenChanged(b);
    case OfComputed(j) =>
      id := store.WhenChangedComputed(j);
  }

  /// `watch`, delegated to the referenced binding: a watcher that is not
  /// armed until its own `get` is called.
  method Watch<V(==, !new)>(store: BindingStore<V>, r: BindRef) returns (id: nat)
    requires store.Valid() && Refers(store, r)
    modifies store
    ensures store.Valid() && Refers(store, r) && store.values == old(store.values)
    ensures r.OfBinding? ==>
      && id == NextId(old(store.listeners)[r.binding])
      && store.listeners == old(store.listeners)[r.binding := Add(old(store.listeners)[r.binding], Watcher(false))]
      && store.computeds == old(store.computeds)
    ensures r.OfComputed? ==>
      && id == NextId(old(store.computeds)[r.computed].listeners)
      && store.listeners == old(store.listeners)
      && store.computeds == old(store.computeds)[r.computed := old(store.computeds)[r.computed].(
           listeners := Add(old(store.computeds)[r.computed].listeners, Watcher(false)))]
  {
    match r
    case OfBinding(b) =>
      id := store.Watch(b);
    case OfComputed(j) =>
      id := store.WatchComputed(j);
  }

  /// The `get` of watcher `id` obtained through `r`: the current value, and
  /// the watcher is armed.
  method WatcherGet<V(==, !new)>(store: BindingStore<V>, r: BindRef, id: nat) returns (v: V)
    requires store.Valid() && Refers(store, r)
    modifies store
    ensures store.Valid() && Refers(store, r) && store.values == old(store.values)
    ensures v == old(Current(store, r)) && v == Current(store, r)
    ensures r.OfBinding? ==>
      && store.listeners == old(store.listeners)[r.binding := Arm(old(store.listeners)[r.binding], id)]
      && store.computeds == old(store.computeds)
    ensures r.OfComputed? ==>
      var c := old(store.computeds)[r.computed];
      && store.listeners == old(store.listeners)
      && store.computeds == old(store.computeds)[r.computed := c.(
           cached := Some(v),
           deps := c.calculate.inputs(store.values),
           listeners := Arm(c.listeners, id),
           evaluations := c.evaluations + (if c.cached.None? then 1 else 0))]
  {
    match r
    case OfBinding(b) =>
      v := store.WatcherGet(b, id);
    case OfComputed(j) =>
      v := store.WatcherGetComputed(j, id);
  }

  // ---------------------------------------------------------------------------
  // The behaviour the tests of `BindRef` fix
  // ---------------------------------------------------------------------------

  /// `bindref_matches_core_value` and
  /// `bindref_matches_core_value_when_created_from_ref`: a handle, and a clone
  /// of it, see a later `set` on the binding they were made from.
  method BindRefMatchesCoreValue() returns (before: int, after: int, throughClone: int)
    ensures before == 1 && after == 2 && throughClone == 2
  {
    var store := new BindingStore<int>();
    var bound := store.Bind(1);
    var r := OfBinding(bound);
    var copy := r;
    before := Get(store, r);
    store.Set(bound, 2);
    after := Get(store, r);
    throughClone := Get(store, copy);
  }

  /// `bind_ref_from_value`: a handle made from a value reads that value.
  method BindRefFromValue() returns (v: int)
    ensures v == 1
  {
    var store := new BindingStore<int>();
    var r := FromValue(store, 1);
    v := Get(store, r);
  }

  /// `computed(|| x)`: reads nothing and always computes `x`.
  function Constant<V(!new)>(x: V): (c: Computation<V>)
    ensures WellBehaved(c) && c.captures == {}
  {
    Computation(_ => x, _ => {}, {})
  }

  /// `bind_ref_from_computed`: a handle on `computed(|| 1)` reads 1.
  method BindRefFromComputed() returns (v: int)
    ensures v == 1
  {
    var store := new BindingStore<int>();
    var j := store.NewComputed(Constant(1));
    v := Get(store, OfComputed(j));
  }

  /// Listener `id` is a watcher still in use, armed or not, that has fired
  /// `n` times.
  ghost predicate WatcherFired(reg: Registry, id: nat, armed: bool, n: nat)
  {
    Entry(id, true, Watcher(armed)) in reg.live && id < |reg.fired| && reg.fired[id] == n
  }

  /// Setting the watched binding to a new value: an armed watcher fires once
  /// and is disarmed; a disarmed one does not fire.
  method SetWatched(store: BindingStore<int>, bound: nat, x: int, id: nat, armed: bool, ghost n: nat)
      returns (count: nat)
    requires store.Valid() && bound in store.values && store.values[bound] != x
    requires WatcherFired(store.listeners[bound], id, armed, n)
    modifies store
    ensures store.Valid() && bound in store.values && store.values[bound] == x
    ensures count == n + (if armed then 1 else 0)
    ensures WatcherFired(store.listeners[bound], id, false, count)
  {
    NotifyWatcher(store.listeners[bound], id, armed);
    store.Set(bound, x);
    count := store.listeners[bound].fired[id];
  }

  /// The watcher's `get`: reads the binding and arms the watcher.
  method GetWatched(store: BindingStore<int>, bound: nat, id: nat, armed: bool, ghost n: nat) returns (v: int)
    requires store.Valid() && bound in store.values
    requires WatcherFired(store.listeners[bound], id, armed, n)
    modifies store
    ensures store.Valid() && store.values == old(store.values) && v == store.values[bound]
    ensures WatcherFired(store.listeners[bound], id, true, n)
  {
    ArmWatcher(store.listeners[bound], id, armed);
    v := WatcherGet(store, OfBinding(bound), id);
  }

  /// A watcher added to a binding without listeners gets id 0, is disarmed
  /// and has not fired.
  lemma WatcherFresh()
    ensures WatcherFired(Add(Empty(), Watcher(false)), 0, false, 0)
  {
    assert Add(Empty(), Watcher(false)).live == [Entry(0, true, Watcher(false))];
  }

  /// A new binding holding 1 with a watcher made through a handle on it.
  method WatchNewBinding() returns (store: BindingStore<int>, bound: nat, id: nat)
    ensures fresh(store) && store.Valid() && bound in store.values && store.values[bound] == 1
    ensures WatcherFired(store.listeners[bound], id, false, 0)
  {
    store := new BindingStore<int>();
    bound := store.Bind(1);
    id := Watch(store, OfBinding(bound));
    WatcherFresh();
  }

  /// The first part of `watcher_notifies_after_get`: a watcher made through a
  /// handle does not fire before its `get`; after it, the next change fires it.
  method WatcherFiresAfterGet() returns (store: BindingStore<int>, bound: nat, id: nat, counts: seq<nat>)
    ensures fresh(store) && store.Valid() && bound in store.values && store.values[bound] == 3
    ensures WatcherFired(store.listeners[bound], id, false, 1)
    ensures counts == [0, 0, 1]
  {
    store, bound, id := WatchNewBinding();
    var c0 := store.listeners[bound].fired[id];
    var c1 := SetWatched(store, bound, 2, id, false, 0);
    var _ := GetWatched(store, bound, id, false, 0);
    var c2 := SetWatched(store, bound, 3, id, true, 0);
    counts := [c0, c1, c2];
  }

  /// `watcher_notifies_after_get`: the change count reads 0 before any `get`,
  /// 1 after the first `get` and however many changes follow it, and 2 once
  /// `get` has been called again.
  method WatcherNotifiesAfterGet() returns (counts: seq<nat>)
    ensures counts == [0, 0, 1, 1, 1, 2]
  {
    var store, bound, id, before := WatcherFiresAfterGet();
    var c3 := SetWatched(store, bound, 4, id, false, 1);
    var c4 := SetWatched(store, bound, 5, id, false, 1);
    var _ := GetWatched(store, bound, id, false, 1);
    var c5 := SetWatched(store, bound, 6, id, true, 1);
    counts := [before[0], before[1], before[2], c3, c4, c5];
  }
}
