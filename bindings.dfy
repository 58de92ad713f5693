/// Plain bindings (`bind`, `Binding`) and computed bindings (`computed`,
/// `ComputedBinding`), as the tests of the crate fix their behaviour.
///
/// Every binding of a program lives in one store: a plain binding is a cell
/// with a value and its listeners, named by a number that every clone of its
/// handle shares; a computed binding has a function, a cached value (absent
/// when it has changed since it was last read), the plain bindings its latest
/// evaluation read, and its own listeners.
module Bindings {
  import opened Wrappers
  import opened Notify

  /// A computed binding's function: the value it computes from the plain
  /// bindings, which of them it reads doing so (both may depend on the
  /// values it reads), and the bindings its closure captured.
  datatype Computation<!V> = Computation(eval: map<nat, V> -> V, inputs: map<nat, V> -> set<nat>, captures: set<nat>)

  /// The function reads only bindings it captured, and what it computes and
  /// which bindings it reads depend on nothing but the bindings it reads:
  /// setting or creating any other binding changes neither.
  ghost predicate WellBehaved<V(!new)>(c: Computation<V>)
  {
    && (forall m: map<nat, V> :: c.inputs(m) <= c.captures)
    && (forall m: map<nat, V>, k: nat, x: V {:trigger c.eval(m[k := x])} {:trigger c.inputs(m[k := x])} ::
          k !in c.inputs(m) ==> c.eval(m[k := x]) == c.eval(m) && c.inputs(m[k := x]) == c.inputs(m))
  }

  /// The state of one computed binding.
  datatype ComputedState<!V> = ComputedState(
    calculate: Computation<V>,
    cached: Option<V>,
    deps: set<nat>,
    listeners: Registry,
    evaluations: nat)

  /// The cache holds what the function computes from the current values,
  /// and the dependencies are what that evaluation read.
  ghost predicate CacheValid<V(!new)>(c: ComputedState<V>, values: map<nat, V>)
  {
    && WellBehaved(c.calculate)
    && c.calculate.captures <= values.Keys
    && WellFormed(c.listeners)
    && (c.cached.Some? ==> c.cached.value == c.calculate.eval(values) && c.deps == c.calculate.inputs(values))
  }

  /// What a change of plain binding `b` does to a computed binding: if it
  /// depends on `b` and has been read since it last changed, it forgets its
  /// value and notifies its listeners; otherwise nothing happens (in
  /// particular, a computed binding that has already changed does not notify
  /// again before it is read).
  function Invalidate<V>(c: ComputedState<V>, b: nat): ComputedState<V>
  {
    if c.cached.Some? && b in c.deps then
      c.(cached := None, listeners := Notify.Notify(c.listeners))
    else c
  }

  /// `Invalidate` applied to every computed binding.
  function InvalidateAll<V>(cs: seq<ComputedState<V>>, b: nat): (r: seq<ComputedState<V>>)
    ensures |r| == |cs|
    ensures forall k :: 0 <= k < |r| ==> r[k] == Invalidate(cs[k], b)
  {
    seq(|cs|, k requires 0 <= k < |cs| => Invalidate(cs[k], b))
  }

  /// A computed binding's cache stays right when a plain binding changes: it
  /// is dropped when the binding was read, and otherwise still holds what the
  /// function computes.
  lemma InvalidateKeepsCache<V(!new)>(c: ComputedState<V>, values: map<nat, V>, b: nat, x: V)
    requires CacheValid(c, values)
    ensures CacheValid(Invalidate(c, b), values[b := x])
    ensures Invalidate(c, b).cached.None? <==> c.cached.None? || b in c.deps
  {
    if c.cached.Some? && b !in c.deps {
      assert c.calculate.eval(values[b := x]) == c.calculate.eval(values);
    }
  }

  /// Every plain binding and computed binding of a program.
  class BindingStore<V(==, !new)> {
    /// The value of each plain binding.
    var values: map<nat, V>
    /// The listeners of each plain binding.
    var listeners: map<nat, Registry>
    /// The number the next plain binding receives.
    var nextBinding: nat
    /// The computed bindings, by number.
    var computeds: seq<ComputedState<V>>

    ghost predicate Valid()
      reads this
    {
      && values.Keys == listeners.Keys
      && (forall b :: b in values ==> b < nextBinding)
      && (forall b :: b in listeners ==> WellFormed(listeners[b]))
      && (forall k :: 0 <= k < |computeds| ==> CacheValid(computeds[k], values))
    }

    /// No bindings yet.
    constructor ()
      ensures Valid() && values == map[] && listeners == map[] && computeds == []
    {
      values := map[];
      listeners := map[];
      nextBinding := 0;
      computeds := [];
    }

    /// `bind(v)`: a new plain binding holding `v`, with no listeners. Every
    /// computed binding keeps its cache.
    method Bind(v: V) returns (b: nat)
      requires Valid()
      modifies this
      ensures Valid()
      ensures b !in old(values) && values == old(values)[b := v]
      ensures listeners == old(listeners)[b := Empty()]
      ensures computeds == old(computeds)
    {
      b := nextBinding;
      forall k | 0 <= k < |computeds|
        ensures CacheValid(computeds[k], values[b := v])
      {
        InvalidateKeepsCache(computeds[k], values, b, v);
      }
      values := values[b := v];
      listeners := listeners[b := Empty()];
      nextBinding := nextBinding + 1;
    }

    /// `get` on a plain binding, through any of its clones.
    method Get(b: nat) returns (v: V)
      requires Valid() && b in values
      ensures v == values[b]
    {
      v := values[b];
    }

    /// `set`: a new value that differs from the current one is stored, every
    /// listener still in use is notified, and every computed binding that read
    /// this binding and has been read since is told that it changed. Setting
    /// the value the binding already holds does nothing at all.
    method Set(b: nat, x: V)
      requires Valid() && b in values
      modifies this
      ensures Valid()
      ensures values == old(values)[b := x]
      ensures x == old(values)[b] ==> listeners == old(listeners) && computeds == old(computeds)
      ensures x != old(values)[b] ==>
        && listeners == old(listeners)[b := Notify.Notify(old(listeners)[b])]
        && computeds == InvalidateAll(old(computeds), b)
    {
      if x == values[b] {
        assert values[b := x] == values;
      } else {
        ghost var before := computeds;
        ghost var oldValues := values;
        assert forall k :: 0 <= k < |before| ==> CacheValid(before[k], oldValues);
        values := values[b := x];
        listeners := listeners[b := Notify.Notify(listeners[b])];
        var cs := computeds;
        for k := 0 to |cs|
          invariant |cs| == |before|
          invariant forall i :: 0 <= i < k ==> cs[i] == Invalidate(before[i], b)
          invariant forall i :: k <= i < |cs| ==> cs[i] == before[i]
        {
          cs := cs[k := Invalidate(cs[k], b)];
        }
        computeds := cs;
        forall k | 0 <= k < |computeds|
          ensures CacheValid(computeds[k], values)
        {
          assert CacheValid(before[k], oldValues);
          InvalidateKeepsCache(before[k], oldValues, b, x);
          assert computeds[k] == Invalidate(before[k], b);
        }
      }
    }

    /// `when_changed` on a plain binding.
    method WhenChanged(b: nat) returns (id: nat)
      requires Valid() && b in values
      modifies this
      ensures Valid() && values == old(values) && computeds == old(computeds)
      ensures id == NextId(old(listeners)[b])
      ensures listeners == old(listeners)[b := Add(old(listeners)[b], Callback)]
    {
      id := NextId(listeners[b]);
      listeners := listeners[b := Add(listeners[b], Callback)];
    }

    /// `watch` on a plain binding: a watcher that fires only after its `get`.
    method Watch(b: nat) returns (id: nat)
      requires Valid() && b in values
      modifies this
      ensures Valid() && values == old(values) && computeds == old(computeds)
      ensures id == NextId(old(listeners)[b])
      ensures listeners == old(listeners)[b := Add(old(listeners)[b], Watcher(false))]
    {
      id := NextId(listeners[b]);
      listeners := listeners[b := Add(listeners[b], Watcher(false))];
    }

    /// The `get` of a watcher on a plain binding: reads the binding and arms
    /// the watcher.
    method WatcherGet(b: nat, id: nat) returns (v: V)
      requires Valid() && b in values
      modifies this
      ensures Valid() && values == old(values) && computeds == old(computeds)
      ensures v == values[b]
      ensures listeners == old(listeners)[b := Arm(old(listeners)[b], id)]
    {
      listeners := listeners[b := Arm(listeners[b], id)];
      v := values[b];
    }

    /// `done()` on a listener of a plain binding.
    method Done(b: nat, id: nat)
      requires Valid() && b in values
      modifies this
      ensures Valid() && values == old(values) && computeds == old(computeds)
      ensures listeners == old(listeners)[b := Release(old(listeners)[b], id)]
    {
      listeners := listeners[b := Release(listeners[b], id)];
    }

    /// `computed(f)`: a computed binding that has not been evaluated yet, so
    /// depends on nothing.
    method NewComputed(calculate: Computation<V>) returns (j: nat)
      requires Valid() && WellBehaved(calculate) && calculate.captures <= values.Keys
      modifies this
      ensures Valid() && values == old(values) && listeners == old(listeners)
      ensures j == |old(computeds)|
      ensures computeds == old(computeds) + [ComputedState(calculate, None, {}, Empty(), 0)]
    {
      j := |computeds|;
      computeds := computeds + [ComputedState(calculate, None, {}, Empty(), 0)];
    }

    /// `get` on a computed binding: the cached value if it has not changed
    /// since it was last read, otherwise one evaluation of its function,
    /// whose reads become its dependencies. Either way the result is what the
    /// function computes from the current values.
    method GetComputed(j: nat) returns (v: V)
      requires Valid() && j < |computeds|
      modifies this
      ensures Valid() && values == old(values) && listeners == old(listeners)
      ensures v == old(computeds)[j].calculate.eval(values)
      ensures |computeds| == |old(computeds)|
      ensures computeds == old(computeds)[j := old(computeds)[j].(
        cached := Some(v),
        deps := old(computeds)[j].calculate.inputs(values),
        evaluations := old(computeds)[j].evaluations + (if old(computeds)[j].cached.None? then 1 else 0))]
    {
      var c := computeds[j];
      match c.cached {
        case Some(cachedValue) =>
          v := cachedValue;
        case None =>
          v := c.calculate.eval(values);
          c := c.(cached := Some(v), deps := c.calculate.inputs(values), evaluations := c.evaluations + 1);
      }
      computeds := computeds[j := c];
    }

    /// The `get` of a watcher on a computed binding: reads the computed
    /// binding as `get` does and arms the watcher.
    method WatcherGetComputed(j: nat, id: nat) returns (v: V)
      requires Valid() && j < |computeds|
      modifies this
      ensures Valid() && values == old(values) && listeners == old(listeners)
      ensures v == old(computeds)[j].calculate.eval(values)
      ensures |computeds| == |old(computeds)|
      ensures computeds == old(computeds)[j := old(computeds)[j].(
        cached := Some(v),
        deps := old(computeds)[j].calculate.inputs(values),
        listeners := Arm(old(computeds)[j].listeners, id),
        evaluations := old(computeds)[j].evaluations + (if old(computeds)[j].cached.None? then 1 else 0))]
    {
      v := GetComputed(j);
      var c := computeds[j];
      computeds := computeds[j := c.(listeners := Arm(c.listeners, id))];
    }

    /// `when_changed` on a computed binding.
    method WhenChangedComputed(j: nat) returns (id: nat)
      requires Valid() && j < |computeds|
      modifies this
      ensures Valid() && values == old(values) && listeners == old(listeners)
      ensures id == NextId(old(computeds)[j].listeners)
      ensures computeds == old(computeds)[j := old(computeds)[j].(listeners := Add(old(computeds)[j].listeners, Callback))]
    {
      var c := computeds[j];
      id := NextId(c.listeners);
      computeds := computeds[j := c.(listeners := Add(c.listeners, Callback))];
    }

    /// `watch` on a computed binding.
    method WatchComputed(j: nat) returns (id: nat)
      requires Valid() && j < |computeds|
      modifies this
      ensures Valid() && values == old(values) && listeners == old(listeners)
      ensures id == NextId(old(computeds)[j].listeners)
      ensures computeds == old(computeds)[j := old(computeds)[j].(listeners := Add(old(computeds)[j].listeners, Watcher(false)))]
    {
      var c := computeds[j];
      id := NextId(c.listeners);
      computeds := computeds[j := c.(listeners := Add(c.listeners, Watcher(false)))];
    }

    /// `done()` on a listener of a computed binding.
    method DoneComputed(j: nat, id: nat)
      requires Valid() && j < |computeds|
      modifies this
      ensures Valid() && values == old(values) && listeners == old(listeners)
      ensures computeds == old(computeds)[j := old(computeds)[j].(listeners := Release(old(computeds)[j].listeners, id))]
    {
      var c := computeds[j];
      computeds := computeds[j := c.(listeners := Release(c.listeners, id))];
    }
  }

  /// A set that changes a binding notifies a computed binding's listeners at
  /// most once: only if the computed binding read it and has been read since
  /// it last changed; after that it stays changed until it is read again.
  lemma InvalidateNotifiesOnce<V>(c: ComputedState<V>, b: nat, b2: nat)
    ensures Invalidate(c, b).listeners == (if c.cached.Some? && b in c.deps then Notify.Notify(c.listeners) else c.listeners)
    ensures Invalidate(Invalidate(c, b), b2).listeners == Invalidate(c, b).listeners
            || (c.cached.Some? && b !in c.deps && b2 in c.deps)
  {
  }

  // ---------------------------------------------------------------------------
  // The behaviour the tests of `bind` and `computed` fix
  // ---------------------------------------------------------------------------

  /// `computed(move || from.get() + 1)`: reads `from` alone.
  function PlusOne(from: nat): (c: Computation<int>)
    ensures WellBehaved(c) && c.captures == {from}
  {
    Computation(m => if from in m then m[from] + 1 else 0, m => {from}, {from})
  }

  /// Listener `id` is a callback still in use that has fired `n` times.
  ghost predicate CallbackFired(reg: Registry, id: nat, n: nat)
  {
    Entry(id, true, Callback) in reg.live && id < |reg.fired| && reg.fired[id] == n
  }

  /// A callback still in use fires once more on every notification.
  lemma CallbackFiredNotify(reg: Registry, id: nat, n: nat)
    requires WellFormed(reg) && CallbackFired(reg, id, n)
    ensures CallbackFired(Notify.Notify(reg), id, n + 1)
  {
    NotifyCallbackFiresOnce(reg, id);
  }

  /// `can_create_binding`, `can_update_binding` and the module example on
  /// cloning: a clone is the same handle, so a set through it is what the
  /// original reads.
  method ClonesShareOneCell() returns (created: int, updated: int, throughClone: int)
    ensures created == 1 && updated == 2 && throughClone == 3
  {
    var store := new BindingStore<int>();
    var bound := store.Bind(1);
    created := store.Get(bound);
    store.Set(bound, 2);
    updated := store.Get(bound);
    var another := bound;
    store.Set(another, 3);
    throughClone := store.Get(bound);
  }

  /// `can_update_binding`, `not_notified_on_no_change` and
  /// `notifies_after_each_change`: a binding set to 2, 3 and 4 calls its
  /// callback once per set; setting the value it holds calls nothing.
  method NotifiesAfterEachChange() returns (counts: seq<nat>, v: int)
    ensures counts == [0, 0, 1, 2, 3] && v == 4
  {
    var store := new BindingStore<int>();
    var bound := store.Bind(1);
    var id := store.WhenChanged(bound);
    assert CallbackFired(store.listeners[bound], id, 0);
    var initially := store.listeners[bound].fired[id];
    store.Set(bound, 1);
    var same := store.listeners[bound].fired[id];
    assert same == 0;
    CallbackFiredNotify(store.listeners[bound], id, 0);
    store.Set(bound, 2);
    var first := store.listeners[bound].fired[id];
    assert first == 1;
    CallbackFiredNotify(store.listeners[bound], id, 1);
    store.Set(bound, 3);
    var second := store.listeners[bound].fired[id];
    assert second == 2;
    CallbackFiredNotify(store.listeners[bound], id, 2);
    store.Set(bound, 4);
    var third := store.listeners[bound].fired[id];
    counts := [initially, same, first, second, third];
    v := store.Get(bound);
  }

  /// Setting a binding to a new value calls every callback still listening
  /// to it once.
  method SetNotifyingBoth(store: BindingStore<int>, bound: nat, x: int, first: nat, second: nat, ghost n: nat)
      returns (total: nat)
    requires store.Valid() && bound in store.values && store.values[bound] != x
    requires CallbackFired(store.listeners[bound], first, n) && CallbackFired(store.listeners[bound], second, n)
    modifies store
    ensures store.Valid() && bound in store.values && store.values[bound] == x
    ensures CallbackFired(store.listeners[bound], first, n + 1) && CallbackFired(store.listeners[bound], second, n + 1)
    ensures total == 2 * n + 2
  {
    CallbackFiredNotify(store.listeners[bound], first, n);
    CallbackFiredNotify(store.listeners[bound], second, n);
    store.Set(bound, x);
    total := store.listeners[bound].fired[first] + store.listeners[bound].fired[second];
  }

  /// A binding holding 1 with two callbacks that have not fired yet.
  method TwoCallbacks() returns (store: BindingStore<int>, bound: nat, first: nat, second: nat)
    ensures fresh(store) && store.Valid() && bound in store.values && store.values[bound] == 1
    ensures CallbackFired(store.listeners[bound], first, 0) && CallbackFired(store.listeners[bound], second, 0)
    ensures first != second
  {
    store := new BindingStore<int>();
    bound := store.Bind(1);
    first := store.WhenChanged(bound);
    second := store.WhenChanged(bound);
    TwoCallbacksFresh();
  }

  /// Two callbacks added to a binding without listeners get ids 0 and 1 and
  /// have not fired.
  lemma TwoCallbacksFresh()
    ensures var reg := Add(Add(Empty(), Callback), Callback);
      CallbackFired(reg, 0, 0) && CallbackFired(reg, 1, 0)
  {
    var once := Add(Empty(), Callback);
    assert CallbackFired(once, 0, 0);
    AddKeeps(once, Callback, Entry(0, true, Callback));
  }

  /// `dispatches_multiple_notifications`: two callbacks on one binding both
  /// fire on every change, so the shared counter reads 2, 4 and 6.
  method DispatchesMultipleNotifications() returns (totals: seq<nat>)
    ensures totals == [0, 2, 4, 6]
  {
    var store, bound, first, second := TwoCallbacks();
    var initially := store.listeners[bound].fired[first] + store.listeners[bound].fired[second];
    assert initially == 0;
    var t2 := SetNotifyingBoth(store, bound, 2, first, second, 0);
    assert t2 == 2;
    var t3 := SetNotifyingBoth(store, bound, 3, first, second, 1);
    assert t3 == 4;
    var t4 := SetNotifyingBoth(store, bound, 4, first, second, 2);
    assert t4 == 6;
    totals := [initially, t2, t3, t4];
  }

  /// Setting a binding to a new value once one of its two callbacks is
  /// released calls the other alone.
  method SetNotifyingSecond(store: BindingStore<int>, bound: nat, x: int, first: nat, second: nat, ghost n: nat)
      returns (total: nat)
    requires store.Valid() && bound in store.values && store.values[bound] != x
    requires first < |store.listeners[bound].fired| && store.listeners[bound].fired[first] == 3
    requires forall e :: e in store.listeners[bound].live && e.id == first ==> !e.inUse
    requires CallbackFired(store.listeners[bound], second, n)
    modifies store
    ensures store.Valid() && bound in store.values && store.values[bound] == x
    ensures first < |store.listeners[bound].fired| && store.listeners[bound].fired[first] == 3
    ensures forall e :: e in store.listeners[bound].live && e.id == first ==> !e.inUse
    ensures CallbackFired(store.listeners[bound], second, n + 1)
    ensures total == n + 4
  {
    NotifyReleasedSilent(store.listeners[bound], first);
    CallbackFiredNotify(store.listeners[bound], second, n);
    store.Set(bound, x);
    total := store.listeners[bound].fired[first] + store.listeners[bound].fired[second];
  }

  /// `done()` on the first of two callbacks leaves the second listening.
  method ReleaseFirst(store: BindingStore<int>, bound: nat, first: nat, second: nat)
    requires store.Valid() && bound in store.values && first != second
    requires CallbackFired(store.listeners[bound], first, 3) && CallbackFired(store.listeners[bound], second, 3)
    modifies store
    ensures store.Valid() && bound in store.values && store.values == old(store.values)
    ensures first < |store.listeners[bound].fired| && store.listeners[bound].fired[first] == 3
    ensures forall e :: e in store.listeners[bound].live && e.id == first ==> !e.inUse
    ensures CallbackFired(store.listeners[bound], second, 3)
  {
    ReleaseKeepsOthers(store.listeners[bound], first, Entry(second, true, Callback));
    store.Done(bound, first);
  }

  /// `release_only_affects_one_notification`: after one of the two callbacks
  /// is released, each change adds one: 7, 8 and 9.
  method ReleaseOnlyAffectsOneNotification() returns (totals: seq<nat>)
    ensures totals == [0, 2, 4, 6, 7, 8, 9]
  {
    var store, bound, first, second := TwoCallbacks();
    var before := SetBothThrice(store, bound, first, second);
    ReleaseFirst(store, bound, first, second);
    var t5 := SetNotifyingSecond(store, bound, 5, first, second, 3);
    assert t5 == 7;
    var t6 := SetNotifyingSecond(store, bound, 6, first, second, 4);
    assert t6 == 8;
    var t7 := SetNotifyingSecond(store, bound, 7, first, second, 5);
    assert t7 == 9;
    totals := [before[0], before[1], before[2], before[3], t5, t6, t7];
  }

  /// The first part of `release_only_affects_one_notification`, as in
  /// `dispatches_multiple_notifications`: the binding is set to 2, 3 and 4.
  method SetBothThrice(store: BindingStore<int>, bound: nat, first: nat, second: nat) returns (totals: seq<nat>)
    requires store.Valid() && bound in store.values && store.values[bound] == 1 && first != second
    requires CallbackFired(store.listeners[bound], first, 0) && CallbackFired(store.listeners[bound], second, 0)
    modifies store
    ensures store.Valid() && bound in store.values && store.values[bound] == 4
    ensures CallbackFired(store.listeners[bound], first, 3) && CallbackFired(store.listeners[bound], second, 3)
    ensures totals == [0, 2, 4, 6]
  {
    var t2 := SetNotifyingBoth(store, bound, 2, first, second, 0);
    var t3 := SetNotifyingBoth(store, bound, 3, first, second, 1);
    var t4 := SetNotifyingBoth(store, bound, 4, first, second, 2);
    totals := [0, t2, t3, t4];
  }

  /// `stops_notifying_after_release`: a released callback is not called again.
  method StopsNotifyingAfterRelease() returns (counts: seq<nat>)
    ensures counts == [0, 1, 1, 1]
  {
    var store := new BindingStore<int>();
    var bound := store.Bind(1);
    var id := store.WhenChanged(bound);
    assert CallbackFired(store.listeners[bound], id, 0);
    var before := store.listeners[bound].fired[id];
    CallbackFiredNotify(store.listeners[bound], id, 0);
    store.Set(bound, 2);
    var changed := store.listeners[bound].fired[id];
    assert changed == 1;
    store.Done(bound, id);
    var released := store.listeners[bound].fired[id];
    assert released == 1;
    NotifyReleasedSilent(store.listeners[bound], id);
    store.Set(bound, 3);
    var after := store.listeners[bound].fired[id];
    counts := [before, changed, released, after];
  }

  /// `can_recompute_value` and `computed_caches_values`: `bound + 1` is
  /// evaluated on the first `get`, served from the cache on the second, and
  /// evaluated once more on the first `get` after each change of `bound`
  /// (and not before).
  method ComputedCachesValues() returns (results: seq<int>, evaluations: seq<nat>)
    ensures results == [2, 2, 3, 4]
    ensures evaluations == [1, 1, 2, 2, 3]
  {
    var store, bound, j, v1 := ReadPlusOne();
    var e1 := store.computeds[j].evaluations;
    var v2 := store.GetComputed(j);
    var e2 := store.computeds[j].evaluations;
    assert v2 == 2 && e2 == 1;
    var v3, afterFirstSet, e3, v4, e4, e5;
    v3, afterFirstSet, e3 := SetThenGet(store, bound, j, 2);
    v4, e4, e5 := SetThenGet(store, bound, j, 3);
    results, evaluations := [v1, v2, v3, v4], [e1, e2, e3, e4, e5];
  }

  /// `can_compute_value`: a binding holding 1 and a computed binding
  /// `bound + 1` that has been read once, and so evaluated once.
  method ReadPlusOne() returns (store: BindingStore<int>, bound: nat, j: nat, v: int)
    ensures fresh(store) && store.Valid() && bound in store.values && store.values[bound] == 1
    ensures j < |store.computeds| && store.computeds[j].calculate == PlusOne(bound)
    ensures store.computeds[j].cached.Some? && store.computeds[j].deps == {bound}
    ensures store.computeds[j].evaluations == 1
    ensures v == 2
  {
    store := new BindingStore<int>();
    bound := store.Bind(1);
    j := store.NewComputed(PlusOne(bound));
    v := store.GetComputed(j);
  }

  /// A binding holding 1, and a computed binding `bound + 1` with a callback
  /// that has been read once.
  method ReadPlusOneWithCallback() returns (store: BindingStore<int>, bound: nat, j: nat, id: nat, v: int)
    ensures fresh(store) && store.Valid() && bound in store.values && store.values[bound] == 1
    ensures j < |store.computeds| && store.computeds[j].calculate == PlusOne(bound)
    ensures store.computeds[j].cached.Some? && store.computeds[j].deps == {bound}
    ensures CallbackFired(store.computeds[j].listeners, id, 0)
    ensures v == 2
  {
    store := new BindingStore<int>();
    bound := store.Bind(1);
    j := store.NewComputed(PlusOne(bound));
    id := store.WhenChangedComputed(j);
    v := store.GetComputed(j);
  }

  /// Setting `bound` to `x` on a store whose computed binding `j` is `bound + 1`
  /// and has been read: the computed binding is not evaluated by the set, and
  /// is evaluated once by the `get` that follows it.
  method SetThenGet(store: BindingStore<int>, bound: nat, j: nat, x: int) returns (v: int, afterSet: nat, afterGet: nat)
    requires store.Valid() && bound in store.values && store.values[bound] != x
    requires j < |store.computeds| && store.computeds[j].calculate == PlusOne(bound) && store.computeds[j].cached.Some?
    modifies store
    ensures store.Valid() && bound in store.values && store.values[bound] == x
    ensures j < |store.computeds| && store.computeds[j].calculate == PlusOne(bound) && store.computeds[j].cached.Some?
    ensures v == x + 1
    ensures afterSet == old(store.computeds[j].evaluations) && afterGet == afterSet + 1
    ensures store.computeds[j].evaluations == afterGet
  {
    store.Set(bound, x);
    afterSet := store.computeds[j].evaluations;
    v := store.GetComputed(j);
    afterGet := store.computeds[j].evaluations;
  }

  /// Setting a plain binding that computed binding `j` read when it was last
  /// read: its callback `id` is called and its value is forgotten.
  method SetWhileRead(store: BindingStore<int>, b: nat, x: int, j: nat, id: nat, ghost n: nat)
    requires store.Valid() && b in store.values && store.values[b] != x
    requires j < |store.computeds| && store.computeds[j].cached.Some? && b in store.computeds[j].deps
    requires CallbackFired(store.computeds[j].listeners, id, n)
    modifies store
    ensures store.Valid() && store.values == old(store.values)[b := x]
    ensures j < |store.computeds| && store.computeds[j].calculate == old(store.computeds[j].calculate)
    ensures store.computeds[j].cached.None?
    ensures CallbackFired(store.computeds[j].listeners, id, n + 1)
  {
    CallbackFiredNotify(store.computeds[j].listeners, id, n);
    store.Set(b, x);
  }

  /// Setting a plain binding that computed binding `j` did not read, or
  /// after `j` has already changed: `j` is left exactly as it was.
  method SetUnread(store: BindingStore<int>, b: nat, x: int, j: nat)
    requires store.Valid() && b in store.values && store.values[b] != x
    requires j < |store.computeds| && (store.computeds[j].cached.None? || b !in store.computeds[j].deps)
    modifies store
    ensures store.Valid() && store.values == old(store.values)[b := x]
    ensures j < |store.computeds| && store.computeds[j] == old(store.computeds[j])
  {
    store.Set(b, x);
  }

  /// `computed_notifies_of_changes` and `computed_doesnt_notify_more_than_once`:
  /// the callback of `bound + 1` is called by the first change after a `get`
  /// and not by a second change before the next `get`.
  method ComputedDoesntNotifyMoreThanOnce() returns (counts: seq<nat>, results: seq<int>)
    ensures counts == [0, 1, 1, 2]
    ensures results == [2, 4]
  {
    var store, bound, j, id, r1 := ReadPlusOneWithCallback();
    var c0 := store.computeds[j].listeners.fired[id];
    SetWhileRead(store, bound, 2, j, id, 0);
    var c1 := store.computeds[j].listeners.fired[id];
    SetUnread(store, bound, 3, j);
    var c2 := store.computeds[j].listeners.fired[id];
    assert c2 == 1 && store.computeds[j].calculate == PlusOne(bound);
    var r2 := store.GetComputed(j);
    assert r2 == 4;
    SetWhileRead(store, bound, 4, j, id, 1);
    var c3 := store.computeds[j].listeners.fired[id];
    counts, results := [c0, c1, c2, c3], [r1, r2];
  }

  /// `computed_stops_notifying_when_released`: once its callback is released,
  /// changes still reach the computed value but call nothing.
  method ComputedStopsNotifyingWhenReleased() returns (counts: seq<nat>, results: seq<int>)
    ensures counts == [0, 1, 1, 1]
    ensures results == [2, 3, 4, 5]
  {
    var store, bound, j, id, r1 := ReadPlusOneWithCallback();
    var c0 := store.computeds[j].listeners.fired[id];
    SetWhileRead(store, bound, 2, j, id, 0);
    var c1 := store.computeds[j].listeners.fired[id];
    var r2 := ReleaseAfterGet(store, bound, j, id);
    var r3, c2 := SetReleasedThenGet(store, bound, 3, j, id);
    var r4, c3 := SetReleasedThenGet(store, bound, 4, j, id);
    counts, results := [c0, c1, c2, c3], [r1, r2, r3, r4];
  }

  /// Reads computed binding `j` (`bound + 1`), then releases its callback `id`.
  method ReleaseAfterGet(store: BindingStore<int>, bound: nat, j: nat, id: nat) returns (v: int)
    requires store.Valid() && bound in store.values
    requires j < |store.computeds| && store.computeds[j].calculate == PlusOne(bound)
    requires CallbackFired(store.computeds[j].listeners, id, 1)
    modifies store
    ensures store.Valid() && store.values == old(store.values)
    ensures j < |store.computeds| && store.computeds[j].calculate == PlusOne(bound)
    ensures id < |store.computeds[j].listeners.fired| && store.computeds[j].listeners.fired[id] == 1
    ensures forall e :: e in store.computeds[j].listeners.live && e.id == id ==> !e.inUse
    ensures v == store.values[bound] + 1
  {
    v := store.GetComputed(j);
    store.DoneComputed(j, id);
  }

  /// Setting `bound` to `x` once callback `id` of computed binding `j`
  /// (`bound + 1`) is released, then reading `j`.
  method SetReleasedThenGet(store: BindingStore<int>, bound: nat, x: int, j: nat, id: nat) returns (v: int, count: nat)
    requires store.Valid() && bound in store.values && store.values[bound] != x
    requires j < |store.computeds| && store.computeds[j].calculate == PlusOne(bound)
    requires id < |store.computeds[j].listeners.fired| && store.computeds[j].listeners.fired[id] == 1
    requires forall e :: e in store.computeds[j].listeners.live && e.id == id ==> !e.inUse
    modifies store
    ensures store.Valid() && bound in store.values && store.values[bound] == x
    ensures j < |store.computeds| && store.computeds[j].calculate == PlusOne(bound)
    ensures id < |store.computeds[j].listeners.fired| && store.computeds[j].listeners.fired[id] == 1
    ensures forall e :: e in store.computeds[j].listeners.live && e.id == id ==> !e.inUse
    ensures v == x + 1 && count == 1
  {
    NotifyReleasedSilent(store.computeds[j].listeners, id);
    store.Set(bound, x);
    count := store.computeds[j].listeners.fired[id];
    v := store.GetComputed(j);
  }

  /// The value of binding `b`, with 0 for a binding that does not exist.
  function Lookup(m: map<nat, int>, b: nat): int
  {
    if b in m then m[b] else 0
  }

  /// `computed(move || if switch.get() { second.get() + 1 } else { first.get() + 1 })`,
  /// with the switch off when it holds 0: reads the switch and one of the two.
  function Switched(switch: nat, first: nat, second: nat): (c: Computation<int>)
    ensures WellBehaved(c) && c.captures == {switch, first, second}
  {
    Computation(
      m => if Lookup(m, switch) != 0 then Lookup(m, second) + 1 else Lookup(m, first) + 1,
      m => if Lookup(m, switch) != 0 then {switch, second} else {switch, first},
      {switch, first, second})
  }

  /// `get` on computed binding `j`, which is `Switched(switch, first, second)`:
  /// the value and the dependencies follow the switch.
  method ReadSwitched(store: BindingStore<int>, switch: nat, first: nat, second: nat, j: nat) returns (v: int)
    requires store.Valid() && switch in store.values && first in store.values && second in store.values
    requires j < |store.computeds| && store.computeds[j].calculate == Switched(switch, first, second)
    modifies store
    ensures store.Valid() && store.values == old(store.values)
    ensures j < |store.computeds| && store.computeds[j].calculate == Switched(switch, first, second)
    ensures store.computeds[j].listeners == old(store.computeds[j].listeners)
    ensures store.computeds[j].cached.Some?
    ensures v == (if store.values[switch] != 0 then store.values[second] else store.values[first]) + 1
    ensures store.computeds[j].deps == if store.values[switch] != 0 then {switch, second} else {switch, first}
  {
    v := store.GetComputed(j);
  }

  /// Computed binding `j` of `store` is `Switched(switch, first, second)`
  /// over three distinct plain bindings, and its callback `id` has fired `n`
  /// times.
  ghost predicate SwitchedAt(store: BindingStore<int>, switch: nat, first: nat, second: nat, j: nat, id: nat, n: nat)
    reads store
  {
    && store.Valid()
    && switch in store.values && first in store.values && second in store.values
    && switch != first && switch != second && first != second
    && j < |store.computeds| && store.computeds[j].calculate == Switched(switch, first, second)
    && CallbackFired(store.computeds[j].listeners, id, n)
  }

  /// The bindings of `computed_switches_dependencies`: the switch (off), the
  /// first binding (1), the second one (2), and a computed binding choosing
  /// between them with a callback, read once.
  method SwitchSetUp() returns (store: BindingStore<int>, switch: nat, first: nat, second: nat, j: nat, id: nat, v: int)
    ensures fresh(store) && SwitchedAt(store, switch, first, second, j, id, 0)
    ensures store.values[switch] == 0 && store.values[first] == 1 && store.values[second] == 2
    ensures store.computeds[j].cached.Some? && store.computeds[j].deps == {switch, first}
    ensures v == 2
  {
    store := new BindingStore<int>();
    switch := store.Bind(0);
    first := store.Bind(1);
    second := store.Bind(2);
    j := store.NewComputed(Switched(switch, first, second));
    id := store.WhenChangedComputed(j);
    v := ReadSwitched(store, switch, first, second, j);
  }

  /// The first half of `computed_switches_dependencies`: while the switch is
  /// off, changing the second binding neither notifies nor changes the value,
  /// and changing the first one does both.
  method SwitchOff() returns (store: BindingStore<int>, switch: nat, first: nat, second: nat, j: nat, id: nat,
                              counts: seq<nat>, results: seq<int>)
    ensures fresh(store) && SwitchedAt(store, switch, first, second, j, id, 1)
    ensures store.values[switch] == 0 && store.values[first] == 2 && store.values[second] == 3
    ensures store.computeds[j].cached.Some? && store.computeds[j].deps == {switch, first}
    ensures counts == [0, 0, 1]
    ensures results == [2, 2, 3]
  {
    var r0;
    store, switch, first, second, j, id, r0 := SwitchSetUp();
    assert second !in store.computeds[j].deps;
    var c1, r1 := SetAndReadSwitched(store, switch, first, second, j, id, second, 3, 0);
    assert store.values[switch] == 0 && store.values[first] == 1 && store.values[second] == 3;
    assert c1 == 0 && r1 == 2;
    var c2, r2 := SetAndReadSwitched(store, switch, first, second, j, id, first, 2, 0);
    assert store.values[switch] == 0 && store.values[first] == 2 && store.values[second] == 3;
    counts, results := [0, c1, c2], [r0, r1, r2];
  }

  /// One step of `computed_switches_dependencies`: sets plain binding `b` to
  /// a new value `x`, notes how often the callback has fired, and reads the
  /// computed binding. The callback fires exactly when `b` is one of the
  /// bindings the previous read depended on.
  method SetAndReadSwitched(store: BindingStore<int>, switch: nat, first: nat, second: nat, j: nat, id: nat,
                            b: nat, x: int, ghost n: nat) returns (count: nat, v: int)
    requires SwitchedAt(store, switch, first, second, j, id, n)
    requires b in store.values && store.values[b] != x && store.computeds[j].cached.Some?
    modifies store
    ensures count == n + (if b in old(store.computeds[j].deps) then 1 else 0)
    ensures SwitchedAt(store, switch, first, second, j, id, count)
    ensures store.values == old(store.values)[b := x]
    ensures store.computeds[j].cached.Some?
    ensures v == (if store.values[switch] != 0 then store.values[second] else store.values[first]) + 1
    ensures store.computeds[j].deps == if store.values[switch] != 0 then {switch, second} else {switch, first}
  {
    if b in store.computeds[j].deps {
      SetWhileRead(store, b, x, j, id, n);
    } else {
      SetUnread(store, b, x, j);
    }
    count := store.computeds[j].listeners.fired[id];
    v := ReadSwitched(store, switch, first, second, j);
  }

  /// `computed_switches_dependencies`: once the switch is turned on, the
  /// first binding stops mattering and the second one does.
  method ComputedSwitchesDependencies() returns (counts: seq<nat>, results: seq<int>)
    ensures counts == [0, 0, 1, 2, 3, 3]
    ensures results == [2, 2, 3, 4, 5, 5]
  {
    var store, switch, first, second, j, id, before, earlier := SwitchOff();
    var c3, r3 := SetAndReadSwitched(store, switch, first, second, j, id, switch, 1, 1);
    var c4, r4 := SetAndReadSwitched(store, switch, first, second, j, id, second, 4, 2);
    var c5, r5 := SetAndReadSwitched(store, switch, first, second, j, id, first, 5, 3);
    counts := [before[0], before[1], before[2], c3, c4, c5];
    results := [earlier[0], earlier[1], earlier[2], r3, r4, r5];
  }
}
