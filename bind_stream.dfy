/// `bind_stream`: a binding whose value is folded from the items of a stream.
///
/// Each item replaces the value with `update(value, item)`. When that changes
/// the value, the notification list is pruned of released listeners and every
/// remaining listener is marked as changed; an item that leaves the value as
/// it was notifies nobody.
module StreamBindings {
  import opened Notify

  /// The value after folding `update` over `items`, in stream order.
  function Fold<V, I>(update: (V, I) -> V, v: V, items: seq<I>): V
    decreases |items|
  {
    if items == [] then v else Fold(update, update(v, items[0]), items[1..])
  }

  /// How many of `items` change the value when folded in turn: the number of
  /// notifications the stream sends.
  function Changes<V(==), I>(update: (V, I) -> V, v: V, items: seq<I>): (r: nat)
    ensures r <= |items|
    decreases |items|
  {
    if items == [] then 0
    else (if update(v, items[0]) != v then 1 else 0) + Changes(update, update(v, items[0]), items[1..])
  }

  /// Folding a longer stream is folding its first part, then the rest from
  /// where the first part left the value; the changes of the two parts add up.
  lemma {:induction false} FoldConcat<V, I>(update: (V, I) -> V, v: V, a: seq<I>, b: seq<I>)
    ensures Fold(update, v, a + b) == Fold(update, Fold(update, v, a), b)
    ensures Changes(update, v, a + b) == Changes(update, v, a) + Changes(update, Fold(update, v, a), b)
    decreases |a|
  {
    if a == [] {
      assert a + b == b;
    } else {
      assert (a + b)[1..] == a[1..] + b;
      FoldConcat(update, update(v, a[0]), a[1..], b);
    }
  }

  /// One more item: it changes the value exactly when `update` gives something new.
  lemma FoldSnoc<V, I>(update: (V, I) -> V, v: V, items: seq<I>, x: I)
    ensures Fold(update, v, items + [x]) == update(Fold(update, v, items), x)
    ensures Changes(update, v, items + [x]) ==
      Changes(update, v, items) + (if update(Fold(update, v, items), x) != Fold(update, v, items) then 1 else 0)
  {
    FoldConcat(update, v, items, [x]);
    var w := Fold(update, v, items);
    assert [x][1..] == [];
    assert Fold(update, w, [x]) == Fold(update, update(w, x), []);
    assert Changes(update, w, [x]) == (if update(w, x) != w then 1 else 0) + Changes(update, update(w, x), []);
  }

  /// The items of a stream as `ready_chunks` hands them over, joined back up.
  function Join<I>(chunks: seq<seq<I>>): (r: seq<I>)
    ensures chunks == [] ==> r == []
    decreases |chunks|
  {
    if chunks == [] then [] else chunks[0] + Join(chunks[1..])
  }

  /// Folding the chunks one after another.
  function FoldChunks<V, I>(update: (V, I) -> V, v: V, chunks: seq<seq<I>>): V
    decreases |chunks|
  {
    if chunks == [] then v else FoldChunks(update, Fold(update, v, chunks[0]), chunks[1..])
  }

  /// However the stream is cut into chunks, folding chunk by chunk gives the
  /// value of folding every item in order.
  lemma {:induction false} FoldChunksJoin<V, I>(update: (V, I) -> V, v: V, chunks: seq<seq<I>>)
    ensures FoldChunks(update, v, chunks) == Fold(update, v, Join(chunks))
    decreases |chunks|
  {
    if chunks != [] {
      FoldConcat(update, v, chunks[0], Join(chunks[1..]));
      FoldChunksJoin(update, Fold(update, v, chunks[0]), chunks[1..]);
    }
  }

  /// Notifying once more after `n` notifications.
  lemma {:induction false} NotifyTimesSnoc(reg: Registry, n: nat)
    ensures NotifyTimes(reg, n + 1) == Notify.Notify(NotifyTimes(reg, n))
    decreases n
  {
    if n > 0 {
      NotifyTimesSnoc(Notify.Notify(reg), n - 1);
    }
  }

  /// `n` notifications followed by `m` more are `n + m` notifications.
  lemma {:induction false} NotifyTimesAdd(reg: Registry, n: nat, m: nat)
    ensures NotifyTimes(reg, n + m) == NotifyTimes(NotifyTimes(reg, n), m)
    decreases m
  {
    var r := NotifyTimes(reg, n);
    if m == 0 {
      assert NotifyTimes(r, 0) == r;
    } else {
      var k: nat := n + m - 1;
      NotifyTimesAdd(reg, n, m - 1);
      assert NotifyTimes(reg, k) == NotifyTimes(r, m - 1);
      NotifyTimesSnoc(reg, k);
      NotifyTimesSnoc(r, m - 1);
      assert NotifyTimes(reg, k + 1) == Notify.Notify(NotifyTimes(r, m - 1));
    }
  }

  /// A binding fed by a stream (`StreamBinding` and its `StreamBindingCore`).
  class StreamBinding<V(==), I> {
    /// The current value.
    var value: V
    /// The listeners (`notifications`).
    var notifications: Registry
    /// The update function given to `bind_stream`.
    const update: (V, I) -> V
    /// The initial value given to `bind_stream`.
    const initial: V
    /// Every item taken from the stream so far.
    ghost var received: seq<I>

    /// The value is the fold of everything received; the listener list is well formed.
    ghost predicate Valid()
      reads this
    {
      WellFormed(notifications) && value == Fold(update, initial, received)
    }

    /// `bind_stream(stream, initial_value, update)` before the stream has
    /// produced anything.
    constructor (initialValue: V, updateFn: (V, I) -> V)
      ensures Valid()
      ensures value == initialValue && initial == initialValue && update == updateFn
      ensures notifications == Empty() && received == []
    {
      value := initialValue;
      initial := initialValue;
      update := updateFn;
      notifications := Empty();
      received := [];
    }

    /// The body given to `pipe_in`: handles one chunk of items in order. An
    /// item that changes the value stores the new value and notifies every
    /// listener still in use; one that does not leaves everything as it was.
    method ProcessItems(items: seq<I>)
      requires Valid()
      modifies this
      ensures Valid() && received == old(received) + items
      ensures value == Fold(update, old(value), items)
      ensures notifications == NotifyTimes(old(notifications), Changes(update, old(value), items))
    {
      var v := value;
      var reg := notifications;
      ghost var count: nat := 0;
      for i := 0 to |items|
        modifies {}
        invariant WellFormed(reg)
        invariant v == Fold(update, value, items[..i])
        invariant count == Changes(update, value, items[..i])
        invariant reg == NotifyTimes(notifications, count)
      {
        assert items[..i + 1] == items[..i] + [items[i]];
        FoldSnoc(update, value, items[..i], items[i]);
        var newValue := update(v, items[i]);
        if newValue != v {
          NotifyTimesSnoc(notifications, count);
          v := newValue;
          reg := Notify.Notify(reg);
          count := count + 1;
        }
      }
      assert items[..|items|] == items;
      FoldConcat(update, initial, received, items);
      value, notifications, received := v, reg, received + items;
    }

    /// The whole stream, handed over chunk by chunk.
    method ProcessChunks(chunks: seq<seq<I>>)
      requires Valid()
      modifies this
      ensures Valid() && received == old(received) + Join(chunks)
      ensures value == Fold(update, old(value), Join(chunks))
      ensures notifications == NotifyTimes(old(notifications), Changes(update, old(value), Join(chunks)))
    {
      ghost var v0 := value;
      ghost var r0 := received;
      ghost var reg0 := notifications;
      for k := 0 to |chunks|
        invariant Valid()
        invariant received == r0 + Join(chunks[..k])
        invariant value == Fold(update, v0, Join(chunks[..k]))
        invariant notifications == NotifyTimes(reg0, Changes(update, v0, Join(chunks[..k])))
      {
        ProcessChunk(chunks, k, v0, r0, reg0);
      }
      assert chunks[..|chunks|] == chunks;
    }

    /// One chunk of `ProcessChunks`: the items so far and this chunk's items
    /// together are the items of the chunks up to this one.
    method ProcessChunk(chunks: seq<seq<I>>, k: nat, ghost v0: V, ghost r0: seq<I>, ghost reg0: Registry)
      requires Valid() && k < |chunks|
      requires received == r0 + Join(chunks[..k]) && value == Fold(update, v0, Join(chunks[..k]))
      requires notifications == NotifyTimes(reg0, Changes(update, v0, Join(chunks[..k])))
      modifies this
      ensures Valid()
      ensures received == r0 + Join(chunks[..k + 1]) && value == Fold(update, v0, Join(chunks[..k + 1]))
      ensures notifications == NotifyTimes(reg0, Changes(update, v0, Join(chunks[..k + 1])))
    {
      ChunkStep(update, v0, chunks, k);
      NotifyTimesAdd(reg0, Changes(update, v0, Join(chunks[..k])), Changes(update, value, chunks[k]));
      ProcessItems(chunks[k]);
    }

    /// `filter_unused_notifications`: drops the released listeners, keeping
    /// the others in order.
    method FilterUnusedNotifications()
      requires Valid()
      modifies this
      ensures Valid()
      ensures notifications.live == InUseOnly(old(notifications).live)
      ensures notifications.fired == old(notifications).fired
      ensures value == old(value) && received == old(received)
    {
      InUseOnlyAscending(notifications.live);
      InUseOnlyMembers(notifications.live);
      notifications := notifications.(live := InUseOnly(notifications.live));
    }

    /// `get`: the value folded from everything received so far.
    method Get() returns (v: V)
      requires Valid()
      ensures v == Fold(update, initial, received)
    {
      v := value;
    }

    /// `when_changed`: registers a callback and prunes released listeners.
    method WhenChanged() returns (id: nat)
      requires Valid()
      modifies this
      ensures Valid() && value == old(value) && received == old(received)
      ensures id == NextId(old(notifications))
      ensures notifications == Add(old(notifications), Callback)
    {
      id := NextId(notifications);
      notifications := Add(notifications, Callback);
    }

    /// `watch`: registers a watcher, which fires only after its own `get`.
    method Watch() returns (id: nat)
      requires Valid()
      modifies this
      ensures Valid() && value == old(value) && received == old(received)
      ensures id == NextId(old(notifications))
      ensures notifications == Add(old(notifications), Watcher(false))
    {
      id := NextId(notifications);
      notifications := Add(notifications, Watcher(false));
    }

    /// The watcher's `get`: reads the binding and arms the watcher.
    method WatcherGet(id: nat) returns (v: V)
      requires Valid()
      modifies this
      ensures Valid() && value == old(value) && received == old(received)
      ensures v == value
      ensures notifications == Arm(old(notifications), id)
    {
      notifications := Arm(notifications, id);
      v := value;
    }

    /// `done()` on a listener: it stops firing.
    method Done(id: nat)
      requires Valid()
      modifies this
      ensures Valid() && value == old(value) && received == old(received)
      ensures notifications == Release(old(notifications), id)
    {
      notifications := Release(notifications, id);
    }
  }

  /// Folding one more chunk continues from where the earlier chunks left the value.
  lemma ChunkStep<V, I>(update: (V, I) -> V, v: V, chunks: seq<seq<I>>, k: nat)
    requires k < |chunks|
    ensures Join(chunks[..k + 1]) == Join(chunks[..k]) + chunks[k]
    ensures Fold(update, v, Join(chunks[..k + 1])) == Fold(update, Fold(update, v, Join(chunks[..k])), chunks[k])
    ensures Changes(update, v, Join(chunks[..k + 1])) ==
      Changes(update, v, Join(chunks[..k])) + Changes(update, Fold(update, v, Join(chunks[..k])), chunks[k])
  {
    assert chunks[..k + 1] == chunks[..k] + [chunks[k]];
    JoinSnoc(chunks[..k], chunks[k]);
    FoldConcat(update, v, Join(chunks[..k]), chunks[k]);
  }

  lemma {:induction false} JoinSnoc<I>(chunks: seq<seq<I>>, c: seq<I>)
    ensures Join(chunks + [c]) == Join(chunks) + c
    decreases |chunks|
  {
    if chunks == [] {
      assert [c][1..] == [];
    } else {
      assert (chunks + [c])[1..] == chunks[1..] + [c];
      JoinSnoc(chunks[1..], c);
    }
  }

  /// A callback listening throughout fires once for each item that changed
  /// the value, and for no other.
  lemma CallbackFiresPerChange<V, I>(reg: Registry, id: nat, update: (V, I) -> V, v: V, items: seq<I>)
    requires WellFormed(reg) && Entry(id, true, Callback) in reg.live
    ensures id < |reg.fired|
    ensures NotifyTimes(reg, Changes(update, v, items)).fired[id] == reg.fired[id] + Changes(update, v, items)
  {
    NotifyTimesCallback(reg, id, Changes(update, v, items));
  }

  /// An item equal to the current value (with `update` keeping the newest
  /// item) changes nothing and notifies nobody.
  lemma SameValueNoChange<V>(v: V)
    ensures Changes((_: V, x: V) => x, v, [v]) == 0
    ensures Fold((_: V, x: V) => x, v, [v]) == v
  {
    assert [v][1..] == [];
  }

  // ---------------------------------------------------------------------------
  // The behaviour the tests of `bind_stream` fix
  // ---------------------------------------------------------------------------

  /// The stream 1, 2, 3 with `update` keeping the newest item leaves 3.
  method StreamInAllValues() returns (v: int)
    ensures v == 3
  {
    var binding := new StreamBinding<int, int>(0, (_: int, x: int) => x);
    binding.ProcessItems([1, 2, 3]);
    assert Fold(binding.update, 0, [1, 2, 3]) == Fold(binding.update, 1, [2, 3]);
    assert Fold(binding.update, 1, [2, 3]) == Fold(binding.update, 2, [3]);
    assert Fold(binding.update, 2, [3]) == Fold(binding.update, 3, []);
    v := binding.Get();
  }

  /// The stream 1, 2, 3 with `update` adding 42 to the newest item leaves 45.
  method StreamProcessesUpdates() returns (v: int)
    ensures v == 45
  {
    var binding := new StreamBinding<int, int>(0, (_: int, x: int) => x + 42);
    binding.ProcessItems([1, 2, 3]);
    assert Fold(binding.update, 0, [1, 2, 3]) == Fold(binding.update, 43, [2, 3]);
    assert Fold(binding.update, 43, [2, 3]) == Fold(binding.update, 44, [3]);
    assert Fold(binding.update, 44, [3]) == Fold(binding.update, 45, []);
    v := binding.Get();
  }

  /// A callback is not called before anything arrives, and is called once
  /// when 42 arrives on a binding holding 0.
  method NotifiesOnChange() returns (before: nat, after: nat, v: int)
    ensures before == 0 && after == 1 && v == 42
  {
    var binding := new StreamBinding<int, int>(0, (_: int, x: int) => x);
    var id := binding.WhenChanged();
    assert Entry(id, true, Callback) in binding.notifications.live;
    before := binding.notifications.fired[id];
    assert [42][1..] == [];
    assert Changes(binding.update, 0, [42]) == 1;
    NotifyTimesCallback(binding.notifications, id, 1);
    binding.ProcessItems([42]);
    after := binding.notifications.fired[id];
    v := binding.Get();
  }

  /// A watcher whose `get` has been called is notified when 42 arrives.
  method WatcherNotifiesOnChange() returns (before: nat, after: nat, v: int)
    ensures before == 0 && after == 1 && v == 42
  {
    var binding := new StreamBinding<int, int>(0, (_: int, x: int) => x);
    var id := binding.Watch();
    assert Entry(id, true, Watcher(false)) in binding.notifications.live;
    before := binding.notifications.fired[id];
    var _ := binding.WatcherGet(id);
    assert binding.notifications.live[|binding.notifications.live| - 1] == Entry(id, true, Watcher(true));
    assert [42][1..] == [];
    assert Changes(binding.update, 0, [42]) == 1;
    NotifyTimesWatcher(binding.notifications, id, true, 1);
    binding.ProcessItems([42]);
    after := binding.notifications.fired[id];
    v := binding.Get();
  }

  /// Sending 0 to a binding holding 0 notifies nobody.
  method NoNotificationOnNoChange() returns (after: nat, v: int)
    ensures after == 0 && v == 0
  {
    var binding := new StreamBinding<int, int>(0, (_: int, x: int) => x);
    var id := binding.WhenChanged();
    SameValueNoChange(0);
    binding.ProcessItems([0]);
    after := binding.notifications.fired[id];
    v := binding.Get();
  }
}
