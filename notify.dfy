/// The list of things to notify that every binding keeps (`Vec<ReleasableNotifiable>`),
/// together with what notifying them has done so far.
///
/// A listener is registered by `when_changed` (a plain callback) or by `watch`
/// (a watcher, which fires only when its own `get` has been called since it
/// last fired). Releasing a listener marks it as no longer in use; released
/// entries are pruned from the list the next time it is filtered. The number
/// of times each listener has fired is kept by listener id: it is what the
/// callbacks of the tests count.
module Notify {

  /// A plain `when_changed` callback, or a watcher that is armed when its
  /// `get` has been called since it last fired.
  datatype Kind = Callback | Watcher(armed: bool)

  /// One entry of the notification list.
  datatype Entry = Entry(id: nat, inUse: bool, kind: Kind)

  /// The notification list `live`, and for every listener id ever handed out
  /// the number of times that listener has fired.
  datatype Registry = Registry(live: seq<Entry>, fired: seq<nat>)

  /// Marking this entry as changed calls its callback.
  predicate Fires(e: Entry)
  {
    e.inUse && (e.kind.Callback? || e.kind.armed)
  }

  /// The ids in `ls` appear in strictly increasing order (so each appears once).
  predicate Ascending(ls: seq<Entry>)
  {
    forall i, j :: 0 <= i < j < |ls| ==> ls[i].id < ls[j].id
  }

  /// Every listed id has been handed out, and ids are listed in the order
  /// they were registered.
  predicate WellFormed(reg: Registry)
  {
    Ascending(reg.live) && forall e :: e in reg.live ==> e.id < |reg.fired|
  }

  // ---------------------------------------------------------------------------
  // Filtering (`retain(|n| n.is_in_use())`)
  // ---------------------------------------------------------------------------

  /// The entries of `ls` that are still in use, in their original order.
  function InUseOnly(ls: seq<Entry>): (r: seq<Entry>)
    ensures |r| <= |ls|
  {
    if ls == [] then [] else (if ls[0].inUse then [ls[0]] else []) + InUseOnly(ls[1..])
  }

  /// Filtering keeps exactly the entries that are in use.
  lemma {:induction false} InUseOnlyMembers(ls: seq<Entry>)
    ensures forall e :: e in InUseOnly(ls) <==> e in ls && e.inUse
  {
    if ls != [] {
      InUseOnlyMembers(ls[1..]);
      assert ls == [ls[0]] + ls[1..];
    }
  }

  /// Filtering distributes over concatenation: it keeps the order of entries.
  lemma {:induction false} InUseOnlyConcat(a: seq<Entry>, b: seq<Entry>)
    ensures InUseOnly(a + b) == InUseOnly(a) + InUseOnly(b)
  {
    if a == [] {
      assert a + b == b;
    } else {
      assert (a + b)[0] == a[0];
      assert (a + b)[1..] == a[1..] + b;
      InUseOnlyConcat(a[1..], b);
      var head: seq<Entry> := if a[0].inUse then [a[0]] else [];
      assert InUseOnly(a + b) == head + (InUseOnly(a[1..]) + InUseOnly(b));
      assert InUseOnly(a) == head + InUseOnly(a[1..]);
    }
  }

  /// A list whose entries are all in use is left as it is.
  lemma {:induction false} InUseOnlyAllInUse(ls: seq<Entry>)
    requires forall e :: e in ls ==> e.inUse
    ensures InUseOnly(ls) == ls
  {
    if ls != [] {
      assert forall e :: e in ls[1..] ==> e in ls;
      InUseOnlyAllInUse(ls[1..]);
    }
  }

  /// Filtering twice is filtering once.
  lemma InUseOnlyIdempotent(ls: seq<Entry>)
    ensures InUseOnly(InUseOnly(ls)) == InUseOnly(ls)
  {
    InUseOnlyMembers(ls);
    InUseOnlyAllInUse(InUseOnly(ls));
  }

  /// Filtering keeps registration order.
  lemma {:induction false} InUseOnlyAscending(ls: seq<Entry>)
    ensures Ascending(ls) ==> Ascending(InUseOnly(ls))
  {
    if ls != [] && Ascending(ls) {
      InUseOnlyAscending(ls[1..]);
      var rest := InUseOnly(ls[1..]);
      InUseOnlyMembers(ls[1..]);
      forall e | e in rest
        ensures ls[0].id < e.id
      {
        var k :| 0 <= k < |ls[1..]| && ls[1..][k] == e;
        assert ls[k + 1] == e;
      }
    }
  }

  // ---------------------------------------------------------------------------
  // Registering, releasing, arming
  // ---------------------------------------------------------------------------

  /// No listener registered yet.
  function Empty(): (r: Registry)
    ensures WellFormed(r) && r.live == [] && r.fired == []
  {
    Registry([], [])
  }

  /// The id the next registered listener receives.
  function NextId(reg: Registry): nat
  {
    |reg.fired|
  }

  /// Pushes a new in-use entry of kind `kind` and then filters the list
  /// (the body of `when_changed` and `watch`).
  function Add(reg: Registry, kind: Kind): (r: Registry)
    requires WellFormed(reg)
    ensures WellFormed(r)
    ensures r.live == InUseOnly(reg.live) + [Entry(NextId(reg), true, kind)]
    ensures r.fired == reg.fired + [0]
  {
    var e := Entry(NextId(reg), true, kind);
    InUseOnlyConcat(reg.live, [e]);
    assert InUseOnly([e]) == [e] + InUseOnly([e][1..]);
    InUseOnlyAscending(reg.live + [e]);
    InUseOnlyMembers(reg.live + [e]);
    Registry(InUseOnly(reg.live + [e]), reg.fired + [0])
  }

  /// Registering another listener keeps every in-use entry listed, and
  /// lists the new one.
  lemma AddKeeps(reg: Registry, kind: Kind, e: Entry)
    requires WellFormed(reg) && e in reg.live && e.inUse
    ensures e in Add(reg, kind).live && Entry(NextId(reg), true, kind) in Add(reg, kind).live
  {
    InUseOnlyMembers(reg.live);
  }

  /// The entry with this id stops being in use (`Releasable::done`).
  function ReleaseEntry(e: Entry, id: nat): Entry
  {
    if e.id == id then e.(inUse := false) else e
  }

  /// Releases listener `id`; it is pruned at the next filter.
  function Release(reg: Registry, id: nat): (r: Registry)
    requires WellFormed(reg)
    ensures WellFormed(r)
    ensures |r.live| == |reg.live| && r.fired == reg.fired
    ensures forall e :: e in r.live && e.id == id ==> !e.inUse
    ensures forall i :: 0 <= i < |r.live| && reg.live[i].id != id ==> r.live[i] == reg.live[i]
  {
    var live := seq(|reg.live|, i requires 0 <= i < |reg.live| => ReleaseEntry(reg.live[i], id));
    Registry(live, reg.fired)
  }

  /// Releasing one listener leaves every other entry listed as it was.
  lemma ReleaseKeepsOthers(reg: Registry, id: nat, e: Entry)
    requires WellFormed(reg) && e in reg.live && e.id != id
    ensures e in Release(reg, id).live
  {
    var i :| 0 <= i < |reg.live| && reg.live[i] == e;
    assert Release(reg, id).live[i] == e;
  }

  /// Watcher `id` has had its `get` called: it is armed again.
  function ArmEntry(e: Entry, id: nat): Entry
  {
    if e.id == id && e.kind.Watcher? then e.(kind := Watcher(true)) else e
  }

  /// Arms watcher `id` (the effect of the watcher's `get`).
  function Arm(reg: Registry, id: nat): (r: Registry)
    requires WellFormed(reg)
    ensures WellFormed(r)
    ensures |r.live| == |reg.live| && r.fired == reg.fired
    ensures forall i :: 0 <= i < |r.live| ==>
      r.live[i].id == reg.live[i].id && r.live[i].inUse == reg.live[i].inUse
    ensures forall i :: 0 <= i < |r.live| && reg.live[i].id == id && reg.live[i].kind.Watcher? ==>
      r.live[i].kind == Watcher(true)
    ensures forall i :: 0 <= i < |r.live| && reg.live[i].id != id ==> r.live[i] == reg.live[i]
  {
    var live := seq(|reg.live|, i requires 0 <= i < |reg.live| => ArmEntry(reg.live[i], id));
    Registry(live, reg.fired)
  }

  /// The `get` of a listed watcher arms it.
  lemma ArmWatcher(reg: Registry, id: nat, armed: bool)
    requires WellFormed(reg) && Entry(id, true, Watcher(armed)) in reg.live
    ensures Entry(id, true, Watcher(true)) in Arm(reg, id).live
  {
    var i :| 0 <= i < |reg.live| && reg.live[i] == Entry(id, true, Watcher(armed));
    assert Arm(reg, id).live[i] == Entry(id, true, Watcher(true));
  }

  // ---------------------------------------------------------------------------
  // Notifying (`retain` then `mark_as_changed` on every entry)
  // ---------------------------------------------------------------------------

  /// The ids whose callbacks marking the list calls.
  function Firing(ls: seq<Entry>): set<nat>
  {
    set e | e in ls && Fires(e) :: e.id
  }

  /// A watcher that fires is disarmed until its next `get`.
  function Disarm(e: Entry): Entry
  {
    if e.kind.Watcher? then e.(kind := Watcher(false)) else e
  }

  /// Every watcher in `ls` disarmed.
  function DisarmAll(ls: seq<Entry>): (r: seq<Entry>)
    ensures |r| == |ls|
    ensures forall i :: 0 <= i < |r| ==> r[i] == Disarm(ls[i])
  {
    seq(|ls|, i requires 0 <= i < |ls| => Disarm(ls[i]))
  }

  /// Disarming keeps every id, in order.
  lemma DisarmAllIds(ls: seq<Entry>)
    ensures forall e :: e in DisarmAll(ls) ==> exists k :: 0 <= k < |ls| && e == Disarm(ls[k])
    ensures Ascending(ls) ==> Ascending(DisarmAll(ls))
  {
    forall e | e in DisarmAll(ls)
      ensures exists k :: 0 <= k < |ls| && e == Disarm(ls[k])
    {
      var k :| 0 <= k < |DisarmAll(ls)| && DisarmAll(ls)[k] == e;
    }
  }

  /// One more firing for every listener in `firing`.
  function Bump(fired: seq<nat>, firing: set<nat>): (r: seq<nat>)
    ensures |r| == |fired|
    ensures forall i :: 0 <= i < |r| ==> r[i] == if i in firing then fired[i] + 1 else fired[i]
  {
    seq(|fired|, i requires 0 <= i < |fired| => if i in firing then fired[i] + 1 else fired[i])
  }

  /// Prunes the released entries, then marks every remaining one as changed.
  function Notify(reg: Registry): (r: Registry)
    ensures WellFormed(reg) ==> WellFormed(r)
    ensures |r.live| == |InUseOnly(reg.live)| && |r.fired| == |reg.fired|
    ensures forall i :: 0 <= i < |r.fired| ==> r.fired[i] >= reg.fired[i]
  {
    InUseOnlyAscending(reg.live);
    InUseOnlyMembers(reg.live);
    DisarmAllIds(InUseOnly(reg.live));
    Registry(DisarmAll(InUseOnly(reg.live)), Bump(reg.fired, Firing(InUseOnly(reg.live))))
  }

  /// Notifying keeps exactly the in-use entries, in order, and disarms the watchers.
  lemma NotifyPrunes(reg: Registry)
    requires WellFormed(reg)
    ensures forall i :: 0 <= i < |Notify(reg).live| ==> Notify(reg).live[i] == Disarm(InUseOnly(reg.live)[i])
    ensures forall e :: e in Notify(reg).live ==> e.inUse && (e.kind.Watcher? ==> !e.kind.armed)
  {
    var kept := InUseOnly(reg.live);
    InUseOnlyMembers(reg.live);
    forall e | e in Notify(reg).live
      ensures e.inUse && (e.kind.Watcher? ==> !e.kind.armed)
    {
      var k :| 0 <= k < |Notify(reg).live| && Notify(reg).live[k] == e;
      assert kept[k] in kept;
    }
  }

  /// A listed, in-use callback fires exactly once per notification.
  lemma NotifyCallbackFiresOnce(reg: Registry, id: nat)
    requires WellFormed(reg)
    requires Entry(id, true, Callback) in reg.live
    ensures id < |reg.fired| && Notify(reg).fired[id] == reg.fired[id] + 1
    ensures Entry(id, true, Callback) in Notify(reg).live
  {
    var e := Entry(id, true, Callback);
    var kept := InUseOnly(reg.live);
    InUseOnlyMembers(reg.live);
    assert e in kept && Fires(e);
    assert id in Firing(kept);
    var k :| 0 <= k < |kept| && kept[k] == e;
    NotifyPrunes(reg);
    assert Notify(reg).live[k] == e;
  }

  /// A listener with no in-use entry (released, or pruned) does not fire.
  lemma NotifyReleasedSilent(reg: Registry, id: nat)
    requires WellFormed(reg) && id < |reg.fired|
    requires forall e :: e in reg.live && e.id == id ==> !e.inUse
    ensures Notify(reg).fired[id] == reg.fired[id]
    ensures forall e :: e in Notify(reg).live ==> e.id != id
  {
    var kept := InUseOnly(reg.live);
    InUseOnlyMembers(reg.live);
    assert forall e :: e in kept && e.id == id ==> !Fires(e);
    assert id !in Firing(kept);
    NotifyPrunes(reg);
    forall e | e in Notify(reg).live
      ensures e.id != id
    {
      var k :| 0 <= k < |Notify(reg).live| && Notify(reg).live[k] == e;
      assert kept[k] in kept;
    }
  }

  /// An armed watcher fires once and is then disarmed; a disarmed watcher does
  /// not fire and stays disarmed.
  lemma NotifyWatcher(reg: Registry, id: nat, armed: bool)
    requires WellFormed(reg)
    requires Entry(id, true, Watcher(armed)) in reg.live
    ensures id < |reg.fired|
    ensures Notify(reg).fired[id] == reg.fired[id] + (if armed then 1 else 0)
    ensures Entry(id, true, Watcher(false)) in Notify(reg).live
  {
    var e := Entry(id, true, Watcher(armed));
    var kept := InUseOnly(reg.live);
    InUseOnlyMembers(reg.live);
    assert e in kept;
    var k :| 0 <= k < |kept| && kept[k] == e;
    NotifyPrunes(reg);
    assert Notify(reg).live[k] == Entry(id, true, Watcher(false));
    if armed {
      assert id in Firing(kept);
    } else {
      InUseOnlyAscending(reg.live);
      forall f | f in kept && f.id == id
        ensures !Fires(f)
      {
        var j :| 0 <= j < |kept| && kept[j] == f;
        assert j == k;
      }
      assert id !in Firing(kept);
    }
  }

  /// `n` notifications in a row.
  function NotifyTimes(reg: Registry, n: nat): (r: Registry)
    ensures |r.fired| == |reg.fired|
    decreases n
  {
    if n == 0 then reg else NotifyTimes(Notify(reg), n - 1)
  }

  /// A live callback fires once for each of `n` notifications.
  lemma {:induction false} NotifyTimesCallback(reg: Registry, id: nat, n: nat)
    requires WellFormed(reg)
    requires Entry(id, true, Callback) in reg.live
    ensures id < |reg.fired| && NotifyTimes(reg, n).fired[id] == reg.fired[id] + n
    decreases n
  {
    if n > 0 {
      NotifyCallbackFiresOnce(reg, id);
      NotifyTimesCallback(Notify(reg), id, n - 1);
    } else {
      assert Entry(id, true, Callback) in reg.live;
    }
  }

  /// However many notifications follow, a watcher fires at most once: only
  /// if it was armed, and only for the first of them.
  lemma {:induction false} NotifyTimesWatcher(reg: Registry, id: nat, armed: bool, n: nat)
    requires WellFormed(reg)
    requires Entry(id, true, Watcher(armed)) in reg.live
    ensures id < |reg.fired|
    ensures NotifyTimes(reg, n).fired[id] == reg.fired[id] + (if armed && n > 0 then 1 else 0)
    decreases n
  {
    if n > 0 {
      NotifyWatcher(reg, id, armed);
      NotifyTimesWatcher(Notify(reg), id, false, n - 1);
    } else {
      assert Entry(id, true, Watcher(armed)) in reg.live;
    }
  }
}
