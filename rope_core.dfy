/// The state shared by every handle on one rope binding (`RopeBindingCore`):
/// the rope itself, how many handles use it, the streams following its
/// changes and the `when_changed` listeners.
module RopeCore {
  import opened Rope
  import opened Notify

  /// What the core keeps about one stream following its changes
  /// (`RopeStreamState`, without its waker).
  datatype StreamState<C, A> = StreamState(identifier: nat, pendingChanges: seq<Action<C, A>>, needsPull: bool)

  /// `states` with `action` queued at the end of every stream's pending changes.
  function Enqueue<C, A>(states: seq<StreamState<C, A>>, action: Action<C, A>): (r: seq<StreamState<C, A>>)
    ensures |r| == |states|
    ensures forall k :: 0 <= k < |r| ==>
      && r[k].identifier == states[k].identifier
      && r[k].needsPull == states[k].needsPull
      && r[k].pendingChanges == states[k].pendingChanges + [action]
  {
    seq(|states|, k requires 0 <= k < |states| =>
      states[k].(pendingChanges := states[k].pendingChanges + [action]))
  }

  /// `states` with `actions` queued, in order, at the end of every stream's
  /// pending changes.
  function EnqueueAll<C, A>(states: seq<StreamState<C, A>>, actions: seq<Action<C, A>>): (r: seq<StreamState<C, A>>)
    ensures |r| == |states|
    decreases |actions|
  {
    if actions == [] then states else EnqueueAll(Enqueue(states, actions[0]), actions[1..])
  }

  /// Every stream's pending changes, replayed on the rope it started from,
  /// give `rope`.
  ghost predicate Replays<C, A>(followed: seq<seq<Slot<C, A>>>, states: seq<StreamState<C, A>>, rope: seq<Slot<C, A>>, dflt: A)
  {
    && |followed| == |states|
    && forall k :: 0 <= k < |states| ==>
         && AppliesCleanly(followed[k], states[k].pendingChanges, dflt)
         && ApplyAll(followed[k], states[k].pendingChanges, dflt) == rope
  }

  /// Queuing an edit for every stream keeps each stream's replay equal to the
  /// edited rope.
  lemma EnqueueReplays<C, A>(followed: seq<seq<Slot<C, A>>>, states: seq<StreamState<C, A>>, rope: seq<Slot<C, A>>,
                             action: Action<C, A>, dflt: A)
    requires Replays(followed, states, rope, dflt) && InBounds(action, |rope|)
    ensures Replays(followed, Enqueue(states, action), Apply(rope, action, dflt), dflt)
  {
    var queued := Enqueue(states, action);
    forall k | 0 <= k < |states|
      ensures AppliesCleanly(followed[k], queued[k].pendingChanges, dflt)
      ensures ApplyAll(followed[k], queued[k].pendingChanges, dflt) == Apply(rope, action, dflt)
    {
      ApplyAllSnoc(followed[k], states[k].pendingChanges, action, dflt);
    }
  }

  /// Queuing a list of actions then one more is queuing the longer list.
  lemma {:induction false} EnqueueAllSnoc<C, A>(states: seq<StreamState<C, A>>, actions: seq<Action<C, A>>, a: Action<C, A>)
    ensures EnqueueAll(states, actions + [a]) == Enqueue(EnqueueAll(states, actions), a)
    decreases |actions|
  {
    if actions == [] {
      assert [a][1..] == [];
    } else {
      assert (actions + [a])[1..] == actions[1..] + [a];
      EnqueueAllSnoc(Enqueue(states, actions[0]), actions[1..], a);
    }
  }

  /// Queuing actions keeps every stream and its identifier, and the changes
  /// already pending stay in front of the new ones.
  lemma {:induction false} EnqueueAllKeeps<C, A>(states: seq<StreamState<C, A>>, actions: seq<Action<C, A>>, k: nat)
    requires k < |states|
    ensures EnqueueAll(states, actions)[k].identifier == states[k].identifier
    ensures EnqueueAll(states, actions)[k].pendingChanges == states[k].pendingChanges + actions
    decreases |actions|
  {
    if actions != [] {
      EnqueueAllKeeps(Enqueue(states, actions[0]), actions[1..], k);
      assert [actions[0]] + actions[1..] == actions;
    }
  }

  class RopeBindingCore<C, A> {
    /// The number of handles (and retaining streams) that use this core.
    var usageCount: nat
    /// The rope, as runs of cells sharing an attribute.
    var runs: seq<Run<C, A>>
    /// The streams following this rope, in the order they were created.
    var streamStates: seq<StreamState<C, A>>
    /// The identifier the next stream receives.
    var nextStreamId: nat
    /// The `when_changed` listeners.
    var whenChanged: Registry
    /// `Attribute::default()`.
    const defaultAttr: A

    /// For each stream, the rope as it was when the stream started following.
    ghost var followedFrom: seq<seq<Slot<C, A>>>
    /// How many times the core has been woken (`wake`) and pulled (`pull_rope`).
    ghost var wakes: nat
    ghost var pulls: nat

    /// The runs are non-empty, stream identifiers are distinct and increasing
    /// and below `nextStreamId`, and every stream's pending changes, replayed
    /// on the rope it started from, give the current rope.
    ghost predicate Valid()
      reads this
    {
      && NonEmptyRuns(runs)
      && WellFormed(whenChanged)
      && (forall k :: 0 <= k < |streamStates| ==> streamStates[k].identifier < nextStreamId)
      && (forall k, l :: 0 <= k < l < |streamStates| ==> streamStates[k].identifier < streamStates[l].identifier)
      && Replays(followedFrom, streamStates, Flatten(runs), defaultAttr)
    }

    /// The cells of the rope with their attributes.
    function Slots(): seq<Slot<C, A>>
      reads this
    {
      Flatten(runs)
    }

    /// Nothing but the rope, the stream states and the wake count changed.
    twostate predicate BookkeepingUnchanged()
      reads this
    {
      && usageCount == old(usageCount)
      && nextStreamId == old(nextStreamId)
      && whenChanged == old(whenChanged)
      && pulls == old(pulls)
    }

    /// A new core: used once, empty, no streams, no listeners.
    constructor (dflt: A)
      ensures Valid()
      ensures usageCount == 1 && runs == [] && streamStates == [] && nextStreamId == 0
      ensures whenChanged == Empty() && defaultAttr == dflt && wakes == 0 && pulls == 0
    {
      usageCount := 1;
      runs := [];
      streamStates := [];
      nextStreamId := 0;
      whenChanged := Empty();
      defaultAttr := dflt;
      followedFrom := [];
      wakes := 0;
      pulls := 0;
    }

    /// `core.rope.edit(action)`: edits the rope; every following stream has the
    /// edit queued.
    method EditRope(action: Action<C, A>)
      requires Valid() && InBounds(action, |Slots()|)
      modifies this
      ensures Valid() && BookkeepingUnchanged() && wakes == old(wakes)
      ensures Slots() == Apply(old(Slots()), action, defaultAttr)
      ensures streamStates == Enqueue(old(streamStates), action)
      ensures followedFrom == old(followedFrom)
    {
      EnqueueReplays(followedFrom, streamStates, Flatten(runs), action, defaultAttr);
      runs := Edit(runs, action, defaultAttr);
      streamStates := Enqueue(streamStates, action);
    }

    /// `core.rope.replace(start..end, [])`: removes a range of cells; every
    /// following stream has the removal queued.
    method DeleteCells(start: nat, end: nat)
      requires Valid() && start <= end <= |Slots()|
      modifies this
      ensures Valid() && BookkeepingUnchanged() && wakes == old(wakes)
      ensures Slots() == old(Slots())[..start] + old(Slots())[end..]
      ensures streamStates == Enqueue(old(streamStates), Replace(start, end, []))
      ensures followedFrom == old(followedFrom)
    {
      var before := Slots();
      EditRope(Replace(start, end, []));
      assert Tag<C, A>([], AttrAt(before, start, defaultAttr)) == [];
    }

    /// `wake()`: tells the followers that there are changes.
    method Wake()
      requires Valid()
      modifies this
      ensures Valid() && wakes == old(wakes) + 1
      ensures runs == old(runs) && streamStates == old(streamStates) && followedFrom == old(followedFrom)
      ensures BookkeepingUnchanged()
    {
      wakes := wakes + 1;
    }

    /// `follow_changes`' update of the core: hands out the next identifier and
    /// starts a stream state with nothing pending.
    method AddStream() returns (id: nat)
      requires Valid()
      modifies this
      ensures Valid()
      ensures id == old(nextStreamId) && nextStreamId == old(nextStreamId) + 1
      ensures streamStates == old(streamStates) + [StreamState(id, [], false)]
      ensures followedFrom == old(followedFrom) + [Slots()]
      ensures runs == old(runs) && usageCount == old(usageCount) && whenChanged == old(whenChanged)
      ensures wakes == old(wakes) && pulls == old(pulls)
    {
      id := nextStreamId;
      nextStreamId := nextStreamId + 1;
      streamStates := streamStates + [StreamState(id, [], false)];
      followedFrom := followedFrom + [Slots()];
    }

    /// One more handle uses the core.
    method Retain()
      requires Valid()
      modifies this
      ensures Valid() && usageCount == old(usageCount) + 1
      ensures runs == old(runs) && streamStates == old(streamStates) && followedFrom == old(followedFrom)
      ensures nextStreamId == old(nextStreamId) && whenChanged == old(whenChanged)
      ensures wakes == old(wakes) && pulls == old(pulls)
    {
      usageCount := usageCount + 1;
    }

    /// A handle is dropped; the last one pulls the rope so that followers see
    /// that the binding is gone.
    method Release()
      requires Valid() && usageCount > 0
      modifies this
      ensures Valid() && usageCount == old(usageCount) - 1
      ensures pulls == old(pulls) + (if usageCount == 0 then 1 else 0)
      ensures runs == old(runs) && streamStates == old(streamStates) && followedFrom == old(followedFrom)
      ensures nextStreamId == old(nextStreamId) && whenChanged == old(whenChanged) && wakes == old(wakes)
    {
      usageCount := usageCount - 1;
      if usageCount == 0 {
        pulls := pulls + 1;
      }
    }

    /// `when_changed`: pushes a listener and prunes the released ones.
    method AddListener() returns (id: nat)
      requires Valid()
      modifies this
      ensures Valid()
      ensures id == NextId(old(whenChanged))
      ensures whenChanged == Add(old(whenChanged), Callback)
      ensures runs == old(runs) && streamStates == old(streamStates) && followedFrom == old(followedFrom)
      ensures usageCount == old(usageCount) && nextStreamId == old(nextStreamId)
      ensures wakes == old(wakes) && pulls == old(pulls)
    {
      id := NextId(whenChanged);
      whenChanged := Add(whenChanged, Callback);
    }

    /// `done()` on a listener this core handed out.
    method ReleaseListener(id: nat)
      requires Valid()
      modifies this
      ensures Valid()
      ensures whenChanged == Notify.Release(old(whenChanged), id)
      ensures runs == old(runs) && streamStates == old(streamStates) && followedFrom == old(followedFrom)
      ensures usageCount == old(usageCount) && nextStreamId == old(nextStreamId)
      ensures wakes == old(wakes) && pulls == old(pulls)
    {
      whenChanged := Notify.Release(whenChanged, id);
    }

    /// The copy loop of `get`: reads the rope one attribute run at a time
    /// (`read_attributes` then `read_cells`) and appends each run to a new
    /// rope with `replace_attributes(pos..pos, …)`, moving `pos` to the end of
    /// the run. The copy has the same cells and the same attribute at every
    /// position.
    method CopyRope() returns (copy: seq<Run<C, A>>)
      ensures Flatten(copy) == Slots()
      ensures NonEmptyRuns(copy)
    {
      var rs := runs;
      var len := |Flatten(rs)|;
      copy := [];
      var pos := 0;
      if len > 0 {
        ReadFromAtOffset(rs, 0, defaultAttr);
      }
      while pos < len
        invariant pos <= len
        invariant Flatten(copy) == Flatten(rs)[..pos]
        invariant NonEmptyRuns(copy)
        invariant pos < len ==> ReadAttributes(rs, pos, defaultAttr).start == pos
        decreases len - pos
      {
        var range := ReadAttributes(rs, pos, defaultAttr);
        ReadAttributesRun(rs, pos, defaultAttr);
        var cells := ReadCells(rs, range.start, range.end);
        ghost var before := Flatten(copy);
        copy := Edit(copy, ReplaceAttributes(pos, pos, cells, range.attr), defaultAttr);
        assert Flatten(copy) == before + Tag(cells, range.attr) by {
          assert before[..pos] == before && before[pos..] == [];
        }
        assert Flatten(rs)[..range.end] == Flatten(rs)[..pos] + Flatten(rs)[pos..range.end];
        assert Tag(cells, range.attr) == Flatten(rs)[pos..range.end];
        pos := range.end;
      }
    }
  }
}
