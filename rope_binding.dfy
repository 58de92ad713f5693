/// A rope binding that follows a stream of changes (`RopeBinding`), and the
/// two generators of such streams: `computed`, which replaces the whole rope
/// with each new value, and `computed_difference`, which turns a diff of the
/// old and new values into edits.
module DerivedRope {
  import opened Wrappers
  import opened Rope
  import opened Notify
  import opened RopeCore

  // ---------------------------------------------------------------------------
  // The binding
  // ---------------------------------------------------------------------------

  /// A handle on a rope that is fed by a stream of actions; clones share the core.
  class RopeBinding<C(==), A(==)> {
    const core: RopeBindingCore<C, A>

    ghost predicate Valid()
      reads this, core
    {
      core.Valid()
    }

    /// The cells of the rope with their attributes.
    function Slots(): seq<Slot<C, A>>
      reads this, core
    {
      core.Slots()
    }

    /// `from_stream`: an empty rope used by one handle, nothing following it.
    constructor FromStream(dflt: A)
      ensures Valid() && fresh(core)
      ensures Slots() == [] && core.defaultAttr == dflt
      ensures core.usageCount == 1 && core.streamStates == [] && core.nextStreamId == 0
      ensures core.whenChanged == Empty() && core.wakes == 0 && core.pulls == 0
    {
      core := new RopeBindingCore(dflt);
    }

    /// A second handle on an existing core (the body of `clone`).
    constructor Share(shared: RopeBindingCore<C, A>)
      ensures core == shared
    {
      core := shared;
    }

    /// One action arriving from the followed stream (the body given to
    /// `pipe_in`): the rope is edited, every follower has the action queued,
    /// and the followers are woken.
    method Receive(action: Action<C, A>)
      requires Valid() && InBounds(action, |Slots()|)
      modifies core
      ensures Valid() && core.BookkeepingUnchanged()
      ensures Slots() == Apply(old(Slots()), action, core.defaultAttr)
      ensures core.streamStates == Enqueue(old(core.streamStates), action)
      ensures core.wakes == old(core.wakes) + 1 && core.followedFrom == old(core.followedFrom)
    {
      core.EditRope(action);
      core.Wake();
    }

    /// `follow_changes()`: a new stream with the next identifier and nothing pending.
    method FollowChanges() returns (id: nat)
      requires Valid()
      modifies core
      ensures Valid()
      ensures id == old(core.nextStreamId) && core.nextStreamId == id + 1
      ensures core.streamStates == old(core.streamStates) + [StreamState(id, [], false)]
      ensures core.followedFrom == old(core.followedFrom) + [Slots()]
      ensures core.runs == old(core.runs) && core.usageCount == old(core.usageCount)
      ensures core.whenChanged == old(core.whenChanged) && core.wakes == old(core.wakes) && core.pulls == old(core.pulls)
    {
      id := core.AddStream();
    }

    /// `follow_changes_retained()`: as `follow_changes`, and the stream also
    /// counts as a user of the core, keeping it alive.
    method FollowChangesRetained() returns (id: nat)
      requires Valid()
      modifies core
      ensures Valid()
      ensures id == old(core.nextStreamId) && core.nextStreamId == id + 1
      ensures core.streamStates == old(core.streamStates) + [StreamState(id, [], false)]
      ensures core.followedFrom == old(core.followedFrom) + [Slots()]
      ensures core.usageCount == old(core.usageCount) + 1
      ensures core.runs == old(core.runs) && core.whenChanged == old(core.whenChanged)
      ensures core.wakes == old(core.wakes) && core.pulls == old(core.pulls)
    {
      id := core.AddStream();
      core.Retain();
    }

    /// `clone()`: a new handle on the same core, which now has one more user.
    method Clone() returns (copy: RopeBinding<C, A>)
      requires Valid()
      modifies core
      ensures fresh(copy) && copy.core == core && copy.Valid()
      ensures core.usageCount == old(core.usageCount) + 1
      ensures core.runs == old(core.runs) && core.streamStates == old(core.streamStates)
      ensures core.followedFrom == old(core.followedFrom) && core.nextStreamId == old(core.nextStreamId)
      ensures core.whenChanged == old(core.whenChanged) && core.wakes == old(core.wakes) && core.pulls == old(core.pulls)
    {
      core.Retain();
      copy := new RopeBinding.Share(core);
    }

    /// `drop()`: one user less; the last one pulls the rope.
    method Drop()
      requires Valid() && core.usageCount > 0
      modifies core
      ensures Valid() && core.usageCount == old(core.usageCount) - 1
      ensures core.pulls == old(core.pulls) + (if core.usageCount == 0 then 1 else 0)
      ensures core.runs == old(core.runs) && core.streamStates == old(core.streamStates)
      ensures core.followedFrom == old(core.followedFrom) && core.nextStreamId == old(core.nextStreamId)
      ensures core.whenChanged == old(core.whenChanged) && core.wakes == old(core.wakes)
    {
      core.Release();
    }

    /// `when_changed()`: registers a listener and prunes the released ones.
    method WhenChanged() returns (id: nat)
      requires Valid()
      modifies core
      ensures Valid()
      ensures id == NextId(old(core.whenChanged)) && core.whenChanged == Add(old(core.whenChanged), Callback)
      ensures core.runs == old(core.runs) && core.streamStates == old(core.streamStates)
      ensures core.followedFrom == old(core.followedFrom) && core.nextStreamId == old(core.nextStreamId)
      ensures core.usageCount == old(core.usageCount) && core.wakes == old(core.wakes) && core.pulls == old(core.pulls)
    {
      id := core.AddListener();
    }

    /// `get()`: as `RopeBindingMut.Get`, the core's run-by-run copy.
    method Get() returns (copy: seq<Run<C, A>>)
      requires Valid()
      ensures Flatten(copy) == Slots() && NonEmptyRuns(copy)
    {
      copy := core.CopyRope();
    }
  }

  // ---------------------------------------------------------------------------
  // Evaluations of the computed function
  // ---------------------------------------------------------------------------

  /// One evaluation of the function a computed rope follows: the cells it
  /// produced, and whether its dependencies were still unchanged once it
  /// finished (`when_changed_if_unchanged` returned a monitor).
  datatype Attempt<C> = Attempt(cells: seq<C>, settled: bool)

  predicate SomeSettled<C>(attempts: seq<Attempt<C>>)
  {
    exists k :: 0 <= k < |attempts| && attempts[k].settled
  }

  /// The position of the first evaluation whose dependencies stayed unchanged.
  function FirstSettled<C>(attempts: seq<Attempt<C>>): (k: nat)
    requires SomeSettled(attempts)
    ensures k < |attempts| && attempts[k].settled
    ensures forall i :: 0 <= i < k ==> !attempts[i].settled
  {
    if attempts[0].settled then 0
    else
      assert SomeSettled(attempts[1..]) by {
        var k :| 0 <= k < |attempts| && attempts[k].settled;
        assert attempts[1..][k - 1].settled;
      }
      1 + FirstSettled(attempts[1..])
  }

  // ---------------------------------------------------------------------------
  // computed
  // ---------------------------------------------------------------------------

  /// The actions `computed` emits for successive values, starting from a rope
  /// of `prevLen` cells: each value replaces everything the previous one left.
  function ComputedActions<C, A>(values: seq<seq<C>>, prevLen: nat): (r: seq<Action<C, A>>)
    ensures |r| == |values|
    decreases |values|
  {
    if values == [] then []
    else [Rope.Replace(0, prevLen, values[0])] + ComputedActions(values[1..], |values[0]|)
  }

  /// Replaying the actions `computed` emits on the rope they started from
  /// leaves the latest value.
  lemma {:induction false} ComputedReplay<C, A>(cells: seq<C>, values: seq<seq<C>>)
    requires values != []
    ensures CellsApplyCleanly(cells, ComputedActions<C, A>(values, |cells|))
    ensures ApplyAllCells(cells, ComputedActions<C, A>(values, |cells|)) == values[|values| - 1]
    decreases |values|
  {
    var actions := ComputedActions<C, A>(values, |cells|);
    assert ApplyCells(cells, actions[0]) == values[0] by {
      assert cells[..0] + values[0] + cells[|cells|..] == values[0];
    }
    assert actions[1..] == ComputedActions<C, A>(values[1..], |values[0]|);
    if |values| > 1 {
      ComputedReplay<C, A>(values[0], values[1..]);
    }
  }

  /// Emitting the replacement of the whole rope by `cells` after actions that
  /// build `current` builds `cells`.
  lemma ReplaceAllReplays<C, A>(emitted: seq<Action<C, A>>, current: seq<C>, cells: seq<C>)
    requires CellsApplyCleanly([], emitted) && ApplyAllCells([], emitted) == current
    ensures CellsApplyCleanly([], emitted + [Rope.Replace(0, |current|, cells)])
    ensures ApplyAllCells([], emitted + [Rope.Replace(0, |current|, cells)]) == cells
  {
    ApplyAllCellsConcat([], emitted, [Rope.Replace(0, |current|, cells)]);
    assert current[..0] + cells + current[|current|..] == cells;
  }

  /// The generator behind `computed`: the length of the rope it has built so
  /// far, the flag its dependencies' change notification sets, and whether it
  /// holds the monitor on the dependencies of its latest evaluation.
  class ComputedRope<C, A> {
    var length: nat
    var newValue: bool
    var monitorHeld: bool
    /// The actions emitted so far, and the cells a follower has after them.
    ghost var emitted: seq<Action<C, A>>
    ghost var current: seq<C>
    /// How many times the function has been evaluated.
    ghost var evaluations: nat

    /// `length` is the length of the rope the emitted actions build.
    ghost predicate Valid()
      reads this
    {
      && CellsApplyCleanly([], emitted)
      && ApplyAllCells([], emitted) == current
      && length == |current|
    }

    /// A new generator: nothing emitted yet, and a value to compute.
    constructor ()
      ensures Valid() && length == 0 && newValue && !monitorHeld
      ensures emitted == [] && current == [] && evaluations == 0
    {
      length := 0;
      newValue := true;
      monitorHeld := false;
      emitted := [];
      current := [];
      evaluations := 0;
    }

    /// The notification the monitor delivers when a dependency changes.
    method DependencyChanged()
      modifies this
      ensures newValue
      ensures length == old(length) && monitorHeld == old(monitorHeld)
      ensures emitted == old(emitted) && current == old(current) && evaluations == old(evaluations)
    {
      newValue := true;
    }

    /// One poll of the stream. Without a new value it is `Pending`. Otherwise
    /// it clears the flag and evaluates until the dependencies stay unchanged
    /// during an evaluation (releasing the previous monitor before each), and
    /// emits the replacement of the whole rope by that evaluation's cells.
    method Poll(attempts: seq<Attempt<C>>) returns (poll: StreamPoll<Action<C, A>>)
      requires Valid() && (newValue ==> SomeSettled(attempts))
      modifies this
      ensures Valid() && !newValue
      ensures !old(newValue) ==>
        && poll == Pending && emitted == old(emitted) && current == old(current)
        && evaluations == old(evaluations) && monitorHeld == old(monitorHeld)
      ensures old(newValue) ==>
        var cells := attempts[FirstSettled(attempts)].cells;
        && poll == Item(Rope.Replace(0, old(length), cells))
        && emitted == old(emitted) + [Rope.Replace(0, old(length), cells)]
        && current == cells && length == |cells| && monitorHeld
        && evaluations == old(evaluations) + FirstSettled(attempts) + 1
    {
      if newValue {
        newValue := false;
        // Evaluate until an evaluation's dependencies stay unchanged; each
        // evaluation releases the monitor held on the previous one.
        var i := 0;
        while !attempts[i].settled
          modifies {}
          invariant i <= FirstSettled(attempts)
          decreases FirstSettled(attempts) - i
        {
          i := i + 1;
        }
        var cells := attempts[i].cells;
        var action := Rope.Replace(0, length, cells);
        ReplaceAllReplays(emitted, current, cells);
        evaluations := evaluations + i + 1;
        monitorHeld := true;
        length := |cells|;
        emitted := emitted + [action];
        current := cells;
        return Item(action);
      } else {
        poll := Pending;
      }
    }
  }

  // ---------------------------------------------------------------------------
  // computed_difference
  // ---------------------------------------------------------------------------

  /// One operation of a diff between an old and a new list of cells.
  datatype DiffOp =
    | Equal(oldIndex: nat, newIndex: nat, len: nat)
    | Delete(oldIndex: nat, oldLen: nat, newIndex: nat)
    | Insert(oldIndex: nat, newIndex: nat, newLen: nat)
    | Replace(oldIndex: nat, oldLen: nat, newIndex: nat, newLen: nat)

  /// How many old cells the operation covers.
  function OldSpan(op: DiffOp): nat
  {
    match op
    case Equal(_, _, len) => len
    case Delete(_, oldLen, _) => oldLen
    case Insert(_, _, _) => 0
    case Replace(_, oldLen, _, _) => oldLen
  }

  /// How many new cells the operation covers.
  function NewSpan(op: DiffOp): nat
  {
    match op
    case Equal(_, _, len) => len
    case Delete(_, _, _) => 0
    case Insert(_, _, newLen) => newLen
    case Replace(_, _, _, newLen) => newLen
  }

  /// A well-formed diff of `before` and `after` from operation `k` and
  /// positions `i` and `j` on: the operations follow one another and cover
  /// both lists to their ends, and the `Equal` ones cover equal cells.
  predicate CoversFrom<C(==)>(ops: seq<DiffOp>, k: nat, before: seq<C>, after: seq<C>, i: nat, j: nat)
    requires k <= |ops|
    decreases |ops| - k
  {
    if k == |ops| then i == |before| && j == |after|
    else
      var op := ops[k];
      && op.oldIndex == i && op.newIndex == j
      && i + OldSpan(op) <= |before| && j + NewSpan(op) <= |after|
      && (op.Equal? ==> before[i..i + op.len] == after[j..j + op.len])
      && CoversFrom(ops, k + 1, before, after, i + OldSpan(op), j + NewSpan(op))
  }

  /// `ops` is a well-formed diff of `before` and `after`.
  predicate Covers<C(==)>(ops: seq<DiffOp>, before: seq<C>, after: seq<C>)
  {
    CoversFrom(ops, 0, before, after, 0, 0)
  }

  /// The operations of a well-formed diff are in order of their start in the
  /// new list, so the stable sort by that start leaves them as they are.
  lemma {:induction false} CoversOrdered<C>(ops: seq<DiffOp>, k: nat, before: seq<C>, after: seq<C>, i: nat, j: nat)
    requires k <= |ops| && CoversFrom(ops, k, before, after, i, j)
    ensures forall l :: k <= l < |ops| ==> j <= ops[l].newIndex
    ensures forall l, m :: k <= l < m < |ops| ==> ops[l].newIndex <= ops[m].newIndex
    decreases |ops| - k
  {
    if k < |ops| {
      CoversOrdered(ops, k + 1, before, after, i + OldSpan(ops[k]), j + NewSpan(ops[k]));
    }
  }

  /// What one diff operation becomes: `Equal` gives nothing, `Delete` removes
  /// the old cells at the operation's new-list position, `Insert` inserts the
  /// new cells there, and `Replace` does both.
  function TranslateOp<C, A>(op: DiffOp, newCells: seq<C>): (r: seq<Action<C, A>>)
    requires op.newIndex + NewSpan(op) <= |newCells|
    ensures |r| <= 1 && (r == [] <==> op.Equal?)
    ensures forall k :: 0 <= k < |r| ==> r[k].Replace? && r[k].start == op.newIndex
  {
    match op
    case Equal(_, _, _) => []
    case Delete(_, oldLen, newIndex) => [Rope.Replace(newIndex, newIndex + oldLen, [])]
    case Insert(_, newIndex, newLen) => [Rope.Replace(newIndex, newIndex, newCells[newIndex..newIndex + newLen])]
    case Replace(_, oldLen, newIndex, newLen) =>
      [Rope.Replace(newIndex, newIndex + oldLen, newCells[newIndex..newIndex + newLen])]
  }

  /// An operation that starts where the old cells `before[..i]` and the new
  /// cells `after[..j]` have been handled turns `after[..j] ++ before[i..]`
  /// into the same rope with the operation's cells handled too.
  lemma TranslateOpStep<C, A>(op: DiffOp, before: seq<C>, after: seq<C>, i: nat, j: nat)
    requires op.oldIndex == i && op.newIndex == j
    requires i + OldSpan(op) <= |before| && j + NewSpan(op) <= |after|
    requires op.Equal? ==> before[i..i + op.len] == after[j..j + op.len]
    ensures CellsApplyCleanly(after[..j] + before[i..], TranslateOp<C, A>(op, after))
    ensures ApplyAllCells(after[..j] + before[i..], TranslateOp<C, A>(op, after))
            == after[..j + NewSpan(op)] + before[i + OldSpan(op)..]
  {
    var rope := after[..j] + before[i..];
    var oldLen, newLen := OldSpan(op), NewSpan(op);
    if op.Equal? {
      assert before[i..] == before[i..i + oldLen] + before[i + oldLen..];
      assert after[..j + newLen] == after[..j] + after[j..j + newLen];
    } else {
      var action: Action<C, A> := Rope.Replace(j, j + oldLen, after[j..j + newLen]);
      assert TranslateOp<C, A>(op, after) == [action];
      SpliceStep(before, after, i, j, oldLen, newLen);
      assert [action][1..] == [];
    }
  }

  /// Replacing the `oldLen` cells at `j` of `after[..j] ++ before[i..]` by the
  /// next `newLen` cells of `after` moves both prefixes on.
  lemma SpliceStep<C>(before: seq<C>, after: seq<C>, i: nat, j: nat, oldLen: nat, newLen: nat)
    requires i + oldLen <= |before| && j + newLen <= |after|
    ensures var rope := after[..j] + before[i..];
      && j + oldLen <= |rope|
      && rope[..j] + after[j..j + newLen] + rope[j + oldLen..] == after[..j + newLen] + before[i + oldLen..]
  {
    var rope := after[..j] + before[i..];
    assert rope[..j] == after[..j];
    assert rope[j + oldLen..] == before[i + oldLen..];
    assert after[..j + newLen] == after[..j] + after[j..j + newLen];
  }

  /// Appending one operation's translation to actions that have handled the
  /// cells before it handles that operation's cells too.
  lemma TranslateStep<C, A>(op: DiffOp, lastCells: seq<C>, newCells: seq<C>, actions: seq<Action<C, A>>, i: nat, j: nat)
    requires op.oldIndex == i && op.newIndex == j
    requires i + OldSpan(op) <= |lastCells| && j + NewSpan(op) <= |newCells|
    requires op.Equal? ==> lastCells[i..i + op.len] == newCells[j..j + op.len]
    requires CellsApplyCleanly(lastCells, actions)
    requires ApplyAllCells(lastCells, actions) == newCells[..j] + lastCells[i..]
    ensures CellsApplyCleanly(lastCells, actions + TranslateOp<C, A>(op, newCells))
    ensures ApplyAllCells(lastCells, actions + TranslateOp<C, A>(op, newCells))
            == newCells[..j + NewSpan(op)] + lastCells[i + OldSpan(op)..]
  {
    TranslateOpStep<C, A>(op, lastCells, newCells, i, j);
    ApplyAllCellsConcat(lastCells, actions, TranslateOp<C, A>(op, newCells));
  }

  /// One turn of the translation loop: appends the translation of operation
  /// `k`, moving the handled prefixes past it.
  method TranslateNext<C(==), A>(differences: seq<DiffOp>, k: nat, ghost lastCells: seq<C>, newCells: seq<C>,
                                 actions: seq<Action<C, A>>, ghost i: nat, ghost j: nat)
    returns (next: seq<Action<C, A>>, ghost i': nat, ghost j': nat)
    requires k < |differences| && CoversFrom(differences, k, lastCells, newCells, i, j)
    requires CellsApplyCleanly(lastCells, actions)
    requires ApplyAllCells(lastCells, actions) == newCells[..j] + lastCells[i..]
    requires forall a :: 0 <= a < |actions| ==> actions[a].Replace?
    ensures CoversFrom(differences, k + 1, lastCells, newCells, i', j')
    ensures CellsApplyCleanly(lastCells, next)
    ensures ApplyAllCells(lastCells, next) == newCells[..j'] + lastCells[i'..]
    ensures |next| <= |actions| + 1
    ensures forall a :: 0 <= a < |next| ==> next[a].Replace?
  {
    var diff := differences[k];
    var step := TranslateOp<C, A>(diff, newCells);
    TranslateStep(diff, lastCells, newCells, actions, i, j);
    next := actions + step;
    i', j' := i + OldSpan(diff), j + NewSpan(diff);
    forall a | 0 <= a < |next|
      ensures next[a].Replace?
    {
      if a >= |actions| {
        assert next[a] == step[a - |actions|];
      }
    }
  }

  /// The translation loop of `computed_difference`: each operation, in order,
  /// adds its translation to the actions. Applied in order to the old cells,
  /// the actions give the new cells.
  method TranslateDiff<C(==), A>(differences: seq<DiffOp>, ghost lastCells: seq<C>, newCells: seq<C>)
    returns (actions: seq<Action<C, A>>)
    requires Covers(differences, lastCells, newCells)
    ensures CellsApplyCleanly(lastCells, actions)
    ensures ApplyAllCells(lastCells, actions) == newCells
    ensures |actions| <= |differences|
    ensures forall k :: 0 <= k < |actions| ==> actions[k].Replace?
  {
    actions := [];
    ghost var i: nat, j: nat := 0, 0;
    for k := 0 to |differences|
      invariant CoversFrom(differences, k, lastCells, newCells, i, j)
      invariant CellsApplyCleanly(lastCells, actions)
      invariant ApplyAllCells(lastCells, actions) == newCells[..j] + lastCells[i..]
      invariant |actions| <= k
      invariant forall a :: 0 <= a < |actions| ==> actions[a].Replace?
    {
      actions, i, j := TranslateNext(differences, k, lastCells, newCells, actions, i, j);
    }
    assert newCells[..j] == newCells && lastCells[i..] == [];
  }

  /// The generator behind `computed_difference`: the cells it last emitted
  /// edits towards, the new-value flag and the dependency monitor.
  class DiffRope<C(==), A> {
    var lastCells: seq<C>
    var newValue: bool
    var monitorHeld: bool
    /// How many times the function has been evaluated.
    ghost var evaluations: nat

    /// A new generator: no cells yet, and a value to compute.
    constructor ()
      ensures lastCells == [] && newValue && !monitorHeld && evaluations == 0
    {
      lastCells := [];
      newValue := true;
      monitorHeld := false;
      evaluations := 0;
    }

    /// The notification the monitor delivers when a dependency changes.
    method DependencyChanged()
      modifies this
      ensures newValue
      ensures lastCells == old(lastCells) && monitorHeld == old(monitorHeld) && evaluations == old(evaluations)
    {
      newValue := true;
    }

    /// One poll of the stream. Without a new value it is `Pending`. Otherwise
    /// it evaluates until the dependencies stay unchanged, diffs the previous
    /// cells against the new ones (`diff` is that diff), and emits the
    /// translated edits as one batch; the new cells become the previous ones.
    /// Applied in order to the previous cells, the batch gives the new cells.
    method Poll(attempts: seq<Attempt<C>>, diff: seq<DiffOp>) returns (poll: StreamPoll<seq<Action<C, A>>>)
      requires newValue ==> SomeSettled(attempts) && Covers(diff, lastCells, attempts[FirstSettled(attempts)].cells)
      modifies this
      ensures !newValue
      ensures !old(newValue) ==>
        && poll == Pending && lastCells == old(lastCells)
        && evaluations == old(evaluations) && monitorHeld == old(monitorHeld)
      ensures old(newValue) ==>
        && poll.Item? && lastCells == attempts[FirstSettled(attempts)].cells && monitorHeld
        && CellsApplyCleanly(old(lastCells), poll.item)
        && ApplyAllCells(old(lastCells), poll.item) == lastCells
        && evaluations == old(evaluations) + FirstSettled(attempts) + 1
    {
      if newValue {
        newValue := false;
        var i := 0;
        while true
          invariant i <= FirstSettled(attempts)
          invariant evaluations == old(evaluations) + i
          invariant !newValue && lastCells == old(lastCells)
          decreases FirstSettled(attempts) - i
        {
          monitorHeld := false;
          evaluations := evaluations + 1;
          var attempt := attempts[i];
          if !attempt.settled {
            i := i + 1;
            continue;
          }
          monitorHeld := true;
          var newCells := attempt.cells;
          // The stable sort by new-list start keeps a well-formed diff as it is.
          CoversOrdered(diff, 0, lastCells, newCells, 0, 0);
          var actions := TranslateDiff<C, A>(diff, lastCells, newCells);
          lastCells := newCells;
          return Item(actions);
        }
      } else {
        poll := Pending;
      }
    }
  }
}
