/// Ropes derived from other ropes: `map`, which transforms every cell, and
/// `chain`, which concatenates two ropes.
module RopeExt {
  import opened Wrappers
  import opened Rope
  import opened DerivedRope

  // ---------------------------------------------------------------------------
  // map
  // ---------------------------------------------------------------------------

  /// `f` applied to every cell; attributes are kept.
  function MapSlots<C, D, A>(f: C -> D, slots: seq<Slot<C, A>>): (r: seq<Slot<D, A>>)
    ensures |r| == |slots|
    ensures forall i :: 0 <= i < |r| ==> r[i] == Slot(f(slots[i].cell), slots[i].attr)
  {
    seq(|slots|, i requires 0 <= i < |slots| => Slot(f(slots[i].cell), slots[i].attr))
  }

  /// `f` applied to every cell of a list.
  function MapCells<C, D>(f: C -> D, cells: seq<C>): (r: seq<D>)
    ensures |r| == |cells|
    ensures forall i :: 0 <= i < |r| ==> r[i] == f(cells[i])
  {
    seq(|cells|, i requires 0 <= i < |cells| => f(cells[i]))
  }

  /// The action the mapped rope receives for one action of the source rope:
  /// the same range, the cells mapped, the attributes unchanged.
  function MapAction<C, D, A>(f: C -> D, action: Action<C, A>): (r: Action<D, A>)
    ensures r.start == action.start && r.end == action.end
  {
    match action
    case Replace(s, e, cells) => Action.Replace(s, e, MapCells(f, cells))
    case SetAttributes(s, e, attr) => SetAttributes(s, e, attr)
    case ReplaceAttributes(s, e, cells, attr) => ReplaceAttributes(s, e, MapCells(f, cells), attr)
  }

  /// One poll of the mapped stream: the end of the source stream and
  /// `Pending` pass through, an action is mapped.
  function MapPoll<C, D, A>(f: C -> D, poll: StreamPoll<Action<C, A>>): (r: StreamPoll<Action<D, A>>)
    ensures r.Item? <==> poll.Item?
    ensures r.Pending? <==> poll.Pending?
  {
    match poll
    case Pending => Pending
    case Ended => Ended
    case Item(action) => Item(MapAction(f, action))
  }

  /// Mapping a rope splits over concatenation and commutes with slicing.
  lemma MapSlotsSplice<C, D, A>(f: C -> D, slots: seq<Slot<C, A>>, s: nat, e: nat)
    requires s <= e <= |slots|
    ensures MapSlots(f, slots)[..s] == MapSlots(f, slots[..s])
    ensures MapSlots(f, slots)[e..] == MapSlots(f, slots[e..])
    ensures MapSlots(f, slots)[s..e] == MapSlots(f, slots[s..e])
  {
  }

  /// Editing the mapped rope with the mapped action gives the mapped edited
  /// rope: the mapped rope always holds the source's cells with `f` applied.
  lemma MapApply<C, D, A>(f: C -> D, slots: seq<Slot<C, A>>, action: Action<C, A>, dflt: A)
    requires InBounds(action, |slots|)
    ensures InBounds(MapAction(f, action), |MapSlots(f, slots)|)
    ensures Apply(MapSlots(f, slots), MapAction(f, action), dflt) == MapSlots(f, Apply(slots, action, dflt))
  {
    var m := MapSlots(f, slots);
    MapSlotsSplice(f, slots, action.start, action.end);
    assert AttrAt(m, action.start, dflt) == AttrAt(slots, action.start, dflt);
    match action
    case Replace(s, e, cells) =>
      var t := Tag(cells, AttrAt(slots, s, dflt));
      assert Tag(MapCells(f, cells), AttrAt(m, s, dflt)) == MapSlots(f, t);
      MapSlotsConcat3(f, slots[..s], t, slots[e..]);
    case SetAttributes(s, e, attr) =>
      var t := Tag(CellsOf(slots[s..e]), attr);
      assert Tag(CellsOf(m[s..e]), attr) == MapSlots(f, t);
      MapSlotsConcat3(f, slots[..s], t, slots[e..]);
    case ReplaceAttributes(s, e, cells, attr) =>
      var t := Tag(cells, attr);
      assert Tag(MapCells(f, cells), attr) == MapSlots(f, t);
      MapSlotsConcat3(f, slots[..s], t, slots[e..]);
  }

  lemma MapSlotsConcat3<C, D, A>(f: C -> D, a: seq<Slot<C, A>>, b: seq<Slot<C, A>>, c: seq<Slot<C, A>>)
    ensures MapSlots(f, a + b + c) == MapSlots(f, a) + MapSlots(f, b) + MapSlots(f, c)
  {
  }

  /// The mapped actions of a stream.
  function MapActions<C, D, A>(f: C -> D, actions: seq<Action<C, A>>): (r: seq<Action<D, A>>)
    ensures |r| == |actions|
    ensures forall k :: 0 <= k < |r| ==> r[k] == MapAction(f, actions[k])
  {
    seq(|actions|, k requires 0 <= k < |actions| => MapAction(f, actions[k]))
  }

  /// Replaying the mapped stream on the mapped rope gives the mapped result of
  /// replaying the source stream.
  lemma {:induction false} MapApplyAll<C, D, A>(f: C -> D, slots: seq<Slot<C, A>>, actions: seq<Action<C, A>>, dflt: A)
    requires AppliesCleanly(slots, actions, dflt)
    ensures AppliesCleanly(MapSlots(f, slots), MapActions(f, actions), dflt)
    ensures ApplyAll(MapSlots(f, slots), MapActions(f, actions), dflt) == MapSlots(f, ApplyAll(slots, actions, dflt))
    decreases |actions|
  {
    if actions != [] {
      MapApply(f, slots, actions[0], dflt);
      assert MapActions(f, actions)[1..] == MapActions(f, actions[1..]);
      MapApplyAll(f, Apply(slots, actions[0], dflt), actions[1..], dflt);
    }
  }

  // ---------------------------------------------------------------------------
  // chain
  // ---------------------------------------------------------------------------

  /// An action moved `offset` cells to the right.
  function Shift<C, A>(action: Action<C, A>, offset: nat): (r: Action<C, A>)
    ensures r.start == action.start + offset && r.end == action.end + offset
  {
    match action
    case Replace(s, e, cells) => Action.Replace(s + offset, e + offset, cells)
    case SetAttributes(s, e, attr) => SetAttributes(s + offset, e + offset, attr)
    case ReplaceAttributes(s, e, cells, attr) => ReplaceAttributes(s + offset, e + offset, cells, attr)
  }

  /// The length of a rope of `len` cells after `action`: the replaced range
  /// gives way to the inserted cells; setting attributes keeps the length.
  function LengthAfter<C, A>(len: nat, action: Action<C, A>): (r: nat)
    requires action.start <= action.end <= len
  {
    match action
    case SetAttributes(_, _, _) => len
    case Replace(s, e, inserted) => len - (e - s) + |inserted|
    case ReplaceAttributes(s, e, inserted, _) => len - (e - s) + |inserted|
  }

  /// The concatenator's count of the left rope's cells follows the rope.
  lemma LengthAfterCells<C, A>(cells: seq<C>, action: Action<C, A>)
    requires InBounds(action, |cells|)
    ensures LengthAfter(|cells|, action) == |ApplyCells(cells, action)|
  {
  }

  /// An edit of the left rope, made on the concatenation, edits its left part.
  lemma ConcatLeft<C, A>(left: seq<C>, right: seq<C>, action: Action<C, A>)
    requires InBounds(action, |left|)
    ensures InBounds(action, |left + right|)
    ensures ApplyCells(left + right, action) == ApplyCells(left, action) + right
  {
    assert (left + right)[..action.start] == left[..action.start];
    assert (left + right)[action.end..] == left[action.end..] + right;
  }

  /// An edit of the right rope, moved past the left rope, edits the right part
  /// of the concatenation.
  lemma ConcatRight<C, A>(left: seq<C>, right: seq<C>, action: Action<C, A>)
    requires InBounds(action, |right|)
    ensures InBounds(Shift(action, |left|), |left + right|)
    ensures ApplyCells(left + right, Shift(action, |left|)) == left + ApplyCells(right, action)
  {
    var s := Shift(action, |left|);
    assert (left + right)[..s.start] == left + right[..action.start];
    assert (left + right)[s.end..] == right[action.end..];
  }

  /// The concatenating stream behind `chain`: the queue of actions not yet
  /// returned, whether each side's follower is still there, and the length
  /// of the left rope as the concatenator knows it. The ghost state is the
  /// cells of each side and the cells of the concatenated rope so far.
  class ChainStream<C, A> {
    var pending: seq<Action<C, A>>
    var leftOpen: bool
    var rightOpen: bool
    var leftLen: nat
    ghost var left: seq<C>
    ghost var right: seq<C>
    ghost var output: seq<C>

    /// The queued actions, applied to the concatenated rope, give the left
    /// cells followed by the right cells.
    ghost predicate Valid()
      reads this
    {
      && leftLen == |left|
      && CellsApplyCleanly(output, pending)
      && ApplyAllCells(output, pending) == left + right
    }

    /// A new chain: both sides followed, nothing queued, all ropes empty.
    constructor ()
      ensures Valid() && leftOpen && rightOpen && pending == []
      ensures left == [] && right == [] && output == []
    {
      pending := [];
      leftOpen := true;
      rightOpen := true;
      leftLen := 0;
      left := [];
      right := [];
      output := [];
    }

    /// The concatenator's `send_left`: an edit of the left rope is the same
    /// edit of the concatenation.
    method SendLeft(action: Action<C, A>) returns (out: seq<Action<C, A>>)
      requires Valid() && InBounds(action, |left|)
      modifies this
      ensures out == [action]
      ensures leftLen == |left| && left == ApplyCells(old(left), action)
      ensures right == old(right) && output == old(output) && pending == old(pending)
      ensures leftOpen == old(leftOpen) && rightOpen == old(rightOpen)
      ensures CellsApplyCleanly(output, pending + out) && ApplyAllCells(output, pending + out) == left + right
    {
      out := [action];
      ConcatLeft(left, right, action);
      LengthAfterCells(left, action);
      ApplyAllCellsConcat(output, pending, out);
      left := ApplyCells(left, action);
      leftLen := LengthAfter(leftLen, action);
    }

    /// The concatenator's `send_right`: an edit of the right rope is the same
    /// edit moved past the left rope.
    method SendRight(action: Action<C, A>) returns (out: seq<Action<C, A>>)
      requires Valid() && InBounds(action, |right|)
      modifies this
      ensures out == [Shift(action, old(leftLen))]
      ensures right == ApplyCells(old(right), action)
      ensures left == old(left) && leftLen == old(leftLen) && output == old(output) && pending == old(pending)
      ensures leftOpen == old(leftOpen) && rightOpen == old(rightOpen)
      ensures CellsApplyCleanly(output, pending + out) && ApplyAllCells(output, pending + out) == left + right
    {
      out := [Shift(action, leftLen)];
      ConcatRight(left, right, action);
      ApplyAllCellsConcat(output, pending, out);
      right := ApplyCells(right, action);
    }

    /// Returns the first queued action, which the concatenated rope applies.
    method PopPending() returns (next: Action<C, A>)
      requires Valid() && pending != []
      modifies this
      ensures Valid()
      ensures next == old(pending)[0] && pending == old(pending)[1..]
      ensures InBounds(next, |old(output)|)
      ensures output == ApplyCells(old(output), next)
      ensures left == old(left) && right == old(right) && leftLen == old(leftLen)
      ensures leftOpen == old(leftOpen) && rightOpen == old(rightOpen)
    {
      next := pending[0];
      output := ApplyCells(output, next);
      pending := pending[1..];
    }

    /// One poll of the concatenated stream. `leftPoll` and `rightPoll` are what
    /// each side's follower would answer if polled. A queued action goes out
    /// first; otherwise the left side is polled, then (if that gave nothing
    /// to return) the right side; a side whose stream has ended is dropped and
    /// never polled again. With nothing to return the answer is `Pending`.
    method Poll(leftPoll: StreamPoll<Action<C, A>>, rightPoll: StreamPoll<Action<C, A>>)
      returns (poll: StreamPoll<Action<C, A>>, ghost polledLeft: bool, ghost polledRight: bool)
      requires Valid()
      requires leftPoll.Item? ==> InBounds(leftPoll.item, |left|)
      requires rightPoll.Item? ==> InBounds(rightPoll.item, |right|)
      modifies this
      ensures Valid()
      ensures old(pending) != [] ==> poll == Item(old(pending)[0]) && !polledLeft && !polledRight
      ensures polledLeft <==> old(pending) == [] && old(leftOpen)
      ensures polledRight <==> old(pending) == [] && old(rightOpen) && !(polledLeft && leftPoll.Item?)
      ensures leftOpen == (old(leftOpen) && !(polledLeft && leftPoll.Ended?))
      ensures rightOpen == (old(rightOpen) && !(polledRight && rightPoll.Ended?))
      ensures !old(leftOpen) ==> !leftOpen
      ensures !old(rightOpen) ==> !rightOpen
      ensures left == (if polledLeft && leftPoll.Item? then ApplyCells(old(left), leftPoll.item) else old(left))
      ensures right == (if polledRight && rightPoll.Item? then ApplyCells(old(right), rightPoll.item) else old(right))
      ensures old(pending) == [] ==> pending == []
      ensures poll.Item? <==> old(pending) != [] || (polledLeft && leftPoll.Item?) || (polledRight && rightPoll.Item?)
      ensures poll.Item? ==> InBounds(poll.item, |old(output)|) && output == ApplyCells(old(output), poll.item)
      ensures !poll.Item? ==> poll.Pending? && output == old(output)
    {
      polledLeft, polledRight := false, false;
      if pending != [] {
        var next := PopPending();
        return Item(next), false, false;
      }
      polledLeft := leftOpen;
      if leftOpen {
        match leftPoll {
          case Pending =>
          case Ended =>
            leftOpen := false;
          case Item(action) =>
            var out := SendLeft(action);
            pending := pending + out;
            if pending != [] {
              var next := PopPending();
              return Item(next), true, false;
            }
        }
      }
      polledRight := rightOpen;
      if rightOpen {
        match rightPoll {
          case Pending =>
          case Ended =>
            rightOpen := false;
          case Item(action) =>
            var out := SendRight(action);
            pending := pending + out;
            if pending != [] {
              var next := PopPending();
              return Item(next), polledLeft, true;
            }
        }
      }
      poll := Pending;
    }
  }

  /// Two empty ropes chained, then edited in turn, with the concatenation
  /// following the chain: after each edit it reads as the left cells followed
  /// by the right cells.
  method ConcatenateRopes() returns (first: seq<int>, second: seq<int>, third: seq<int>, fourth: seq<int>)
    ensures first == [1, 2, 3]
    ensures second == [1, 2, 3, 10, 11, 12]
    ensures third == [1, 4, 5, 6, 3, 10, 11, 12]
    ensures fourth == [1, 4, 5, 6, 3, 10, 20, 21, 22, 12]
  {
    var chain := new ChainStream<int, ()>();
    var concat := new RopeBinding<int, ()>.FromStream(());
    assert concat.Slots() == [];
    first, second := EditBothSides(chain, concat);
    third, fourth := EditBothSidesAgain(chain, concat);
  }

  /// The first edit of each side of the chain.
  method EditBothSides(chain: ChainStream<int, ()>, concat: RopeBinding<int, ()>) returns (first: seq<int>, second: seq<int>)
    requires Follows(chain, concat) && chain.left == [] && chain.right == []
    modifies chain, concat.core
    ensures Follows(chain, concat) && chain.left == [1, 2, 3] && chain.right == [10, 11, 12]
    ensures first == [1, 2, 3] && second == [1, 2, 3, 10, 11, 12]
  {
    first := StepLeft(chain, concat, Action.Replace(0, 0, [1, 2, 3]));
    assert chain.left == [1, 2, 3];
    second := StepRight(chain, concat, Action.Replace(0, 0, [10, 11, 12]));
    assert chain.right == [10, 11, 12];
  }

  /// The second edit of each side of the chain, each in the middle of its side.
  method EditBothSidesAgain(chain: ChainStream<int, ()>, concat: RopeBinding<int, ()>) returns (third: seq<int>, fourth: seq<int>)
    requires Follows(chain, concat) && chain.left == [1, 2, 3] && chain.right == [10, 11, 12]
    modifies chain, concat.core
    ensures third == [1, 4, 5, 6, 3, 10, 11, 12]
    ensures fourth == [1, 4, 5, 6, 3, 10, 20, 21, 22, 12]
  {
    assert [1, 2, 3][..1] + [4, 5, 6] + [1, 2, 3][2..] == [1, 4, 5, 6, 3];
    third := StepLeft(chain, concat, Action.Replace(1, 2, [4, 5, 6]));
    assert chain.left == [1, 4, 5, 6, 3];
    assert [10, 11, 12][..1] + [20, 21, 22] + [10, 11, 12][2..] == [10, 20, 21, 22, 12];
    fourth := StepRight(chain, concat, Action.Replace(1, 2, [20, 21, 22]));
    assert chain.right == [10, 20, 21, 22, 12];
  }

  /// `concat` holds what `chain` has sent so far, and nothing is queued.
  ghost predicate Follows(chain: ChainStream<int, ()>, concat: RopeBinding<int, ()>)
    reads chain, concat, concat.core
  {
    && chain.Valid() && concat.Valid() && chain.leftOpen && chain.rightOpen && chain.pending == []
    && chain.output == CellsOf(concat.Slots())
  }

  /// An edit of the left rope, polled through the chain to the concatenation.
  method StepLeft(chain: ChainStream<int, ()>, concat: RopeBinding<int, ()>, action: Action<int, ()>)
    returns (cells: seq<int>)
    requires Follows(chain, concat)
    requires InBounds(action, |chain.left|)
    modifies chain, concat.core
    ensures Follows(chain, concat)
    ensures chain.left == ApplyCells(old(chain.left), action) && chain.right == old(chain.right)
    ensures cells == chain.left + chain.right
  {
    var poll, l, r := chain.Poll(Item(action), Pending);
    CellsOfApply(concat.Slots(), poll.item, concat.core.defaultAttr);
    concat.Receive(poll.item);
    cells := CellsOf(concat.Slots());
  }

  /// An edit of the right rope, polled through the chain to the concatenation.
  method StepRight(chain: ChainStream<int, ()>, concat: RopeBinding<int, ()>, action: Action<int, ()>)
    returns (cells: seq<int>)
    requires Follows(chain, concat)
    requires InBounds(action, |chain.right|)
    modifies chain, concat.core
    ensures Follows(chain, concat)
    ensures chain.right == ApplyCells(old(chain.right), action) && chain.left == old(chain.left)
    ensures cells == chain.left + chain.right
  {
    var poll, l, r := chain.Poll(Pending, Item(action));
    CellsOfApply(concat.Slots(), poll.item, concat.core.defaultAttr);
    concat.Receive(poll.item);
    cells := CellsOf(concat.Slots());
  }
}
