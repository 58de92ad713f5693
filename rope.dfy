/// The rope value that rope bindings hold and edit: an ordered sequence of
/// cells, each carrying an attribute. It is stored as a list of attribute runs;
/// neighbouring runs may carry equal attributes, so two ropes with the same
/// cells and attributes can split their runs differently.
module Rope {

  /// One cell together with the attribute applied to it.
  datatype Slot<C, A> = Slot(cell: C, attr: A)

  /// A run of consecutive cells that share one attribute.
  datatype Run<C, A> = Run(cells: seq<C>, attr: A)

  /// An edit of a rope. Ranges are half-open: `start..end`.
  datatype Action<C, A> =
    | Replace(start: nat, end: nat, cells: seq<C>)
    | SetAttributes(start: nat, end: nat, attr: A)
    | ReplaceAttributes(start: nat, end: nat, cells: seq<C>, attr: A)

  /// What `read_attributes` answers: an attribute and the extent of the run
  /// that carries it.
  datatype AttrRange<A> = AttrRange(attr: A, start: nat, end: nat)

  // ---------------------------------------------------------------------------
  // Slots and runs
  // ---------------------------------------------------------------------------

  /// The cells `cells`, each with attribute `attr`.
  function Tag<C, A>(cells: seq<C>, attr: A): (r: seq<Slot<C, A>>)
    ensures |r| == |cells|
    ensures forall i :: 0 <= i < |r| ==> r[i] == Slot(cells[i], attr)
  {
    seq(|cells|, i requires 0 <= i < |cells| => Slot(cells[i], attr))
  }

  /// The cells of a sequence of slots, without their attributes.
  function CellsOf<C, A>(slots: seq<Slot<C, A>>): (r: seq<C>)
    ensures |r| == |slots|
    ensures forall i :: 0 <= i < |r| ==> r[i] == slots[i].cell
  {
    seq(|slots|, i requires 0 <= i < |slots| => slots[i].cell)
  }

  lemma CellsOfConcat<C, A>(a: seq<Slot<C, A>>, b: seq<Slot<C, A>>)
    ensures CellsOf(a + b) == CellsOf(a) + CellsOf(b)
  {
  }

  lemma CellsOfTag<C, A>(cells: seq<C>, attr: A)
    ensures CellsOf(Tag(cells, attr)) == cells
  {
  }

  /// The slots a list of runs stands for, in order.
  function Flatten<C, A>(runs: seq<Run<C, A>>): seq<Slot<C, A>>
  {
    if runs == [] then [] else Tag(runs[0].cells, runs[0].attr) + Flatten(runs[1..])
  }

  /// The cells of a rope.
  function Cells<C, A>(runs: seq<Run<C, A>>): seq<C>
  {
    CellsOf(Flatten(runs))
  }

  /// Every run holds at least one cell (the rope never reports an empty run).
  predicate NonEmptyRuns<C, A>(runs: seq<Run<C, A>>)
  {
    forall i :: 0 <= i < |runs| ==> runs[i].cells != []
  }

  lemma {:induction false} FlattenConcat<C, A>(a: seq<Run<C, A>>, b: seq<Run<C, A>>)
    ensures Flatten(a + b) == Flatten(a) + Flatten(b)
  {
    if a == [] {
      assert a + b == b;
    } else {
      assert (a + b)[1..] == a[1..] + b;
      FlattenConcat(a[1..], b);
    }
  }

  /// The runs covering the first `n` slots (the run holding slot `n - 1` is cut).
  function Take<C, A>(runs: seq<Run<C, A>>, n: nat): (r: seq<Run<C, A>>)
    requires n <= |Flatten(runs)|
    ensures Flatten(r) == Flatten(runs)[..n]
    ensures NonEmptyRuns(runs) ==> NonEmptyRuns(r)
    decreases |runs|
  {
    if n == 0 then []
    else if n <= |runs[0].cells| then
      var r := [Run(runs[0].cells[..n], runs[0].attr)];
      assert Flatten(r) == Tag(runs[0].cells[..n], runs[0].attr) + Flatten(r[1..]);
      assert Flatten(r) == Flatten(runs)[..n];
      r
    else
      var rest := Take(runs[1..], n - |runs[0].cells|);
      var r := [runs[0]] + rest;
      assert r[1..] == rest;
      assert Flatten(r) == Tag(runs[0].cells, runs[0].attr) + Flatten(rest);
      r
  }

  /// The runs covering every slot from `n` on (the run holding slot `n` is cut).
  function Drop<C, A>(runs: seq<Run<C, A>>, n: nat): (r: seq<Run<C, A>>)
    requires n <= |Flatten(runs)|
    ensures Flatten(r) == Flatten(runs)[n..]
    ensures NonEmptyRuns(runs) ==> NonEmptyRuns(r)
    decreases |runs|
  {
    if n == 0 then runs
    else if n < |runs[0].cells| then
      var r := [Run(runs[0].cells[n..], runs[0].attr)] + runs[1..];
      assert r[1..] == runs[1..];
      assert Flatten(r) == Tag(runs[0].cells[n..], runs[0].attr) + Flatten(runs[1..]);
      r
    else
      Drop(runs[1..], n - |runs[0].cells|)
  }

  lemma {:induction false} TakeAll<C, A>(runs: seq<Run<C, A>>)
    requires NonEmptyRuns(runs)
    ensures Take(runs, |Flatten(runs)|) == runs
    decreases |runs|
  {
    if runs != [] {
      var rest := runs[1..];
      assert |Flatten(runs)| == |runs[0].cells| + |Flatten(rest)|;
      if rest == [] {
        assert runs == [runs[0]];
        assert runs[0].cells[..|runs[0].cells|] == runs[0].cells;
      } else {
        assert rest[0].cells != [];
        assert |Flatten(rest)| > 0;
        TakeAll(rest);
        assert runs == [runs[0]] + rest;
      }
    }
  }

  lemma {:induction false} DropAll<C, A>(runs: seq<Run<C, A>>)
    requires NonEmptyRuns(runs)
    ensures Drop(runs, |Flatten(runs)|) == []
    decreases |runs|
  {
    if runs != [] {
      assert |Flatten(runs)| == |runs[0].cells| + |Flatten(runs[1..])|;
      DropAll(runs[1..]);
    }
  }

  /// `cells` as runs carrying `attr`: none at all when there are no cells.
  function AsRuns<C, A>(cells: seq<C>, attr: A): (r: seq<Run<C, A>>)
    ensures Flatten(r) == Tag(cells, attr)
    ensures NonEmptyRuns(r)
  {
    if cells == [] then [] else
      var r := [Run(cells, attr)];
      assert Flatten(r) == Tag(cells, attr) + Flatten(r[1..]);
      r
  }

  /// Replaces the runs covering `start..end` by `inserted`.
  function Splice<C, A>(runs: seq<Run<C, A>>, start: nat, end: nat, inserted: seq<Run<C, A>>): (r: seq<Run<C, A>>)
    requires start <= end <= |Flatten(runs)|
    ensures Flatten(r) == Flatten(runs)[..start] + Flatten(inserted) + Flatten(runs)[end..]
    ensures NonEmptyRuns(runs) && NonEmptyRuns(inserted) ==> NonEmptyRuns(r)
  {
    var before, after := Take(runs, start), Drop(runs, end);
    FlattenConcat(before, inserted);
    FlattenConcat(before + inserted, after);
    before + inserted + after
  }

  // ---------------------------------------------------------------------------
  // Applying actions
  // ---------------------------------------------------------------------------

  /// The range of `action` lies inside a rope of length `len`.
  predicate InBounds<C, A>(action: Action<C, A>, len: nat)
  {
    action.start <= action.end <= len
  }

  /// The attribute that `Replace` gives its new cells: the attribute of the
  /// first replaced cell; past the end, that of the last cell; on an empty
  /// rope, the default attribute.
  function AttrAt<C, A>(slots: seq<Slot<C, A>>, pos: nat, dflt: A): A
  {
    if pos < |slots| then slots[pos].attr
    else if slots != [] then slots[|slots| - 1].attr
    else dflt
  }

  /// What an action does to the slots of a rope.
  function Apply<C, A>(slots: seq<Slot<C, A>>, action: Action<C, A>, dflt: A): seq<Slot<C, A>>
    requires InBounds(action, |slots|)
  {
    var before, after := slots[..action.start], slots[action.end..];
    match action
    case Replace(s, _, cells) => before + Tag(cells, AttrAt(slots, s, dflt)) + after
    case SetAttributes(s, e, attr) => before + Tag(CellsOf(slots[s..e]), attr) + after
    case ReplaceAttributes(_, _, cells, attr) => before + Tag(cells, attr) + after
  }

  /// `replace(start..end, cells)`: the cells become `old[..start] ++ cells ++
  /// old[end..]`; the new cells take the attribute of the first replaced cell
  /// (past the end, of the last cell; on an empty rope, the default), and every
  /// cell outside the range keeps its attribute.
  lemma ReplaceEffect<C, A>(slots: seq<Slot<C, A>>, start: nat, end: nat, cells: seq<C>, dflt: A)
    requires start <= end <= |slots|
    ensures var r := Apply(slots, Replace(start, end, cells), dflt);
      && CellsOf(r) == CellsOf(slots)[..start] + cells + CellsOf(slots)[end..]
      && |r| == |slots| - (end - start) + |cells|
      && (forall i :: 0 <= i < start ==> r[i] == slots[i])
      && (forall i :: start <= i < start + |cells| ==> r[i].attr == AttrAt(slots, start, dflt))
      && (forall i :: end <= i < |slots| ==> r[i - end + start + |cells|] == slots[i])
  {
    CellsOfApply(slots, Replace(start, end, cells), dflt);
  }

  /// `set_attributes(start..end, attr)`: the cells stay as they were; the cells
  /// in the range carry `attr`, the others keep their attribute.
  lemma SetAttributesEffect<C, A>(slots: seq<Slot<C, A>>, start: nat, end: nat, attr: A, dflt: A)
    requires start <= end <= |slots|
    ensures var r := Apply(slots, SetAttributes(start, end, attr), dflt);
      && |r| == |slots|
      && (forall i :: 0 <= i < |r| ==> r[i].cell == slots[i].cell)
      && (forall i :: 0 <= i < |r| ==> r[i].attr == (if start <= i < end then attr else slots[i].attr))
  {
    var r := Apply(slots, SetAttributes(start, end, attr), dflt);
    var mid := Tag(CellsOf(slots[start..end]), attr);
    assert r == slots[..start] + mid + slots[end..];
    forall i | 0 <= i < |r|
      ensures r[i].cell == slots[i].cell
      ensures r[i].attr == (if start <= i < end then attr else slots[i].attr)
    {
      if i < start {
        assert r[i] == slots[i];
      } else if i < end {
        assert r[i] == mid[i - start];
      } else {
        assert r[i] == slots[end..][i - end];
      }
    }
  }

  /// `replace_attributes(start..end, cells, attr)`: a splice whose new cells
  /// all carry `attr`.
  lemma ReplaceAttributesEffect<C, A>(slots: seq<Slot<C, A>>, start: nat, end: nat, cells: seq<C>, attr: A, dflt: A)
    requires start <= end <= |slots|
    ensures var r := Apply(slots, ReplaceAttributes(start, end, cells, attr), dflt);
      && CellsOf(r) == CellsOf(slots)[..start] + cells + CellsOf(slots)[end..]
      && (forall i :: 0 <= i < start ==> r[i] == slots[i])
      && (forall i :: 0 <= i < |cells| ==> r[start + i] == Slot(cells[i], attr))
      && (forall i :: end <= i < |slots| ==> r[i - end + start + |cells|] == slots[i])
  {
    var r := Apply(slots, ReplaceAttributes(start, end, cells, attr), dflt);
    var mid := Tag(cells, attr);
    assert r == slots[..start] + mid + slots[end..];
    CellsOfApply(slots, ReplaceAttributes(start, end, cells, attr), dflt);
    forall i | 0 <= i < start
      ensures r[i] == slots[i]
    {
      assert r[i] == slots[..start][i];
    }
    forall i | 0 <= i < |cells|
      ensures r[start + i] == Slot(cells[i], attr)
    {
      assert r[start + i] == mid[i];
    }
    forall i | end <= i < |slots|
      ensures r[i - end + start + |cells|] == slots[i]
    {
      assert r[i - end + start + |cells|] == slots[end..][i - end];
    }
  }

  /// What an action does to the cells of a rope (attributes aside).
  function ApplyCells<C, A>(cells: seq<C>, action: Action<C, A>): seq<C>
    requires InBounds(action, |cells|)
  {
    match action
    case Replace(s, e, inserted) => cells[..s] + inserted + cells[e..]
    case SetAttributes(_, _, _) => cells
    case ReplaceAttributes(s, e, inserted, _) => cells[..s] + inserted + cells[e..]
  }

  /// The cells of a splice of tagged cells.
  lemma CellsOfSplice<C, A>(pre: seq<Slot<C, A>>, inserted: seq<C>, attr: A, post: seq<Slot<C, A>>)
    ensures CellsOf(pre + Tag(inserted, attr) + post) == CellsOf(pre) + inserted + CellsOf(post)
  {
    CellsOfConcat(pre + Tag(inserted, attr), post);
    CellsOfConcat(pre, Tag(inserted, attr));
    CellsOfTag(inserted, attr);
  }

  /// Seen from its cells alone, an action is a splice of cells.
  lemma CellsOfApply<C, A>(slots: seq<Slot<C, A>>, action: Action<C, A>, dflt: A)
    requires InBounds(action, |slots|)
    ensures CellsOf(Apply(slots, action, dflt)) == ApplyCells(CellsOf(slots), action)
  {
    var cells := CellsOf(slots);
    var s, e := action.start, action.end;
    assert CellsOf(slots[..s]) == cells[..s];
    assert CellsOf(slots[e..]) == cells[e..];
    match action
    case Replace(_, _, inserted) =>
      CellsOfSplice(slots[..s], inserted, AttrAt(slots, s, dflt), slots[e..]);
    case SetAttributes(_, _, attr) =>
      CellsOfSplice(slots[..s], CellsOf(slots[s..e]), attr, slots[e..]);
      assert CellsOf(slots[s..e]) == cells[s..e];
      assert cells == cells[..s] + cells[s..e] + cells[e..];
    case ReplaceAttributes(_, _, inserted, attr) =>
      CellsOfSplice(slots[..s], inserted, attr, slots[e..]);
  }

  /// The rope's own edit (`AttributedRope::edit`): splices a new run into the
  /// run list. Its slots are exactly those `Apply` describes.
  function Edit<C, A>(runs: seq<Run<C, A>>, action: Action<C, A>, dflt: A): (r: seq<Run<C, A>>)
    requires InBounds(action, |Flatten(runs)|)
    ensures Flatten(r) == Apply(Flatten(runs), action, dflt)
    ensures NonEmptyRuns(runs) ==> NonEmptyRuns(r)
  {
    var slots := Flatten(runs);
    match action
    case Replace(s, e, cells) => Splice(runs, s, e, AsRuns(cells, AttrAt(slots, s, dflt)))
    case SetAttributes(s, e, attr) => Splice(runs, s, e, AsRuns(CellsOf(slots[s..e]), attr))
    case ReplaceAttributes(s, e, cells, attr) => Splice(runs, s, e, AsRuns(cells, attr))
  }

  /// Every action of `actions` is in range of the rope it meets, applied in order.
  predicate AppliesCleanly<C, A>(slots: seq<Slot<C, A>>, actions: seq<Action<C, A>>, dflt: A)
    decreases |actions|
  {
    actions == [] ||
    (InBounds(actions[0], |slots|) && AppliesCleanly(Apply(slots, actions[0], dflt), actions[1..], dflt))
  }

  /// The rope after applying `actions` in order.
  function ApplyAll<C, A>(slots: seq<Slot<C, A>>, actions: seq<Action<C, A>>, dflt: A): seq<Slot<C, A>>
    requires AppliesCleanly(slots, actions, dflt)
    decreases |actions|
  {
    if actions == [] then slots else ApplyAll(Apply(slots, actions[0], dflt), actions[1..], dflt)
  }

  /// Applying one more action after a replayed list is replaying the longer list.
  lemma {:induction false} ApplyAllSnoc<C, A>(slots: seq<Slot<C, A>>, actions: seq<Action<C, A>>, a: Action<C, A>, dflt: A)
    requires AppliesCleanly(slots, actions, dflt)
    requires InBounds(a, |ApplyAll(slots, actions, dflt)|)
    ensures AppliesCleanly(slots, actions + [a], dflt)
    ensures ApplyAll(slots, actions + [a], dflt) == Apply(ApplyAll(slots, actions, dflt), a, dflt)
    decreases |actions|
  {
    if actions == [] {
      assert actions + [a] == [a];
      assert [a][1..] == [];
    } else {
      assert (actions + [a])[1..] == actions[1..] + [a];
      ApplyAllSnoc(Apply(slots, actions[0], dflt), actions[1..], a, dflt);
    }
  }

  /// Every action of `actions` is in range of the cells it meets, applied in order.
  predicate CellsApplyCleanly<C, A>(cells: seq<C>, actions: seq<Action<C, A>>)
    decreases |actions|
  {
    actions == [] ||
    (InBounds(actions[0], |cells|) && CellsApplyCleanly(ApplyCells(cells, actions[0]), actions[1..]))
  }

  /// The cells after applying `actions` in order.
  function ApplyAllCells<C, A>(cells: seq<C>, actions: seq<Action<C, A>>): seq<C>
    requires CellsApplyCleanly(cells, actions)
    decreases |actions|
  {
    if actions == [] then cells else ApplyAllCells(ApplyCells(cells, actions[0]), actions[1..])
  }

  lemma {:induction false} ApplyAllCellsConcat<C, A>(cells: seq<C>, first: seq<Action<C, A>>, second: seq<Action<C, A>>)
    requires CellsApplyCleanly(cells, first)
    requires CellsApplyCleanly(ApplyAllCells(cells, first), second)
    ensures CellsApplyCleanly(cells, first + second)
    ensures ApplyAllCells(cells, first + second) == ApplyAllCells(ApplyAllCells(cells, first), second)
    decreases |first|
  {
    if first == [] {
      assert first + second == second;
    } else {
      assert (first + second)[1..] == first[1..] + second;
      ApplyAllCellsConcat(ApplyCells(cells, first[0]), first[1..], second);
    }
  }

  // ---------------------------------------------------------------------------
  // Reading
  // ---------------------------------------------------------------------------

  /// `read_cells(start..end)`.
  function ReadCells<C, A>(runs: seq<Run<C, A>>, start: nat, end: nat): seq<C>
    requires start <= end <= |Flatten(runs)|
  {
    CellsOf(Flatten(runs)[start..end])
  }

  /// `read_attributes(pos)` on runs that begin at slot `offset`.
  function ReadFrom<C, A>(runs: seq<Run<C, A>>, pos: nat, offset: nat, dflt: A): AttrRange<A>
    decreases |runs|
  {
    if runs == [] then AttrRange(dflt, offset, offset)
    else if pos < offset + |runs[0].cells| then AttrRange(runs[0].attr, offset, offset + |runs[0].cells|)
    else ReadFrom(runs[1..], pos, offset + |runs[0].cells|, dflt)
  }

  /// `read_attributes(pos)`: the run holding slot `pos`, or an empty range with
  /// the default attribute at the end of the rope when `pos` is past its end.
  function ReadAttributes<C, A>(runs: seq<Run<C, A>>, pos: nat, dflt: A): AttrRange<A>
  {
    ReadFrom(runs, pos, 0, dflt)
  }

  lemma {:induction false} ReadFromAtOffset<C, A>(runs: seq<Run<C, A>>, offset: nat, dflt: A)
    requires |Flatten(runs)| > 0
    ensures ReadFrom(runs, offset, offset, dflt).start == offset
    decreases |runs|
  {
    assert |Flatten(runs)| == |runs[0].cells| + |Flatten(runs[1..])|;
    if runs[0].cells == [] {
      ReadFromAtOffset(runs[1..], offset, dflt);
    }
  }

  lemma {:induction false} ReadFromRun<C, A>(runs: seq<Run<C, A>>, pos: nat, offset: nat, dflt: A)
    requires offset <= pos < offset + |Flatten(runs)|
    ensures var r := ReadFrom(runs, pos, offset, dflt);
      && offset <= r.start <= pos < r.end <= offset + |Flatten(runs)|
      && (forall i :: 0 <= i < |Flatten(runs)| && r.start <= offset + i < r.end ==> Flatten(runs)[i].attr == r.attr)
      && ReadFrom(runs, r.start, offset, dflt) == r
      && (r.end < offset + |Flatten(runs)| ==> ReadFrom(runs, r.end, offset, dflt).start == r.end)
    decreases |runs|
  {
    var rest := runs[1..];
    var n := |runs[0].cells|;
    assert Flatten(runs) == Tag(runs[0].cells, runs[0].attr) + Flatten(rest);
    if pos < offset + n {
      var r := ReadFrom(runs, pos, offset, dflt);
      if r.end < offset + |Flatten(runs)| {
        ReadFromAtOffset(rest, offset + n, dflt);
      }
    } else {
      ReadFromRun(rest, pos, offset + n, dflt);
      var r := ReadFrom(rest, pos, offset + n, dflt);
      forall i | 0 <= i < |Flatten(runs)| && r.start <= offset + i < r.end
        ensures Flatten(runs)[i].attr == r.attr
      {
        assert Flatten(runs)[i] == Flatten(rest)[i - n];
      }
    }
  }

  /// For a slot inside the rope, `read_attributes` answers a non-empty run that
  /// holds it, whose cells all carry the answered attribute; reading at the
  /// run's start answers the same run, and reading at its end answers the run
  /// that starts there.
  lemma ReadAttributesRun<C, A>(runs: seq<Run<C, A>>, pos: nat, dflt: A)
    requires pos < |Flatten(runs)|
    ensures var r := ReadAttributes(runs, pos, dflt);
      && r.start <= pos < r.end <= |Flatten(runs)|
      && (forall q :: r.start <= q < r.end ==> Flatten(runs)[q].attr == r.attr)
      && ReadAttributes(runs, r.start, dflt) == r
      && (r.end < |Flatten(runs)| ==> ReadAttributes(runs, r.end, dflt).start == r.end)
  {
    ReadFromRun(runs, pos, 0, dflt);
    var r := ReadAttributes(runs, pos, dflt);
    forall q | r.start <= q < r.end
      ensures Flatten(runs)[q].attr == r.attr
    {
      assert 0 + q == q;
    }
  }

  lemma {:induction false} ReadFromPastEnd<C, A>(runs: seq<Run<C, A>>, pos: nat, offset: nat, dflt: A)
    requires pos >= offset + |Flatten(runs)|
    ensures ReadFrom(runs, pos, offset, dflt) == AttrRange(dflt, offset + |Flatten(runs)|, offset + |Flatten(runs)|)
    decreases |runs|
  {
    if runs != [] {
      assert |Flatten(runs)| == |runs[0].cells| + |Flatten(runs[1..])|;
      ReadFromPastEnd(runs[1..], pos, offset + |runs[0].cells|, dflt);
    }
  }

  /// Past the end of the rope, `read_attributes` answers an empty range at the
  /// end carrying the default attribute.
  lemma ReadAttributesPastEnd<C, A>(runs: seq<Run<C, A>>, pos: nat, dflt: A)
    requires pos >= |Flatten(runs)|
    ensures ReadAttributes(runs, pos, dflt) == AttrRange(dflt, |Flatten(runs)|, |Flatten(runs)|)
  {
    ReadFromPastEnd(runs, pos, 0, dflt);
  }

  lemma {:induction false} ReadFromRunStart<C, A>(runs: seq<Run<C, A>>, k: nat, offset: nat, dflt: A)
    requires NonEmptyRuns(runs) && k < |runs|
    ensures var p := offset + |Flatten(runs[..k])|;
      ReadFrom(runs, p, offset, dflt) == AttrRange(runs[k].attr, p, p + |runs[k].cells|)
    decreases k
  {
    if k == 0 {
      assert runs[..0] == [];
    } else {
      var rest := runs[1..];
      assert runs[..k] == [runs[0]] + rest[..k - 1];
      FlattenConcat([runs[0]], rest[..k - 1]);
      assert Flatten([runs[0]]) == Tag(runs[0].cells, runs[0].attr) + Flatten([runs[0]][1..]);
      ReadFromRunStart(rest, k - 1, offset + |runs[0].cells|, dflt);
    }
  }

  /// Read at the first slot of the `k`-th run, `read_attributes` answers exactly
  /// that run: its attribute, its extent, and (through `ReadCells`) its cells.
  lemma ReadAttributesRunStart<C, A>(runs: seq<Run<C, A>>, k: nat, dflt: A)
    requires NonEmptyRuns(runs) && k < |runs|
    ensures var p := |Flatten(runs[..k])|;
      && ReadAttributes(runs, p, dflt) == AttrRange(runs[k].attr, p, p + |runs[k].cells|)
      && p + |runs[k].cells| == |Flatten(runs[..k + 1])| <= |Flatten(runs)|
      && ReadCells(runs, p, p + |runs[k].cells|) == runs[k].cells
  {
    ReadFromRunStart(runs, k, 0, dflt);
    var p := |Flatten(runs[..k])|;
    assert runs == runs[..k] + runs[k..];
    FlattenConcat(runs[..k], runs[k..]);
    assert runs[..k + 1] == runs[..k] + [runs[k]];
    FlattenConcat(runs[..k], [runs[k]]);
    assert Flatten([runs[k]]) == Tag(runs[k].cells, runs[k].attr) + Flatten([runs[k]][1..]);
    assert Flatten(runs[k..]) == Tag(runs[k].cells, runs[k].attr) + Flatten(runs[k..][1..]);
    assert Flatten(runs)[p..p + |runs[k].cells|] == Tag(runs[k].cells, runs[k].attr);
    CellsOfTag(runs[k].cells, runs[k].attr);
  }
}
