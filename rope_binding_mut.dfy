/// `RopeBindingMut`: a rope binding whose cells and attributes are edited
/// directly. Every handle shares one `RopeBindingCore`.
module MutableRope {
  import opened Rope
  import opened Notify
  import opened RopeCore

  // ---------------------------------------------------------------------------
  // retain_cells: the rejected ranges and the filter they amount to
  // ---------------------------------------------------------------------------

  /// A half-open range `start..end` of cell positions.
  datatype Span = Span(start: nat, end: nat)

  /// Position `i` lies in one of `spans`.
  predicate InSome(spans: seq<Span>, i: nat)
  {
    exists k :: 0 <= k < |spans| && spans[k].start <= i < spans[k].end
  }

  lemma InSomeSnoc(spans: seq<Span>, s: Span, i: nat)
    ensures InSome(spans + [s], i) <==> InSome(spans, i) || s.start <= i < s.end
  {
    if InSome(spans, i) {
      var k :| 0 <= k < |spans| && spans[k].start <= i < spans[k].end;
      assert (spans + [s])[k] == spans[k];
    }
    if s.start <= i < s.end {
      assert (spans + [s])[|spans|] == s;
    }
    if InSome(spans + [s], i) {
      var k :| 0 <= k < |spans + [s]| && (spans + [s])[k].start <= i < (spans + [s])[k].end;
      if k < |spans| {
        assert (spans + [s])[k] == spans[k];
      }
    }
  }

  /// `spans` are exactly the maximal runs of cells that `retain` rejects:
  /// non-empty, in range, strictly ascending with a kept cell between two of
  /// them, covering a position iff its cell is rejected, and each bounded by
  /// kept cells or by the ends of the rope.
  predicate RejectedSpans<C>(cells: seq<C>, retain: C -> bool, spans: seq<Span>)
  {
    && (forall k :: 0 <= k < |spans| ==> spans[k].start < spans[k].end <= |cells|)
    && (forall k, l :: 0 <= k < l < |spans| ==> spans[k].end < spans[l].start)
    && (forall i :: 0 <= i < |cells| ==> (!retain(cells[i]) <==> InSome(spans, i)))
    && (forall k :: 0 <= k < |spans| && spans[k].start > 0 ==> retain(cells[spans[k].start - 1]))
    && (forall k :: 0 <= k < |spans| && spans[k].end < |cells| ==> retain(cells[spans[k].end]))
  }

  /// What the scan of `retain_cells` knows after looking at the first `idx`
  /// cells: `lastResult` is the verdict on the previous cell; when it rejected,
  /// the open range starts at `startPos` (after a kept cell) and every cell
  /// since is rejected; the closed ranges lie before it, and together with the
  /// open range they cover exactly the rejected cells seen so far.
  ghost predicate Scanned<C>(cells: seq<C>, retain: C -> bool, idx: nat, startPos: nat, lastResult: bool, spans: seq<Span>)
  {
    && idx <= |cells|
    && lastResult == (idx == 0 || retain(cells[idx - 1]))
    && (!lastResult ==>
          && startPos < idx
          && (startPos == 0 || retain(cells[startPos - 1]))
          && (forall i :: startPos <= i < idx ==> !retain(cells[i]))
          && (forall k :: 0 <= k < |spans| ==> spans[k].end < startPos))
    && ClosedSpans(cells, retain, spans, idx)
    && (forall i :: 0 <= i < idx ==> (!retain(cells[i]) <==> InSome(spans, i) || (!lastResult && startPos <= i)))
  }

  /// Spans closed before position `idx`: non-empty, ascending with gaps, and
  /// each bounded by kept cells.
  ghost predicate ClosedSpans<C>(cells: seq<C>, retain: C -> bool, spans: seq<Span>, idx: nat)
  {
    && idx <= |cells|
    && (forall k :: 0 <= k < |spans| ==> spans[k].start < spans[k].end < idx)
    && (forall k :: 0 <= k < |spans| ==> retain(cells[spans[k].end]))
    && (forall k :: 0 <= k < |spans| && spans[k].start > 0 ==> retain(cells[spans[k].start - 1]))
    && (forall k, l :: 0 <= k < l < |spans| ==> spans[k].end < spans[l].start)
  }

  /// No closed span reaches position `idx`.
  lemma ClosedBelow<C>(cells: seq<C>, retain: C -> bool, spans: seq<Span>, idx: nat)
    requires ClosedSpans(cells, retain, spans, idx)
    ensures !InSome(spans, idx)
  {
  }

  /// Closing the open range at a kept cell.
  lemma ScanClose<C>(cells: seq<C>, retain: C -> bool, idx: nat, startPos: nat, spans: seq<Span>)
    requires Scanned(cells, retain, idx, startPos, false, spans)
    requires idx < |cells| && retain(cells[idx])
    ensures Scanned(cells, retain, idx + 1, startPos, true, spans + [Span(startPos, idx)])
  {
    var spans' := spans + [Span(startPos, idx)];
    assert spans'[|spans|] == Span(startPos, idx);
    assert forall k :: 0 <= k < |spans| ==> spans'[k] == spans[k];
    assert ClosedSpans(cells, retain, spans', idx + 1);
    forall i | 0 <= i < idx + 1
      ensures !retain(cells[i]) <==> InSome(spans', i)
    {
      InSomeSnoc(spans, Span(startPos, idx), i);
      if i == idx {
        ClosedBelow(cells, retain, spans, idx);
      }
    }
  }

  /// A cell that extends or opens a rejected range, or keeps no range open.
  lemma ScanOther<C>(cells: seq<C>, retain: C -> bool, idx: nat, startPos: nat, lastResult: bool, spans: seq<Span>)
    requires Scanned(cells, retain, idx, startPos, lastResult, spans)
    requires idx < |cells| && (lastResult || !retain(cells[idx]))
    ensures var kept := retain(cells[idx]);
      Scanned(cells, retain, idx + 1, if lastResult && !kept then idx else startPos, kept, spans)
  {
    ClosedBelow(cells, retain, spans, idx);
  }

  /// The first loop of `retain_cells`: walks the cells, remembering whether the
  /// previous cell was kept, opening a range at each kept-to-rejected step and
  /// closing it at each rejected-to-kept step; a range still open at the end
  /// is closed at the length of the rope.
  method FindRejected<C>(cells: seq<C>, retain: C -> bool) returns (spans: seq<Span>)
    ensures RejectedSpans(cells, retain, spans)
  {
    var startPos := 0;
    var lastResult := true;
    spans := [];
    for idx := 0 to |cells|
      invariant Scanned(cells, retain, idx, startPos, lastResult, spans)
    {
      var thisResult := retain(cells[idx]);
      if !lastResult && thisResult {
        ScanClose(cells, retain, idx, startPos, spans);
      } else {
        ScanOther(cells, retain, idx, startPos, lastResult, spans);
      }
      if lastResult && !thisResult {
        startPos := idx;
      }
      if !lastResult && thisResult {
        spans := spans + [Span(startPos, idx)];
      }
      lastResult := thisResult;
    }
    if !lastResult {
      ScanFinish(cells, retain, startPos, spans);
      spans := spans + [Span(startPos, |cells|)];
    }
  }

  /// After the last cell, a still-open range is closed at the length.
  lemma ScanFinish<C>(cells: seq<C>, retain: C -> bool, startPos: nat, spans: seq<Span>)
    requires Scanned(cells, retain, |cells|, startPos, false, spans)
    ensures RejectedSpans(cells, retain, spans + [Span(startPos, |cells|)])
  {
    var spans' := spans + [Span(startPos, |cells|)];
    assert spans'[|spans|] == Span(startPos, |cells|);
    assert forall k :: 0 <= k < |spans| ==> spans'[k] == spans[k];
    forall i | 0 <= i < |cells|
      ensures !retain(cells[i]) <==> InSome(spans', i)
    {
      InSomeSnoc(spans, Span(startPos, |cells|), i);
    }
  }

  /// The slots whose cells `retain` keeps, in order.
  function Retained<C, A>(slots: seq<Slot<C, A>>, retain: C -> bool): (r: seq<Slot<C, A>>)
    ensures |r| <= |slots|
  {
    if slots == [] then []
    else (if retain(slots[0].cell) then [slots[0]] else []) + Retained(slots[1..], retain)
  }

  /// Every cell is kept.
  predicate AllRetained<C, A>(slots: seq<Slot<C, A>>, retain: C -> bool)
  {
    forall i :: 0 <= i < |slots| ==> retain(slots[i].cell)
  }

  lemma {:induction false} RetainedConcat<C, A>(a: seq<Slot<C, A>>, b: seq<Slot<C, A>>, retain: C -> bool)
    ensures Retained(a + b, retain) == Retained(a, retain) + Retained(b, retain)
  {
    if a == [] {
      assert a + b == b;
      assert Retained(a, retain) == [];
    } else {
      var head := if retain(a[0].cell) then [a[0]] else [];
      assert (a + b)[0] == a[0];
      assert (a + b)[1..] == a[1..] + b;
      assert Retained(a + b, retain) == head + Retained(a[1..] + b, retain);
      assert Retained(a, retain) == head + Retained(a[1..], retain);
      RetainedConcat(a[1..], b, retain);
    }
  }

  /// Filtering keeps a sequence whose cells are all kept, and only such a one.
  lemma {:induction false} RetainedAll<C, A>(slots: seq<Slot<C, A>>, retain: C -> bool)
    ensures Retained(slots, retain) == slots <==> AllRetained(slots, retain)
  {
    if slots != [] {
      RetainedAll(slots[1..], retain);
      if !retain(slots[0].cell) {
        assert |Retained(slots, retain)| < |slots|;
      }
    }
  }

  /// Filtering removes a sequence whose cells are all rejected.
  lemma {:induction false} RetainedNone<C, A>(slots: seq<Slot<C, A>>, retain: C -> bool)
    requires forall i :: 0 <= i < |slots| ==> !retain(slots[i].cell)
    ensures Retained(slots, retain) == []
  {
    if slots != [] {
      RetainedNone(slots[1..], retain);
    }
  }

  /// Where the part of the rope still to be filtered starts once the spans
  /// from `j` on have been deleted.
  function Boundary(spans: seq<Span>, j: nat, len: nat): nat
    requires j <= |spans|
  {
    if j == |spans| then len else spans[j].start
  }

  /// The cells of rejected span `k` are all rejected.
  lemma SpanRejected<C, A>(s: seq<Slot<C, A>>, retain: C -> bool, spans: seq<Span>, k: nat)
    requires RejectedSpans(CellsOf(s), retain, spans) && k < |spans|
    ensures Retained(s[spans[k].start..spans[k].end], retain) == []
  {
    var a, b := spans[k].start, spans[k].end;
    forall i | 0 <= i < b - a
      ensures !retain(s[a..b][i].cell)
    {
      assert CellsOf(s)[a + i] == s[a + i].cell;
      assert spans[k].start <= a + i < spans[k].end;
      assert InSome(spans, a + i);
    }
    RetainedNone(s[a..b], retain);
  }

  /// The cells between span `j - 1` and the next span (or the end) are kept.
  lemma GapKept<C, A>(s: seq<Slot<C, A>>, retain: C -> bool, spans: seq<Span>, j: nat)
    requires RejectedSpans(CellsOf(s), retain, spans) && 0 < j <= |spans|
    ensures spans[j - 1].end <= Boundary(spans, j, |s|)
    ensures Retained(s[spans[j - 1].end..Boundary(spans, j, |s|)], retain) == s[spans[j - 1].end..Boundary(spans, j, |s|)]
  {
    var b, m := spans[j - 1].end, Boundary(spans, j, |s|);
    if j < |spans| {
      assert spans[j - 1].end < spans[j].start;
    }
    forall i | 0 <= i < m - b
      ensures retain(s[b..m][i].cell)
    {
      assert CellsOf(s)[b + i] == s[b + i].cell;
      forall k | 0 <= k < |spans|
        ensures !(spans[k].start <= b + i < spans[k].end)
      {
        if k < j - 1 {
          assert spans[k].end < spans[j - 1].start;
        } else if j < k {
          assert spans[j].end < spans[k].start;
        }
      }
    }
    RetainedAll(s[b..m], retain);
  }

  /// Span `j - 1` is rejected and the cells from its end up to the next span
  /// (or the end) are kept.
  lemma SpanAndGap<C, A>(s: seq<Slot<C, A>>, retain: C -> bool, spans: seq<Span>, j: nat)
    requires RejectedSpans(CellsOf(s), retain, spans) && 0 < j <= |spans|
    ensures spans[j - 1].start <= spans[j - 1].end <= Boundary(spans, j, |s|) <= |s|
    ensures Retained(s[spans[j - 1].start..spans[j - 1].end], retain) == []
    ensures Retained(s[spans[j - 1].end..Boundary(spans, j, |s|)], retain) == s[spans[j - 1].end..Boundary(spans, j, |s|)]
  {
    SpanRejected(s, retain, spans, j - 1);
    GapKept(s, retain, spans, j);
  }

  /// The rope once the spans from `j` on have been deleted: untouched before
  /// `Boundary(spans, j)`, filtered from there on.
  function Partial<C, A>(s: seq<Slot<C, A>>, retain: C -> bool, spans: seq<Span>, j: nat): seq<Slot<C, A>>
    requires j <= |spans| && Boundary(spans, j, |s|) <= |s|
  {
    s[..Boundary(spans, j, |s|)] + Retained(s[Boundary(spans, j, |s|)..], retain)
  }

  /// One step of the backwards deletion, in terms of the spans: removing
  /// span `j - 1` from `Partial(.., j)` gives `Partial(.., j - 1)`.
  ghost predicate StepHolds<C, A>(s: seq<Slot<C, A>>, retain: C -> bool, spans: seq<Span>, j: nat)
    requires 0 < j <= |spans|
  {
    && Boundary(spans, j, |s|) <= |s| && Boundary(spans, j - 1, |s|) <= |s|
    && spans[j - 1].start <= spans[j - 1].end <= |Partial(s, retain, spans, j)|
    && Partial(s, retain, spans, j)[..spans[j - 1].start] + Partial(s, retain, spans, j)[spans[j - 1].end..]
       == Partial(s, retain, spans, j - 1)
  }

  lemma RetainStep<C, A>(s: seq<Slot<C, A>>, retain: C -> bool, spans: seq<Span>, j: nat)
    requires RejectedSpans(CellsOf(s), retain, spans) && 0 < j <= |spans|
    ensures StepHolds(s, retain, spans, j)
  {
    SpanAndGap(s, retain, spans, j);
    StepFromGap(s, retain, spans, j);
  }

  /// Cutting `a..b` out of `s[..m] ++ tail` leaves `s[..a] ++ s[b..m] ++ tail`.
  lemma CutOut<T>(s: seq<T>, a: nat, b: nat, m: nat, tail: seq<T>)
    requires a <= b <= m <= |s|
    ensures (s[..m] + tail)[..a] + (s[..m] + tail)[b..] == s[..a] + (s[b..m] + tail)
  {
    var p := s[..m] + tail;
    assert p[..a] == s[..a];
    assert p[b..] == s[b..m] + tail;
  }

  /// The step itself, from a rejected span followed by kept cells.
  lemma StepFromGap<C, A>(s: seq<Slot<C, A>>, retain: C -> bool, spans: seq<Span>, j: nat)
    requires 0 < j <= |spans|
    requires spans[j - 1].start <= spans[j - 1].end <= Boundary(spans, j, |s|) <= |s|
    requires Retained(s[spans[j - 1].start..spans[j - 1].end], retain) == []
    requires Retained(s[spans[j - 1].end..Boundary(spans, j, |s|)], retain) == s[spans[j - 1].end..Boundary(spans, j, |s|)]
    ensures StepHolds(s, retain, spans, j)
  {
    var a, b, m := spans[j - 1].start, spans[j - 1].end, Boundary(spans, j, |s|);
    assert Boundary(spans, j - 1, |s|) == a;
    FilterAcross(s, retain, a, b, m);
    CutOut(s, a, b, m, Retained(s[m..], retain));
  }

  /// Every step of the backwards deletion holds for the rejected spans.
  lemma RetainSteps<C, A>(s: seq<Slot<C, A>>, retain: C -> bool, spans: seq<Span>)
    requires RejectedSpans(CellsOf(s), retain, spans)
    ensures forall j :: 0 < j <= |spans| ==> StepHolds(s, retain, spans, j)
  {
    forall j | 0 < j <= |spans|
      ensures StepHolds(s, retain, spans, j)
    {
      RetainStep(s, retain, spans, j);
    }
  }

  /// The removals `retain_cells` makes, in the order it makes them: the
  /// rejected spans from the last to the first.
  function Deletions<C, A>(spans: seq<Span>): (r: seq<Action<C, A>>)
    ensures |r| == |spans|
    ensures forall k :: 0 <= k < |r| ==> r[k] == Replace(spans[|spans| - 1 - k].start, spans[|spans| - 1 - k].end, [])
  {
    seq(|spans|, k requires 0 <= k < |spans| => Replace(spans[|spans| - 1 - k].start, spans[|spans| - 1 - k].end, []))
  }

  /// When `a..b` holds only rejected cells and `b..m` only kept ones,
  /// filtering `s[a..]` leaves `s[b..m]` followed by the filtered `s[m..]`.
  lemma FilterAcross<C, A>(s: seq<Slot<C, A>>, retain: C -> bool, a: nat, b: nat, m: nat)
    requires a <= b <= m <= |s|
    requires Retained(s[a..b], retain) == [] && Retained(s[b..m], retain) == s[b..m]
    ensures Retained(s[a..], retain) == s[b..m] + Retained(s[m..], retain)
  {
    assert s[a..] == s[a..b] + s[b..];
    assert s[b..] == s[b..m] + s[m..];
    RetainedConcat(s[a..b], s[b..], retain);
    RetainedConcat(s[b..m], s[m..], retain);
  }

  /// No span at all exactly when every cell is kept.
  lemma SpansEmptyIffAllRetained<C, A>(s: seq<Slot<C, A>>, retain: C -> bool, spans: seq<Span>)
    requires RejectedSpans(CellsOf(s), retain, spans)
    ensures spans == [] <==> AllRetained(s, retain)
  {
    if spans == [] {
      forall i | 0 <= i < |s|
        ensures retain(s[i].cell)
      {
        assert CellsOf(s)[i] == s[i].cell;
      }
    } else {
      assert CellsOf(s)[spans[0].start] == s[spans[0].start].cell;
      assert InSome(spans, spans[0].start);
    }
  }

  /// The cells before the first span are kept.
  lemma PrefixAllKept<C, A>(s: seq<Slot<C, A>>, retain: C -> bool, spans: seq<Span>)
    requires RejectedSpans(CellsOf(s), retain, spans) && spans != []
    ensures spans[0].start <= |s| && AllRetained(s[..spans[0].start], retain)
  {
    var m := spans[0].start;
    forall i | 0 <= i < m
      ensures retain(s[i].cell)
    {
      assert CellsOf(s)[i] == s[i].cell;
      forall k | 0 <= k < |spans|
        ensures !(spans[k].start <= i < spans[k].end)
      {
        if 0 < k {
          assert spans[0].end < spans[k].start;
        }
      }
    }
  }

  /// Filtering a rope whose first `m` cells are kept keeps them in front.
  lemma KeptPrefix<C, A>(s: seq<Slot<C, A>>, retain: C -> bool, m: nat)
    requires m <= |s| && AllRetained(s[..m], retain)
    ensures s[..m] + Retained(s[m..], retain) == Retained(s, retain)
  {
    RetainedAll(s[..m], retain);
    assert s == s[..m] + s[m..];
    RetainedConcat(s[..m], s[m..], retain);
  }

  // ---------------------------------------------------------------------------
  // eq: comparing attributes run by run
  // ---------------------------------------------------------------------------

  /// `r` is what `read_attributes` answered at a position of the rope: on an
  /// empty rope, the empty range at 0; otherwise a run that starts inside the
  /// rope and that reading at its start answers again.
  ghost predicate Cursor<C, A>(runs: seq<Run<C, A>>, r: AttrRange<A>, dflt: A)
  {
    if Flatten(runs) == [] then r == AttrRange(dflt, 0, 0)
    else r.start < |Flatten(runs)| && ReadAttributes(runs, r.start, dflt) == r
  }

  /// Reading at any position of a non-empty rope gives a cursor holding it.
  lemma ReadCursor<C, A>(runs: seq<Run<C, A>>, pos: nat, dflt: A)
    requires pos < |Flatten(runs)|
    ensures Cursor(runs, ReadAttributes(runs, pos, dflt), dflt)
    ensures ReadAttributes(runs, pos, dflt).start <= pos < ReadAttributes(runs, pos, dflt).end
  {
    ReadAttributesRun(runs, pos, dflt);
  }

  /// What a cursor on a non-empty rope covers, and where the next one starts.
  lemma CursorFacts<C, A>(runs: seq<Run<C, A>>, r: AttrRange<A>, dflt: A)
    requires Cursor(runs, r, dflt) && Flatten(runs) != []
    ensures r.start < r.end <= |Flatten(runs)|
    ensures forall q :: r.start <= q < r.end ==> Flatten(runs)[q].attr == r.attr
    ensures r.end < |Flatten(runs)| ==>
      ReadAttributes(runs, r.end, dflt).start == r.end && Cursor(runs, ReadAttributes(runs, r.end, dflt), dflt)
  {
    ReadAttributesRun(runs, r.start, dflt);
    if r.end < |Flatten(runs)| {
      ReadCursor(runs, r.end, dflt);
    }
  }

  /// The attributes of two ropes agree below position `p`.
  ghost predicate AgreeBelow<C, A>(sa: seq<Slot<C, A>>, sb: seq<Slot<C, A>>, p: nat)
  {
    forall q :: 0 <= q < p && q < |sa| && q < |sb| ==> sa[q].attr == sb[q].attr
  }

  /// Neither cursor is behind the other's run.
  predicate Staggered<A>(ra: AttrRange<A>, rb: AttrRange<A>)
  {
    ra.start == rb.start || (rb.start < ra.start <= rb.end) || (ra.start < rb.start <= ra.end)
  }

  function Max(a: nat, b: nat): nat
  {
    if a < b then b else a
  }

  // ---------------------------------------------------------------------------
  // The binding
  // ---------------------------------------------------------------------------

  /// A handle on a mutable rope; clones share the same core.
  class RopeBindingMut<C(==), A(==)> {
    const core: RopeBindingCore<C, A>

    ghost predicate Valid()
      reads this, core
    {
      core.Valid()
    }

    /// The cells of the rope with their attributes.
    function Slots(): seq<Slot<C, A>>
      reads this, core
    {
      core.Slots()
    }

    /// `len()`.
    function Len(): nat
      reads this, core
    {
      |core.Slots()|
    }

    /// `new()`: an empty rope used by one handle, nothing following it.
    constructor (dflt: A)
      ensures Valid() && fresh(core)
      ensures Slots() == [] && core.defaultAttr == dflt
      ensures core.usageCount == 1 && core.streamStates == [] && core.nextStreamId == 0
      ensures core.whenChanged == Empty() && core.wakes == 0 && core.pulls == 0
    {
      core := new RopeBindingCore(dflt);
    }

    /// A second handle on an existing core (the body of `clone`).
    constructor Share(shared: RopeBindingCore<C, A>)
      ensures core == shared
    {
      core := shared;
    }

    /// `edit(action)`: applies the action, queues it for every follower and wakes them.
    method Edit(action: Action<C, A>)
      requires Valid() && InBounds(action, Len())
      modifies core
      ensures Valid() && core.BookkeepingUnchanged()
      ensures Slots() == Apply(old(Slots()), action, core.defaultAttr)
      ensures core.streamStates == Enqueue(old(core.streamStates), action)
      ensures core.wakes == old(core.wakes) + 1 && core.followedFrom == old(core.followedFrom)
    {
      core.EditRope(action);
      core.Wake();
    }

    /// `replace(start..end, cells)`: the cells become `old[..start] ++ cells ++
    /// old[end..]`, the new cells carrying the attribute of the first replaced
    /// cell; followers receive exactly this one `Replace`.
    method Replace(start: nat, end: nat, cells: seq<C>)
      requires Valid() && start <= end <= Len()
      modifies core
      ensures Valid() && core.BookkeepingUnchanged()
      ensures Slots() == old(Slots())[..start] + Tag(cells, AttrAt(old(Slots()), start, core.defaultAttr)) + old(Slots())[end..]
      ensures core.streamStates == Enqueue(old(core.streamStates), Rope.Replace(start, end, cells))
      ensures core.wakes == old(core.wakes) + 1 && core.followedFrom == old(core.followedFrom)
    {
      core.EditRope(Rope.Replace(start, end, cells));
      core.Wake();
    }

    /// `extend(cells)`: `replace(len..len, cells)`. The old cells stay in front
    /// and the rope grows by the number of new cells.
    method Extend(cells: seq<C>)
      requires Valid()
      modifies core
      ensures Valid() && core.BookkeepingUnchanged()
      ensures Len() == old(Len()) + |cells|
      ensures Slots()[..old(Len())] == old(Slots())
      ensures CellsOf(Slots()) == CellsOf(old(Slots())) + cells
      ensures core.streamStates == Enqueue(old(core.streamStates), Rope.Replace(old(Len()), old(Len()), cells))
      ensures core.wakes == old(core.wakes) + 1 && core.followedFrom == old(core.followedFrom)
    {
      var len := Len();
      ghost var before := Slots();
      Replace(len, len, cells);
      ReplaceEffect(before, len, len, cells, core.defaultAttr);
      assert Slots()[..len] == before;
    }

    /// `+= cell`: `replace(len..len, [cell])`.
    method AddAssign(cell: C)
      requires Valid()
      modifies core
      ensures Valid() && core.BookkeepingUnchanged()
      ensures Len() == old(Len()) + 1
      ensures Slots()[..old(Len())] == old(Slots()) && Slots()[old(Len())].cell == cell
      ensures core.streamStates == Enqueue(old(core.streamStates), Rope.Replace(old(Len()), old(Len()), [cell]))
      ensures core.wakes == old(core.wakes) + 1 && core.followedFrom == old(core.followedFrom)
    {
      var len := Len();
      ghost var before := Slots();
      Replace(len, len, [cell]);
      ReplaceEffect(before, len, len, [cell], core.defaultAttr);
      assert Slots()[..len] == before;
      assert CellsOf(Slots())[len] == cell;
    }

    /// `set_attributes(start..end, attr)`.
    method SetAttributes(start: nat, end: nat, attr: A)
      requires Valid() && start <= end <= Len()
      modifies core
      ensures Valid() && core.BookkeepingUnchanged()
      ensures Slots() == Apply(old(Slots()), Rope.SetAttributes(start, end, attr), core.defaultAttr)
      ensures core.streamStates == Enqueue(old(core.streamStates), Rope.SetAttributes(start, end, attr))
      ensures core.wakes == old(core.wakes) + 1 && core.followedFrom == old(core.followedFrom)
    {
      core.EditRope(Rope.SetAttributes(start, end, attr));
      core.Wake();
    }

    /// `replace_attributes(start..end, cells, attr)`.
    method ReplaceAttributes(start: nat, end: nat, cells: seq<C>, attr: A)
      requires Valid() && start <= end <= Len()
      modifies core
      ensures Valid() && core.BookkeepingUnchanged()
      ensures Slots() == old(Slots())[..start] + Tag(cells, attr) + old(Slots())[end..]
      ensures core.streamStates == Enqueue(old(core.streamStates), Rope.ReplaceAttributes(start, end, cells, attr))
      ensures core.wakes == old(core.wakes) + 1 && core.followedFrom == old(core.followedFrom)
    {
      core.EditRope(Rope.ReplaceAttributes(start, end, cells, attr));
      core.Wake();
    }

    /// `retain_cells(retain)`: finds the maximal runs of rejected cells, removes
    /// them from the last to the first (so the ranges still to remove keep
    /// their positions), and wakes the followers once if anything was removed.
    /// The rope becomes the in-order filter of its cells, and every follower
    /// has the removals queued.
    method RetainCells(retain: C -> bool) returns (ghost removals: seq<Action<C, A>>)
      requires Valid()
      modifies core
      ensures Valid() && core.BookkeepingUnchanged() && core.followedFrom == old(core.followedFrom)
      ensures Slots() == Retained(old(Slots()), retain)
      ensures removals == [] <==> AllRetained(old(Slots()), retain)
      ensures forall k :: 0 <= k < |removals| ==> removals[k].Replace? && removals[k].cells == []
      ensures core.streamStates == EnqueueAll(old(core.streamStates), removals)
      ensures core.wakes == old(core.wakes) + (if AllRetained(old(Slots()), retain) then 0 else 1)
    {
      var s := Slots();
      var spans := FindRejected(CellsOf(s), retain);
      SpansEmptyIffAllRetained(s, retain, spans);
      if spans != [] {
        RetainSteps(s, retain, spans);
        removals := DeleteSpans(s, retain, spans);
        PrefixAllKept(s, retain, spans);
        KeptPrefix(s, retain, spans[0].start);
        core.Wake();
      } else {
        RetainedAll(s, retain);
        removals := [];
      }
    }

    /// The removal loop of `retain_cells`: removes the spans from the last to
    /// the first, queuing each removal for the followers.
    method DeleteSpans(ghost s: seq<Slot<C, A>>, ghost retain: C -> bool, spans: seq<Span>)
      returns (ghost removals: seq<Action<C, A>>)
      requires Valid() && Slots() == s && spans != []
      requires forall j :: 0 < j <= |spans| ==> StepHolds(s, retain, spans, j)
      modifies core
      ensures Valid() && core.BookkeepingUnchanged() && core.followedFrom == old(core.followedFrom)
      ensures core.wakes == old(core.wakes)
      ensures Boundary(spans, 0, |s|) <= |s| && Slots() == Partial(s, retain, spans, 0)
      ensures removals == Deletions(spans)
      ensures forall k :: 0 <= k < |removals| ==> removals[k].Replace? && removals[k].cells == []
      ensures core.streamStates == EnqueueAll(old(core.streamStates), removals)
    {
      var j := |spans|;
      removals := [];
      ghost var ss := core.streamStates;
      assert s[..|s|] + Retained(s[|s|..], retain) == s;
      assert Partial(s, retain, spans, j) == s;
      while j > 0
        invariant 0 <= j <= |spans|
        invariant core.Valid() && core.BookkeepingUnchanged() && core.followedFrom == old(core.followedFrom)
        invariant core.wakes == old(core.wakes)
        invariant Boundary(spans, j, |s|) <= |s| && core.Slots() == Partial(s, retain, spans, j)
        invariant removals == Deletions(spans)[..|spans| - j]
        invariant core.streamStates == EnqueueAll(ss, removals)
        decreases j
      {
        assert StepHolds(s, retain, spans, j);
        EnqueueAllSnoc(ss, removals, Rope.Replace(spans[j - 1].start, spans[j - 1].end, []));
        assert Deletions<C, A>(spans)[..|spans| - j + 1] == Deletions(spans)[..|spans| - j] + [Rope.Replace(spans[j - 1].start, spans[j - 1].end, [])];
        j := j - 1;
        removals := removals + [Rope.Replace(spans[j].start, spans[j].end, [])];
        core.DeleteCells(spans[j].start, spans[j].end);
      }
    }

    /// `get()`: a copy of the rope built run by run.
    method Get() returns (copy: seq<Run<C, A>>)
      requires Valid()
      ensures Flatten(copy) == Slots() && NonEmptyRuns(copy)
    {
      copy := core.CopyRope();
    }

    /// `follow_changes()`: a new stream with the next identifier and nothing pending.
    method FollowChanges() returns (id: nat)
      requires Valid()
      modifies core
      ensures Valid()
      ensures id == old(core.nextStreamId) && core.nextStreamId == id + 1
      ensures core.streamStates == old(core.streamStates) + [StreamState(id, [], false)]
      ensures core.followedFrom == old(core.followedFrom) + [Slots()]
      ensures core.runs == old(core.runs) && core.usageCount == old(core.usageCount)
      ensures core.whenChanged == old(core.whenChanged) && core.wakes == old(core.wakes) && core.pulls == old(core.pulls)
    {
      id := core.AddStream();
    }

    /// `follow_changes_retained()`: for a mutable rope, the same as `follow_changes`.
    method FollowChangesRetained() returns (id: nat)
      requires Valid()
      modifies core
      ensures Valid()
      ensures id == old(core.nextStreamId) && core.nextStreamId == id + 1
      ensures core.streamStates == old(core.streamStates) + [StreamState(id, [], false)]
      ensures core.followedFrom == old(core.followedFrom) + [Slots()]
      ensures core.runs == old(core.runs) && core.usageCount == old(core.usageCount)
      ensures core.whenChanged == old(core.whenChanged) && core.wakes == old(core.wakes) && core.pulls == old(core.pulls)
    {
      id := FollowChanges();
    }

    /// `clone()`: a new handle on the same core, which now has one more user.
    method Clone() returns (copy: RopeBindingMut<C, A>)
      requires Valid()
      modifies core
      ensures fresh(copy) && copy.core == core && copy.Valid()
      ensures core.usageCount == old(core.usageCount) + 1
      ensures core.runs == old(core.runs) && core.streamStates == old(core.streamStates)
      ensures core.followedFrom == old(core.followedFrom) && core.nextStreamId == old(core.nextStreamId)
      ensures core.whenChanged == old(core.whenChanged) && core.wakes == old(core.wakes) && core.pulls == old(core.pulls)
    {
      core.Retain();
      copy := new RopeBindingMut.Share(core);
    }

    /// `drop()`: one user less; the last one pulls the rope.
    method Drop()
      requires Valid() && core.usageCount > 0
      modifies core
      ensures Valid() && core.usageCount == old(core.usageCount) - 1
      ensures core.pulls == old(core.pulls) + (if core.usageCount == 0 then 1 else 0)
      ensures core.runs == old(core.runs) && core.streamStates == old(core.streamStates)
      ensures core.followedFrom == old(core.followedFrom) && core.nextStreamId == old(core.nextStreamId)
      ensures core.whenChanged == old(core.whenChanged) && core.wakes == old(core.wakes)
    {
      core.Release();
    }

    /// `when_changed()`: registers a listener and prunes the released ones.
    method WhenChanged() returns (id: nat)
      requires Valid()
      modifies core
      ensures Valid()
      ensures id == NextId(old(core.whenChanged)) && core.whenChanged == Add(old(core.whenChanged), Callback)
      ensures core.runs == old(core.runs) && core.streamStates == old(core.streamStates)
      ensures core.followedFrom == old(core.followedFrom) && core.nextStreamId == old(core.nextStreamId)
      ensures core.usageCount == old(core.usageCount) && core.wakes == old(core.wakes) && core.pulls == old(core.pulls)
    {
      id := core.AddListener();
    }

    /// `eq(other)`: false when the lengths differ or a cell differs; otherwise
    /// walks both ropes' attribute runs together, re-reading whichever run
    /// ends first, and is false as soon as two overlapping runs carry
    /// different attributes. The answer is whether the two ropes hold the
    /// same cells with the same attributes, however their runs are split.
    method Equals(other: RopeBindingMut<C, A>) returns (equal: bool)
      requires Valid() && other.Valid() && other.core.defaultAttr == core.defaultAttr
      ensures equal <==> Slots() == other.Slots()
    {
      if Len() != other.Len() {
        return false;
      }
      var cellsA := ReadCells(core.runs, 0, Len());
      var cellsB := ReadCells(other.core.runs, 0, other.Len());
      var i := 0;
      while i < |cellsA|
        invariant i <= |cellsA| == |cellsB|
        invariant cellsA[..i] == cellsB[..i]
      {
        if cellsA[i] != cellsB[i] {
          assert Slots()[i].cell != other.Slots()[i].cell;
          return false;
        }
        i := i + 1;
      }
      assert cellsA == cellsB;
      equal := AttributesEqual(core.runs, other.core.runs, core.defaultAttr);
      if equal {
        forall q | 0 <= q < Len()
          ensures Slots()[q] == other.Slots()[q]
        {
          assert cellsA[q] == cellsB[q];
        }
      }
    }
  }

  /// The first two steps of each turn of `eq`'s attribute loop: re-reading
  /// `a` at `b`'s start when `b` starts past `a`'s run, then `b` at `a`'s start
  /// likewise. The later of the two starts stays where it was, and both runs
  /// now hold it.
  lemma Realign<C, A>(runsA: seq<Run<C, A>>, runsB: seq<Run<C, A>>, ra: AttrRange<A>, rb: AttrRange<A>, dflt: A)
    requires |Flatten(runsA)| == |Flatten(runsB)|
    requires Cursor(runsA, ra, dflt) && Cursor(runsB, rb, dflt) && Staggered(ra, rb)
    ensures var na := if rb.start >= ra.end || ra.start == ra.end then ReadAttributes(runsA, rb.start, dflt) else ra;
      var nb := if na.start >= rb.end || rb.start == rb.end then ReadAttributes(runsB, na.start, dflt) else rb;
      && Cursor(runsA, na, dflt) && Cursor(runsB, nb, dflt)
      && Max(na.start, nb.start) == Max(ra.start, rb.start)
      && (Flatten(runsA) != [] ==>
            na.start <= Max(na.start, nb.start) < na.end && nb.start <= Max(na.start, nb.start) < nb.end)
  {
    if Flatten(runsA) == [] {
      ReadAttributesPastEnd(runsA, rb.start, dflt);
      ReadAttributesPastEnd(runsB, ra.start, dflt);
    } else {
      CursorFacts(runsA, ra, dflt);
      CursorFacts(runsB, rb, dflt);
      var na := if rb.start >= ra.end || ra.start == ra.end then ReadAttributes(runsA, rb.start, dflt) else ra;
      if rb.start >= ra.end || ra.start == ra.end {
        ReadCursor(runsA, rb.start, dflt);
      }
      CursorFacts(runsA, na, dflt);
      if na.start >= rb.end || rb.start == rb.end {
        ReadCursor(runsB, na.start, dflt);
      }
    }
  }

  /// Two runs that both hold `p`, with attributes agreeing below `p` and equal
  /// attributes on the runs: the attributes agree up to the end of the
  /// shorter run.
  lemma AgreeOverlap<C, A>(runsA: seq<Run<C, A>>, runsB: seq<Run<C, A>>, ra: AttrRange<A>, rb: AttrRange<A>, dflt: A, p: nat)
    requires |Flatten(runsA)| == |Flatten(runsB)| > 0
    requires Cursor(runsA, ra, dflt) && Cursor(runsB, rb, dflt)
    requires ra.start <= p < ra.end && rb.start <= p < rb.end
    requires AgreeBelow(Flatten(runsA), Flatten(runsB), p)
    ensures p < |Flatten(runsA)|
    ensures ra.attr == rb.attr <==> Flatten(runsA)[p].attr == Flatten(runsB)[p].attr
    ensures ra.attr == rb.attr ==> AgreeBelow(Flatten(runsA), Flatten(runsB), if ra.end <= rb.end then ra.end else rb.end)
  {
    CursorFacts(runsA, ra, dflt);
    CursorFacts(runsB, rb, dflt);
  }

  /// The attribute loop of `eq`, for two ropes of the same length.
  method AttributesEqual<C, A(==)>(runsA: seq<Run<C, A>>, runsB: seq<Run<C, A>>, dflt: A) returns (equal: bool)
    requires |Flatten(runsA)| == |Flatten(runsB)|
    ensures equal <==> AgreeBelow(Flatten(runsA), Flatten(runsB), |Flatten(runsA)|)
  {
    var len := |Flatten(runsA)|;
    ghost var sa, sb := Flatten(runsA), Flatten(runsB);
    if len == 0 {
      ReadAttributesPastEnd(runsA, 0, dflt);
      ReadAttributesPastEnd(runsB, 0, dflt);
    } else {
      ReadCursor(runsA, 0, dflt);
      ReadCursor(runsB, 0, dflt);
    }
    var ra := ReadAttributes(runsA, 0, dflt);
    var rb := ReadAttributes(runsB, 0, dflt);
    while true
      invariant Cursor(runsA, ra, dflt) && Cursor(runsB, rb, dflt)
      invariant Staggered(ra, rb)
      invariant Max(ra.start, rb.start) <= len
      invariant AgreeBelow(sa, sb, Max(ra.start, rb.start))
      decreases len - Max(ra.start, rb.start)
    {
      ghost var p := Max(ra.start, rb.start);
      Realign(runsA, runsB, ra, rb, dflt);
      if rb.start >= ra.end || ra.start == ra.end {
        ra := ReadAttributes(runsA, rb.start, dflt);
      }
      if ra.start >= rb.end || rb.start == rb.end {
        rb := ReadAttributes(runsB, ra.start, dflt);
      }
      if len > 0 {
        AgreeOverlap(runsA, runsB, ra, rb, dflt, p);
      }
      if ra.attr != rb.attr {
        return false;
      }
      if ra.end >= len && rb.end >= len {
        break;
      }
      if ra.end <= rb.end {
        CursorFacts(runsA, ra, dflt);
        ra := ReadAttributes(runsA, ra.end, dflt);
      } else {
        CursorFacts(runsB, rb, dflt);
        rb := ReadAttributes(runsB, rb.end, dflt);
      }
    }
    return true;
  }

  /// A follower of a new mutable rope receives exactly the one `Replace`
  /// that wrote its first cells.
  method SendsChangesToStream() returns (pending: seq<Action<int, ()>>)
    ensures pending == [Replace(0, 0, [1, 2, 3, 4])]
  {
    var rope := new RopeBindingMut<int, ()>(());
    var id := rope.FollowChanges();
    assert rope.core.streamStates == [StreamState(0, [], false)];
    rope.Replace(0, 0, [1, 2, 3, 4]);
    assert rope.core.streamStates == Enqueue([StreamState(0, [], false)], Rope.Replace(0, 0, [1, 2, 3, 4]));
    pending := rope.core.streamStates[0].pendingChanges;
  }

  /// After that same `Replace`, the new rope reads back the cells written.
  method ReplaceReadsBack() returns (cells: seq<int>)
    ensures cells == [1, 2, 3, 4]
  {
    var rope := new RopeBindingMut<int, ()>(());
    rope.Replace(0, 0, [1, 2, 3, 4]);
    assert AttrAt<int, ()>([], 0, ()) == ();
    assert rope.Slots() == Tag([1, 2, 3, 4], ());
    CellsOfTag([1, 2, 3, 4], ());
    cells := CellsOf(rope.Slots());
  }
}
