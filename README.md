# flo_binding core, modelled in Dafny

flo_binding is a Rust library of data bindings. A binding is a value that
other code can read and that tells its listeners when it changes. This
project models the sequential logic underneath the library's async plumbing
and proves properties of that model:

- **Plain bindings** (`bind`) are shared value cells. A `set` that changes the
  value fires every live listener once. Listeners are released with `done`.
  A watcher fires once after each of its own `get`s, on the next change.
- **Computed bindings** (`computed`) cache the value of a function of other
  bindings. They re-run the function only after one of the bindings it read
  in its latest evaluation changed. They notify their own listeners at most
  once between reads.
- **`bind_stream`** folds a stream of items into a value. It notifies only
  for items that change the value.
- **Rope bindings** are attributed sequences of cells edited by
  `RopeAction`s (`Replace`, `SetAttributes`, `ReplaceAttributes`).
  - `RopeBindingMut` is edited in place: `replace`, `extend`, `+=`,
    `retain_cells`, attribute edits, attribute-aware equality and the
    run-by-run `get`.
  - `RopeBinding` follows a stream of actions. Its `computed` and
    `computed_difference` generators turn a recomputed cell list into actions.
  - `map` and `chain` transform and concatenate ropes.
- **`BindRef`** delegates to the binding it refers to.

Modules and files:

| file | module | what it holds |
|---|---|---|
| wrappers.dfy | Wrappers | `Option` |
| rope.dfy | Rope | the attributed rope as runs of cells; actions and how they apply; `read_attributes` |
| notify.dfy | Notify | the listener list shared by every binding kind: callbacks and watchers, release, notify |
| rope_core.dfy | RopeCore | the `RopeBindingCore` class that both rope bindings share |
| rope_binding_mut.dfy | MutableRope | `RopeBindingMut`: edits, `retain_cells`, `eq`, `get`, usage counting |
| rope_binding.dfy | DerivedRope | `RopeBinding` and the `computed`/`computed_difference` action generators |
| rope_ext.dfy | RopeExt | `map` and `chain` |
| bind_stream.dfy | StreamBindings | `bind_stream` and `StreamBinding` |
| bindings.dfy | Bindings | plain and computed bindings, with the `lib.rs` test scenarios |
| bindref.dfy | BindRefs | `BindRef` and its test scenarios |

Modelling choices:

- **Rope layout.** A rope is a sequence of non-empty runs, each holding some
  cells and one attribute. Equal neighbouring runs are not merged. Two ropes
  with the same cells and attributes can therefore split their runs
  differently, which is the case `eq`'s merge loop exists for.
- **Shared cores.** Clones of a rope binding share one `RopeBindingCore`
  object, as the `Arc<Desync<_>>` does in the source.
- **Followers.** Every follower stream of a rope is a `StreamState` holding a
  queue of pending actions. An edit appends to every queue. The number of
  `wake` calls, and of `pull_rope` calls made by the last `drop`, is kept in
  ghost counters.
- **Listeners.** A listener is an entry in a registry. It is identified by
  the id the registry hands out, and releasing it is `done(id)`.
- **Plain and computed bindings.** These live in one `BindingStore` object.
  - A plain binding is a key in a map of values. A clone of a binding is the
    same key.
  - A computed binding is a `ComputedState`. It holds the function (which
    bindings it reads and what it returns, for any store contents), the
    cached value (`None` means dirty), the bindings read in its latest
    evaluation and its own listeners.
- **Computed function.** `Computation.eval` is a pure function of the store's
  contents. `inputs` gives the bindings an evaluation reads. `WellBehaved`
  asks that the result and the set read depend only on the bindings read.
- **Bool bindings.** The scenarios hold them as the integers 0 and 1.
- **Code versus documentation.** Where the documentation and the code
  disagree, the model follows the code and its tests.
  - A plain binding does not notify when it is set to the value it already
    holds (src/lib.rs:237-247).
  - A plain binding fires on every change (src/lib.rs:250-266), whatever the
    module example at src/lib.rs:57-58 says.

## Model

| member | source | states |
|---|---|---|
| Rope.AsRuns | src/rope_binding/rope_binding_mut.rs:127-135 | the cells of a `replace` become non-empty runs that carry one attribute on every cell |
| Rope.Splice | src/rope_binding/rope_binding_mut.rs:116-135 | splicing runs into a rope gives the old prefix, the new cells, then the old suffix; non-empty runs stay non-empty |
| Rope.ReplaceEffect | src/rope_binding/rope_binding_mut.rs:123-135 | `Replace(start..end, cells)` leaves `old[..start] ++ cells ++ old[end..]`; the inserted cells take the attribute at `start`; prefix and suffix slots are unchanged |
| Rope.SetAttributesEffect | src/rope_binding/rope_binding_mut.rs:199-207 | `SetAttributes` keeps every cell and the length, and sets the attribute exactly inside the range |
| Rope.ReplaceAttributesEffect | src/rope_binding/rope_binding_mut.rs:209-215 | `ReplaceAttributes` splices the cells in and gives each new cell the given attribute; the rest of the rope is kept |
| Rope.CellsOfApply | src/rope_binding/rope_binding_mut.rs:116-125 | the cells after any action depend only on the cells before it, not on the attributes |
| Rope.Edit | src/rope_binding/rope_binding_mut.rs:116-125 | editing the run list applies the action to the flat sequence of (cell, attribute) slots, and keeps runs non-empty |
| Rope.FlattenConcat | src/rope_binding/rope_binding_mut.rs:342-374 | the slots of two run lists joined are the slots of each, in order |
| Rope.TakeAll | src/rope_binding/rope_binding_mut.rs:342-374 | taking a rope's whole length gives back the same runs |
| Rope.DropAll | src/rope_binding/rope_binding_mut.rs:342-374 | dropping a rope's whole length leaves nothing |
| Rope.ApplyAllSnoc | src/rope_binding/rope_binding.rs:83-88 | applying a list of actions and then one more equals applying the longer list |
| Rope.ApplyAllCellsConcat | src/rope_binding/rope_binding.rs:83-88 | applying two action lists in turn equals applying their concatenation |
| Rope.ReadFromRun | src/rope_binding/rope_binding_mut.rs:100-110 | from any offset, `read_attributes` returns a range that holds the position, lies within the rope and has one attribute throughout; reading at its start returns it again, and reading at its end starts a new range |
| Rope.ReadAttributesRun | src/rope_binding/rope_binding_mut.rs:100-110 | for a position inside the rope: the range returned holds the position, has one attribute throughout, is returned again from its start, and the next read begins at its end |
| Rope.ReadAttributesPastEnd | src/rope_binding/rope_binding_mut.rs:100-110 | reading at or past the end returns the default attribute over an empty range at the end |
| Rope.ReadAttributesRunStart | src/rope_binding/rope_binding_mut.rs:342-374 | at the start of run k, `read_attributes` returns exactly that run's attribute and extent, and `read_cells` over it returns the run's cells |
| RopeCore.Enqueue | src/rope_binding/rope_binding_mut.rs:116-125 | an edit appends the action to every follower's pending queue and keeps each follower's id and pull flag |
| RopeCore.EnqueueAllSnoc | src/rope_binding/rope_binding_mut.rs:184-192 | queuing a list of actions and then one more equals queuing the longer list |
| RopeCore.EnqueueAllKeeps | src/rope_binding/rope_binding_mut.rs:184-192 | after a list of edits, each follower keeps its id and its queue has those actions appended in order |
| RopeCore.EnqueueReplays | src/rope_binding/rope_binding_mut.rs:116-125 | an edit that is applied to the rope and queued for every follower keeps each follower's snapshot plus its queue replaying to the current rope |
| RopeCore.RopeBindingCore.constructor | src/rope_binding/rope_binding_mut.rs:40-71 | a new core has an empty rope, usage count 1, no followers, stream id 0 and no listeners |
| RopeCore.RopeBindingCore.EditRope | src/rope_binding/rope_binding_mut.rs:116-125 | the rope becomes the action applied to it; every follower queues the action; the other bookkeeping is unchanged |
| RopeCore.RopeBindingCore.DeleteCells | src/rope_binding/rope_binding_mut.rs:184-192 | removes one range of slots and queues `Replace(range, [])` for every follower, without a wake |
| RopeCore.RopeBindingCore.Wake | src/rope_binding/rope_binding_mut.rs:122-124 | counts one wake and changes nothing else |
| RopeCore.RopeBindingCore.AddStream | src/rope_binding/rope_binding_mut.rs:225-253 | hands out the next stream id, increments it by one and appends a follower with an empty queue that needs no pull |
| RopeCore.RopeBindingCore.Retain | src/rope_binding/rope_binding_mut.rs:272-280 | increments the usage count only |
| RopeCore.RopeBindingCore.Release | src/rope_binding/rope_binding_mut.rs:287-297 | decrements the usage count and pulls exactly when it reaches 0 |
| RopeCore.RopeBindingCore.AddListener | src/rope_binding/rope_binding_mut.rs:317-330 | prunes released listeners and appends one new callback |
| RopeCore.RopeBindingCore.ReleaseListener | src/rope_binding/rope_binding_mut.rs:317-330 | marks that listener released and nothing else |
| RopeCore.RopeBindingCore.CopyRope | src/rope_binding/rope_binding_mut.rs:342-374 | the copy built run by run has the same slots (cells and per-position attributes) and non-empty runs |
| MutableRope.FindRejected | src/rope_binding/rope_binding_mut.rs:157-181 | the ranges found are non-empty, strictly ascending and disjoint, cover exactly the rejected cells, and each is a maximal rejected run; a trailing rejected run is closed at the length |
| MutableRope.ScanFinish | src/rope_binding/rope_binding_mut.rs:176-181 | closing a still-open rejected run at the length completes the list of ranges |
| MutableRope.Retained | src/rope_binding/rope_binding_mut.rs:151-194 | the in-order filter of the slots by the predicate on their cells is no longer than the input |
| MutableRope.RetainedConcat | src/rope_binding/rope_binding_mut.rs:151-194 | filtering distributes over concatenation |
| MutableRope.RetainedAll | src/rope_binding/rope_binding_mut.rs:151-194 | the filter returns the input unchanged exactly when every cell is kept |
| MutableRope.RetainedNone | src/rope_binding/rope_binding_mut.rs:151-194 | the filter of a run of rejected cells is empty |
| MutableRope.RetainStep | src/rope_binding/rope_binding_mut.rs:184-192 | deleting range j-1 from the partially edited rope (ranges j.. already deleted) gives the rope with ranges j-1.. deleted, and the range is still in bounds |
| MutableRope.RetainSteps | src/rope_binding/rope_binding_mut.rs:184-192 | every step of the back-to-front deletion keeps the remaining ranges valid |
| MutableRope.Deletions | src/rope_binding/rope_binding_mut.rs:184-192 | the removals are one `Replace(range, [])` per range, last range first |
| MutableRope.SpansEmptyIffAllRetained | src/rope_binding/rope_binding_mut.rs:184-192 | no ranges are found exactly when every cell is kept, so `wake` runs only when something was removed |
| MutableRope.RopeBindingMut.constructor | src/rope_binding/rope_binding_mut.rs:40-71 | a new mutable rope is empty, with usage count 1 and no followers or listeners |
| MutableRope.RopeBindingMut.Edit | src/rope_binding/rope_binding_mut.rs:116-125 | applies the action, queues it for every follower and wakes once |
| MutableRope.RopeBindingMut.Replace | src/rope_binding/rope_binding_mut.rs:127-135 | contents become `old[..start] ++ cells ++ old[end..]`, the new cells tagged with the attribute at `start`; one `Replace` queued; one wake |
| MutableRope.RopeBindingMut.Extend | src/rope_binding/rope_binding_mut.rs:140-146 | the length grows by the number of cells; the old slots are an unchanged prefix; the cells are appended; `Replace(len..len, cells)` queued |
| MutableRope.RopeBindingMut.AddAssign | src/rope_binding/rope_binding_mut.rs:382-385 | the length grows by one, the prefix is unchanged, the last cell is the new one; `Replace(len..len, [cell])` queued |
| MutableRope.RopeBindingMut.SetAttributes | src/rope_binding/rope_binding_mut.rs:199-207 | applies `SetAttributes` to the rope and queues it |
| MutableRope.RopeBindingMut.ReplaceAttributes | src/rope_binding/rope_binding_mut.rs:209-215 | splices the cells in with the given attribute and queues `ReplaceAttributes` |
| MutableRope.RopeBindingMut.RetainCells | src/rope_binding/rope_binding_mut.rs:151-194 | the rope becomes the in-order filter of the old slots; the queued removals are empty `Replace`s, none exactly when every cell is kept; one wake exactly when something was removed |
| MutableRope.RopeBindingMut.DeleteSpans | src/rope_binding/rope_binding_mut.rs:184-192 | deleting the ranges back to front leaves the filtered rope and queues one removal per range, last range first |
| MutableRope.RopeBindingMut.Get | src/rope_binding/rope_binding_mut.rs:342-374 | returns a copy with the same slots, in non-empty runs |
| MutableRope.RopeBindingMut.FollowChanges | src/rope_binding/rope_binding_mut.rs:225-253 | hands out the current stream id, increments it by exactly 1 and appends a follower with an empty queue and no pending pull; usage count unchanged |
| MutableRope.RopeBindingMut.FollowChangesRetained | src/rope_binding/rope_binding_mut.rs:261-265 | same as `follow_changes`: the next stream id, one new follower with an empty queue, and the usage count, rope, listeners and counters unchanged, as the source does not retain here |
| MutableRope.RopeBindingMut.Clone | src/rope_binding/rope_binding_mut.rs:272-280 | the clone shares the core and the usage count goes up by one; everything else in the core is unchanged |
| MutableRope.RopeBindingMut.Drop | src/rope_binding/rope_binding_mut.rs:287-297 | the usage count goes down by one and the rope is pulled only when it reaches 0 |
| MutableRope.RopeBindingMut.WhenChanged | src/rope_binding/rope_binding_mut.rs:317-330 | prunes released listeners and appends one callback; everything else in the core is unchanged |
| MutableRope.RopeBindingMut.Equals | src/rope_binding/rope_binding_mut.rs:393-455 | true exactly when both ropes have the same cells and the same attribute at every position, however their runs are split |
| MutableRope.AttributesEqual | src/rope_binding/rope_binding_mut.rs:413-454 | the merge over two run lists of equal length returns true exactly when the attributes agree at every position |
| MutableRope.SendsChangesToStream | src/rope_binding/tests.rs:9-23 | replacing `0..0` with `[1,2,3,4]` queues exactly `Replace(0..0, [1,2,3,4])` for a follower |
| MutableRope.ReplaceReadsBack | src/rope_binding/tests.rs:9-23 | after that replace the rope reads `[1,2,3,4]` |
| DerivedRope.RopeBinding.FromStream | src/rope_binding/rope_binding.rs:58-94 | a new derived rope is empty, with usage count 1 and no followers or listeners |
| DerivedRope.RopeBinding.Receive | src/rope_binding/rope_binding.rs:83-88 | an action from the stream is applied to the rope, queued for every follower, and wakes once |
| DerivedRope.RopeBinding.FollowChanges | src/rope_binding/rope_binding.rs:290-324 | hands out the current stream id, increments it by one and appends an empty follower; usage count unchanged |
| DerivedRope.RopeBinding.FollowChangesRetained | src/rope_binding/rope_binding.rs:326-355 | as `follow_changes`, and increments the usage count |
| DerivedRope.RopeBinding.Clone | src/rope_binding/rope_binding.rs:362-370 | the clone shares the core and the usage count goes up by one; everything else in the core is unchanged |
| DerivedRope.RopeBinding.Drop | src/rope_binding/rope_binding.rs:376-387 | the usage count goes down by one and the rope is pulled only when it reaches 0 |
| DerivedRope.RopeBinding.WhenChanged | src/rope_binding/rope_binding.rs:405-415 | prunes released listeners and appends one callback; everything else in the core is unchanged |
| DerivedRope.RopeBinding.Get | src/rope_binding/rope_binding.rs:428-460 | returns a copy with the same slots, in non-empty runs |
| DerivedRope.FirstSettled | src/rope_binding/rope_binding.rs:114-134 | the evaluation that is emitted is the first one during which no dependency changed |
| DerivedRope.ComputedActions | src/rope_binding/rope_binding.rs:139-144 | one `Replace` per computed value |
| DerivedRope.ComputedReplay | src/rope_binding/rope_binding.rs:139-144 | replaying the emitted actions (`Replace(0..0, ..)` first, then `Replace(0..prev_len, ..)`) on the starting cells yields the latest computed cells |
| DerivedRope.ComputedRope.constructor | src/rope_binding/rope_binding.rs:100-106 | length 0, the new-value flag set and no monitor held |
| DerivedRope.ComputedRope.DependencyChanged | src/rope_binding/rope_binding.rs:124-131 | a dependency change sets the new-value flag and nothing else |
| DerivedRope.ComputedRope.Poll | src/rope_binding/rope_binding.rs:107-148 | without the flag: Pending, no state change. With it: re-evaluates until an evaluation settles, then emits `Replace(0..prev_len, cells)`, sets the length, holds the monitor and clears the flag |
| DerivedRope.CoversOrdered | src/rope_binding/rope_binding.rs:253-255 | the ops of a well-formed diff are already in new-index order, so the stable sort keeps them as they are |
| DerivedRope.TranslateOp | src/rope_binding/rope_binding.rs:258-267 | `Equal` gives no action and every other op exactly one `Replace` at its new index |
| DerivedRope.TranslateOpStep | src/rope_binding/rope_binding.rs:258-267 | if the rope is `new[..j] ++ old[i..]` before an op, it is `new[..j+new_len] ++ old[i+old_len..]` after the op's action |
| DerivedRope.TranslateDiff | src/rope_binding/rope_binding.rs:253-269 | for a well-formed diff, applying the translated actions in order to the last cells yields the new cells; at most one action per op, all `Replace` |
| DerivedRope.DiffRope.constructor | src/rope_binding/rope_binding.rs:214-219 | no last cells, the new-value flag set and no monitor held |
| DerivedRope.DiffRope.DependencyChanged | src/rope_binding/rope_binding.rs:238-244 | a dependency change sets the new-value flag and nothing else |
| DerivedRope.DiffRope.Poll | src/rope_binding/rope_binding.rs:221-278 | without the flag: Pending. With it: the emitted actions turn the last cells into the settled evaluation's cells, which become the last cells |
| RopeExt.MapCells | src/rope_binding/rope_ext.rs:109 | the mapped cells are `f` applied to each cell, in order |
| RopeExt.MapSlots | src/rope_binding/rope_ext.rs:25-28 | the mapped rope has `f` applied to every cell and the same attributes |
| RopeExt.MapAction | src/rope_binding/rope_ext.rs:109-111 | a mapped action keeps its range |
| RopeExt.MapPoll | src/rope_binding/rope_ext.rs:106-112 | items stay items, and Pending and end of stream pass through |
| RopeExt.MapApply | src/rope_binding/rope_ext.rs:103-113 | applying the mapped action to the mapped rope equals mapping the edited rope |
| RopeExt.MapActions | src/rope_binding/rope_ext.rs:103-113 | maps each action of a sequence in turn |
| RopeExt.MapApplyAll | src/rope_binding/rope_ext.rs:97-116 | after any sequence of actions the mapped rope equals the source rope with `f` applied to every cell |
| RopeExt.Shift | src/rope_binding/rope_ext.rs:78-82 | an action from the right side is moved by the left side's length |
| RopeExt.LengthAfterCells | src/rope_binding/rope_ext.rs:60-64 | the length `chain` tracks for the left side is the length of the edited cells |
| RopeExt.ConcatLeft | src/rope_binding/rope_ext.rs:60-64 | an edit to the left side applied to the concatenation edits the left part only |
| RopeExt.ConcatRight | src/rope_binding/rope_ext.rs:78-82 | an edit to the right side, shifted by the left length, edits the right part only |
| RopeExt.ChainStream.constructor | src/rope_binding/rope_ext.rs:37-44 | both sides open and empty, nothing pending |
| RopeExt.ChainStream.SendLeft | src/rope_binding/rope_ext.rs:60-64 | a left action passes through unchanged, and pending plus output still rebuild left ++ right |
| RopeExt.ChainStream.SendRight | src/rope_binding/rope_ext.rs:78-82 | a right action is shifted by the left length, and pending plus output still rebuild left ++ right |
| RopeExt.ChainStream.PopPending | src/rope_binding/rope_ext.rs:48-51 | returns the oldest pending action and applies it to the output |
| RopeExt.ChainStream.Poll | src/rope_binding/rope_ext.rs:47-91 | pending actions go out before either side is polled; left is polled before right; an ended side is closed and never polled again; the output always moves towards left ++ right |
| RopeExt.ConcatenateRopes | src/rope_binding/tests.rs:47-79 | after each edit the chained rope reads `[1,2,3]`, `[1,2,3,10,11,12]`, `[1,4,5,6,3,10,11,12]`, `[1,4,5,6,3,10,20,21,22,12]` |
| RopeExt.StepLeft | src/rope_binding/rope_ext.rs:54-68 | an edit to the left side, once delivered, leaves the chained rope equal to left ++ right |
| RopeExt.StepRight | src/rope_binding/rope_ext.rs:72-86 | an edit to the right side, once delivered, leaves the chained rope equal to left ++ right |
| StreamBindings.Changes | src/bind_stream.rs:55-57 | the number of items that changed the value is at most the number of items |
| StreamBindings.FoldConcat | src/bind_stream.rs:46-64 | folding two item lists in turn equals folding their concatenation, and the change counts add up |
| StreamBindings.FoldSnoc | src/bind_stream.rs:55-57 | one more item applies `update` once more, and counts a change only if the value differs |
| StreamBindings.FoldChunksJoin | src/bind_stream.rs:41-48 | folding chunk by chunk equals folding all items in order |
| StreamBindings.NotifyTimesAdd | src/bind_stream.rs:66-70 | n notifications then m notifications are n+m notifications |
| StreamBindings.StreamBinding.constructor | src/bind_stream.rs:27-40 | the value starts at the initial value, with no listeners |
| StreamBindings.StreamBinding.ProcessItems | src/bind_stream.rs:46-64 | the value becomes the fold of `update` over the items; listeners are notified once per item that changed the value |
| StreamBindings.StreamBinding.ProcessChunks | src/bind_stream.rs:41-74 | chunked processing leaves the same value and notifications as processing all items in order |
| StreamBindings.StreamBinding.FilterUnusedNotifications | src/bind_stream.rs:115-117 | keeps exactly the in-use entries, in order |
| StreamBindings.StreamBinding.Get | src/bind_stream.rs:129-134 | returns the fold of `update` over every item received, and changes no state |
| StreamBindings.StreamBinding.WhenChanged | src/bind_stream.rs:153-166 | filters released entries and appends one callback |
| StreamBindings.StreamBinding.Watch | src/bind_stream.rs:136-146 | filters released entries and appends one disarmed watcher |
| StreamBindings.StreamBinding.WatcherGet | src/bind_stream.rs:136-146 | returns the current value and arms that watcher |
| StreamBindings.StreamBinding.Done | src/bind_stream.rs:153-166 | releases that listener only |
| StreamBindings.CallbackFiresPerChange | src/bind_stream.rs:66-70 | a live callback fires exactly once per item that changed the value |
| StreamBindings.SameValueNoChange | src/bind_stream.rs:55-57 | an item equal to the current value changes nothing and notifies nobody |
| StreamBindings.StreamInAllValues | src/bind_stream.rs:182-194 | streaming 1, 2, 3 into a binding that keeps the latest item reads 3 |
| StreamBindings.StreamProcessesUpdates | src/bind_stream.rs:197-209 | streaming 1, 2, 3 with `update = new + 42` reads 45 |
| StreamBindings.NotifiesOnChange | src/bind_stream.rs:212-238 | a callback has not fired before, fires once after 42 arrives, and the value is 42 |
| StreamBindings.WatcherNotifiesOnChange | src/bind_stream.rs:241-270 | a watcher armed by its get fires once when 42 arrives |
| StreamBindings.NoNotificationOnNoChange | src/bind_stream.rs:273-299 | sending the current value fires no callback |
| Notify.InUseOnly | src/bind_stream.rs:115-117 | pruning never lengthens the list |
| Notify.InUseOnlyMembers | src/bind_stream.rs:115-117 | pruning keeps exactly the entries still in use |
| Notify.InUseOnlyConcat | src/bind_stream.rs:115-117 | pruning distributes over concatenation, so order is kept |
| Notify.InUseOnlyAllInUse | src/bind_stream.rs:115-117 | pruning a list with nothing released changes nothing |
| Notify.InUseOnlyIdempotent | src/bind_stream.rs:115-117 | pruning twice is pruning once |
| Notify.InUseOnlyAscending | src/bind_stream.rs:115-117 | pruning keeps ids ascending |
| Notify.Empty | src/lib.rs:188-190 | a new binding has no listeners |
| Notify.Add | src/bind_stream.rs:153-166 | prunes released entries, then appends one live entry with a fresh id and a zero fire count |
| Notify.AddKeeps | src/bind_stream.rs:153-166 | adding a listener keeps every live one |
| Notify.Release | src/lib.rs:290-305 | releasing an id marks it not in use and leaves every other entry as it was |
| Notify.ReleaseKeepsOthers | src/lib.rs:308-337 | releasing one listener keeps every other |
| Notify.Arm | src/bindref.rs:196-208 | a watcher's get arms that watcher only |
| Notify.ArmWatcher | src/bindref.rs:196-208 | after its get, a live watcher is armed |
| Notify.DisarmAll | src/bindref.rs:196-208 | a notification disarms each watcher, position by position |
| Notify.DisarmAllIds | src/bindref.rs:196-208 | disarming keeps every entry's id, so ids stay ascending |
| Notify.Bump | src/bind_stream.rs:68-69 | exactly the firing listeners have their count raised by one |
| Notify.Notify | src/bind_stream.rs:66-70 | notifying keeps the registry well formed, never lowers a count, and leaves one entry per live listener |
| Notify.NotifyPrunes | src/bind_stream.rs:68-69 | released listeners are removed first; every remaining one is in use and disarmed |
| Notify.NotifyCallbackFiresOnce | src/bind_stream.rs:68-69 | a live callback fires exactly once per notification and stays live |
| Notify.NotifyReleasedSilent | src/lib.rs:290-305 | a released listener does not fire and is removed |
| Notify.NotifyWatcher | src/bindref.rs:184-209 | a watcher fires only if it was armed, and is disarmed afterwards |
| Notify.NotifyTimes | src/lib.rs:250-266 | repeated notification keeps one count per listener |
| Notify.NotifyTimesCallback | src/lib.rs:250-287 | n notifications fire a live callback n times |
| Notify.NotifyTimesWatcher | src/bindref.rs:196-208 | any number of notifications fire a watcher at most once, and only if it was armed |
| Bindings.InvalidateAll | src/lib.rs:554-606 | a set invalidates each computed binding on its own |
| Bindings.InvalidateKeepsCache | src/lib.rs:466-527 | a set keeps every cached value correct, and marks a computed binding dirty exactly when it was dirty already or read the binding set in its latest evaluation |
| Bindings.InvalidateNotifiesOnce | src/lib.rs:700-727 | a computed binding notifies when a binding it read changes while it holds a value; a second change before a read does not notify again |
| Bindings.BindingStore.constructor | src/lib.rs:188-198 | no bindings, no listeners, no computed bindings |
| Bindings.BindingStore.Bind | src/lib.rs:188-190 | a fresh binding holds the value and has no listeners |
| Bindings.BindingStore.Get | src/lib.rs:210-221 | returns the value last set |
| Bindings.BindingStore.Set | src/lib.rs:216-247 | the binding holds the new value. If it changed, its listeners are notified once and every computed binding that read it is invalidated; otherwise nothing else changes |
| Bindings.BindingStore.WhenChanged | src/lib.rs:224-234 | prunes released listeners and appends one callback |
| Bindings.BindingStore.Watch | src/bindref.rs:184-209 | appends one disarmed watcher |
| Bindings.BindingStore.WatcherGet | src/bindref.rs:196-208 | returns the value and arms that watcher |
| Bindings.BindingStore.Done | src/lib.rs:290-305 | releases that listener only |
| Bindings.BindingStore.NewComputed | src/lib.rs:195-198 | a new computed binding is dirty, has read nothing and has no listeners |
| Bindings.BindingStore.GetComputed | src/lib.rs:466-527 | returns the function's value on the current bindings; evaluates only when dirty; records what it read |
| Bindings.BindingStore.WatcherGetComputed | src/bindref.rs:196-208 | as `GetComputed`, and arms that watcher |
| Bindings.BindingStore.WhenChangedComputed | src/lib.rs:530-551 | appends one callback to the computed binding |
| Bindings.BindingStore.WatchComputed | src/bindref.rs:184-209 | appends one disarmed watcher to the computed binding |
| Bindings.BindingStore.DoneComputed | src/lib.rs:669-697 | releases that listener of the computed binding only |
| Bindings.PlusOne | src/lib.rs:500-527 | the computation `bound.get() + 1` reads only `bound` |
| Bindings.Switched | src/lib.rs:554-606 | the computation that reads `switch` and then one of two bindings reads only what it uses |
| Bindings.ClonesShareOneCell | src/lib.rs:27-38 | a new binding reads 1, reads 2 after a set, and reads 3 after a set through its clone |
| Bindings.NotifiesAfterEachChange | src/lib.rs:224-266 | setting the same value fires nothing; each change fires the callback once (counts 0, 0, 1, 2, 3); the value is 4 |
| Bindings.DispatchesMultipleNotifications | src/lib.rs:269-287 | two callbacks give 0, 2, 4, 6 over three changes |
| Bindings.ReleaseOnlyAffectsOneNotification | src/lib.rs:308-337 | after one callback is released the total goes 6, 7, 8, 9 |
| Bindings.StopsNotifyingAfterRelease | src/lib.rs:290-305 | after release the count stays at 1 |
| Bindings.ComputedCachesValues | src/lib.rs:466-527 | values 2, 2, 3, 4 with evaluation counts 1, 1, 2, 2, 3: one evaluation per change, none for a repeated read |
| Bindings.ComputedDoesntNotifyMoreThanOnce | src/lib.rs:700-727 | two changes between reads notify once (counts 0, 1, 1, 2) |
| Bindings.ComputedStopsNotifyingWhenReleased | src/lib.rs:669-697 | after release the count stays at 1 while the values go 2, 3, 4, 5 |
| Bindings.ComputedSwitchesDependencies | src/lib.rs:554-606 | a binding no longer read does not notify; the one read now does (counts 0, 0, 1, 2, 3, 3) |
| BindRefs.FromValue | src/bindref.rs:122-129 | a reference to a fresh binding holding the value |
| BindRefs.Get | src/bindref.rs:25-28 | returns the referenced binding's value; values and listeners are unchanged; a computed reference fills its cache with that value, records the bindings it read and counts an evaluation only when it had no cached value, and every other computed binding is unchanged |
| BindRefs.WhenChanged | src/bindref.rs:37-40 | appends one callback to the referenced binding |
| BindRefs.Watch | src/bindref.rs:30-33 | appends one disarmed watcher to the referenced binding |
| BindRefs.WatcherGet | src/bindref.rs:30-33 | reads the referenced binding and arms that watcher; for a computed reference the cache, recorded inputs and evaluation count change as for `get`, and every other computed binding is unchanged |
| BindRefs.Constant | src/bindref.rs:165-169 | the computation returning a constant reads nothing |
| BindRefs.BindRefMatchesCoreValue | src/bindref.rs:146-155 | a reference and its clone see the original's later sets (1, 2, 2) |
| BindRefs.BindRefFromValue | src/bindref.rs:158-162 | a reference made from 1 reads 1 |
| BindRefs.BindRefFromComputed | src/bindref.rs:165-169 | a reference to a computed binding returning 1 reads 1 |
| BindRefs.WatcherFiresAfterGet | src/bindref.rs:184-201 | a watcher does not fire before its get, and fires once on the next change after it |
| BindRefs.WatcherNotifiesAfterGet | src/bindref.rs:184-209 | watcher counts 0, 0, 1, 1, 1, 2: one fire per get, whatever the number of changes |

## Left out

- Async plumbing: `pipe_in`, `Desync` queues, wakers, `poll_fn`, `follow()` and the `RopeStream` type. The model keeps only the state each step leaves behind, plus a ghost count of wakes and of the pull made by the last `drop`.
- `ready_chunks` timing: chunks may have any size. The bound of 20 does not matter to the result.
- `Arc`/`Mutex` locking and races between threads. This leaves out `change_during_computation_recomputes` (src/lib.rs:609-638). For the derived rope generators, an evaluation during which a dependency changed is an `Attempt` that did not settle.
- The `flo_rope` crate (`AttributedRope`, `PullRope`, `RopeConcatenator`) is not part of this model. It is replaced by the run-list rope of rope.dfy. Replacing an empty range at the end takes the last cell's attribute, or the default on an empty rope. `chain`'s concatenator is modelled as a shift of right-side ranges by the left length.
- Attribute tracking across `chain`: the chained rope is modelled on cells only.
- Rope contents that exist before `chain` starts following a side are not re-sent. The sides start empty.
- End of stream for `chain` itself: the model's `Poll` never returns end of stream.
- The Myers diff of the `similar` crate is not part of this model. The diff is an input that must cover the old and new cells in order.
- `drop`-based release and `keep_alive`: a release is an explicit `done`.
- Creating a computed binding inside another one's evaluation panics (src/lib.rs:441-463). The model has no nested evaluation.
- Computed bindings that read other computed bindings (`can_recursively_compute_values*`, `computed_propagates_changes`) and the `BindingContext` test: a computation reads plain bindings only.
- `computed_stops_notifying_once_out_of_scope` (src/lib.rs:730-753): it depends on drop.
- Dependency subscriptions of a computed binding are kept as the set of bindings it read, checked by `Set`. They are not listener entries in each binding's registry.
- `retain_fn` is treated as a pure predicate on cells.
- `eq`'s `debug_assert` that both runs are non-empty: for non-empty ropes it holds, and the model proves this (`MutableRope.Realign`). Two empty ropes fail it in a debug build, because reading the attributes at 0 of an empty rope gives an empty range. The model follows the release build, where `eq` answers true.
- `read_cells` with a zero-length range is not modelled on its own.
- src/rope_binding.rs is a stale duplicate of the `rope_binding` module and is not modelled.
- `map_binding` and the `ext.rs` helpers are not part of this model.
- `BindRef::from_arc` and the feature-gated `From<StreamBinding>` are not modelled. A `BindRef` refers to a plain or a computed binding.
- DerivedRope.ComputedRope.Poll: requires that some evaluation in the given list settles. The source loops until one does.
- DerivedRope.DiffRope.Poll: requires that some evaluation in the given list settles, as `ComputedRope.Poll` does. The source loops until one does, and never returns on an input where none settles.
- Pulls on the read path: `len`, `read_cells`, `read_attributes` and `get` call `pull_rope` on the core, and `extend` does through `len`. The pulled rope is not part of this model, and edits here reach the rope at once, so these pulls change nothing modelled. The ghost `pulls` counter counts only the pull made by the last `drop`.
- MutableRope.RopeBindingMut.RetainCells: its removals are a ghost out-parameter. The queued actions are stated through the followers' queues.
