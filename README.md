# structures — a Dafny model of five small stateful data structures

This project models the core of the TypeScript library `itharbors/structures`:

- **`TaskScheduler`** (`source/lib/task-scheduler.ts`) holds two dictionaries:
  - a registry `name2item` from name to Task, each Task with the flags `executed` and `running`;
  - a reverse index `depend2item` from a prerequisite name to the Tasks that depend on it.

  `execute` runs a Task whose prerequisites are all done, then cascades to the dependants that have become eligible. `revert` clears the flags and cascades to every dependant, with no check for Tasks already reverted.
- **`UndoQueue`** (`source/lib/undo-queue.ts`) is a linear undo/redo history. It only appends. `undo` scans backwards for the last entry that is neither generated from another entry nor undone already; `redo` walks back over the queue with `redoOffset`.
- **`ActionQueue`** and **`ActionList`** (`source/lib/action-queue.ts`) follow the same undo/redo rule. They add a recording mode that groups the actions executed meanwhile into one `ActionList`. Reverting an `ActionList` reverts its sub-actions in reverse order.
- **`ObjectRecycler`** (`source/object-recycler.ts`) is a last-in first-out object pool that never holds an object twice.
- **`EventEmitter`** (`source/lib/event.ts`) keeps a listener table: a dictionary from action name to a list of `{handle, once}` entries. It refuses duplicate handles, removes by handle, clears, and drops `once` entries when the action is emitted.

## Structure of the model

Every structure follows the same pattern:

1. Its state is a Dafny value, and every operation is a function of that value. Examples: `SchedulerRegistry.Registry`, `UndoHistory.History`, `ActionHistory.QueueState`, the `Recycling` pool, `EventTable.Table`.
2. Lemmas about those functions state what the source promises.
3. A `class` holds the same state as fields that its methods update in place. Each method is proved to leave exactly the state its function describes. The loops the source runs are `while` loops with invariants:
   - the backward scans of `undo`;
   - the `for` loop of `emit`, which splices entries out and steps its index back;
   - the loop with `break` of `removeListener`;
   - the cascade work-lists of the scheduler.

Objects that the source compares by identity are handles (`nat`):

- Tasks, undo actions and pooled objects are handles into a heap.
- Listener functions are plain handles.

Caller-supplied callbacks are opaque:

- The scheduler returns the Tasks whose action (or revert action) it invoked, in invocation order.
- The queues return the caller-defined actions whose `exec` ran.
- The recycler returns the `generate` / `initialize` / `destroy` calls it made.
- `emit` returns the handles it called.

`exec()` and `revertAction()` of caller-defined undo actions are function parameters.

### How the scheduler's asynchronous calls are modelled

`execute` and `revert` are `async`. A call runs synchronously up to its `await` of the action. The rest of the call runs later, and so do the calls it makes from its loop; those calls are not awaited.

With actions that return at once, the continuations run in the order their actions were invoked. The model therefore runs each top-level call to quiescence as a first-in first-out work-list. Tasks are appended when their action is invoked, and a cursor marks the continuations already run.

- `execute` terminates because every start takes a Task out of the idle set, the Tasks that are neither executed nor running.
- `revert` has no visited check, and a dependency cycle that the cascade reaches makes it run forever. Its functions therefore take a rank on names. The reverted name ranks positive, and every registered dependant of a positively ranked name ranks positive and below it. Names the cascade cannot reach may rank 0, so a cycle elsewhere does not matter: `SchedulerTables.CycleRevertA` reverts `a` beside a cycle `p`, `q`, and `SchedulerTables.CycleUnranked` shows that no such rank lets `p` or `q` be reverted. `SchedulerRevertFacts.RankIrrelevant` proves the result does not depend on which rank is chosen.

### Behaviour of the code that the model keeps

- At `source/lib/task-scheduler.ts:90-93` the top-level prerequisite check reads `name2item[d].executed` without a guard. An unregistered prerequisite therefore raises. It is the outcome `MissingDependency`. The cascade check at `:113-115` is guarded, but it reads the `depends` of the Task in the slot, which may be a replaced one; the `execute(child.name)` it then makes runs the unguarded read on the `depends` of the Task now registered under that name (see `SchedulerExecute.Pick` under "Left out").
- `add` of a name already present leaves the replaced Task in `depend2item`. `remove` of a Task that does not list its own name in its `depends` never touches `depend2item[name]`.
- `removeListener(action, handle)` on an action with no entry creates an empty list for it (`source/lib/event.ts:73`).
- `clear("")` clears every action, because `""` is falsy (`source/lib/event.ts:89`).
- The lookup `_events[action] || []` (`source/lib/event.ts:29`) is the helper `EventTable.Slot`: the action's list, or the empty list when the action has no entry. The effect lemmas of `EventTableFacts` state every operation's result through it.
- `removeListener(action)` without a handle deletes the action's entry.
- `ActionQueue.stopRecording` leaves `_redoOffset` as it is.
- `ActionQueue.undo` sets `target` on the object `revertAction()` returns. For an `ActionList` that object is always new. For a caller-defined action it may be one that already exists (`ActionHistory.Retarget`).

## Model

| member | source | states |
|---|---|---|
| SchedulerRegistry.Empty | source/lib/task-scheduler.ts:36-37 | a new scheduler has no registered name (`size` 0) and satisfies the invariant: handles resolve, the reverse index is exact, nothing is running |
| SchedulerRegistry.LinkSlot | source/lib/task-scheduler.ts:47-52 | the `forEach` of `add` appends the Task to a slot once per occurrence of the slot's name in `depends`, after the entries already there; a slot exists afterwards iff it existed or is named in `depends` |
| SchedulerRegistry.AddEffect | source/lib/task-scheduler.ts:44-53 | `add` registers a fresh Task with both flags false under the name; `size` grows only for a new name; no other registration or Task changes; each slot gains the new Task once per occurrence in `depends`, missing slots are created, and nothing checks that prerequisites exist |
| SchedulerRegistry.AddValid | source/lib/task-scheduler.ts:44-53 | `add` keeps the invariant, including the exactness of `depend2item` for registered Tasks |
| SchedulerRegistry.UnlinkSlots | source/lib/task-scheduler.ts:66-75 | the `forEach` of `remove` takes the Task out of the slots of its prerequisites, keeps every other entry in order, and deletes a slot exactly when nothing else is left in it |
| SchedulerRegistry.RemoveEffect | source/lib/task-scheduler.ts:59-76 | `remove` of an unknown name changes nothing; of a known name it deletes exactly that key (`size` drops by one), keeps every Task object, removes the Task from its prerequisites' slots deleting emptied ones, and, when the Task does not list its own name in its `depends`, leaves `depend2item[name]` untouched |
| SchedulerRegistry.RemoveValid | source/lib/task-scheduler.ts:59-76 | `remove` keeps the invariant |
| SchedulerExecute.CheckDepends | source/lib/task-scheduler.ts:90-93 | the prerequisite scan answers `Ready` iff every prerequisite is registered and executed; otherwise it names the first one that is unregistered (the unguarded read raises) or registered but not executed, all earlier ones being done |
| SchedulerExecute.Admit | source/lib/task-scheduler.ts:83-100 | the synchronous part of `execute`: `UnknownTask` iff the name is unregistered; `Started` iff all prerequisites are done and the Task is neither executed nor running; `AlreadyHandled` iff they are done and it is executed or running; the two refusals name a prerequisite |
| SchedulerExecute.Pick | source/lib/task-scheduler.ts:110-118 | one child of the cascade starts a Task only if that Task is idle, registered under the child's name and has every prerequisite registered and executed; it starts nothing only when the child itself is not such a Task |
| SchedulerExecute.CascadeFrom | source/lib/task-scheduler.ts:109-120 | the cascade loop changes only flags and appends the Tasks it starts to the end of the work-list |
| SchedulerExecute.CascadeIdle | source/lib/task-scheduler.ts:109-120 | every Task the cascade starts leaves the idle set: idle count plus work-list length is preserved |
| SchedulerExecute.Continue | source/lib/task-scheduler.ts:103-120 | a continuation keeps the dictionaries, extends the work-list, and either starts a Task (fewer idle) or shortens the work still to run |
| SchedulerExecuteFacts.ExecuteRefused | source/lib/task-scheduler.ts:83-125 | `execute` invokes no action and changes nothing exactly when the name is unregistered, a prerequisite is unregistered or not executed, or the Task is executed or running; the outcome is `Admit`'s |
| SchedulerExecuteFacts.ExecuteFlags | source/lib/task-scheduler.ts:100-104 | a successful `execute` invokes the named Task's action first and every action at most once; each Task run was registered and idle and ends executed and not running; no other flag and no dictionary changes |
| SchedulerExecuteFacts.ExecuteOrder | source/lib/task-scheduler.ts:107-120 | every prerequisite of a Task that ran is registered and was executed before the call or ran earlier in the same run |
| SchedulerExecuteFacts.ExecuteReached | source/lib/task-scheduler.ts:107-120 | every Task run after the first is registered under the name of a Task in the slot of an earlier one: nothing unrelated runs |
| SchedulerExecuteFacts.ExecuteComplete | source/lib/task-scheduler.ts:107-120 | the cascade misses nothing: every registered Task in the slot of a Task that ran, whose prerequisites are all registered and executed afterwards, is executed afterwards |
| SchedulerExecuteFacts.ExecuteValid | source/lib/task-scheduler.ts:82-126 | `execute` keeps the invariant |
| SchedulerRevert.Wake | source/lib/task-scheduler.ts:144-147 | the loop of a revert continuation invokes at most one revert action per slot entry |
| SchedulerRevert.WakeMember | source/lib/task-scheduler.ts:144-147 | a Task is woken exactly when it is registered under the name of a Task in the slot |
| SchedulerRevertFacts.RevertRun | source/lib/task-scheduler.ts:133-148 | `revert` of an unknown name invokes nothing and changes nothing; otherwise the named Task's revert action comes first, then those its continuations wake, each woken by an earlier one and registered under its own name; both flags are cleared on exactly these Tasks and nothing else changes |
| SchedulerRevertFacts.RevertCount | source/lib/task-scheduler.ts:142-147 | `revert` invokes one revert action per path from the name through registered dependants: there is no check for Tasks already reverted |
| SchedulerRevertFacts.RevertClosed | source/lib/task-scheduler.ts:142-147 | every registered dependant of a reverted Task is reverted too and ends not executed |
| SchedulerRevertFacts.RevertAgain | source/lib/task-scheduler.ts:133-148 | `revert` keeps the invariant; a second `revert` of the same name invokes the same revert actions again and leaves the same state |
| SchedulerRevertFacts.RankIrrelevant | source/lib/task-scheduler.ts:142-147 | the Tasks reverted do not depend on the rank used to bound the cascade, which only has to be positive and decreasing on the names the cascade reaches |
| SchedulerTables.TableAdd | source/test/task-scheduler.spec.ts:11-55 | `size` is 0 for a new scheduler, 1 after one `add`, 2 after two names, and 1 after adding the same name twice |
| SchedulerTables.TableRemoveMissing | source/test/task-scheduler.spec.ts:60-71 | removing a name that was never added keeps `size` 1 |
| SchedulerTables.TableRemoveOne | source/test/task-scheduler.spec.ts:73-89 | removing one of two names leaves `size` 1 |
| SchedulerTables.TableAddRemove | source/test/task-scheduler.spec.ts:91-118 | adding a name and removing it leaves `size` 0 |
| SchedulerTables.TableExecuteOne | source/test/task-scheduler.spec.ts:123-136 | `execute('test')` invokes the action once, no revert action, and leaves the Task executed and not running |
| SchedulerTables.TableRevertOne | source/test/task-scheduler.spec.ts:209-226 | `revert('test')` after that invokes the revert action once and clears the Task's flags |
| SchedulerTables.AddSerial | source/test/task-scheduler.spec.ts:142-161 | adding `a`, `b` after `a`, `c` after `b` and `d` with no prerequisite builds the registry and reverse index the next case runs on, and keeps the invariant |
| SchedulerTables.TableExecuteSerial | source/test/task-scheduler.spec.ts:138-170 | `execute('a')` invokes the actions of `a`, `b`, `c` in that order and not `d`, leaving exactly those three executed |
| SchedulerTables.AddFan | source/test/task-scheduler.spec.ts:176-195 | adding `a`, `b` after `a`, and `c` and `d` after `b` builds the registry and reverse index the next cases run on |
| SchedulerTables.TableExecuteFan | source/test/task-scheduler.spec.ts:172-204 | `execute('a')` invokes the actions of `a`, `b`, `c`, `d` in that order and leaves all four executed |
| SchedulerTables.TableRevertFan | source/test/task-scheduler.spec.ts:228-263 | `revert('a')` after that invokes the revert actions of `a`, `b`, `c`, `d` in that order and clears every flag |
| SchedulerTables.CycleUnranked | source/lib/task-scheduler.ts:142-147 | with `p` and `q` waiting for each other, every rank the revert functions accept is 0 on both: their revert cascade would not end |
| SchedulerTables.CycleRevertA | source/lib/task-scheduler.ts:133-148 | beside that cycle, `revert('a')` invokes only `a`'s revert action and leaves the state as it was |
| TaskSchedulers.TaskScheduler.constructor | source/lib/task-scheduler.ts:36-37 | both dictionaries start empty and the invariant holds |
| TaskSchedulers.TaskScheduler.Size | source/lib/task-scheduler.ts:32-34 | `size` is the number of registered names |
| TaskSchedulers.TaskScheduler.Add | source/lib/task-scheduler.ts:44-53 | the fields end as `SchedulerRegistry.Add` of the old state, and the invariant is kept |
| TaskSchedulers.TaskScheduler.Remove | source/lib/task-scheduler.ts:59-76 | the splice-and-delete loop over the prerequisites leaves `SchedulerRegistry.Remove` of the old state, and the invariant is kept |
| TaskSchedulers.TaskScheduler.Execute | source/lib/task-scheduler.ts:82-126 | outcome, actions invoked and new fields are those of `SchedulerExecute.Execute` of the old state; the invariant is kept |
| TaskSchedulers.TaskScheduler.Drain | source/lib/task-scheduler.ts:100-120 | the work-list loop of `execute` leaves the state and work-list `SchedulerExecute.Drain` describes |
| TaskSchedulers.TaskScheduler.Continuation | source/lib/task-scheduler.ts:103-120 | one continuation updates the flags and runs the cascade loop as `SchedulerExecute.Continue` describes |
| TaskSchedulers.TaskScheduler.Revert | source/lib/task-scheduler.ts:133-148 | the new fields and the revert actions invoked are those of `SchedulerRevert.Revert`; the invariant is kept |
| TaskSchedulers.TaskScheduler.RevertContinuation | source/lib/task-scheduler.ts:139-147 | one revert continuation clears the flags of its Task and appends the Tasks its loop wakes, in slot order |
| UndoScan.LastUndoableSpec | source/lib/undo-queue.ts:42-50 | the backward scan finds an entry exactly when some entry has no target and is not the target of a later entry, and then it finds the last such entry |
| UndoScan.TargetsFromSpec | source/lib/undo-queue.ts:42-46 | the set the scan builds holds exactly the targets of the entries already visited |
| UndoScan.ScanStep | source/lib/undo-queue.ts:44-47 | at each index the scan stops exactly when the entry has no target and is not in the set built so far |
| UndoHistory.RecordEffect | source/lib/undo-queue.ts:30-33 | `record` appends the action, grows `length` by one, changes no object, and points `redo` at the last entry |
| UndoHistory.UndoEffect | source/lib/undo-queue.ts:38-58 | `undo` leaves the queue unchanged exactly when no entry is undoable; otherwise it pushes what `exec()` of the last undoable entry returns; the queue only grows, by at most one entry, and `redoOffset` becomes 0 |
| UndoHistory.RedoEffect | source/lib/undo-queue.ts:63-70 | `redo` acts only when the entry at `length - 1 - redoOffset` exists and has a target: it pushes that entry's `exec()` result and the looked-at index moves one entry back; otherwise nothing changes |
| UndoHistory.MirrorSane | source/test/undo-queue.spec.ts:103-107 | the tests' `exec()` (the own target, or a new primed object targeting the entry) always returns an object |
| UndoHistory.UndoThenRedo | source/lib/undo-queue.ts:52-68 | with the tests' `exec()`, `undo` pushes a new primed inverse targeting the undone entry, and the next `redo` pushes the undone entry itself, with `redoOffset` 2 |
| UndoHistory.PickIs | source/lib/undo-queue.ts:42-50 | the entry `undo` picks is the last undoable one |
| UndoHistory.SetupStates | source/test/undo-queue.spec.ts:109-112 | recording `[]`, `[a]` and `[a, b]` gives the queues the table starts from |
| UndoHistory.TableEmptyAndSingle | source/test/undo-queue.spec.ts:36-55 | the first four cases: the queue ids after `undo` or `redo` on `[]` and `[a]` |
| UndoHistory.TableUndoUndo | source/test/undo-queue.spec.ts:57-61 | `[a, b]` with undo, undo gives `[a, b, b', a']` |
| UndoHistory.TableUndoRedo | source/test/undo-queue.spec.ts:62-76 | `[a, b]` with undo, redo (and then redo, or undo) gives the three listed queues |
| UndoHistory.TableUndoUndoRedo | source/test/undo-queue.spec.ts:77-81 | `[a, b]` with undo, undo, redo, redo gives `[a, b, b', a', a, b]` |
| UndoHistory.TableUndoUndoRedoUndo | source/test/undo-queue.spec.ts:82-96 | the last three cases, ending in redo, redo redo, and undo undo |
| UndoQueues.UndoQueue.constructor | source/lib/undo-queue.ts:18-20 | an empty queue with `redoOffset` 0 |
| UndoQueues.UndoQueue.Length | source/lib/undo-queue.ts:22-24 | `length` is the number of queued entries |
| UndoQueues.UndoQueue.NewAction | source/lib/undo-queue.ts:9-12 | `new UndoAction(detail, action)` allocates one new object with that id and target and changes nothing else |
| UndoQueues.UndoQueue.Record | source/lib/undo-queue.ts:30-33 | the fields end as `UndoHistory.Record` of the old state |
| UndoQueues.UndoQueue.PushMade | source/lib/undo-queue.ts:53-54 | pushing what `exec()` returned, allocated when new, leaves `UndoHistory.Push` of the old state |
| UndoQueues.UndoQueue.Scan | source/lib/undo-queue.ts:39-50 | the backward loop with its `Set` returns the index `UndoHistory.Pick` describes |
| UndoQueues.UndoQueue.Undo | source/lib/undo-queue.ts:38-58 | the fields end as `UndoHistory.Undo` of the old state |
| UndoQueues.UndoQueue.Redo | source/lib/undo-queue.ts:63-70 | the fields end as `UndoHistory.Redo` of the old state |
| ActionLists.Trace | source/lib/action-queue.ts:30-34 | `exec` of an action runs only allocated caller-defined actions, none later than itself |
| ActionLists.RevertOf | source/lib/action-queue.ts:35-44 | reverting only allocates objects; existing objects are unchanged |
| ActionLists.RevertFrom | source/lib/action-queue.ts:37-40 | the loop of `ActionList.revertAction` returns one revert per sub-action and only allocates objects |
| ActionLists.RevertWf | source/lib/action-queue.ts:35-44 | when `revertAction()` of caller-defined actions returns objects, reverting keeps the heap well formed and returns an object |
| ActionListFacts.TraceAllAppend | source/lib/action-queue.ts:30-34 | running a sequence of actions runs each in turn: runs concatenate |
| ActionListFacts.TraceStable | source/lib/action-queue.ts:30-34 | allocating objects does not change what an existing action runs |
| ActionListFacts.MirrorRevertSane | source/test/action-queue.spec.ts:177-180 | the tests' `revertAction()` always returns an object |
| ActionListFacts.MirrorRevertsFrom | source/lib/action-queue.ts:37-40 | with the tests' `revertAction()`, the reverts the loop returns run the primed inverses of the first `n` sub-actions' runs, in reverse order |
| ActionListFacts.MirrorReverts | source/lib/action-queue.ts:35-44 | with the tests' `revertAction()`, the revert of an action runs a new primed inverse of every caller-defined action the action runs, in reverse order |
| ActionHistory.NewCustom | source/lib/action-queue.ts:10-13 | a caller-defined action is allocated with that id and target; nothing else changes |
| ActionHistory.NewList | source/lib/action-queue.ts:10-13 | an `ActionList` of the given sub-actions is allocated without target; nothing else changes |
| ActionHistory.Stopped | source/lib/action-queue.ts:119-121 | `undo` and `redo` first end a recording: afterwards nothing is recording or recorded |
| ActionHistory.RetargetWf | source/lib/action-queue.ts:139 | setting `redoAction.target` to an object keeps the heap well formed |
| ActionHistory.TraceRetarget | source/lib/action-queue.ts:139 | setting a target does not change what any action runs |
| ActionHistory.Inverse | source/lib/action-queue.ts:136-140 | what `undo` pushes is an object of the new heap |
| ActionHistoryFacts.StopEffect | source/lib/action-queue.ts:91-99 | `stopRecording` ends not recording with nothing recorded; an empty recording only changes the state; a non-empty one becomes one new `ActionList`, pushed, that runs the recorded actions in order; `redoOffset` is kept |
| ActionHistoryFacts.StartEffect | source/lib/action-queue.ts:81-86 | `startRecording` first flushes a running recording as `stopRecording` does, then records from nothing |
| ActionHistoryFacts.ExecEffect | source/lib/action-queue.ts:105-113 | `exec` runs its action; while recording the action joins the recording and the queue is unchanged, otherwise it is pushed; `redoOffset` becomes 0 |
| ActionHistoryFacts.RecordingExecs | source/lib/action-queue.ts:105-111 | while recording, executing several actions runs each in turn and appends them all to the recording |
| ActionHistoryFacts.RecordingReplays | source/lib/action-queue.ts:81-113 | start, `exec` of some actions, stop pushes one list, and that list runs exactly what the `exec` calls ran |
| ActionHistoryFacts.UndoEffect | source/lib/action-queue.ts:118-146 | after ending a recording, `undo` finds an entry exactly when one is undoable; it pushes `revertAction()` of the last one with its target set to the entry and runs that; else nothing is pushed; `redoOffset` becomes 0 |
| ActionHistoryFacts.RedoEffect | source/lib/action-queue.ts:151-166 | after ending a recording, `redo` acts only when the entry at the cursor has a target: it pushes and runs the target and moves the cursor one entry back; otherwise nothing more changes |
| ActionHistoryFacts.UndoThenRedo | source/lib/action-queue.ts:135-165 | `redo` right after an `undo` that acted pushes the undone entry again and runs what it ran |
| ActionHistoryFacts.UndoMirror | source/lib/action-queue.ts:135-143 | with the tests' `revertAction()`, `undo` runs a new primed inverse of each caller-defined action the undone entry ran, in reverse order |
| ActionHistoryFacts.UndoKeepsIds | source/lib/action-queue.ts:118-146 | `undo` only allocates objects and sets targets: every object keeps its id |
| ActionQueues.TraceAllSnoc | source/lib/action-queue.ts:31-33 | the run of a list of actions is the run of all but the last followed by the run of the last |
| ActionQueues.ActionQueue.constructor | source/lib/action-queue.ts:57-76 | an empty, non-recording queue with `redoOffset` 0 |
| ActionQueues.ActionQueue.Length | source/lib/action-queue.ts:68-70 | `length` is the number of queued entries |
| ActionQueues.ActionQueue.NewCustom | source/lib/action-queue.ts:10-13 | allocating a caller-defined action leaves `ActionHistory.NewCustom` of the old state |
| ActionQueues.ActionQueue.NewList | source/lib/action-queue.ts:10-13 | allocating an `ActionList` leaves `ActionHistory.NewList` of the old state |
| ActionQueues.ActionQueue.StopRecording | source/lib/action-queue.ts:91-99 | the fields end as `ActionHistory.Stop` of the old state |
| ActionQueues.ActionQueue.StartRecording | source/lib/action-queue.ts:81-86 | the fields end as `ActionHistory.Start` of the old state |
| ActionQueues.ActionQueue.RunAction | source/lib/action-queue.ts:30-34 | `exec` of an object runs exactly the caller-defined actions `ActionLists.Trace` lists, in order |
| ActionQueues.ActionQueue.RevertAction | source/lib/action-queue.ts:35-44 | `revertAction()` of an object leaves the heap and returns the object `ActionLists.RevertOf` describes; no other field changes |
| ActionQueues.ActionQueue.RevertList | source/lib/action-queue.ts:35-44 | the loop of `ActionList.revertAction` from the last sub-action down leaves what `ActionLists.RevertOf` describes |
| ActionQueues.ActionQueue.Scan | source/lib/action-queue.ts:122-133 | the backward loop with its `Set` returns the index `ActionHistory.Pick` describes |
| ActionQueues.ActionQueue.Exec | source/lib/action-queue.ts:105-113 | new state and actions run are those of `ActionHistory.Exec` |
| ActionQueues.ActionQueue.InverseOf | source/lib/action-queue.ts:136-140 | the object `undo` pushes, and the heap after it, are those of `ActionHistory.Inverse` |
| ActionQueues.ActionQueue.Undo | source/lib/action-queue.ts:118-146 | new state and actions run are those of `ActionHistory.Undo` |
| ActionQueues.ActionQueue.Redo | source/lib/action-queue.ts:151-166 | new state and actions run are those of `ActionHistory.Redo` |
| ActionQueueTables.PickIs | source/lib/action-queue.ts:125-133 | the entry `undo` picks is the last undoable one |
| ActionQueueTables.UndoFresh | source/lib/action-queue.ts:135-143 | with the tests' `revertAction()`, `undo` of a caller-defined action without target pushes and runs a new primed action targeting it |
| ActionQueueTables.RedoCustom | source/lib/action-queue.ts:155-165 | `redo` at an entry whose target is a caller-defined action pushes and runs the target and adds 2 to `redoOffset` |
| ActionQueueTables.SetupStates | source/test/action-queue.spec.ts:113-116 | executing `[]`, `[a]` and `[a, b]` gives the queues the table starts from |
| ActionQueueTables.TableEmptyAndSingle | source/test/action-queue.spec.ts:38-57 | the first four cases: queue ids and ids announced by `exec` |
| ActionQueueTables.TableUndoUndo | source/test/action-queue.spec.ts:59-63 | `[a, b]` with undo, undo: queue and announced ids `[a, b, b', a']` |
| ActionQueueTables.TableUndoRedo | source/test/action-queue.spec.ts:64-78 | `[a, b]` with undo, redo, then redo or undo: queue and announced ids |
| ActionQueueTables.TableUndoUndoRedoRedo | source/test/action-queue.spec.ts:79-83 | `[a, b]` with undo, undo, redo, redo gives `[a, b, b', a', a, b]` |
| ActionQueueTables.TableUndoUndoRedoUndo | source/test/action-queue.spec.ts:84-98 | the last three cases of the table |
| ActionListTables.SetupStates | source/test/action-queue.spec.ts:183-188 | executing one `ActionList` per list of ids gives the queues the table starts from |
| ActionListTables.ListRevertIsNew | source/lib/action-queue.ts:41-43 | reverting an `ActionList` returns a newly allocated object |
| ActionListTables.UndoOfList | source/lib/action-queue.ts:135-143 | `undo` of a list without target pushes a new object targeting it and leaves the existing objects unchanged |
| ActionListTables.TraceAfterUndoOfList | source/lib/action-queue.ts:135-143 | after that `undo`, every existing action runs what it ran before |
| ActionListTables.UndoPair | source/lib/action-queue.ts:35-44 | `undo` of a list of two plain caller-defined actions announces their primed ids, the last first |
| ActionListTables.RedoPair | source/lib/action-queue.ts:155-165 | `redo` right after it runs the list again, in order |
| ActionListTables.PickAfterOneUndo | source/lib/action-queue.ts:125-133 | with two lists and an inverse of the second queued, the first list is the one to undo |
| ActionListTables.TableEmpty | source/test/action-queue.spec.ts:133-142 | `undo` or `redo` with no list announces nothing |
| ActionListTables.TableOneList | source/test/action-queue.spec.ts:143-157 | `[[a, b]]`, then undo, then redo, announces `a, b`, then `b', a'`, then `a, b` |
| ActionListTables.TableTwoLists | source/test/action-queue.spec.ts:158-167 | `[[a, b], [c, d]]` with undo, undo, redo announces `a, b, c, d, d', c', b', a', a, b` |
| Recycling.Acquire | source/object-recycler.ts:26-38 | on a non-empty pool the result pool followed by the returned object is the old pool (one fewer); on an empty pool the generated object is returned and the pool stays empty |
| Recycling.Recycle | source/object-recycler.ts:44-55 | after recycling, the object is in the pool |
| Recycling.TalliedAppend | source/test/object-recycler.spec.ts:12-18 | the tests' counters over a log of calls are the sums of the counters over its parts |
| RecyclingFacts.AcquirePops | source/object-recycler.ts:27-31 | on a non-empty pool `acquireObject` returns the object pooled last, removes exactly it, calls `initialize` once and never `generate` |
| RecyclingFacts.AcquireGenerates | source/object-recycler.ts:32-36 | on an empty pool it calls `generate` once and `initialize` once, and returns the generated object |
| RecyclingFacts.RecycleEffect | source/object-recycler.ts:44-55 | `recycleObject` calls `destroy` on every call when the object has one, pooled or not; it appends the object exactly when it is not pooled; the pool grows by 0 or 1 |
| RecyclingFacts.AcquireDistinct | source/object-recycler.ts:26-38 | acquiring keeps the pool free of duplicates, and the acquired object is no longer pooled |
| RecyclingFacts.RecycleDistinct | source/object-recycler.ts:51-54 | recycling keeps the pool free of duplicates |
| RecyclingFacts.RecycleThenAcquire | source/object-recycler.ts:26-55 | recycling an unpooled object and acquiring returns that object and restores the pool, initializing only |
| RecyclingFacts.AcquireThenRecycle | source/object-recycler.ts:26-55 | acquiring from a non-empty pool and recycling the object restores the pool |
| RecyclingFacts.TableOneObject | source/test/object-recycler.spec.ts:11-33 | the first case's counters after each call |
| RecyclingFacts.TableTwoObjects | source/test/object-recycler.spec.ts:35-84 | the second case's counters after each of the seven calls, and `objC` is `objB`, `objD` is `objA` |
| ObjectRecyclers.ObjectRecycler.constructor | source/object-recycler.ts:8-20 | the pool starts empty |
| ObjectRecyclers.ObjectRecycler.AcquireObject | source/object-recycler.ts:26-38 | `pop` or `generate` leave the pool, object and calls of `Recycling.Acquire`; the pool stays free of duplicates and no longer holds the object |
| ObjectRecyclers.ObjectRecycler.RecycleObject | source/object-recycler.ts:44-55 | `destroy`, `indexOf` and `push` leave the pool and calls of `Recycling.Recycle`; the pool stays free of duplicates and holds the object |
| EventTable.AddListener | source/lib/event.ts:28-39 | after adding, the action has an entry |
| EventTable.RemoveFirst | source/lib/event.ts:75-81 | the loop with `break` shortens the list by one exactly when the handle listens |
| EventTable.RemoveListener | source/lib/event.ts:64-82 | without a handle the action's entry is gone; with one, the action has an entry |
| EventTable.Clear | source/lib/event.ts:88-100 | clearing never adds a key |
| EventTable.Emit | source/lib/event.ts:107-126 | without an entry `emit` changes nothing and calls nothing; otherwise it makes one call per entry |
| EventTableFacts.AddEffect | source/lib/event.ts:28-39 | adding refuses exactly a handle already in the list and then leaves the table as it was; otherwise appends the entry with its `once` flag; other actions are untouched |
| EventTableFacts.AddWf | source/lib/event.ts:31-38 | adding keeps every list free of duplicate handles, and the handle then listens |
| EventTableFacts.RemoveFirstAt | source/lib/event.ts:75-81 | removing drops the entry at the first index holding the handle |
| EventTableFacts.RemoveFirstAbsent | source/lib/event.ts:75-81 | removing a handle that does not listen leaves the list as it was |
| EventTableFacts.DropUnique | source/lib/event.ts:78 | splicing one entry out of a duplicate-free list keeps it duplicate-free and the handle no longer listens |
| EventTableFacts.RemoveFirstUnique | source/lib/event.ts:75-81 | removing from a duplicate-free list keeps it so, and the handle no longer listens |
| EventTableFacts.RemoveEffect | source/lib/event.ts:64-82 | without a handle the action's entry is deleted; with one only the action's list changes, created when absent: it loses the entry at the first index holding the handle, and nothing when none does |
| EventTableFacts.RemoveWf | source/lib/event.ts:64-82 | removing keeps every list duplicate-free |
| EventTableFacts.AddThenRemove | source/test/event.spec.ts:32-44 | adding a new handle and removing it again leaves the action's list as it was |
| EventTableFacts.ClearEffect | source/lib/event.ts:88-100 | `clear(action)` for a non-empty name deletes exactly that entry, so emitting it calls nothing; `clear()` or `clear("")` empties the table, so no emit calls anything |
| EventTableFacts.ClearKeepsOthers | source/lib/event.ts:89-94 | after `clear(action)` other actions call the same listeners as before |
| EventTableFacts.KeepAppend | source/lib/event.ts:113-118 | dropping `once` entries works piecewise, preserving order |
| EventTableFacts.KeepMembers | source/lib/event.ts:113-118 | an entry survives `emit` exactly when it was in the list and is not `once` |
| EventTableFacts.KeepIdempotent | source/lib/event.ts:113-118 | the list left by `emit` is kept whole by the next one |
| EventTableFacts.KeepUnique | source/lib/event.ts:113-118 | dropping `once` entries keeps the list duplicate-free |
| EventTableFacts.EmitWf | source/lib/event.ts:107-126 | `emit` keeps every list duplicate-free |
| EventTableFacts.EmitEffect | source/lib/event.ts:107-126 | `emit` changes only the emitted action's list, calls each listener once in list order, and leaves exactly the entries that were not `once` |
| EventTableFacts.EmitTwice | source/lib/event.ts:113-118 | a second `emit` calls exactly the listeners the first kept and changes nothing: a `once` listener is called a single time |
| EventTableFacts.TableAddEmit | source/test/event.spec.ts:19-30 | emitting without listeners calls nothing; after `addListener` the listener is called once |
| EventTableFacts.TableAddRemove | source/test/event.spec.ts:32-44 | a listener added and removed is not called; the earlier one still is |
| EventTableFacts.TableClearOne | source/test/event.spec.ts:46-60 | after `clear("test-a")` emitting `test-a` calls nothing and `test-b` calls the listener once |
| EventTableFacts.TableClearAll | source/test/event.spec.ts:62-76 | after `clear()` neither emit calls the listener |
| EventEmitters.Find | source/lib/event.ts:31 | the `find` loop answers whether an entry holds the handle |
| EventEmitters.EmitStep | source/lib/event.ts:113-118 | one round of the `emit` loop keeps, or splices out and steps back over, exactly the entry it visits, and calls its handle |
| EventEmitters.Sweep | source/lib/event.ts:113-125 | the `emit` loop with `splice` and `i--` calls every entry's handle once, in order, and leaves exactly the entries not marked `once`, in order |
| EventEmitters.EventEmitter.constructor | source/lib/event.ts:21 | the table starts empty |
| EventEmitters.EventEmitter.Listen | source/lib/event.ts:29-38 | the shared body of both add methods leaves `EventTable.AddListener` of the old table and reports the refusal; lists stay duplicate-free |
| EventEmitters.EventEmitter.AddListener | source/lib/event.ts:28-39 | the table ends as `EventTable.AddListener` with `once` false |
| EventEmitters.EventEmitter.AddOnceListener | source/lib/event.ts:46-57 | the table ends as `EventTable.AddListener` with `once` true |
| EventEmitters.EventEmitter.RemoveListener | source/lib/event.ts:64-82 | the loop with `break` leaves `EventTable.RemoveListener` of the old table |
| EventEmitters.EventEmitter.Clear | source/lib/event.ts:88-100 | deleting one key, or every key in turn, leaves `EventTable.Clear` of the old table |
| EventEmitters.EventEmitter.Emit | source/lib/event.ts:107-126 | the table and the handles called are those of `EventTable.Emit` |

## Left out

- `source/lib/task-queue.ts` (`TaskManager`): bounded-concurrency execution of asynchronous handlers with a floating-point progress ratio. It is not part of this model.
- `source/index.ts` only re-exports. `scripts/build.js` spawns external tools. `source/test/queue.spec.ts` tests a module whose source is not part of this model.
- Promise interleaving:
  - Each `async` call runs to quiescence before the next call.
  - The cascades of `execute` and `revert` are not awaited by the source and are run as a first-in first-out work-list, the order they take when actions return at once.
  - The `exec` calls in `ActionQueue.undo` / `redo` and the awaited listener calls in `emit` are treated as finished when the call returns.
  - Listeners are assumed not to change the emitter while `emit` runs.
- Exceptions thrown by caller-supplied callbacks are not modelled; callbacks are total. A throwing scheduler action would leave `running` set, and `emit` catches and logs listener errors.
- `console.warn` / `console.error` are outcome tags, not output:
  - `ExecOutcome` for the scheduler;
  - the `duplicate` result for `addListener`.
- `execute` returns the action's result; the model returns the outcome and the Tasks run instead.
- `ActionQueue._params` and the `Detail` payloads are not modelled. Only `detail.id` is kept, to read the test tables.
- Callbacks are parameters or results:
  - `option.generate()` is the `generated` argument of `AcquireObject`;
  - `initialize` and `destroy` calls are returned as a log;
  - whether an object has `destroy` is `hasDestroy`;
  - `UndoAction.exec()` and `Action.revertAction()` are function parameters;
  - `Action.exec` of a caller-defined action is the record of it having run.
- The `!execAction` branch of `ActionQueue.redo` (`source/lib/action-queue.ts:158-161`) is dead, because `action.target` was tested just before. The model leaves it out.
- Do-nothing statements such as `this._events[name].length === 0` are left out, and so is the order of `Object.keys` in `clear`, which deletes every key whatever the order.
- Keys inherited from `Object.prototype` in the `_events` and `name2item` dictionaries are not modelled: the dictionaries are maps from strings.
- SchedulerRevert.Revert needs a rank on names that is positive and decreasing along the registered dependants the cascade reaches from the reverted name, so there must be no dependency cycle among those. Cycles elsewhere are allowed (`SchedulerTables.CycleRevertA`). When the cascade reaches a cycle the source never finishes, and the model does not describe that run (`SchedulerTables.CycleUnranked`).
- SchedulerExecute.Pick: a Task left in a slot after its name was re-added passes the guarded check at `source/lib/task-scheduler.ts:113-115` on its own old `depends`. The `execute(child.name)` it makes then reads the `depends` of the Task now registered under that name without a guard (`:90-93`), and an unregistered prerequisite there throws inside a call nobody awaits: an unhandled rejection. The model gives the outcome `MissingDependency` for that call: nothing starts and no flag changes, as in the source, but the rejection is not recorded.
- UndoHistory.Undo, UndoHistory.Redo, ActionHistory.Undo and ActionHistory.Redo take `exec()`, `revertAction()` and the actions' `exec` as pure callbacks: they return an object (new or existing) and neither change existing actions nor call back into the queue. `UndoHistory.UndoEffect` and `UndoHistory.RedoEffect` (the queue grows by at most one entry), `UndoHistory.RecordEffect` and `UndoHistory.Extends` (no object changes) and `ActionHistoryFacts.UndoKeepsIds` hold under that assumption only; a callback that records into the same queue, or changes the `target` of an entry, is not modelled.
- ActionLists.Trace and ActionLists.TraceAll take a bound below which sub-actions must lie. In a well-formed heap every sub-action lies below its list, so the bound is only a termination measure (`ActionListFacts.TraceAllBound`).
