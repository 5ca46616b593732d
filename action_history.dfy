/** `ActionQueue`, as functions of its state.

    The state holds the objects the queue can reach (`heap`, see
    `ActionLists`), the queue of handles, whether it is recording, the
    actions recorded so far and the `redo` cursor. Each operation returns the
    new state and the caller-defined actions whose `exec` it ran, in order. */
module ActionHistory {
  import opened Seqs
  import opened UndoScan
  import opened ActionLists
  import opened ActionListFacts

  /** The fields of an `ActionQueue`: `recording` is `_state === record`,
      `recorded` is `_recordActionList`. The `_params` passed to every `exec`
      are not modelled. */
  datatype QueueState = QueueState(heap: seq<Action>, queue: seq<Ref>, recording: bool,
                                   recorded: seq<Ref>, redoOffset: nat)

  /** What a call leaves and the caller-defined actions it ran. */
  datatype Step = Step(state: QueueState, ran: seq<Ref>)

  /** Every handle in `rs` is an object. */
  predicate Refs(heap: seq<Action>, rs: seq<Ref>) {
    forall j :: 0 <= j < |rs| ==> rs[j] < |heap|
  }

  /** The queue only holds objects, and a queue that is not recording has
      nothing recorded. */
  predicate Wf(s: QueueState) {
    && HeapWf(s.heap) && Refs(s.heap, s.queue) && Refs(s.heap, s.recorded)
    && (!s.recording ==> s.recorded == [])
  }

  /** `new ActionQueue(params)`. */
  const Initial := QueueState([], [], false, [], 0)

  lemma InitialWf()
    ensures Wf(Initial)
  {
  }

  /** A new caller-defined action, not yet queued. */
  function NewCustom(s: QueueState, id: string, target: Option<Ref>): (s': QueueState)
    requires Wf(s) && (target.Some? ==> target.value < |s.heap|)
    ensures Wf(s') && s'.heap == s.heap + [Custom(id, target)] && s' == s.(heap := s'.heap)
  {
    AppendWf(s.heap, Custom(id, target));
    s.(heap := s.heap + [Custom(id, target)])
  }

  /** `new ActionList({ queue })`, not yet queued. */
  function NewList(s: QueueState, subs: seq<Ref>): (s': QueueState)
    requires Wf(s) && Refs(s.heap, subs)
    ensures Wf(s') && s'.heap == s.heap + [ActionList(subs, None)] && s' == s.(heap := s'.heap)
  {
    AppendWf(s.heap, ActionList(subs, None));
    s.(heap := s.heap + [ActionList(subs, None)])
  }

  /** `stopRecording()`: a non-empty recording becomes one new `ActionList`
      pushed onto the queue. The `redo` cursor is left as it is. */
  function Stop(s: QueueState): (s': QueueState)
    requires Wf(s)
    ensures Wf(s') && !s'.recording
  {
    if |s.recorded| > 0 then
      AppendWf(s.heap, ActionList(s.recorded, None));
      s.(heap := s.heap + [ActionList(s.recorded, None)], queue := s.queue + [|s.heap|],
         recorded := [], recording := false)
    else s.(recording := false)
  }

  /** `startRecording`, `undo` and `redo` first stop a running recording. */
  function Stopped(s: QueueState): (s': QueueState)
    requires Wf(s)
    ensures Wf(s') && !s'.recording && s'.recorded == []
  {
    if s.recording then Stop(s) else s
  }

  /** `startRecording()`. */
  function Start(s: QueueState): (s': QueueState)
    requires Wf(s)
    ensures Wf(s') && s'.recording
  {
    Stopped(s).(recording := true)
  }

  /** `exec(action)`: the action joins the recording, or else the queue, and
      then runs. */
  function Exec(s: QueueState, a: Ref): (r: Step)
    requires Wf(s) && a < |s.heap|
    ensures Wf(r.state) && Refs(r.state.heap, r.ran)
  {
    var s' := if s.recording then s.(recorded := s.recorded + [a]) else s.(queue := s.queue + [a]);
    Step(s'.(redoOffset := 0), Trace(s.heap, a))
  }

  /** The `target` of each queued object, in queue order. */
  function TargetsOf(heap: seq<Action>, queue: seq<Ref>): (t: seq<Option<Ref>>)
    requires Refs(heap, queue)
    ensures |t| == |queue| && forall i :: 0 <= i < |queue| ==> t[i] == heap[queue[i]].target
  {
    seq(|queue|, i requires 0 <= i < |queue| => heap[queue[i]].target)
  }

  /** The index of the action the scan of `undo` picks, if any. */
  function Pick(s: QueueState): Option<nat>
    requires Wf(s)
  {
    LastUndoable(s.queue, TargetsOf(s.heap, s.queue), |s.queue|)
  }

  /** `redoAction.target = undoAction`. */
  function Retarget(heap: seq<Action>, r: Ref, u: Ref): (heap': seq<Action>)
    requires r < |heap|
    ensures |heap'| == |heap|
  {
    heap[r := heap[r].(target := Some(u))]
  }

  lemma RetargetWf(heap: seq<Action>, r: Ref, u: Ref)
    requires HeapWf(heap) && r < |heap| && u < |heap|
    ensures HeapWf(Retarget(heap, r, u))
  {
    var h := Retarget(heap, r, u);
    forall i | 0 <= i < |h|
      ensures ObjectWf(h, i)
    {
      assert ObjectWf(heap, i);
    }
  }

  /** The object `undo` pushes for the entry `u`: its target when it has one,
      else its `revertAction()` retargeted at `u`. `Undo` only passes entries
      that `Pick` chose, which have no target, so the first branch, kept from
      the source, is never taken there. */
  function Inverse(heap: seq<Action>, u: Ref, revert: Revert): (res: (seq<Action>, Ref))
    requires HeapWf(heap) && u < |heap| && Sane(revert)
    ensures HeapWf(res.0) && res.1 < |res.0|
  {
    if heap[u].target.Some? then
      assert ObjectWf(heap, u);
      (heap, heap[u].target.value)
    else
      RevertWf(heap, u, revert);
      var (h1, r) := RevertOf(heap, u, revert);
      RetargetWf(h1, r, u);
      (Retarget(h1, r, u), r)
  }

  /** `undo()`: stops a recording, then pushes and runs the inverse of the
      entry the scan picks, if any, and resets the `redo` cursor. */
  function Undo(s: QueueState, revert: Revert): (r: Step)
    requires Wf(s) && Sane(revert)
    ensures Wf(r.state) && Refs(r.state.heap, r.ran)
  {
    var s1 := Stopped(s);
    match Pick(s1)
    case None => Step(s1.(redoOffset := 0), [])
    case Some(i) =>
      var (h, x) := Inverse(s1.heap, s1.queue[i], revert);
      Step(s1.(heap := h, queue := s1.queue + [x], redoOffset := 0), Trace(h, x))
  }

  /** The queue index `redo` looks at; no entry when negative. */
  function RedoIndex(s: QueueState): int {
    |s.queue| - 1 - s.redoOffset
  }

  /** `redo()`: stops a recording; when the entry at the cursor has a target,
      pushes and runs that target and moves the cursor one entry back. */
  function Redo(s: QueueState): (r: Step)
    requires Wf(s)
    ensures Wf(r.state) && Refs(r.state.heap, r.ran)
  {
    var s1 := Stopped(s);
    var i := RedoIndex(s1);
    if 0 <= i && s1.heap[s1.queue[i]].target.Some? then
      var t := s1.heap[s1.queue[i]].target.value;
      assert ObjectWf(s1.heap, s1.queue[i]);
      Step(s1.(queue := s1.queue + [t], redoOffset := s1.redoOffset + 2), Trace(s1.heap, t))
    else Step(s1, [])
  }

  /** Changing targets does not change what an action runs. */
  lemma {:induction false} TraceRetarget(heap: seq<Action>, r: Ref, u: Ref, a: Ref)
    requires r < |heap|
    ensures Trace(Retarget(heap, r, u), a) == Trace(heap, a)
    decreases a, 1
  {
    if a < |heap| && heap[a].ActionList? {
      TraceAllRetarget(heap, r, u, a, heap[a].queue);
    }
  }

  lemma {:induction false} TraceAllRetarget(heap: seq<Action>, r: Ref, u: Ref, bound: nat, rs: seq<Ref>)
    requires r < |heap|
    ensures TraceAll(Retarget(heap, r, u), bound, rs) == TraceAll(heap, bound, rs)
    decreases bound, 0, |rs|
  {
    if rs != [] {
      if rs[0] < bound {
        TraceRetarget(heap, r, u, rs[0]);
      }
      TraceAllRetarget(heap, r, u, bound, rs[1..]);
    }
  }

  lemma LabelsRetarget(heap: seq<Action>, r: Ref, u: Ref, rs: seq<Ref>)
    requires r < |heap| && Refs(heap, rs)
    ensures Labels(Retarget(heap, r, u), rs) == Labels(heap, rs)
  {
    var h := Retarget(heap, r, u);
    assert forall j :: 0 <= j < |rs| ==> Label(h[rs[j]]) == Label(heap[rs[j]]);
  }
}
