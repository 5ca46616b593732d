/** What the operations of `ActionQueue` promise: recording groups the
    actions executed meanwhile into one list that runs them again, `undo`
    pushes and runs the inverse of the last undoable entry, and `redo` walks
    back over the queue running the targets it finds. */
module ActionHistoryFacts {
  import opened Seqs
  import opened UndoScan
  import opened ActionLists
  import opened ActionListFacts
  import opened ActionHistory

  /** `stopRecording` leaves the queue not recording with nothing recorded;
      a non-empty recording becomes one new list, pushed, that runs the
      recorded actions in order. Nothing else changes. */
  lemma StopEffect(s: QueueState)
    requires Wf(s)
    ensures var s' := Stop(s);
      && !s'.recording && s'.recorded == [] && s'.redoOffset == s.redoOffset
      && (s.recorded == [] ==> s' == s.(recording := false))
      && (s.recorded != [] ==>
            && s'.heap == s.heap + [ActionList(s.recorded, None)]
            && s'.queue == s.queue + [|s.heap|]
            && Trace(s'.heap, |s.heap|) == TraceAll(s.heap, |s.heap|, s.recorded))
  {
    if s.recorded != [] {
      var h' := Stop(s).heap;
      TraceAllStable(s.heap, h', |s.heap|, s.recorded);
    }
  }

  /** `startRecording` ends a running recording as `stopRecording` does and
      then records, from nothing. */
  lemma StartEffect(s: QueueState)
    requires Wf(s)
    ensures var s' := Start(s);
      && s'.recording && s'.recorded == [] && s'.redoOffset == s.redoOffset
      && s'.heap == Stop(s).heap && s'.queue == Stop(s).queue
  {
    StopEffect(s);
  }

  /** `exec` runs its action; while recording the action joins the recording
      and the queue is unchanged, otherwise it is pushed onto the queue and
      `redo` looks at it. */
  lemma ExecEffect(s: QueueState, a: Ref)
    requires Wf(s) && a < |s.heap|
    ensures var r := Exec(s, a);
      && r.ran == Trace(s.heap, a) && r.state.heap == s.heap
      && r.state.recording == s.recording && r.state.redoOffset == 0
      && (s.recording ==> r.state.queue == s.queue && r.state.recorded == s.recorded + [a])
      && (!s.recording ==> r.state.queue == s.queue + [a] && RedoIndex(r.state) == |s.queue|)
  {
  }

  /** `exec` of each of `acts` in turn: the state after and everything run. */
  function ExecAll(s: QueueState, acts: seq<Ref>): (r: Step)
    requires Wf(s) && Refs(s.heap, acts)
    ensures Wf(r.state) && r.state.heap == s.heap
    decreases |acts|
  {
    if acts == [] then Step(s, [])
    else
      var e := Exec(s, acts[0]);
      var rest := ExecAll(e.state, acts[1..]);
      Step(rest.state, e.ran + rest.ran)
  }

  /** While recording, executing actions runs each in turn and appends them
      all to the recording. */
  lemma {:induction false} RecordingExecs(s: QueueState, acts: seq<Ref>)
    requires Wf(s) && s.recording && Refs(s.heap, acts) && acts != []
    ensures var r := ExecAll(s, acts);
      && r.state == s.(recorded := s.recorded + acts, redoOffset := 0)
      && r.ran == TraceAll(s.heap, |s.heap|, acts)
    decreases |acts|
  {
    var e := Exec(s, acts[0]);
    TraceAllCons(s.heap, |s.heap|, acts[0], acts[1..]);
    assert [acts[0]] + acts[1..] == acts;
    if |acts| == 1 {
      assert acts[1..] == [];
    } else {
      RecordingExecs(e.state, acts[1..]);
      assert s.recorded + [acts[0]] + acts[1..] == s.recorded + acts;
    }
  }

  /** `startRecording`, `exec` of each of `acts`, then `stopRecording`
      pushes one list, and that list runs exactly what the `exec` calls
      ran. */
  lemma RecordingReplays(s: QueueState, acts: seq<Ref>)
    requires Wf(s) && Refs(s.heap, acts) && acts != []
    ensures var s0 := Start(s);
      Refs(s0.heap, acts) &&
      var e := ExecAll(s0, acts); var s' := Stop(e.state);
      && s'.queue == s0.queue + [|s0.heap|] && !s'.recording
      && Trace(s'.heap, |s0.heap|) == e.ran
  {
    var s0 := Start(s);
    StartEffect(s);
    StopEffect(s);
    assert Refs(s0.heap, acts);
    RecordingExecs(s0, acts);
    var e := ExecAll(s0, acts);
    assert e.state.recorded == acts by {
      assert s0.recorded + acts == acts;
    }
    StopEffect(e.state);
  }

  /** `undo` finds an entry exactly when one is undoable, and then the last
      one. It pushes that entry's `revertAction()`, retargeted at the entry,
      and runs it. Either way `redo` then looks at the last entry. */
  lemma UndoEffect(s: QueueState, revert: Revert)
    requires Wf(s) && Sane(revert)
    ensures var s1 := Stopped(s); var t := TargetsOf(s1.heap, s1.queue);
      var r := Undo(s, revert);
      && r.state.recording == false && r.state.recorded == [] && r.state.redoOffset == 0
      && RedoIndex(r.state) == |r.state.queue| - 1
      && ((forall j :: 0 <= j < |s1.queue| ==> !Undoable(s1.queue, t, j)) <==> r.state.queue == s1.queue)
      && (r.state.queue == s1.queue ==> r == Step(s1.(redoOffset := 0), []))
      && forall i :: 0 <= i < |s1.queue| && Undoable(s1.queue, t, i)
                     && (forall j :: i < j < |s1.queue| ==> !Undoable(s1.queue, t, j)) ==>
           var u := s1.queue[i]; var rv := RevertOf(s1.heap, u, revert);
           var h := Retarget(rv.0, rv.1, u);
           && r.state == s1.(heap := h, queue := s1.queue + [rv.1], redoOffset := 0)
           && r.ran == Trace(rv.0, rv.1) && h[rv.1].target == Some(u)
  {
    var s1 := Stopped(s);
    var t := TargetsOf(s1.heap, s1.queue);
    LastUndoableSpec(s1.queue, t, |s1.queue|);
    var o := Pick(s1);
    if o.Some? {
      var u := s1.queue[o.value];
      var rv := RevertOf(s1.heap, u, revert);
      RevertWf(s1.heap, u, revert);
      TraceRetarget(rv.0, rv.1, u, rv.1);
      forall i | 0 <= i < |s1.queue| && Undoable(s1.queue, t, i)
                 && (forall j :: i < j < |s1.queue| ==> !Undoable(s1.queue, t, j))
        ensures i == o.value
      {
      }
    }
  }

  /** `redo` acts when the entry it looks at exists and has a target: it
      pushes and runs that target and moves one entry back, so successive
      calls walk back over the queue; otherwise it only stops a recording. */
  lemma RedoEffect(s: QueueState)
    requires Wf(s)
    ensures var s1 := Stopped(s); var i := RedoIndex(s1); var r := Redo(s);
      && r.state.heap == s1.heap && !r.state.recording && s1.queue <= r.state.queue
      && (0 <= i && s1.heap[s1.queue[i]].target.Some? ==>
            var t := s1.heap[s1.queue[i]].target.value;
            && r.state.queue == s1.queue + [t] && RedoIndex(r.state) == i - 1
            && r.ran == Trace(s1.heap, t))
      && (!(0 <= i && s1.heap[s1.queue[i]].target.Some?) ==> r == Step(s1, []))
  {
  }

  /** `redo` right after an `undo` that acted pushes the undone entry again
      and runs what it ran. */
  lemma UndoThenRedo(s: QueueState, revert: Revert)
    requires Wf(s) && Sane(revert) && Pick(Stopped(s)).Some?
    ensures var s1 := Stopped(s); var u := s1.queue[Pick(s1).value];
      var s2 := Undo(s, revert).state; var r := Redo(s2);
      && r.state.queue == s2.queue + [u] && r.state.heap == s2.heap && r.state.redoOffset == 2
      && r.ran == Trace(s1.heap, u)
  {
    var s1 := Stopped(s);
    var t := TargetsOf(s1.heap, s1.queue);
    LastUndoableSpec(s1.queue, t, |s1.queue|);
    var u := s1.queue[Pick(s1).value];
    UndoEffect(s, revert);
    var rv := RevertOf(s1.heap, u, revert);
    RevertWf(s1.heap, u, revert);
    TraceStable(s1.heap, rv.0, u);
    TraceRetarget(rv.0, rv.1, u, u);
  }

  /** With the tests' `revertAction()`, `undo` of an entry none of whose
      caller-defined actions has a target runs a new inverse of each of them,
      in reverse order, named with a prime. */
  lemma UndoMirror(s: QueueState)
    requires Wf(s) && Pick(Stopped(s)).Some?
    requires var s1 := Stopped(s); Plain(s1.heap, Trace(s1.heap, s1.queue[Pick(s1).value]))
    ensures Sane(MirrorRevert)
    ensures var s1 := Stopped(s); var u := s1.queue[Pick(s1).value];
      var r := Undo(s, MirrorRevert);
      Labels(r.state.heap, r.ran) == Reverse(Primed(Labels(s1.heap, Trace(s1.heap, u))))
  {
    MirrorRevertSane();
    var s1 := Stopped(s);
    var t := TargetsOf(s1.heap, s1.queue);
    LastUndoableSpec(s1.queue, t, |s1.queue|);
    var u := s1.queue[Pick(s1).value];
    UndoEffect(s, MirrorRevert);
    MirrorReverts(s1.heap, u);
    var rv := RevertOf(s1.heap, u, MirrorRevert);
    LabelsRetarget(rv.0, rv.1, u, Trace(rv.0, rv.1));
  }

  /** `undo` only adds objects and sets targets: every object keeps its id. */
  lemma UndoKeepsIds(s: QueueState, revert: Revert)
    requires Wf(s) && Sane(revert)
    ensures var h := Undo(s, revert).state.heap;
      |s.heap| <= |h| && forall i :: 0 <= i < |s.heap| ==> Label(h[i]) == Label(s.heap[i])
  {
    var s1 := Stopped(s);
    assert s.heap <= s1.heap;
    match Pick(s1)
    case None =>
    case Some(i) =>
      var u := s1.queue[i];
      if s1.heap[u].target.None? {
        var rv := RevertOf(s1.heap, u, revert);
        RevertWf(s1.heap, u, revert);
        var h := Retarget(rv.0, rv.1, u);
        assert forall k :: 0 <= k < |rv.0| ==> Label(h[k]) == Label(rv.0[k]);
      }
  }
}
