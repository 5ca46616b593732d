/** The cases of `source/test/action-queue.spec.ts`, with the tests'
    `exec()` (announce the id) and `revertAction()` (the own target, or a new
    action with the id primed). Each case reads the ids of the queue and the
    ids announced, call after call. */
module ActionQueueTables {
  import opened Seqs
  import opened UndoScan
  import opened ActionLists
  import opened ActionListFacts
  import opened ActionHistory
  import opened ActionHistoryFacts

  /** The ids the caller-defined actions a call ran announce. */
  function Shown(r: Step): seq<string>
    requires Refs(r.state.heap, r.ran)
  {
    Labels(r.state.heap, r.ran)
  }

  /** The ids of the queued objects. */
  function Ids(s: QueueState): seq<string>
    requires Refs(s.heap, s.queue)
  {
    Labels(s.heap, s.queue)
  }

  /** `exec(new TestAction({ id }))` for each id in turn. */
  function Setup(s: QueueState, ids: seq<string>): (r: Step)
    requires Wf(s)
    ensures Wf(r.state) && Refs(r.state.heap, r.ran) && |s.heap| <= |r.state.heap|
    decreases |ids|
  {
    if ids == [] then Step(s, [])
    else
      var e := Exec(NewCustom(s, ids[0], None), |s.heap|);
      var rest := Setup(e.state, ids[1..]);
      Step(rest.state, e.ran + rest.ran)
  }

  /** A queue that is not recording. */
  function State(heap: seq<Action>, queue: seq<Ref>, offset: nat): QueueState {
    QueueState(heap, queue, false, [], offset)
  }

  /** The index `undo` picks, from the declarative description. */
  lemma PickIs(s: QueueState, i: nat)
    requires Wf(s) && i < |s.queue|
    requires var t := TargetsOf(s.heap, s.queue);
      Undoable(s.queue, t, i) && forall j :: i < j < |s.queue| ==> !Undoable(s.queue, t, j)
    ensures Pick(s) == Some(i)
  {
    var t := TargetsOf(s.heap, s.queue);
    LastUndoableSpec(s.queue, t, |s.queue|);
    var o := Pick(s);
    assert o.Some?;
  }

  /** `undo` of a caller-defined action without target pushes a new primed
      action targeting it, and runs that. */
  lemma UndoFresh(s: QueueState, i: nat, id: string)
    requires Wf(s) && !s.recording && Pick(s) == Some(i) && i < |s.queue|
    requires s.heap[s.queue[i]] == Custom(id, None)
    ensures Sane(MirrorRevert)
    ensures Undo(s, MirrorRevert) ==
      Step(s.(heap := s.heap + [Custom(id + "'", Some(s.queue[i]))], queue := s.queue + [|s.heap|],
              redoOffset := 0), [|s.heap|])
  {
    MirrorRevertSane();
    var u := s.queue[i];
    var h1 := s.heap + [Custom(id + "'", None)];
    assert RevertOf(s.heap, u, MirrorRevert) == (h1, |s.heap|);
    var h := Retarget(h1, |s.heap|, u);
    assert h == s.heap + [Custom(id + "'", Some(u))];
    CustomLabels(h, |s.heap|);
  }

  /** `redo` at an entry whose target is a caller-defined action pushes and
      runs the target. */
  lemma RedoCustom(s: QueueState, t: Ref)
    requires Wf(s) && !s.recording && 0 <= RedoIndex(s) && t < |s.heap| && s.heap[t].Custom?
    requires s.heap[s.queue[RedoIndex(s)]].target == Some(t)
    ensures Redo(s) == Step(s.(queue := s.queue + [t], redoOffset := s.redoOffset + 2), [t])
  {
    CustomLabels(s.heap, t);
  }

  /** A one-letter id with a prime appended. */
  lemma Primed1(c: char)
    ensures [c] + "'" == [c, '\'']
  {
  }

  // The states of the cases with caller-defined actions. Handles 0 and 1 are
  // `a` and `b`; a primed action is the one `revertAction()` created for the
  // action its target names.
  const A := Custom("a", None)
  const B := Custom("b", None)
  const HeapA := [A]
  const HeapAB := [A, B]
  const HeapB1 := HeapAB + [Custom("b'", Some(1))]
  const HeapA1 := HeapB1 + [Custom("a'", Some(0))]
  const HeapA2 := HeapA1 + [Custom("a'", Some(0))]
  const HeapB2 := HeapB1 + [Custom("b'", Some(1))]

  /** One id of `Setup`, from any state that is not recording: the new
      object is queued and run. */
  lemma SetupOne(s: QueueState, x: string)
    requires Wf(s) && !s.recording
    ensures var n := |s.heap|;
      Setup(s, [x]) == Step(s.(heap := s.heap + [Custom(x, None)], queue := s.queue + [n], redoOffset := 0), [n])
  {
    var n := |s.heap|;
    CustomLabels(s.heap + [Custom(x, None)], n);
    assert [x][1..] == [];
  }

  lemma SetupStates()
    ensures Setup(Initial, []) == Step(Initial, [])
    ensures Setup(Initial, ["a"]) == Step(State(HeapA, [0], 0), [0])
    ensures Setup(Initial, ["a", "b"]) == Step(State(HeapAB, [0, 1], 0), [0, 1])
  {
    SetupOne(Initial, "a");
    assert [] + [A] == HeapA && [] + [0] == [0];
    SetupOne(State(HeapA, [0], 0), "b");
    assert HeapA + [B] == HeapAB;
    assert ["a", "b"][1..] == ["b"];
    assert Setup(Initial, ["a", "b"]) == Step(State(HeapAB, [0, 1], 0), [0] + [1]);
  }

  lemma StepsFromA()
    ensures Sane(MirrorRevert)
    ensures Undo(State(HeapA, [0], 0), MirrorRevert) == Step(State(HeapA + [Custom("a'", Some(0))], [0, 1], 0), [1])
    ensures Redo(State(HeapA, [0], 0)) == Step(State(HeapA, [0], 0), [])
  {
    var s := State(HeapA, [0], 0);
    PickIs(s, 0);
    UndoFresh(s, 0, "a");
    Primed1('a');
  }

  lemma FirstUndoAB()
    ensures Sane(MirrorRevert)
    ensures Undo(State(HeapAB, [0, 1], 0), MirrorRevert) == Step(State(HeapB1, [0, 1, 2], 0), [2])
  {
    var s := State(HeapAB, [0, 1], 0);
    assert TargetsOf(s.heap, s.queue) == [None, None];
    PickIs(s, 1);
    UndoFresh(s, 1, "b");
    Primed1('b');
  }

  lemma SecondUndoAB()
    ensures Sane(MirrorRevert)
    ensures Undo(State(HeapB1, [0, 1, 2], 0), MirrorRevert) == Step(State(HeapA1, [0, 1, 2, 3], 0), [3])
    ensures Redo(State(HeapB1, [0, 1, 2], 0)) == Step(State(HeapB1, [0, 1, 2, 1], 2), [1])
  {
    var s := State(HeapB1, [0, 1, 2], 0);
    var t := TargetsOf(s.heap, s.queue);
    assert t == [None, None, Some(1)];
    assert !Undoable(s.queue, t, 2) && !Undoable(s.queue, t, 1);
    PickIs(s, 0);
    UndoFresh(s, 0, "a");
    Primed1('a');
    RedoCustom(s, 1);
  }

  lemma StepsAfterRedo()
    ensures Sane(MirrorRevert)
    ensures Redo(State(HeapB1, [0, 1, 2, 1], 2)) == Step(State(HeapB1, [0, 1, 2, 1], 2), [])
    ensures Undo(State(HeapB1, [0, 1, 2, 1], 2), MirrorRevert) == Step(State(HeapB2, [0, 1, 2, 1, 3], 0), [3])
  {
    var s := State(HeapB1, [0, 1, 2, 1], 2);
    assert TargetsOf(s.heap, s.queue) == [None, None, Some(1), None];
    PickIs(s, 3);
    UndoFresh(s, 3, "b");
    Primed1('b');
  }

  lemma StepsAfterTwoUndos()
    ensures Redo(State(HeapA1, [0, 1, 2, 3], 0)) == Step(State(HeapA1, [0, 1, 2, 3, 0], 2), [0])
    ensures Redo(State(HeapA1, [0, 1, 2, 3, 0], 2)) == Step(State(HeapA1, [0, 1, 2, 3, 0, 1], 4), [1])
  {
    RedoCustom(State(HeapA1, [0, 1, 2, 3], 0), 0);
    RedoCustom(State(HeapA1, [0, 1, 2, 3, 0], 2), 1);
  }

  lemma UndoAfterTwoUndosAndRedo()
    ensures Sane(MirrorRevert)
    ensures Undo(State(HeapA1, [0, 1, 2, 3, 0], 2), MirrorRevert) == Step(State(HeapA2, [0, 1, 2, 3, 0, 4], 0), [4])
  {
    var s := State(HeapA1, [0, 1, 2, 3, 0], 2);
    assert TargetsOf(s.heap, s.queue) == [None, None, Some(1), Some(0), None];
    PickIs(s, 4);
    UndoFresh(s, 4, "a");
    Primed1('a');
  }

  lemma ThirdUndoStuck()
    ensures Sane(MirrorRevert)
    ensures Undo(State(HeapA2, [0, 1, 2, 3, 0, 4], 0), MirrorRevert) == Step(State(HeapA2, [0, 1, 2, 3, 0, 4], 0), [])
  {
    MirrorRevertSane();
    var s := State(HeapA2, [0, 1, 2, 3, 0, 4], 0);
    var t := TargetsOf(s.heap, s.queue);
    assert t == [None, None, Some(1), Some(0), None, Some(0)];
    LastUndoableSpec(s.queue, t, |s.queue|);
    assert !Undoable(s.queue, t, 5) && !Undoable(s.queue, t, 4) && !Undoable(s.queue, t, 3);
    assert !Undoable(s.queue, t, 2) && !Undoable(s.queue, t, 1) && !Undoable(s.queue, t, 0);
  }

  lemma RedoAfterThirdUndo()
    ensures Redo(State(HeapA2, [0, 1, 2, 3, 0, 4], 0)) == Step(State(HeapA2, [0, 1, 2, 3, 0, 4, 0], 2), [0])
    ensures Redo(State(HeapA2, [0, 1, 2, 3, 0, 4, 0], 2)) == Step(State(HeapA2, [0, 1, 2, 3, 0, 4, 0], 2), [])
  {
    RedoCustom(State(HeapA2, [0, 1, 2, 3, 0, 4], 0), 0);
  }

  lemma ShownValues()
    ensures Shown(Step(State(HeapA, [0], 0), [0])) == ["a"]
    ensures Shown(Step(State(HeapAB, [0, 1], 0), [0, 1])) == ["a", "b"]
    ensures Shown(Step(State(HeapA + [Custom("a'", Some(0))], [0, 1], 0), [1])) == ["a'"]
    ensures Shown(Step(State(HeapB1, [0, 1, 2], 0), [2])) == ["b'"]
    ensures Shown(Step(State(HeapA1, [0, 1, 2, 3], 0), [3])) == ["a'"]
    ensures Shown(Step(State(HeapB1, [0, 1, 2, 1], 2), [1])) == ["b"]
    ensures Shown(Step(State(HeapB2, [0, 1, 2, 1, 3], 0), [3])) == ["b'"]
    ensures Shown(Step(State(HeapA1, [0, 1, 2, 3, 0], 2), [0])) == ["a"]
    ensures Shown(Step(State(HeapA1, [0, 1, 2, 3, 0, 1], 4), [1])) == ["b"]
    ensures Shown(Step(State(HeapA2, [0, 1, 2, 3, 0, 4], 0), [4])) == ["a'"]
    ensures Shown(Step(State(HeapA2, [0, 1, 2, 3, 0, 4, 0], 2), [0])) == ["a"]
  {
    CustomLabels(HeapAB, 0);
    CustomLabels(HeapAB, 1);
  }

  lemma IdsValues()
    ensures Ids(State(HeapA + [Custom("a'", Some(0))], [0, 1], 0)) == ["a", "a'"]
    ensures Ids(State(HeapA1, [0, 1, 2, 3], 0)) == ["a", "b", "b'", "a'"]
    ensures Ids(State(HeapB1, [0, 1, 2, 1], 2)) == ["a", "b", "b'", "b"]
    ensures Ids(State(HeapB2, [0, 1, 2, 1, 3], 0)) == ["a", "b", "b'", "b", "b'"]
    ensures Ids(State(HeapA1, [0, 1, 2, 3, 0, 1], 4)) == ["a", "b", "b'", "a'", "a", "b"]
    ensures Ids(State(HeapA2, [0, 1, 2, 3, 0, 4, 0], 2)) == ["a", "b", "b'", "a'", "a", "a'", "a"]
    ensures Ids(State(HeapA2, [0, 1, 2, 3, 0, 4], 0)) == ["a", "b", "b'", "a'", "a", "a'"]
  {
  }

  // The cases of the `undo / redo` block: `exec` of a new action per id,
  // then the calls. Each case states the ids of the queue after the calls
  // and the ids announced by each call in turn, whose concatenation the
  // test compares with the same list.

  lemma TableEmptyAndSingle()
    ensures Sane(MirrorRevert)
    ensures var s := Setup(Initial, []); var u := Undo(s.state, MirrorRevert);
      Ids(u.state) == [] && Shown(s) == [] && Shown(u) == []
    ensures var s := Setup(Initial, []); var r := Redo(s.state);
      Ids(r.state) == [] && Shown(s) == [] && Shown(r) == []
    ensures var s := Setup(Initial, ["a"]); var u := Undo(s.state, MirrorRevert);
      Ids(u.state) == ["a", "a'"] && Shown(s) == ["a"] && Shown(u) == ["a'"]
    ensures var s := Setup(Initial, ["a"]); var r := Redo(s.state);
      Ids(r.state) == ["a"] && Shown(s) == ["a"] && Shown(r) == []
  {
    MirrorRevertSane();
    SetupStates();
    StepsFromA();
    ShownValues();
    IdsValues();
    assert Undo(Initial, MirrorRevert) == Step(Initial, []) by {
      LastUndoableSpec([], [], 0);
    }
  }

  lemma TableUndoUndo()
    ensures Sane(MirrorRevert)
    ensures var s := Setup(Initial, ["a", "b"]);
      var u1 := Undo(s.state, MirrorRevert); var u2 := Undo(u1.state, MirrorRevert);
      && Ids(u2.state) == ["a", "b", "b'", "a'"]
      && Shown(s) == ["a", "b"] && Shown(u1) == ["b'"] && Shown(u2) == ["a'"]
  {
    SetupStates();
    FirstUndoAB();
    SecondUndoAB();
    ShownValues();
    IdsValues();
  }

  lemma TableUndoRedo()
    ensures Sane(MirrorRevert)
    ensures var s := Setup(Initial, ["a", "b"]);
      var u1 := Undo(s.state, MirrorRevert); var r1 := Redo(u1.state);
      var r2 := Redo(r1.state); var u2 := Undo(r1.state, MirrorRevert);
      && Shown(s) == ["a", "b"] && Shown(u1) == ["b'"] && Shown(r1) == ["b"]
      && Ids(r1.state) == ["a", "b", "b'", "b"]
      && Ids(r2.state) == ["a", "b", "b'", "b"] && Shown(r2) == []
      && Ids(u2.state) == ["a", "b", "b'", "b", "b'"] && Shown(u2) == ["b'"]
  {
    SetupStates();
    FirstUndoAB();
    SecondUndoAB();
    StepsAfterRedo();
    ShownValues();
    IdsValues();
  }

  lemma TableUndoUndoRedoRedo()
    ensures Sane(MirrorRevert)
    ensures var s := Setup(Initial, ["a", "b"]);
      var u1 := Undo(s.state, MirrorRevert); var u2 := Undo(u1.state, MirrorRevert);
      var r1 := Redo(u2.state); var r2 := Redo(r1.state);
      && Ids(r2.state) == ["a", "b", "b'", "a'", "a", "b"]
      && Shown(s) == ["a", "b"] && Shown(u1) == ["b'"] && Shown(u2) == ["a'"]
      && Shown(r1) == ["a"] && Shown(r2) == ["b"]
  {
    SetupStates();
    FirstUndoAB();
    SecondUndoAB();
    StepsAfterTwoUndos();
    ShownValues();
    IdsValues();
  }

  lemma TableUndoUndoRedoUndo()
    ensures Sane(MirrorRevert)
    ensures var s := Setup(Initial, ["a", "b"]);
      var u1 := Undo(s.state, MirrorRevert); var u2 := Undo(u1.state, MirrorRevert);
      var r1 := Redo(u2.state); var u3 := Undo(r1.state, MirrorRevert);
      var r2 := Redo(u3.state); var r3 := Redo(r2.state); var u4 := Undo(u3.state, MirrorRevert);
      && Shown(s) == ["a", "b"] && Shown(u1) == ["b'"] && Shown(u2) == ["a'"]
      && Shown(r1) == ["a"] && Shown(u3) == ["a'"]
      && Ids(r2.state) == ["a", "b", "b'", "a'", "a", "a'", "a"] && Shown(r2) == ["a"]
      && Ids(r3.state) == ["a", "b", "b'", "a'", "a", "a'", "a"] && Shown(r3) == []
      && Ids(u4.state) == ["a", "b", "b'", "a'", "a", "a'"] && Shown(u4) == []
  {
    SetupStates();
    FirstUndoAB();
    SecondUndoAB();
    StepsAfterTwoUndos();
    UndoAfterTwoUndosAndRedo();
    ThirdUndoStuck();
    RedoAfterThirdUndo();
    ShownValues();
    IdsValues();
  }
}
