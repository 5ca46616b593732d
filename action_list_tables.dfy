/** The cases of the `ActionList` block of `source/test/action-queue.spec.ts`:
    each list of ids becomes an `ActionList` of new caller-defined actions,
    executed in turn, followed by the calls. Each case states the ids
    announced by each call, whose concatenation the test compares. The
    inverses are not computed object by object: `MirrorReverts` and
    `UndoThenRedo` give what `undo` and `redo` run. */
module ActionListTables {
  import opened Seqs
  import opened UndoScan
  import opened ActionLists
  import opened ActionListFacts
  import opened ActionHistory
  import opened ActionHistoryFacts
  import opened ActionQueueTables

  /** `new TestAction({ id })` for each id in turn. */
  function AllocAll(s: QueueState, ids: seq<string>): (s': QueueState)
    requires Wf(s)
    ensures Wf(s') && |s'.heap| == |s.heap| + |ids|
    decreases |ids|
  {
    if ids == [] then s else AllocAll(NewCustom(s, ids[0], None), ids[1..])
  }

  /** `exec(new ActionList({ queue: ids.map(id => new TestAction({ id })) }))`. */
  function Group(s: QueueState, ids: seq<string>): (r: Step)
    requires Wf(s)
    ensures Wf(r.state) && Refs(r.state.heap, r.ran) && |s.heap| <= |r.state.heap|
  {
    var s1 := AllocAll(s, ids);
    var n := |s.heap|;
    var s2 := NewList(s1, seq(|ids|, j requires 0 <= j < |ids| => n + j));
    Exec(s2, |s1.heap|)
  }

  /** One `Group` per list of ids, in turn. */
  function Setup(s: QueueState, groups: seq<seq<string>>): (r: Step)
    requires Wf(s)
    ensures Wf(r.state) && Refs(r.state.heap, r.ran) && |s.heap| <= |r.state.heap|
    decreases |groups|
  {
    if groups == [] then Step(s, [])
    else
      var g := Group(s, groups[0]);
      var rest := Setup(g.state, groups[1..]);
      Step(rest.state, g.ran + rest.ran)
  }

  // Handles 0, 1 and 3, 4 are `a`, `b` and `c`, `d`; 2 and 5 their lists.
  const H1 := [A, B, ActionList([0, 1], None)]
  const H2 := H1 + [Custom("c", None), Custom("d", None), ActionList([3, 4], None)]

  lemma TraceOfPair(heap: seq<Action>, l: Ref, x: Ref, y: Ref)
    requires l < |heap| && heap[l] == ActionList([x, y], None) && x < l && y < l
    requires heap[x].Custom? && heap[y].Custom?
    ensures Trace(heap, l) == [x, y]
  {
    CustomLabels(heap, x);
    CustomLabels(heap, y);
    assert [x, y][1..] == [y];
    assert TraceAll(heap, l, [y]) == [y] + TraceAll(heap, l, []);
  }

  /** A group of two ids, from any state that is not recording: two new
      objects, then their list, queued and run. */
  lemma GroupPair(s: QueueState, x: string, y: string, heap: seq<Action>)
    requires Wf(s) && !s.recording
    requires heap == s.heap + [Custom(x, None), Custom(y, None), ActionList([|s.heap|, |s.heap| + 1], None)]
    ensures Group(s, [x, y]) == Step(s.(heap := heap, queue := s.queue + [|s.heap| + 2], redoOffset := 0),
                                     Trace(heap, |s.heap| + 2))
  {
    var n := |s.heap|;
    var s0 := NewCustom(s, x, None);
    var s1 := AllocAll(s, [x, y]);
    assert s1 == s.(heap := s.heap + [Custom(x, None), Custom(y, None)]) by {
      assert [x, y][1..] == [y] && [y][1..] == [];
      assert AllocAll(s, [x, y]) == AllocAll(s0, [y]);
      assert AllocAll(s0, [y]) == AllocAll(NewCustom(s0, y, None), []);
    }
    var subs := seq(2, j requires 0 <= j < 2 => n + j);
    assert subs == [n, n + 1];
    var s2 := NewList(s1, subs);
    assert s2 == s.(heap := heap);
    assert Group(s, [x, y]) == Exec(s2, n + 2);
  }

  lemma GroupAB()
    ensures Group(Initial, ["a", "b"]) == Step(State(H1, [2], 0), [0, 1])
  {
    assert H1 == [] + [A, B, ActionList([0, 1], None)];
    GroupPair(Initial, "a", "b", H1);
    assert [] + [2] == [2];
    TraceOfPair(H1, 2, 0, 1);
  }

  lemma GroupCD()
    ensures Group(State(H1, [2], 0), ["c", "d"]) == Step(State(H2, [2, 5], 0), [3, 4])
  {
    GroupPair(State(H1, [2], 0), "c", "d", H2);
    assert [2] + [5] == [2, 5];
    TraceOfPair(H2, 5, 3, 4);
  }

  lemma SetupStates()
    ensures Setup(Initial, []) == Step(Initial, [])
    ensures Setup(Initial, [["a", "b"]]) == Step(State(H1, [2], 0), [0, 1])
    ensures Setup(Initial, [["a", "b"], ["c", "d"]]) == Step(State(H2, [2, 5], 0), [0, 1, 3, 4])
  {
    GroupAB();
    GroupCD();
    assert [["a", "b"], ["c", "d"]][1..] == [["c", "d"]];
    assert [0, 1] + [3, 4] == [0, 1, 3, 4];
  }

  lemma ShownValues()
    ensures Shown(Step(State(H1, [2], 0), [0, 1])) == ["a", "b"]
    ensures Shown(Step(State(H2, [2, 5], 0), [0, 1, 3, 4])) == ["a", "b", "c", "d"]
  {
  }

  /** Reverting a list returns a new object. */
  lemma ListRevertIsNew(heap: seq<Action>, a: Ref, revert: Revert)
    requires a < |heap| && heap[a].ActionList?
    ensures RevertOf(heap, a, revert).1 >= |heap|
  {
  }

  /** `undo` of a list without target pushes a new object targeting it and
      leaves the objects that were there as they were. */
  lemma UndoOfList(s: QueueState, revert: Revert, i: nat)
    requires Wf(s) && Sane(revert) && !s.recording && Pick(s) == Some(i) && i < |s.queue|
    requires s.heap[s.queue[i]].ActionList? && s.heap[s.queue[i]].target.None?
    ensures var u := Undo(s, revert).state;
      && |u.queue| == |s.queue| + 1 && u.queue[..|s.queue|] == s.queue
      && |s.heap| <= u.queue[|s.queue|] < |u.heap|
      && u.heap[u.queue[|s.queue|]].target == Some(s.queue[i])
      && u.heap[..|s.heap|] == s.heap
      && !u.recording && u.redoOffset == 0
  {
    var q := s.queue[i];
    var rv := RevertOf(s.heap, q, revert);
    ListRevertIsNew(s.heap, q, revert);
    RevertWf(s.heap, q, revert);
    var h := Retarget(rv.0, rv.1, q);
    assert h[..|s.heap|] == rv.0[..|s.heap|];
    var u := Undo(s, revert).state;
    assert u.queue == s.queue + [rv.1];
    assert u.queue[..|s.queue|] == s.queue;
  }

  /** ... and every action that was there runs what it ran. */
  lemma TraceAfterUndoOfList(s: QueueState, revert: Revert, i: nat, a: Ref)
    requires Wf(s) && Sane(revert) && !s.recording && Pick(s) == Some(i) && i < |s.queue|
    requires s.heap[s.queue[i]].ActionList? && s.heap[s.queue[i]].target.None? && a < |s.heap|
    ensures Trace(Undo(s, revert).state.heap, a) == Trace(s.heap, a)
  {
    var q := s.queue[i];
    var rv := RevertOf(s.heap, q, revert);
    RevertWf(s.heap, q, revert);
    TraceStable(s.heap, rv.0, a);
    TraceRetarget(rv.0, rv.1, q, a);
  }

  /** `undo` of a list of two caller-defined actions without targets runs
      their primed inverses, the last first. */
  lemma UndoPair(s: QueueState, i: nat, x: Ref, y: Ref, ix: string, iy: string)
    requires Wf(s) && !s.recording && Pick(s) == Some(i) && i < |s.queue|
    requires Trace(s.heap, s.queue[i]) == [x, y] && x < |s.heap| && y < |s.heap|
    requires s.heap[x] == Custom(ix, None) && s.heap[y] == Custom(iy, None)
    ensures Sane(MirrorRevert)
    ensures Shown(Undo(s, MirrorRevert)) == [iy + "'", ix + "'"]
  {
    UndoMirror(s);
    assert Labels(s.heap, [x, y]) == [ix, iy];
    assert Reverse(Primed([ix, iy])) == [iy + "'", ix + "'"];
  }

  /** `redo` right after such an `undo` runs the list again. */
  lemma RedoPair(s: QueueState, i: nat, x: Ref, y: Ref)
    requires Wf(s) && !s.recording && Pick(s) == Some(i) && i < |s.queue|
    requires Trace(s.heap, s.queue[i]) == [x, y] && x < |s.heap| && y < |s.heap|
    ensures Sane(MirrorRevert)
    ensures Shown(Redo(Undo(s, MirrorRevert).state)) == [Label(s.heap[x]), Label(s.heap[y])]
  {
    MirrorRevertSane();
    UndoThenRedo(s, MirrorRevert);
    UndoKeepsIds(s, MirrorRevert);
  }

  lemma TableEmpty()
    ensures Sane(MirrorRevert)
    ensures var s := Setup(Initial, []); var u := Undo(s.state, MirrorRevert);
      Shown(s) == [] && Shown(u) == []
    ensures var s := Setup(Initial, []); var r := Redo(s.state);
      Shown(s) == [] && Shown(r) == []
  {
    MirrorRevertSane();
    SetupStates();
    assert Undo(Initial, MirrorRevert) == Step(Initial, []) by {
      LastUndoableSpec([], [], 0);
    }
  }

  lemma OneListSteps()
    ensures Sane(MirrorRevert)
    ensures var u := Undo(State(H1, [2], 0), MirrorRevert);
      Shown(u) == ["b'", "a'"] && Shown(Redo(u.state)) == ["a", "b"]
  {
    var s := State(H1, [2], 0);
    assert TargetsOf(s.heap, s.queue) == [None];
    PickIs(s, 0);
    TraceOfPair(H1, 2, 0, 1);
    UndoPair(s, 0, 0, 1, "a", "b");
    RedoPair(s, 0, 0, 1);
    Primed1('a');
    Primed1('b');
  }

  lemma TableOneList()
    ensures Sane(MirrorRevert)
    ensures var s := Setup(Initial, [["a", "b"]]);
      var u := Undo(s.state, MirrorRevert); var r := Redo(u.state);
      && Shown(s) == ["a", "b"]
      && Shown(u) == ["b'", "a'"]
      && Shown(r) == ["a", "b"]
  {
    SetupStates();
    ShownValues();
    OneListSteps();
  }

  /** The first `undo` of the two-list case undoes the last list. */
  lemma FirstUndoTwoLists()
    ensures Sane(MirrorRevert)
    ensures Shown(Undo(State(H2, [2, 5], 0), MirrorRevert)) == ["d'", "c'"]
  {
    var s := State(H2, [2, 5], 0);
    assert TargetsOf(s.heap, s.queue) == [None, None];
    PickIs(s, 1);
    TraceOfPair(H2, 5, 3, 4);
    UndoPair(s, 1, 3, 4, "c", "d");
    Primed1('c');
    Primed1('d');
  }

  /** A queue of the two lists and an inverse of the second: the first
      list is the one to undo. */
  lemma PickAfterOneUndo(u: QueueState, x: Ref)
    requires Wf(u) && u.queue == [2, 5, x] && 6 <= |u.heap| && x < |u.heap|
    requires u.heap[2].target.None? && u.heap[5].target.None? && u.heap[x].target == Some(5)
    ensures Pick(u) == Some(0)
  {
    var t := TargetsOf(u.heap, u.queue);
    assert t == [None, None, Some(5)];
    assert !Undoable(u.queue, t, 2) && !Undoable(u.queue, t, 1);
    PickIs(u, 0);
  }

  /** What the first `undo` of the two-list case leaves. */
  lemma ShapeAfterFirstUndo()
    ensures Sane(MirrorRevert)
    ensures var u := Undo(State(H2, [2, 5], 0), MirrorRevert).state;
      && Wf(u) && !u.recording && |u.queue| == 3 && u.queue[..2] == [2, 5]
      && 6 <= u.queue[2] < |u.heap| && u.heap[u.queue[2]].target == Some(5)
      && u.heap[..6] == H2 && Trace(u.heap, 2) == Trace(H2, 2)
  {
    MirrorRevertSane();
    var s := State(H2, [2, 5], 0);
    assert TargetsOf(s.heap, s.queue) == [None, None];
    PickIs(s, 1);
    UndoOfList(s, MirrorRevert, 1);
    TraceAfterUndoOfList(s, MirrorRevert, 1, 2);
  }

  /** A state whose first entry is the list of `a` and `b`, the one to
      undo. */
  ghost predicate FirstListNext(u: QueueState) {
    && Wf(u) && !u.recording && Pick(u) == Some(0) && 0 < |u.queue| && u.queue[0] == 2
    && Trace(u.heap, 2) == [0, 1] && 2 < |u.heap| && u.heap[0] == A && u.heap[1] == B
  }

  lemma NextFromShape(u: QueueState)
    requires Wf(u) && !u.recording && |u.queue| == 3 && u.queue[..2] == [2, 5]
    requires 6 <= u.queue[2] < |u.heap| && u.heap[u.queue[2]].target == Some(5)
    requires u.heap[..6] == H2 && Trace(u.heap, 2) == Trace(H2, 2)
    ensures FirstListNext(u)
  {
    TraceOfPair(H2, 2, 0, 1);
    var x := u.queue[2];
    assert u.queue == [2, 5, x] by {
      assert u.queue == u.queue[..2] + [x];
    }
    assert u.heap[2] == H2[2] && u.heap[5] == H2[5] && u.heap[0] == A && u.heap[1] == B by {
      assert u.heap[..6] == H2;
    }
    PickAfterOneUndo(u, x);
  }

  /** After the first `undo`, the first list is the one to undo, and it runs
      as before. */
  lemma AfterFirstUndo()
    ensures Sane(MirrorRevert)
    ensures FirstListNext(Undo(State(H2, [2, 5], 0), MirrorRevert).state)
  {
    ShapeAfterFirstUndo();
    NextFromShape(Undo(State(H2, [2, 5], 0), MirrorRevert).state);
  }

  lemma UndoRedoFirstList(u: QueueState)
    requires FirstListNext(u)
    ensures Sane(MirrorRevert)
    ensures var u2 := Undo(u, MirrorRevert);
      Shown(u2) == ["b'", "a'"] && Shown(Redo(u2.state)) == ["a", "b"]
  {
    UndoPair(u, 0, 0, 1, "a", "b");
    RedoPair(u, 0, 0, 1);
    Primed1('a');
    Primed1('b');
  }

  lemma SecondUndoTwoLists()
    ensures Sane(MirrorRevert)
    ensures var u := Undo(State(H2, [2, 5], 0), MirrorRevert).state;
      var u2 := Undo(u, MirrorRevert);
      Shown(u2) == ["b'", "a'"] && Shown(Redo(u2.state)) == ["a", "b"]
  {
    AfterFirstUndo();
    UndoRedoFirstList(Undo(State(H2, [2, 5], 0), MirrorRevert).state);
  }

  lemma TableTwoLists()
    ensures Sane(MirrorRevert)
    ensures var s := Setup(Initial, [["a", "b"], ["c", "d"]]);
      var u1 := Undo(s.state, MirrorRevert); var u2 := Undo(u1.state, MirrorRevert);
      var r := Redo(u2.state);
      && Shown(s) == ["a", "b", "c", "d"]
      && Shown(u1) == ["d'", "c'"]
      && Shown(u2) == ["b'", "a'"]
      && Shown(r) == ["a", "b"]
  {
    SetupStates();
    ShownValues();
    FirstUndoTwoLists();
    SecondUndoTwoLists();
  }
}
