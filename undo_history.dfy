/** `UndoQueue` and its `UndoAction` objects, as functions of their state.

    An action object is a handle into `heap`, which holds for each object its
    `detail` (only its `id` is observable here) and its `target`, the action
    it was generated from. `exec()` is user code: it is a parameter returning
    an object that already exists or a new one. */
module UndoHistory {
  import opened Seqs
  import opened UndoScan

  datatype UndoAction = UndoAction(id: string, target: Option<Ref>)

  /** What an `exec()` call returns. */
  datatype Made = Existing(ref: Ref) | Fresh(action: UndoAction)

  /** `exec()` of the object `a` in `heap`. */
  type Exec = (seq<UndoAction>, Ref) -> Made

  /** Every `target` is an allocated object. */
  predicate HeapWf(heap: seq<UndoAction>) {
    forall i :: 0 <= i < |heap| && heap[i].target.Some? ==> heap[i].target.value < |heap|
  }

  /** `m` is an object once pushed onto `heap`. */
  predicate Fits(heap: seq<UndoAction>, m: Made) {
    match m
    case Existing(r) => r < |heap|
    case Fresh(x) => x.target.Some? ==> x.target.value < |heap|
  }

  /** `exec()` returns an object. */
  ghost predicate Sane(exec: Exec) {
    forall heap: seq<UndoAction>, a: Ref :: HeapWf(heap) && a < |heap| ==> Fits(heap, exec(heap, a))
  }

  /** The fields of an `UndoQueue` with the objects it can reach. */
  datatype History = History(heap: seq<UndoAction>, queue: seq<Ref>, redoOffset: nat)

  predicate Wf(h: History) {
    HeapWf(h.heap) && forall i :: 0 <= i < |h.queue| ==> h.queue[i] < |h.heap|
  }

  /** The `target` of each queued object, in queue order. */
  function TargetsOf(heap: seq<UndoAction>, queue: seq<Ref>): (t: seq<Option<Ref>>)
    requires forall i :: 0 <= i < |queue| ==> queue[i] < |heap|
    ensures |t| == |queue| && forall i :: 0 <= i < |queue| ==> t[i] == heap[queue[i]].target
  {
    seq(|queue|, i requires 0 <= i < |queue| => heap[queue[i]].target)
  }

  /** The index of the action `undo` picks, if any. */
  function Pick(h: History): Option<nat>
    requires Wf(h)
  {
    LastUndoable(h.queue, TargetsOf(h.heap, h.queue), |h.queue|)
  }

  /** What `exec()` returned, allocated if new and pushed onto the queue. */
  function Push(h: History, m: Made, offset: nat): History
    requires Fits(h.heap, m)
  {
    match m
    case Existing(r) => History(h.heap, h.queue + [r], offset)
    case Fresh(x) => History(h.heap + [x], h.queue + [|h.heap|], offset)
  }

  /** `new UndoAction(detail, action)` followed by nothing. */
  function Alloc(h: History, id: string, target: Option<Ref>): History {
    h.(heap := h.heap + [UndoAction(id, target)])
  }

  /** `record(action)`. */
  function Record(h: History, a: Ref): History
    requires a < |h.heap|
  {
    h.(queue := h.queue + [a], redoOffset := 0)
  }

  /** `undo()`. */
  function Undo(h: History, exec: Exec): (h': History)
    requires Wf(h) && Sane(exec)
    ensures Wf(h')
  {
    match Pick(h)
    case None => h.(redoOffset := 0)
    case Some(i) => Push(h, exec(h.heap, h.queue[i]), 0)
  }

  /** The queue index `redo` looks at; no entry when negative. */
  function RedoIndex(h: History): int {
    |h.queue| - 1 - h.redoOffset
  }

  /** `redo()`. */
  function Redo(h: History, exec: Exec): (h': History)
    requires Wf(h) && Sane(exec)
    ensures Wf(h')
  {
    var i := RedoIndex(h);
    if 0 <= i && h.heap[h.queue[i]].target.Some? then Push(h, exec(h.heap, h.queue[i]), h.redoOffset + 2)
    else h
  }

  /** `h'` extends `h`: no object changes, the queue only grows at its end,
      by at most one entry. */
  predicate Extends(h: History, h': History) {
    h.heap <= h'.heap && h.queue <= h'.queue && |h'.queue| <= |h.queue| + 1
  }

  /** `record` appends its action and points `redo` at it. */
  lemma RecordEffect(h: History, a: Ref)
    requires Wf(h) && a < |h.heap|
    ensures var h' := Record(h, a);
      Wf(h') && Extends(h, h') && h'.queue == h.queue + [a] && h'.heap == h.heap
      && RedoIndex(h') == |h'.queue| - 1
  {
  }

  /** `undo` finds an action exactly when some entry is undoable, and then
      the last one: it runs `exec()` of that entry and pushes the result.
      Either way `redo` then looks at the last entry. */
  lemma UndoEffect(h: History, exec: Exec)
    requires Wf(h) && Sane(exec)
    ensures var h' := Undo(h, exec); var t := TargetsOf(h.heap, h.queue);
      && Wf(h') && Extends(h, h') && RedoIndex(h') == |h'.queue| - 1
      && ((forall j :: 0 <= j < |h.queue| ==> !Undoable(h.queue, t, j)) <==> h'.queue == h.queue)
      && (h'.queue == h.queue ==> h' == h.(redoOffset := 0))
      && forall i :: 0 <= i < |h.queue| && Undoable(h.queue, t, i)
                     && (forall j :: i < j < |h.queue| ==> !Undoable(h.queue, t, j)) ==>
           h' == Push(h, exec(h.heap, h.queue[i]), 0)
  {
    var t := TargetsOf(h.heap, h.queue);
    LastUndoableSpec(h.queue, t, |h.queue|);
    var o := Pick(h);
    if o.Some? {
      assert Fits(h.heap, exec(h.heap, h.queue[o.value]));
      forall i | 0 <= i < |h.queue| && Undoable(h.queue, t, i)
                 && (forall j :: i < j < |h.queue| ==> !Undoable(h.queue, t, j))
        ensures i == o.value
      {
      }
    }
  }

  /** `redo` acts when the entry it looks at exists and has a target: it runs
      that entry's `exec()`, pushes the result and moves one entry back, so
      successive calls walk back over the queue; otherwise nothing changes. */
  lemma RedoEffect(h: History, exec: Exec)
    requires Wf(h) && Sane(exec)
    ensures var h' := Redo(h, exec); var i := RedoIndex(h);
      && Wf(h') && Extends(h, h')
      && (0 <= i && h.heap[h.queue[i]].target.Some? ==>
            h'.queue == h.queue + [h'.queue[|h.queue|]] && RedoIndex(h') == i - 1
            && h' == Push(h, exec(h.heap, h.queue[i]), h.redoOffset + 2))
      && (!(0 <= i && h.heap[h.queue[i]].target.Some?) ==> h' == h)
  {
    var i := RedoIndex(h);
    if 0 <= i && h.heap[h.queue[i]].target.Some? {
      assert Fits(h.heap, exec(h.heap, h.queue[i]));
    }
  }

  /** The `exec()` of the tests: the object's own target if it has one, else
      a new object with the id primed whose target is the object. A handle
      that is no object is returned unchanged; no call passes one. */
  function Mirror(heap: seq<UndoAction>, a: Ref): Made {
    if a >= |heap| then Existing(a)
    else if heap[a].target.Some? then Existing(heap[a].target.value)
    else Fresh(UndoAction(heap[a].id + "'", Some(a)))
  }

  lemma MirrorSane()
    ensures Sane(Mirror)
  {
  }

  /** With the tests' `exec()`, `undo` of an entry pushes a new inverse
      targeting it, and the following `redo` pushes the undone object itself. */
  lemma UndoThenRedo(h: History)
    requires Wf(h) && Pick(h).Some?
    ensures Sane(Mirror)
    ensures var x := h.queue[Pick(h).value];
      var h1 := Undo(h, Mirror); var h2 := Redo(h1, Mirror);
      h1.queue == h.queue + [|h.heap|] && h1.heap == h.heap + [UndoAction(h.heap[x].id + "'", Some(x))]
      && h2.queue == h1.queue + [x] && h2.heap == h1.heap && h2.redoOffset == 2
  {
    MirrorSane();
    var t := TargetsOf(h.heap, h.queue);
    LastUndoableSpec(h.queue, t, |h.queue|);
  }

  /** A queue that recorded a new object with each id, in order. */
  function Setup(h: History, ids: seq<string>): (h': History)
    requires Wf(h)
    ensures Wf(h')
    decreases |ids|
  {
    if ids == [] then h
    else Setup(Record(Alloc(h, ids[0], None), |h.heap|), ids[1..])
  }

  /** The ids of the queued objects. */
  function Ids(h: History): seq<string>
    requires Wf(h)
  {
    seq(|h.queue|, i requires 0 <= i < |h.queue| => h.heap[h.queue[i]].id)
  }

  // The states the test cases pass through. Handles 0 and 1 are the recorded
  // objects `a` and `b`; a primed object is the one `exec()` created for the
  // object its target names.
  const Empty := History([], [], 0)
  const HeapA := [UndoAction("a", None)]
  const HeapAB := [UndoAction("a", None), UndoAction("b", None)]
  const HeapB1 := HeapAB + [UndoAction("b'", Some(1))]
  const HeapA1 := HeapB1 + [UndoAction("a'", Some(0))]
  const HeapA2 := HeapA1 + [UndoAction("a'", Some(0))]
  const HeapB2 := HeapB1 + [UndoAction("b'", Some(1))]

  lemma SetupStates()
    ensures Setup(Empty, []) == Empty
    ensures Setup(Empty, ["a"]) == History(HeapA, [0], 0)
    ensures Setup(Empty, ["a", "b"]) == History(HeapAB, [0, 1], 0)
  {
    assert Setup(Empty, ["a", "b"]) == Setup(History(HeapA, [0], 0), ["b"]);
  }

  /** The index `undo` picks, from the declarative description. */
  lemma PickIs(h: History, i: nat)
    requires Wf(h) && i < |h.queue|
    requires var t := TargetsOf(h.heap, h.queue);
      Undoable(h.queue, t, i) && forall j :: i < j < |h.queue| ==> !Undoable(h.queue, t, j)
    ensures Pick(h) == Some(i)
  {
    var t := TargetsOf(h.heap, h.queue);
    LastUndoableSpec(h.queue, t, |h.queue|);
    var o := Pick(h);
    assert o.Some?;
  }

  lemma StepsFromA()
    ensures Sane(Mirror)
    ensures Undo(History(HeapA, [0], 0), Mirror) == History(HeapA + [UndoAction("a'", Some(0))], [0, 1], 0)
    ensures Redo(History(HeapA, [0], 0), Mirror) == History(HeapA, [0], 0)
  {
    MirrorSane();
    var h := History(HeapA, [0], 0);
    assert Undoable(h.queue, TargetsOf(h.heap, h.queue), 0);
    assert Mirror(h.heap, 0) == Fresh(UndoAction("a'", Some(0)));
  }

  lemma FirstUndoAB()
    ensures Sane(Mirror)
    ensures Undo(History(HeapAB, [0, 1], 0), Mirror) == History(HeapB1, [0, 1, 2], 0)
  {
    MirrorSane();
    var h := History(HeapAB, [0, 1], 0);
    assert TargetsOf(h.heap, h.queue) == [None, None];
    PickIs(h, 1);
    assert Mirror(h.heap, 1) == Fresh(UndoAction("b'", Some(1)));
  }

  lemma SecondUndoAB()
    ensures Sane(Mirror)
    ensures Undo(History(HeapB1, [0, 1, 2], 0), Mirror) == History(HeapA1, [0, 1, 2, 3], 0)
    ensures Redo(History(HeapB1, [0, 1, 2], 0), Mirror) == History(HeapB1, [0, 1, 2, 1], 2)
  {
    MirrorSane();
    var h := History(HeapB1, [0, 1, 2], 0);
    var t := TargetsOf(h.heap, h.queue);
    assert t == [None, None, Some(1)];
    assert !Undoable(h.queue, t, 2) && !Undoable(h.queue, t, 1);
    PickIs(h, 0);
    assert Mirror(h.heap, 0) == Fresh(UndoAction("a'", Some(0)));
  }

  lemma StepsAfterRedo()
    ensures Sane(Mirror)
    ensures Redo(History(HeapB1, [0, 1, 2, 1], 2), Mirror) == History(HeapB1, [0, 1, 2, 1], 2)
    ensures Undo(History(HeapB1, [0, 1, 2, 1], 2), Mirror) == History(HeapB2, [0, 1, 2, 1, 3], 0)
  {
    MirrorSane();
    var h := History(HeapB1, [0, 1, 2, 1], 2);
    assert TargetsOf(h.heap, h.queue) == [None, None, Some(1), None];
    PickIs(h, 3);
    assert Mirror(h.heap, 1) == Fresh(UndoAction("b'", Some(1)));
  }

  lemma StepsAfterTwoUndos()
    ensures Sane(Mirror)
    ensures Redo(History(HeapA1, [0, 1, 2, 3], 0), Mirror) == History(HeapA1, [0, 1, 2, 3, 0], 2)
    ensures Redo(History(HeapA1, [0, 1, 2, 3, 0], 2), Mirror) == History(HeapA1, [0, 1, 2, 3, 0, 1], 4)
    ensures Undo(History(HeapA1, [0, 1, 2, 3, 0], 2), Mirror) == History(HeapA2, [0, 1, 2, 3, 0, 4], 0)
  {
    MirrorSane();
    var h := History(HeapA1, [0, 1, 2, 3, 0], 2);
    assert TargetsOf(h.heap, h.queue) == [None, None, Some(1), Some(0), None];
    PickIs(h, 4);
    assert Mirror(h.heap, 0) == Fresh(UndoAction("a'", Some(0)));
  }

  lemma ThirdUndoStuck()
    ensures Sane(Mirror)
    ensures Undo(History(HeapA2, [0, 1, 2, 3, 0, 4], 0), Mirror) == History(HeapA2, [0, 1, 2, 3, 0, 4], 0)
  {
    MirrorSane();
    var h := History(HeapA2, [0, 1, 2, 3, 0, 4], 0);
    var t := TargetsOf(h.heap, h.queue);
    assert t == [None, None, Some(1), Some(0), None, Some(0)];
    LastUndoableSpec(h.queue, t, |h.queue|);
    assert !Undoable(h.queue, t, 5) && !Undoable(h.queue, t, 4) && !Undoable(h.queue, t, 3);
    assert !Undoable(h.queue, t, 2) && !Undoable(h.queue, t, 1) && !Undoable(h.queue, t, 0);
  }

  lemma RedoAfterThirdUndo()
    ensures Sane(Mirror)
    ensures Redo(History(HeapA2, [0, 1, 2, 3, 0, 4], 0), Mirror) == History(HeapA2, [0, 1, 2, 3, 0, 4, 0], 2)
    ensures Redo(History(HeapA2, [0, 1, 2, 3, 0, 4, 0], 2), Mirror) == History(HeapA2, [0, 1, 2, 3, 0, 4, 0], 2)
  {
    MirrorSane();
  }

  lemma IdsAfterRedo()
    ensures Ids(History(HeapA2, [0, 1, 2, 3, 0, 4, 0], 2)) == ["a", "b", "b'", "a'", "a", "a'", "a"]
  {
  }

  lemma IdsAfterThirdUndo()
    ensures Ids(History(HeapA2, [0, 1, 2, 3, 0, 4], 0)) == ["a", "b", "b'", "a'", "a", "a'"]
  {
  }

  // The test cases: each records a new object per id, makes the calls with
  // the tests' `exec()`, and reads the ids of the queue.

  lemma TableEmptyAndSingle()
    ensures Sane(Mirror)
    ensures Ids(Undo(Setup(Empty, []), Mirror)) == []
    ensures Ids(Redo(Setup(Empty, []), Mirror)) == []
    ensures Ids(Undo(Setup(Empty, ["a"]), Mirror)) == ["a", "a'"]
    ensures Ids(Redo(Setup(Empty, ["a"]), Mirror)) == ["a"]
  {
    MirrorSane();
    SetupStates();
    StepsFromA();
  }

  lemma TableUndoUndo()
    ensures Sane(Mirror)
    ensures Ids(Undo(Undo(Setup(Empty, ["a", "b"]), Mirror), Mirror)) == ["a", "b", "b'", "a'"]
  {
    SetupStates();
    FirstUndoAB();
    SecondUndoAB();
    assert Ids(History(HeapA1, [0, 1, 2, 3], 0)) == ["a", "b", "b'", "a'"];
  }

  lemma TableUndoRedo()
    ensures Sane(Mirror)
    ensures var s := Setup(Empty, ["a", "b"]);
      && Ids(Redo(Undo(s, Mirror), Mirror)) == ["a", "b", "b'", "b"]
      && Ids(Redo(Redo(Undo(s, Mirror), Mirror), Mirror)) == ["a", "b", "b'", "b"]
      && Ids(Undo(Redo(Undo(s, Mirror), Mirror), Mirror)) == ["a", "b", "b'", "b", "b'"]
  {
    SetupStates();
    FirstUndoAB();
    SecondUndoAB();
    StepsAfterRedo();
    assert Ids(History(HeapB1, [0, 1, 2, 1], 2)) == ["a", "b", "b'", "b"];
    assert Ids(History(HeapB2, [0, 1, 2, 1, 3], 0)) == ["a", "b", "b'", "b", "b'"];
  }

  lemma TableUndoUndoRedo()
    ensures Sane(Mirror)
    ensures var u := Undo(Undo(Setup(Empty, ["a", "b"]), Mirror), Mirror);
      Ids(Redo(Redo(u, Mirror), Mirror)) == ["a", "b", "b'", "a'", "a", "b"]
  {
    SetupStates();
    FirstUndoAB();
    SecondUndoAB();
    StepsAfterTwoUndos();
    assert Ids(History(HeapA1, [0, 1, 2, 3, 0, 1], 4)) == ["a", "b", "b'", "a'", "a", "b"];
  }

  lemma TableUndoUndoRedoUndo()
    ensures Sane(Mirror)
    ensures var u := Undo(Redo(Undo(Undo(Setup(Empty, ["a", "b"]), Mirror), Mirror), Mirror), Mirror);
      && Ids(Redo(u, Mirror)) == ["a", "b", "b'", "a'", "a", "a'", "a"]
      && Ids(Redo(Redo(u, Mirror), Mirror)) == ["a", "b", "b'", "a'", "a", "a'", "a"]
      && Ids(Undo(u, Mirror)) == ["a", "b", "b'", "a'", "a", "a'"]
  {
    SetupStates();
    FirstUndoAB();
    SecondUndoAB();
    StepsAfterTwoUndos();
    ThirdUndoStuck();
    RedoAfterThirdUndo();
    IdsAfterRedo();
    IdsAfterThirdUndo();
  }
}
