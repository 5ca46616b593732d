/** The `UndoQueue` class: its fields are updated in place, and each method
    is proved to leave the state its function in `UndoHistory` describes. */
module UndoQueues {
  import opened Seqs
  import opened UndoScan
  import opened UndoHistory

  /** An `UndoQueue`, with the action objects it can reach. */
  class UndoQueue {
    var heap: seq<UndoAction>
    var queue: seq<Ref>
    var redoOffset: nat

    /** The state as a value. */
    function Model(): History
      reads this
    {
      History(heap, queue, redoOffset)
    }

    ghost predicate Valid()
      reads this
    {
      Wf(Model())
    }

    constructor()
      ensures Model() == History([], [], 0) && Valid()
    {
      heap, queue, redoOffset := [], [], 0;
    }

    /** `get length`. */
    function Length(): (n: nat)
      reads this
      ensures n == |Model().queue|
    {
      |queue|
    }

    /** `new UndoAction(detail, action)`: a new object, not yet recorded. */
    method NewAction(id: string, target: Option<Ref>) returns (a: Ref)
      requires Valid() && (target.Some? ==> target.value < |heap|)
      modifies this
      ensures Model() == Alloc(old(Model()), id, target) && a == |old(heap)|
      ensures Valid()
    {
      a := |heap|;
      heap := heap + [UndoAction(id, target)];
    }

    /** `record(action)`. */
    method Record(a: Ref)
      requires Valid() && a < |heap|
      modifies this
      ensures Model() == UndoHistory.Record(old(Model()), a)
      ensures Valid()
    {
      queue := queue + [a];
      redoOffset := 0;
    }

    /** Pushes what `exec()` returned, allocating it when new. */
    method PushMade(m: Made)
      requires Valid() && Fits(heap, m)
      modifies this
      ensures Model() == Push(old(Model()), m, old(redoOffset))
      ensures Valid()
    {
      match m
      case Existing(r) =>
        queue := queue + [r];
      case Fresh(x) =>
        heap, queue := heap + [x], queue + [|heap|];
    }

    /** The loop of `undo()`: from the end of the queue, an action with a
        target adds the target to `setter`; the first action without one that
        is not in `setter` is the one to undo. Its index, if any. */
    method Scan() returns (found: Option<nat>)
      requires Valid()
      ensures found == Pick(Model())
    {
      ghost var t := TargetsOf(heap, queue);
      var setter: set<Ref> := {};
      var i := |queue|;
      while i > 0
        invariant 0 <= i <= |queue|
        invariant setter == TargetsFrom(queue, t, i)
        invariant LastUndoable(queue, t, i) == LastUndoable(queue, t, |queue|)
      {
        var action := queue[i - 1];
        ScanStep(queue, t, i - 1);
        if heap[action].target.Some? {
          setter := setter + {heap[action].target.value};
        } else if action !in setter {
          return Some(i - 1);
        }
        i := i - 1;
      }
      return None;
    }

    /** `undo()`. */
    method Undo(exec: Exec)
      requires Valid() && Sane(exec)
      modifies this
      ensures Model() == UndoHistory.Undo(old(Model()), exec)
      ensures Valid()
    {
      var found := Scan();
      if found.Some? {
        var m := exec(heap, queue[found.value]);
        PushMade(m);
      }
      redoOffset := 0;
    }

    /** `redo()`. */
    method Redo(exec: Exec)
      requires Valid() && Sane(exec)
      modifies this
      ensures Model() == UndoHistory.Redo(old(Model()), exec)
      ensures Valid()
    {
      var i := |queue| - 1 - redoOffset;
      if 0 <= i && heap[queue[i]].target.Some? {
        var m := exec(heap, queue[i]);
        PushMade(m);
        redoOffset := redoOffset + 2;
      }
    }
  }
}
