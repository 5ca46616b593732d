/** The `ActionQueue` class and the `exec` and `revertAction` of
    `ActionList`: fields updated in place, each method proved to leave the
    state its function in `ActionHistory` or `ActionLists` describes. The
    objects the queue reaches are the field `heap`. */
module ActionQueues {
  import opened Seqs
  import opened UndoScan
  import opened ActionLists
  import opened ActionListFacts
  import opened ActionHistory

  /** A run of the actions `rs` is the run of all but the last followed by
      the run of the last. */
  lemma TraceAllSnoc(heap: seq<Action>, bound: nat, rs: seq<Ref>, x: Ref)
    requires x < bound
    ensures TraceAll(heap, bound, rs + [x]) == TraceAll(heap, bound, rs) + Trace(heap, x)
  {
    TraceAllAppend(heap, bound, rs, [x]);
    TraceAllCons(heap, bound, x, []);
    assert [x] + [] == [x];
  }

  class ActionQueue {
    var heap: seq<Action>
    var queue: seq<Ref>
    var recording: bool
    var recorded: seq<Ref>
    var redoOffset: nat

    /** The state as a value. */
    function Model(): QueueState
      reads this
    {
      QueueState(heap, queue, recording, recorded, redoOffset)
    }

    ghost predicate Valid()
      reads this
    {
      Wf(Model())
    }

    /** `new ActionQueue(params)`. */
    constructor()
      ensures Model() == Initial && Valid()
    {
      heap, queue, recording, recorded, redoOffset := [], [], false, [], 0;
    }

    /** `get length`. */
    function Length(): (n: nat)
      reads this
      ensures n == |Model().queue|
    {
      |queue|
    }

    /** A new caller-defined action, not yet queued. */
    method NewCustom(id: string, target: Option<Ref>) returns (a: Ref)
      requires Valid() && (target.Some? ==> target.value < |heap|)
      modifies this
      ensures Model() == ActionHistory.NewCustom(old(Model()), id, target) && a == |old(heap)|
      ensures Valid()
    {
      a := |heap|;
      heap := heap + [Custom(id, target)];
    }

    /** `new ActionList({ queue: subs })`, not yet queued. */
    method NewList(subs: seq<Ref>) returns (a: Ref)
      requires Valid() && Refs(heap, subs)
      modifies this
      ensures Model() == ActionHistory.NewList(old(Model()), subs) && a == |old(heap)|
      ensures Valid()
    {
      a := |heap|;
      heap := heap + [ActionList(subs, None)];
    }

    /** `stopRecording()`. */
    method StopRecording()
      requires Valid()
      modifies this
      ensures Model() == Stop(old(Model())) && Valid()
    {
      if |recorded| > 0 {
        queue := queue + [|heap|];
        heap := heap + [ActionList(recorded, None)];
        recorded := [];
      }
      recording := false;
    }

    /** `startRecording()`. */
    method StartRecording()
      requires Valid()
      modifies this
      ensures Model() == Start(old(Model())) && Valid()
    {
      if recording {
        StopRecording();
      }
      recording := true;
    }

    /** `exec(params)` of the object `a`: a caller-defined action runs itself,
        an `ActionList` runs its queue in order. The caller-defined actions
        run, in order. */
    method RunAction(a: Ref) returns (ran: seq<Ref>)
      requires Valid() && a < |heap|
      ensures ran == Trace(heap, a)
      decreases a
    {
      assert ObjectWf(heap, a);
      match heap[a]
      case Custom(_, _) =>
        ran := [a];
      case ActionList(subs, _) =>
        ran := [];
        for j := 0 to |subs|
          invariant ran == TraceAll(heap, a, subs[..j])
        {
          var more := RunAction(subs[j]);
          assert subs[..j + 1] == subs[..j] + [subs[j]];
          TraceAllSnoc(heap, a, subs[..j], subs[j]);
          ran := ran + more;
        }
        assert subs[..|subs|] == subs;
    }

    /** `revertAction()` of the object `a`: a caller-defined action calls
        `revert`, an `ActionList` reverts its queue. Only `heap` changes. */
    method RevertAction(a: Ref, revert: Revert) returns (r: Ref)
      requires HeapWf(heap) && a < |heap| && Sane(revert)
      modifies this
      ensures (heap, r) == RevertOf(old(heap), a, revert)
      ensures queue == old(queue) && recording == old(recording)
      ensures recorded == old(recorded) && redoOffset == old(redoOffset)
      decreases a, 1
    {
      if heap[a].Custom? {
        var m := revert(heap, a);
        if m.Existing? {
          r := m.ref;
        } else {
          r := |heap|;
          heap := heap + [Custom(m.id, m.target)];
        }
      } else {
        r := RevertList(a, revert);
      }
    }

    /** `ActionList.revertAction()`: reverts the queue of `a` from the last
        sub-action to the first and allocates a new list of the results,
        in that order, whose target is `a`. */
    method RevertList(a: Ref, revert: Revert) returns (r: Ref)
      requires HeapWf(heap) && a < |heap| && heap[a].ActionList? && Sane(revert)
      modifies this
      ensures (heap, r) == RevertOf(old(heap), a, revert)
      ensures queue == old(queue) && recording == old(recording)
      ensures recorded == old(recorded) && redoOffset == old(redoOffset)
      decreases a, 0
    {
      assert ObjectWf(heap, a);
      var subs := heap[a].queue;
      ghost var h0 := heap;
      var pushed: seq<Ref> := [];
      var i := |subs|;
      assert [] + RevertFrom(heap, a, subs, i, revert).1 == RevertFrom(heap, a, subs, i, revert).1;
      while i > 0
        invariant 0 <= i <= |subs| && HeapWf(heap) && h0 <= heap
        invariant queue == old(queue) && recording == old(recording)
        invariant recorded == old(recorded) && redoOffset == old(redoOffset)
        invariant var rest := RevertFrom(heap, a, subs, i, revert);
          RevertFrom(h0, a, subs, |subs|, revert) == (rest.0, pushed + rest.1)
      {
        assert subs[i - 1] < a;
        ghost var before := heap;
        RevertWf(heap, subs[i - 1], revert);
        var x := RevertAction(subs[i - 1], revert);
        FromStep(h0, before, heap, a, subs, i, revert, pushed, x);
        pushed := pushed + [x];
        i := i - 1;
      }
      assert pushed + [] == pushed;
      assert RevertFrom(h0, a, subs, |subs|, revert) == (heap, pushed);
      r := |heap|;
      heap := heap + [ActionList(pushed, Some(a))];
    }

    /** The loop of `undo()`: from the end of the queue, an action with a
        target adds the target to `setter`; the first action without one
        that is not in `setter` is the one to undo. Its index, if any. */
    method Scan() returns (found: Option<nat>)
      requires Valid()
      ensures found == Pick(Model())
    {
      ghost var t := TargetsOf(heap, queue);
      var setter: set<Ref> := {};
      var i := |queue|;
      while i > 0
        invariant 0 <= i <= |queue|
        invariant setter == TargetsFrom(queue, t, i)
        invariant LastUndoable(queue, t, i) == LastUndoable(queue, t, |queue|)
      {
        var action := queue[i - 1];
        ScanStep(queue, t, i - 1);
        if heap[action].target.Some? {
          setter := setter + {heap[action].target.value};
        } else if action !in setter {
          return Some(i - 1);
        }
        i := i - 1;
      }
      return None;
    }

    /** `exec(action)`: returns the caller-defined actions that ran. */
    method Exec(a: Ref) returns (ran: seq<Ref>)
      requires Valid() && a < |heap|
      modifies this
      ensures Step(Model(), ran) == ActionHistory.Exec(old(Model()), a) && Valid()
    {
      if recording {
        recorded := recorded + [a];
      } else {
        queue := queue + [a];
      }
      redoOffset := 0;
      ran := RunAction(a);
    }

    /** The object `undo()` pushes for the entry `u`: its target when it
        has one, else its `revertAction()`, whose target is then set to `u`.
        Only `heap` changes. `Undo` calls it only on an entry `Scan` found,
        which has no target, so the first branch is never taken there. */
    method InverseOf(u: Ref, revert: Revert) returns (x: Ref)
      requires HeapWf(heap) && u < |heap| && Sane(revert)
      modifies this
      ensures (heap, x) == Inverse(old(heap), u, revert)
      ensures queue == old(queue) && recording == old(recording)
      ensures recorded == old(recorded) && redoOffset == old(redoOffset)
    {
      if heap[u].target.Some? {
        x := heap[u].target.value;
      } else {
        x := RevertAction(u, revert);
        heap := heap[x := heap[x].(target := Some(u))];
      }
    }

    /** `undo()`: returns the caller-defined actions that ran. */
    method Undo(revert: Revert) returns (ran: seq<Ref>)
      requires Valid() && Sane(revert)
      modifies this
      ensures Step(Model(), ran) == ActionHistory.Undo(old(Model()), revert) && Valid()
    {
      if recording {
        StopRecording();
      }
      var found := Scan();
      ran := [];
      if found.Some? {
        var u := queue[found.value];
        var x := InverseOf(u, revert);
        queue := queue + [x];
        ran := RunAction(x);
      }
      redoOffset := 0;
    }

    /** `redo()`: returns the caller-defined actions that ran. */
    method Redo() returns (ran: seq<Ref>)
      requires Valid()
      modifies this
      ensures Step(Model(), ran) == ActionHistory.Redo(old(Model())) && Valid()
    {
      if recording {
        StopRecording();
      }
      var i := |queue| - 1 - redoOffset;
      ran := [];
      if 0 <= i && heap[queue[i]].target.Some? {
        var t := heap[queue[i]].target.value;
        assert ObjectWf(heap, queue[i]);
        queue := queue + [t];
        ran := RunAction(t);
        redoOffset := redoOffset + 2;
      }
    }
  }
}
