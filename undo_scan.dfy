/** The backward scan shared by `UndoQueue.undo` and `ActionQueue.undo`.

    Walking the queue from its end, an entry with a `target` adds that target
    to a set; the first entry without a `target` that is not in the set is the
    one undone. Actions are compared by identity, so an entry is a handle and
    the same handle may occur twice. */
module UndoScan {
  import opened Seqs

  /** Handle of an action object. */
  type Ref = nat

  /** Entry `i` has no `target` and no later entry targets it. `targets[j]` is
      the `target` of the object at `queue[j]`. */
  predicate Undoable(queue: seq<Ref>, targets: seq<Option<Ref>>, i: nat)
    requires |targets| == |queue| && i < |queue|
  {
    targets[i].None? && forall j :: i < j < |queue| ==> targets[j] != Some(queue[i])
  }

  /** The last undoable entry below index `n`. */
  function LastUndoable(queue: seq<Ref>, targets: seq<Option<Ref>>, n: nat): (o: Option<nat>)
    requires |targets| == |queue| && n <= |queue|
    ensures o.Some? ==> o.value < n
    decreases n
  {
    if n == 0 then None
    else if Undoable(queue, targets, n - 1) then Some(n - 1)
    else LastUndoable(queue, targets, n - 1)
  }

  /** `LastUndoable` finds an undoable entry below `n` exactly when there is
      one, and then the last of them. */
  lemma {:induction false} LastUndoableSpec(queue: seq<Ref>, targets: seq<Option<Ref>>, n: nat)
    requires |targets| == |queue| && n <= |queue|
    ensures var o := LastUndoable(queue, targets, n);
      && (o.None? <==> forall j :: 0 <= j < n ==> !Undoable(queue, targets, j))
      && (o.Some? ==> o.value < n && Undoable(queue, targets, o.value)
                      && forall j :: o.value < j < n ==> !Undoable(queue, targets, j))
    decreases n
  {
    if n > 0 && !Undoable(queue, targets, n - 1) {
      LastUndoableSpec(queue, targets, n - 1);
    }
  }

  /** The targets of the entries from index `i` on: the set the scan has built
      when it reaches index `i - 1`. */
  function TargetsFrom(queue: seq<Ref>, targets: seq<Option<Ref>>, i: nat): set<Ref>
    requires |targets| == |queue| && i <= |queue|
    decreases |queue| - i
  {
    if i == |queue| then {}
    else
      var rest := TargetsFrom(queue, targets, i + 1);
      if targets[i].Some? then {targets[i].value} + rest else rest
  }

  /** `TargetsFrom` holds exactly the targets named from index `i` on. */
  lemma {:induction false} TargetsFromSpec(queue: seq<Ref>, targets: seq<Option<Ref>>, i: nat, x: Ref)
    requires |targets| == |queue| && i <= |queue|
    ensures x in TargetsFrom(queue, targets, i) <==> exists j :: i <= j < |queue| && targets[j] == Some(x)
    decreases |queue| - i
  {
    if i < |queue| {
      TargetsFromSpec(queue, targets, i + 1, x);
    }
  }

  /** One step of the scan: at index `i` an entry is undoable exactly when it
      has no target and is not in the set built so far. */
  lemma ScanStep(queue: seq<Ref>, targets: seq<Option<Ref>>, i: nat)
    requires |targets| == |queue| && i < |queue|
    ensures Undoable(queue, targets, i) <==>
      targets[i].None? && queue[i] !in TargetsFrom(queue, targets, i + 1)
  {
    TargetsFromSpec(queue, targets, i + 1, queue[i]);
  }
}
