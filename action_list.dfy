/** `Action` objects and `ActionList`, as functions of the objects.

    An object is a handle into `heap`. A caller-defined `Action` subclass is a
    `Custom` object: only its `detail.id` and its `target` are observable, and
    its `exec` and `revertAction` are user code. An `ActionList` holds the
    queue of sub-actions it was built from; they were allocated before it, so
    every sub-action has a smaller handle than its list. */
module ActionLists {
  import opened Seqs
  import opened UndoScan

  datatype Action =
    | Custom(id: string, target: Option<Ref>)
    | ActionList(queue: seq<Ref>, target: Option<Ref>)

  /** Object `i` points only at allocated objects, its sub-actions below it. */
  predicate ObjectWf(heap: seq<Action>, i: nat)
    requires i < |heap|
  {
    && (heap[i].target.Some? ==> heap[i].target.value < |heap|)
    && (heap[i].ActionList? ==> forall j :: 0 <= j < |heap[i].queue| ==> heap[i].queue[j] < i)
  }

  predicate HeapWf(heap: seq<Action>) {
    forall i :: 0 <= i < |heap| ==> ObjectWf(heap, i)
  }

  /** Allocating an object that points at allocated objects keeps the heap
      well formed. */
  lemma AppendWf(heap: seq<Action>, x: Action)
    requires HeapWf(heap)
    requires x.target.Some? ==> x.target.value < |heap|
    requires x.ActionList? ==> forall j :: 0 <= j < |x.queue| ==> x.queue[j] < |heap|
    ensures HeapWf(heap + [x])
  {
    var h := heap + [x];
    forall i | 0 <= i < |h|
      ensures ObjectWf(h, i)
    {
      if i < |heap| {
        assert ObjectWf(heap, i);
      }
    }
  }

  /** What a `revertAction()` of a caller-defined action returns: an object
      that exists already, or a new caller-defined action. */
  datatype Made = Existing(ref: Ref) | Fresh(id: string, target: Option<Ref>)

  /** `revertAction()` of the caller-defined object `a` in `heap`. */
  type Revert = (seq<Action>, Ref) -> Made

  predicate Fits(heap: seq<Action>, m: Made) {
    match m
    case Existing(r) => r < |heap|
    case Fresh(_, t) => t.Some? ==> t.value < |heap|
  }

  /** `revertAction()` returns an object. */
  ghost predicate Sane(revert: Revert) {
    forall heap: seq<Action>, a: Ref :: HeapWf(heap) && a < |heap| && heap[a].Custom? ==>
      Fits(heap, revert(heap, a))
  }

  /** `exec(params)` of `a`: the caller-defined actions whose `exec` runs, in
      order. A caller-defined action runs itself; an `ActionList` runs its
      queue in order. The function is total: a handle that is no object, or a
      sub-action not below its list, runs nothing, and in a well-formed heap
      neither occurs. */
  function Trace(heap: seq<Action>, a: Ref): (t: seq<Ref>)
    ensures forall j :: 0 <= j < |t| ==> t[j] <= a && t[j] < |heap| && heap[t[j]].Custom?
    decreases a, 1
  {
    if a >= |heap| then []
    else
      match heap[a]
      case Custom(_, _) => [a]
      case ActionList(subs, _) => TraceAll(heap, a, subs)
  }

  /** The runs of the actions `rs` below `bound`, one after the other. */
  function TraceAll(heap: seq<Action>, bound: nat, rs: seq<Ref>): (t: seq<Ref>)
    ensures forall j :: 0 <= j < |t| ==> t[j] < bound && t[j] < |heap| && heap[t[j]].Custom?
    decreases bound, 0, |rs|
  {
    if rs == [] then []
    else (if rs[0] < bound then Trace(heap, rs[0]) else []) + TraceAll(heap, bound, rs[1..])
  }

  /** The object `m` names, allocated first when new. */
  function Apply(heap: seq<Action>, m: Made): (res: (seq<Action>, Ref))
    ensures heap <= res.0
  {
    match m
    case Existing(r) => (heap, r)
    case Fresh(id, t) => (heap + [Custom(id, t)], |heap|)
  }

  /** `revertAction()` of `a`: the objects after the call and the object
      returned. An `ActionList` reverts its queue from the last sub-action to
      the first and returns a new list of the results, whose target is
      itself. A handle that is no object is returned unchanged. */
  function RevertOf(heap: seq<Action>, a: Ref, revert: Revert): (res: (seq<Action>, Ref))
    ensures heap <= res.0
    decreases a, 1
  {
    if a >= |heap| then (heap, a)
    else
      match heap[a]
      case Custom(_, _) => Apply(heap, revert(heap, a))
      case ActionList(subs, _) =>
        var (h1, rs) := RevertFrom(heap, a, subs, |subs|, revert);
        (h1 + [ActionList(rs, Some(a))], |h1|)
  }

  /** The loop of `ActionList.revertAction` over the first `n` sub-actions
      `subs` of `a`, from index `n - 1` down: the objects after it and the
      reverts returned, in the order they were pushed. */
  function RevertFrom(heap: seq<Action>, a: Ref, subs: seq<Ref>, n: nat, revert: Revert): (res: (seq<Action>, seq<Ref>))
    requires n <= |subs|
    ensures heap <= res.0 && |res.1| == n
    decreases a, 0, n
  {
    if n == 0 then (heap, [])
    else
      var (h1, x) := if subs[n - 1] < a then RevertOf(heap, subs[n - 1], revert) else (heap, subs[n - 1]);
      var (h2, xs) := RevertFrom(h1, a, subs, n - 1, revert);
      (h2, [x] + xs)
  }

  /** With `revertAction()` returning objects, reverting keeps the heap well
      formed and returns an object. */
  lemma {:induction false} RevertWf(heap: seq<Action>, a: Ref, revert: Revert)
    requires HeapWf(heap) && a < |heap| && Sane(revert)
    ensures var res := RevertOf(heap, a, revert); HeapWf(res.0) && res.1 < |res.0|
    decreases a, 1
  {
    assert ObjectWf(heap, a);
    if heap[a].Custom? {
      var m := revert(heap, a);
      assert Fits(heap, m);
      if m.Fresh? {
        AppendWf(heap, Custom(m.id, m.target));
      }
    } else {
      var subs := heap[a].queue;
      RevertFromWf(heap, a, subs, |subs|, revert);
      var res := RevertFrom(heap, a, subs, |subs|, revert);
      AppendWf(res.0, ActionList(res.1, Some(a)));
    }
  }

  lemma {:induction false} RevertFromWf(heap: seq<Action>, a: Ref, subs: seq<Ref>, n: nat, revert: Revert)
    requires HeapWf(heap) && a < |heap| && n <= |subs| && Sane(revert)
    requires forall j :: 0 <= j < |subs| ==> subs[j] < a
    ensures var res := RevertFrom(heap, a, subs, n, revert);
      HeapWf(res.0) && forall j :: 0 <= j < n ==> res.1[j] < |res.0|
    decreases a, 0, n
  {
    if n > 0 {
      var first := RevertOf(heap, subs[n - 1], revert);
      RevertWf(heap, subs[n - 1], revert);
      RevertFromWf(first.0, a, subs, n - 1, revert);
    }
  }
}
