/** What `ActionList.exec` and `ActionList.revertAction` promise: a list runs
    its sub-actions in order, and with the tests' `revertAction` the revert
    of an action runs the inverses of everything it ran, in reverse order. */
module ActionListFacts {
  import opened Seqs
  import opened UndoScan
  import opened ActionLists

  /** The `detail.id` of a caller-defined action; an `ActionList` has none. */
  function Label(x: Action): string {
    if x.Custom? then x.id else ""
  }

  /** The ids of the objects `rs`. */
  function Labels(heap: seq<Action>, rs: seq<Ref>): (l: seq<string>)
    requires forall j :: 0 <= j < |rs| ==> rs[j] < |heap|
    ensures |l| == |rs| && forall j :: 0 <= j < |rs| ==> l[j] == Label(heap[rs[j]])
  {
    seq(|rs|, j requires 0 <= j < |rs| => Label(heap[rs[j]]))
  }

  /** Every id with a prime appended, as the tests' inverses name them. */
  function Primed(s: seq<string>): (p: seq<string>)
    ensures |p| == |s| && forall j :: 0 <= j < |s| ==> p[j] == s[j] + "'"
  {
    seq(|s|, j requires 0 <= j < |s| => s[j] + "'")
  }

  /** The `revertAction()` of the tests: the action's own target if it has
      one, else a new action with the id primed and no target. A handle that
      is no object is returned unchanged; no call passes one. */
  function MirrorRevert(heap: seq<Action>, a: Ref): Made {
    if a >= |heap| then Existing(a)
    else if heap[a].target.Some? then Existing(heap[a].target.value)
    else Fresh(Label(heap[a]) + "'", None)
  }

  lemma MirrorRevertSane()
    ensures Sane(MirrorRevert)
  {
    forall heap: seq<Action>, a: Ref | HeapWf(heap) && a < |heap| && heap[a].Custom?
      ensures Fits(heap, MirrorRevert(heap, a))
    {
      assert ObjectWf(heap, a);
    }
  }

  /** No caller-defined action that `rs` runs has a target. */
  predicate Plain(heap: seq<Action>, t: seq<Ref>)
    requires forall j :: 0 <= j < |t| ==> t[j] < |heap|
  {
    forall j :: 0 <= j < |t| ==> heap[t[j]].target.None?
  }

  /** The bound of `TraceAll` is only a termination measure. */
  lemma {:induction false} TraceAllBound(heap: seq<Action>, b1: nat, b2: nat, rs: seq<Ref>)
    requires forall j :: 0 <= j < |rs| ==> rs[j] < b1 && rs[j] < b2
    ensures TraceAll(heap, b1, rs) == TraceAll(heap, b2, rs)
    decreases |rs|
  {
    if rs != [] {
      TraceAllBound(heap, b1, b2, rs[1..]);
    }
  }

  lemma {:induction false} TraceAllAppend(heap: seq<Action>, bound: nat, xs: seq<Ref>, ys: seq<Ref>)
    ensures TraceAll(heap, bound, xs + ys) == TraceAll(heap, bound, xs) + TraceAll(heap, bound, ys)
    decreases |xs|
  {
    if xs == [] {
      assert xs + ys == ys;
    } else {
      assert (xs + ys)[1..] == xs[1..] + ys;
      TraceAllAppend(heap, bound, xs[1..], ys);
    }
  }

  /** Allocating objects does not change what an existing action runs. */
  lemma {:induction false} TraceStable(heap: seq<Action>, heap': seq<Action>, a: Ref)
    requires heap <= heap' && a < |heap|
    ensures Trace(heap', a) == Trace(heap, a)
    decreases a, 1
  {
    assert heap'[a] == heap[a];
    if heap[a].ActionList? {
      TraceAllStable(heap, heap', a, heap[a].queue);
    }
  }

  lemma {:induction false} TraceAllStable(heap: seq<Action>, heap': seq<Action>, bound: nat, rs: seq<Ref>)
    requires heap <= heap' && bound <= |heap|
    ensures TraceAll(heap', bound, rs) == TraceAll(heap, bound, rs)
    decreases bound, 0, |rs|
  {
    if rs != [] {
      if rs[0] < bound {
        TraceStable(heap, heap', rs[0]);
      }
      TraceAllStable(heap, heap', bound, rs[1..]);
    }
  }

  lemma LabelsAppend(heap: seq<Action>, xs: seq<Ref>, ys: seq<Ref>)
    requires forall j :: 0 <= j < |xs| ==> xs[j] < |heap|
    requires forall j :: 0 <= j < |ys| ==> ys[j] < |heap|
    ensures Labels(heap, xs + ys) == Labels(heap, xs) + Labels(heap, ys)
  {
  }

  lemma LabelsStable(heap: seq<Action>, heap': seq<Action>, rs: seq<Ref>)
    requires heap <= heap' && forall j :: 0 <= j < |rs| ==> rs[j] < |heap|
    ensures Labels(heap', rs) == Labels(heap, rs)
  {
    assert forall j :: 0 <= j < |rs| ==> heap'[rs[j]] == heap[rs[j]];
  }

  lemma PrimedAppend(a: seq<string>, b: seq<string>)
    ensures Primed(a + b) == Primed(a) + Primed(b)
  {
  }

  /** With the tests' `revertAction()`, reverting an action none of whose
      caller-defined actions has a target yields an action that runs, in
      reverse order, a new inverse of each of them, named with a prime and
      itself without target. */
  lemma {:induction false} MirrorReverts(heap: seq<Action>, a: Ref)
    requires HeapWf(heap) && a < |heap| && Plain(heap, Trace(heap, a))
    ensures var res := RevertOf(heap, a, MirrorRevert);
      && res.1 < |res.0|
      && Plain(res.0, Trace(res.0, res.1))
      && Labels(res.0, Trace(res.0, res.1)) == Reverse(Primed(Labels(heap, Trace(heap, a))))
    decreases a, 1
  {
    if heap[a].Custom? {
      MirrorRevertsCustom(heap, a);
    } else {
      assert ObjectWf(heap, a);
      var subs := heap[a].queue;
      assert subs[..|subs|] == subs;
      MirrorRevertsFrom(heap, a, |subs|);
      MirrorRevertsList(heap, a);
    }
  }

  lemma MirrorRevertsCustom(heap: seq<Action>, a: Ref)
    requires a < |heap| && heap[a].Custom? && Plain(heap, Trace(heap, a))
    ensures var res := RevertOf(heap, a, MirrorRevert);
      && res.1 < |res.0|
      && Plain(res.0, Trace(res.0, res.1))
      && Labels(res.0, Trace(res.0, res.1)) == Reverse(Primed(Labels(heap, Trace(heap, a))))
  {
    var id := heap[a].id;
    var h' := heap + [Custom(id + "'", None)];
    assert Trace(heap, a) == [a] && heap[a].target.None? by {
      assert Trace(heap, a)[0] == a;
    }
    assert RevertOf(heap, a, MirrorRevert) == (h', |heap|);
    CustomLabels(h', |heap|);
    CustomLabels(heap, a);
    assert Reverse(Primed([id])) == [id + "'"];
  }

  /** A caller-defined action runs itself alone. */
  lemma CustomLabels(heap: seq<Action>, a: Ref)
    requires a < |heap| && heap[a].Custom?
    ensures Trace(heap, a) == [a] && Labels(heap, [a]) == [heap[a].id]
  {
  }

  /** The list case of `MirrorReverts`, once its loop is known. */
  lemma MirrorRevertsList(heap: seq<Action>, a: Ref)
    requires a < |heap| && heap[a].ActionList?
    requires var res := RevertFrom(heap, a, heap[a].queue, |heap[a].queue|, MirrorRevert);
      && (forall j :: 0 <= j < |res.1| ==> res.1[j] < |res.0|)
      && Plain(res.0, TraceAll(res.0, |res.0|, res.1))
      && Labels(res.0, TraceAll(res.0, |res.0|, res.1)) == Reverse(Primed(Labels(heap, TraceAll(heap, a, heap[a].queue))))
    ensures var res := RevertOf(heap, a, MirrorRevert);
      && res.1 < |res.0|
      && Plain(res.0, Trace(res.0, res.1))
      && Labels(res.0, Trace(res.0, res.1)) == Reverse(Primed(Labels(heap, Trace(heap, a))))
  {
    var subs := heap[a].queue;
    var loop := RevertFrom(heap, a, subs, |subs|, MirrorRevert);
    var h1, xs := loop.0, loop.1;
    var h' := h1 + [ActionList(xs, Some(a))];
    assert RevertOf(heap, a, MirrorRevert) == (h', |h1|);
    TraceAllStable(h1, h', |h1|, xs);
    assert Trace(h', |h1|) == TraceAll(h', |h1|, xs);
    LabelsStable(h1, h', TraceAll(h1, |h1|, xs));
  }

  /** The run of the first `n` sub-actions is the run of the first `n - 1`
      followed by that of sub-action `n - 1`, and both are plain when the
      whole is. */
  lemma SplitLast(heap: seq<Action>, a: Ref, subs: seq<Ref>, n: nat)
    requires 0 < n <= |subs| && subs[n - 1] < a && Plain(heap, TraceAll(heap, a, subs[..n]))
    ensures var before := TraceAll(heap, a, subs[..n - 1]);
      && TraceAll(heap, a, subs[..n]) == before + Trace(heap, subs[n - 1])
      && Plain(heap, before) && Plain(heap, Trace(heap, subs[n - 1]))
  {
    var s := subs[n - 1];
    assert subs[..n] == subs[..n - 1] + [s];
    TraceAllAppend(heap, a, subs[..n - 1], [s]);
    assert TraceAll(heap, a, [s]) == Trace(heap, s) + TraceAll(heap, a, []);
    var before := TraceAll(heap, a, subs[..n - 1]);
    var t := Trace(heap, s);
    assert forall j :: 0 <= j < |t| ==> t[j] == (before + t)[|before| + j];
    assert forall j :: 0 <= j < |before| ==> before[j] == (before + t)[j];
  }

  /** The ids of the reverts, once each part is known. */
  lemma CombineLabels(heap: seq<Action>, h1: seq<Action>, h2: seq<Action>, before: seq<Ref>, last: seq<Ref>,
                      tx: seq<Ref>, txs: seq<Ref>)
    requires heap <= h1 <= h2
    requires forall j :: 0 <= j < |before| ==> before[j] < |heap|
    requires forall j :: 0 <= j < |last| ==> last[j] < |heap|
    requires forall j :: 0 <= j < |tx| ==> tx[j] < |h1|
    requires forall j :: 0 <= j < |txs| ==> txs[j] < |h2|
    requires Labels(h1, tx) == Reverse(Primed(Labels(heap, last)))
    requires Labels(h2, txs) == Reverse(Primed(Labels(h1, before)))
    ensures Labels(h2, tx + txs) == Reverse(Primed(Labels(heap, before + last)))
  {
    LabelsStable(h1, h2, tx);
    LabelsAppend(h2, tx, txs);
    LabelsStable(heap, h1, before);
    LabelsAppend(heap, before, last);
    PrimedAppend(Labels(heap, before), Labels(heap, last));
    ReverseAppend(Primed(Labels(heap, before)), Primed(Labels(heap, last)));
  }

  /** One turn of the loop of `ActionList.revertAction`. */
  lemma FromUnfold(heap: seq<Action>, a: Ref, subs: seq<Ref>, n: nat, revert: Revert)
    requires 0 < n <= |subs| && subs[n - 1] < a
    ensures var first := RevertOf(heap, subs[n - 1], revert);
      var rest := RevertFrom(first.0, a, subs, n - 1, revert);
      RevertFrom(heap, a, subs, n, revert) == (rest.0, [first.1] + rest.1)
  {
  }

  /** One round of the loop of `revertAction()`: reverting `subs[n - 1]`
      moves its result from what is left to run onto what has been pushed. */
  lemma FromStep(h0: seq<Action>, heap: seq<Action>, heap': seq<Action>, a: Ref, subs: seq<Ref>,
                 n: nat, revert: Revert, pushed: seq<Ref>, x: Ref)
    requires 0 < n <= |subs| && subs[n - 1] < a
    requires var rest := RevertFrom(heap, a, subs, n, revert);
      RevertFrom(h0, a, subs, |subs|, revert) == (rest.0, pushed + rest.1)
    requires (heap', x) == RevertOf(heap, subs[n - 1], revert)
    ensures var rest := RevertFrom(heap', a, subs, n - 1, revert);
      RevertFrom(h0, a, subs, |subs|, revert) == (rest.0, (pushed + [x]) + rest.1)
  {
    FromUnfold(heap, a, subs, n, revert);
    var rest := RevertFrom(heap', a, subs, n - 1, revert);
    assert pushed + ([x] + rest.1) == (pushed + [x]) + rest.1;
  }

  /** The run of the reverts `[x] + xs`, once the run of `x` and the run of
      `xs` are known. */
  lemma JoinRuns(h1: seq<Action>, h2: seq<Action>, x: Ref, xs: seq<Ref>)
    requires h1 <= h2 && x < |h1| && Plain(h1, Trace(h1, x))
    requires Plain(h2, TraceAll(h2, |h2|, xs))
    ensures TraceAll(h2, |h2|, [x] + xs) == Trace(h1, x) + TraceAll(h2, |h2|, xs)
    ensures Plain(h2, Trace(h1, x) + TraceAll(h2, |h2|, xs))
  {
    TraceStable(h1, h2, x);
    TraceAllCons(h2, |h2|, x, xs);
    PlainStable(h1, h2, Trace(h1, x));
    PlainAppend(h2, Trace(h1, x), TraceAll(h2, |h2|, xs));
  }

  lemma TraceAllCons(heap: seq<Action>, bound: nat, x: Ref, xs: seq<Ref>)
    requires x < bound
    ensures TraceAll(heap, bound, [x] + xs) == Trace(heap, x) + TraceAll(heap, bound, xs)
  {
    assert ([x] + xs)[0] == x && ([x] + xs)[1..] == xs;
  }

  lemma PlainStable(heap: seq<Action>, heap': seq<Action>, t: seq<Ref>)
    requires heap <= heap' && forall j :: 0 <= j < |t| ==> t[j] < |heap|
    requires Plain(heap, t)
    ensures Plain(heap', t)
  {
    assert forall j :: 0 <= j < |t| ==> heap'[t[j]] == heap[t[j]];
  }

  lemma PlainAppend(heap: seq<Action>, t1: seq<Ref>, t2: seq<Ref>)
    requires forall j :: 0 <= j < |t1| ==> t1[j] < |heap|
    requires forall j :: 0 <= j < |t2| ==> t2[j] < |heap|
    requires Plain(heap, t1) && Plain(heap, t2)
    ensures Plain(heap, t1 + t2)
  {
    assert forall j :: 0 <= j < |t1| ==> (t1 + t2)[j] == t1[j];
    assert forall j :: 0 <= j < |t2| ==> (t1 + t2)[|t1| + j] == t2[j];
  }

  /** The loop of `ActionList.revertAction` over the first `n` sub-actions
      of `a`: the runs of the reverts it returns, one after the other, are
      the primed runs of those sub-actions, reversed. */
  lemma {:induction false} MirrorRevertsFrom(heap: seq<Action>, a: Ref, n: nat)
    requires HeapWf(heap) && a < |heap| && heap[a].ActionList? && n <= |heap[a].queue|
    requires ObjectWf(heap, a) && Plain(heap, TraceAll(heap, a, heap[a].queue[..n]))
    ensures var res := RevertFrom(heap, a, heap[a].queue, n, MirrorRevert);
      && (forall j :: 0 <= j < |res.1| ==> res.1[j] < |res.0|)
      && Plain(res.0, TraceAll(res.0, |res.0|, res.1))
      && Labels(res.0, TraceAll(res.0, |res.0|, res.1)) == Reverse(Primed(Labels(heap, TraceAll(heap, a, heap[a].queue[..n]))))
    decreases a, 0, n
  {
    var subs := heap[a].queue;
    if n == 0 {
      assert subs[..0] == [];
    } else {
      var s := subs[n - 1];
      SplitLast(heap, a, subs, n);
      var before := TraceAll(heap, a, subs[..n - 1]);
      // the last sub-action is reverted first
      var first := RevertOf(heap, s, MirrorRevert);
      var h1, x := first.0, first.1;
      MirrorReverts(heap, s);
      MirrorRevertSane();
      RevertWf(heap, s, MirrorRevert);
      assert h1[a] == heap[a];
      // then the others, on the grown heap
      var rest := RevertFrom(h1, a, subs, n - 1, MirrorRevert);
      var h2, xs := rest.0, rest.1;
      TraceAllStable(heap, h1, a, subs[..n - 1]);
      MirrorRevertsFrom(h1, a, n - 1);
      FromUnfold(heap, a, subs, n, MirrorRevert);
      JoinRuns(h1, h2, x, xs);
      CombineLabels(heap, h1, h2, before, Trace(heap, s), Trace(h1, x), TraceAll(h2, |h2|, xs));
    }
  }
}
