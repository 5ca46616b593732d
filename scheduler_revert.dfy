/** `revert` of the task scheduler as functions of the scheduler's state.

    A `revert(name)` call runs synchronously up to `await item.option.revert()`:
    it looks the Task up and invokes its revert action. The rest (clearing both
    flags and calling `revert` on the name of every Task in `depend2item[name]`)
    runs later, and each of those calls does the same. As with `execute`, the
    continuations run in the order the actions were invoked, so a run is a
    first-in first-out work-list of the Tasks whose revert action has been
    invoked. Nothing marks a Task as reverted, so a Task reached along two paths
    is reverted twice, and a cycle reachable from the reverted name never ends:
    the functions here take a rank on names, positive on the reverted name,
    under which every registered dependant of a name of positive rank has a
    positive rank below it. Names the cascade cannot reach may have rank 0,
    so a cycle elsewhere in the registry is allowed. */
module SchedulerRevert {
  import opened Seqs
  import opened SchedulerRegistry
  import opened SchedulerExecute

  /** Every registered dependant in the slot of a registered name of positive
      rank has a positive rank below that name's. */
  ghost predicate Ranked(r: Registry, rank: string -> nat)
    requires Wf(r)
  {
    forall n, m :: n in r.name2item && 0 < rank(n) && 0 <= m < |Slot(r.depend2item, n)|
                   && r.tasks[Slot(r.depend2item, n)[m]].name in r.name2item ==>
      0 < rank(r.tasks[Slot(r.depend2item, n)[m]].name) < rank(n)
  }

  /** `id` is registered under its own name, and that name has a positive
      rank. */
  ghost predicate Live(r: Registry, rank: string -> nat, id: TaskId) {
    Registered(r, id) && 0 < rank(r.tasks[id].name)
  }

  /** The `for` loop of a continuation over the slot `cs`: `revert(child.name)`
      for each child, which invokes the revert action of the Task registered
      under that name now, and of none when the name is unregistered. The Tasks
      whose revert action is invoked, in order. */
  function Wake(r: Registry, cs: seq<TaskId>): (w: seq<TaskId>)
    requires Wf(r) && forall j :: 0 <= j < |cs| ==> cs[j] in r.tasks
    ensures |w| <= |cs|
  {
    if cs == [] then []
    else
      var n := r.tasks[cs[0]].name;
      (if n in r.name2item then [r.name2item[n]] else []) + Wake(r, cs[1..])
  }

  /** The Tasks one continuation wakes: those registered under the names of the
      Tasks in the slot of `id`'s name. */
  function Children(r: Registry, id: TaskId): seq<TaskId>
    requires Wf(r)
  {
    if id in r.tasks then Wake(r, Slot(r.depend2item, r.tasks[id].name)) else []
  }

  /** The number of revert actions a `revert(n)` invokes: one for `n`, and the
      number for each registered child, counted once per occurrence. */
  ghost function Weight(r: Registry, rank: string -> nat, n: string): (w: nat)
    requires Wf(r) && Ranked(r, rank) && n in r.name2item && 0 < rank(n)
    ensures w >= 1
    decreases rank(n), 1, 0
  {
    1 + SlotWeight(r, rank, n, 0)
  }

  ghost function SlotWeight(r: Registry, rank: string -> nat, n: string, i: nat): nat
    requires Wf(r) && Ranked(r, rank) && n in r.name2item && 0 < rank(n) && i <= |Slot(r.depend2item, n)|
    decreases rank(n), 0, |Slot(r.depend2item, n)| - i
  {
    var cs := Slot(r.depend2item, n);
    if i == |cs| then 0
    else
      var m := r.tasks[cs[i]].name;
      (if m in r.name2item then Weight(r, rank, m) else 0) + SlotWeight(r, rank, n, i + 1)
  }

  /** The total weight of a work-list of registered Tasks. */
  ghost function Total(r: Registry, rank: string -> nat, ids: seq<TaskId>): nat
    requires Wf(r) && Ranked(r, rank) && forall j :: 0 <= j < |ids| ==> Live(r, rank, ids[j])
  {
    if ids == [] then 0
    else
      assert Live(r, rank, ids[0]);
      Weight(r, rank, r.tasks[ids[0]].name) + Total(r, rank, ids[1..])
  }

  lemma {:induction false} TotalAppend(r: Registry, rank: string -> nat, a: seq<TaskId>, b: seq<TaskId>)
    requires Wf(r) && Ranked(r, rank)
    requires forall j :: 0 <= j < |a| ==> Live(r, rank, a[j])
    requires forall j :: 0 <= j < |b| ==> Live(r, rank, b[j])
    ensures Total(r, rank, a + b) == Total(r, rank, a) + Total(r, rank, b)
  {
    if a == [] {
      assert a + b == b;
    } else {
      assert (a + b)[1..] == a[1..] + b;
      TotalAppend(r, rank, a[1..], b);
    }
  }

  /** Everything `Wake` returns is registered under its own name. */
  lemma {:induction false} WakeRegistered(r: Registry, cs: seq<TaskId>)
    requires Wf(r) && forall j :: 0 <= j < |cs| ==> cs[j] in r.tasks
    ensures forall j :: 0 <= j < |Wake(r, cs)| ==> Registered(r, Wake(r, cs)[j])
  {
    if cs != [] {
      WakeRegistered(r, cs[1..]);
    }
  }

  /** A Task is woken exactly when it is registered under the name of a Task
      in `cs`. */
  lemma {:induction false} WakeMember(r: Registry, cs: seq<TaskId>, x: TaskId)
    requires Wf(r) && forall j :: 0 <= j < |cs| ==> cs[j] in r.tasks
    ensures x in Wake(r, cs) <==>
      exists j :: 0 <= j < |cs| && r.tasks[cs[j]].name in r.name2item && r.name2item[r.tasks[cs[j]].name] == x
  {
    if cs != [] {
      WakeMember(r, cs[1..], x);
      if x !in Wake(r, cs) {
        assert forall j :: 1 <= j < |cs| ==> cs[j] == cs[1..][j - 1];
      } else if x !in Wake(r, cs[1..]) {
        assert r.tasks[cs[0]].name in r.name2item && r.name2item[r.tasks[cs[0]].name] == x;
      } else {
        var j :| 0 <= j < |cs[1..]| && r.tasks[cs[1..][j]].name in r.name2item
                 && r.name2item[r.tasks[cs[1..][j]].name] == x;
        assert cs[j + 1] == cs[1..][j];
      }
    }
  }

  /** The slot of `n` from index `i` on weighs what the Tasks it wakes weigh,
      and every one of them is live. */
  lemma {:induction false} SlotTotal(r: Registry, rank: string -> nat, n: string, i: nat)
    requires Wf(r) && Ranked(r, rank) && n in r.name2item && 0 < rank(n) && i <= |Slot(r.depend2item, n)|
    ensures var w := Wake(r, Slot(r.depend2item, n)[i..]);
      (forall j :: 0 <= j < |w| ==> Live(r, rank, w[j])) && SlotWeight(r, rank, n, i) == Total(r, rank, w)
    decreases |Slot(r.depend2item, n)| - i
  {
    var cs := Slot(r.depend2item, n);
    WakeRegistered(r, cs[i..]);
    if i < |cs| {
      SlotTotal(r, rank, n, i + 1);
      assert cs[i..][1..] == cs[i + 1..];
      var m := r.tasks[cs[i]].name;
      if m in r.name2item {
        assert 0 < rank(m) < rank(n);
      }
      var head: seq<TaskId> := if m in r.name2item then [r.name2item[m]] else [];
      var rest := Wake(r, cs[i + 1..]);
      assert Wake(r, cs[i..]) == head + rest;
      WakeRegistered(r, cs[i + 1..]);
      TotalAppend(r, rank, head, rest);
      if m in r.name2item {
        assert Total(r, rank, head) == Weight(r, rank, m) + Total(r, rank, []);
      }
    } else {
      assert cs[i..] == [];
    }
  }

  /** The continuation of `log[k]` replaces its weight by the weight of the
      Tasks it wakes, one less. */
  lemma StepWeight(r: Registry, rank: string -> nat, log: seq<TaskId>, k: nat)
    requires Wf(r) && Ranked(r, rank) && k < |log| && forall j :: 0 <= j < |log| ==> Live(r, rank, log[j])
    ensures var w := Children(r, log[k]);
      && (forall j :: 0 <= j < |log + w| ==> Live(r, rank, (log + w)[j]))
      && Total(r, rank, (log + w)[k + 1..]) + 1 == Total(r, rank, log[k..])
  {
    var u := log[k];
    assert Live(r, rank, u);
    var n := r.tasks[u].name;
    var w := Children(r, u);
    SlotTotal(r, rank, n, 0);
    assert Slot(r.depend2item, n)[0..] == Slot(r.depend2item, n);
    assert log[k..][1..] == log[k + 1..];
    assert (log + w)[k + 1..] == log[k + 1..] + w;
    TotalAppend(r, rank, log[k + 1..], w);
  }

  /** The continuations still to run, from `log[k]` on: the Tasks whose revert
      action gets invoked, in order. Clearing flags changes nothing these
      continuations read, so the flags are cleared in one go by `Revert`. */
  function RevertLog(r: Registry, rank: string -> nat, log: seq<TaskId>, k: nat): (ran: seq<TaskId>)
    requires Wf(r) && Ranked(r, rank) && k <= |log|
    requires forall j :: 0 <= j < |log| ==> Live(r, rank, log[j])
    decreases Total(r, rank, log[k..])
  {
    if k == |log| then log
    else
      StepWeight(r, rank, log, k);
      RevertLog(r, rank, log + Children(r, log[k]), k + 1)
  }

  /** Both flags cleared on the Tasks in `s`. */
  function Reset(r: Registry, s: set<TaskId>): Registry {
    r.(executed := r.executed - s, running := r.running - s)
  }

  /** `revert(name)` once every continuation has run: the new state and the
      Tasks whose revert action was invoked, in invocation order. */
  function Revert(r: Registry, rank: string -> nat, name: string): (res: (Registry, seq<TaskId>))
    requires Wf(r) && Ranked(r, rank) && (name in r.name2item ==> 0 < rank(name))
  {
    if name !in r.name2item then (r, [])
    else
      var ran := RevertLog(r, rank, [r.name2item[name]], 0);
      (Reset(r, Elems(ran)), ran)
  }
}
