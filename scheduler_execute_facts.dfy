/** What a top-level `execute` does, proved about the functions of
    `SchedulerExecute`: which Tasks run, in what order, and that the cascade
    misses no dependent that has become eligible. */
module SchedulerExecuteFacts {
  import opened Seqs
  import opened SchedulerRegistry
  import opened SchedulerExecute

  /** The dictionaries agree, so the invariants do too. */
  lemma ShapeValid(a: Registry, b: Registry)
    requires SameShape(a, b) && Wf(a) && b.executed <= b.tasks.Keys && b.running <= b.tasks.Keys
    ensures Wf(b)
    ensures Indexed(a) ==> Indexed(b)
  {
  }

  lemma SameDone(a: Registry, b: Registry, ds: seq<string>)
    requires a.name2item == b.name2item && a.executed == b.executed
    ensures AllDone(a, ds) == AllDone(b, ds)
  {
    assert forall i :: 0 <= i < |ds| ==> Done(a, ds[i]) == Done(b, ds[i]);
  }

  /** Some Task in `cs` is named `n`. */
  ghost predicate NamedIn(r: Registry, cs: seq<TaskId>, n: string) {
    exists m :: 0 <= m < |cs| && cs[m] in r.tasks && r.tasks[cs[m]].name == n
  }

  /** `q` is registered under the name of a Task in the slot of `p`'s name. */
  ghost predicate IsChild(r: Registry, p: TaskId, q: TaskId) {
    p in r.tasks && q in r.tasks && NamedIn(r, Slot(r.depend2item, r.tasks[p].name), r.tasks[q].name)
  }

  /** The cascade starts only idle, registered Tasks whose prerequisites are
      all done and whose name is that of a child. */
  lemma {:induction false} CascadeStarts(r: Registry, cs: seq<TaskId>, i: nat, log: seq<TaskId>, x: TaskId)
    requires Wf(r) && i <= |cs|
    requires forall j :: 0 <= j < |cs| ==> cs[j] in r.tasks
    requires forall j :: 0 <= j < |log| ==> log[j] in r.tasks
    requires x in CascadeFrom(r, cs, i, log).1[|log|..]
    ensures x in Idle(r) && Registered(r, x) && AllDone(r, r.tasks[x].depends) && NamedIn(r, cs, r.tasks[x].name)
    decreases |cs| - i
  {
    var res := CascadeFrom(r, cs, i, log);
    match Pick(r, cs[i])
    case None =>
      CascadeStarts(r, cs, i + 1, log, x);
    case Some(id) =>
      var r1 := Start(r, id);
      var log1 := log + [id];
      assert res == CascadeFrom(r1, cs, i + 1, log1);
      assert res.1[..|log1|] == log1;
      assert res.1[|log|..] == [id] + res.1[|log1|..];
      if x == id {
        assert r.tasks[cs[i]].name == r.tasks[x].name;
      } else {
        CascadeStarts(r1, cs, i + 1, log1, x);
        SameDone(r1, r, r.tasks[x].depends);
      }
  }

  /** The cascade marks the Tasks it starts running and changes no other flag. */
  lemma {:induction false} CascadeFlags(r: Registry, cs: seq<TaskId>, i: nat, log: seq<TaskId>)
    requires Wf(r) && i <= |cs|
    requires forall j :: 0 <= j < |cs| ==> cs[j] in r.tasks
    requires forall j :: 0 <= j < |log| ==> log[j] in r.tasks
    ensures var res := CascadeFrom(r, cs, i, log);
      res.0.executed == r.executed && res.0.running == r.running + Elems(res.1[|log|..])
    decreases |cs| - i
  {
    var res := CascadeFrom(r, cs, i, log);
    if i < |cs| {
      match Pick(r, cs[i])
      case None =>
        CascadeFlags(r, cs, i + 1, log);
      case Some(id) =>
        var log1 := log + [id];
        CascadeFlags(Start(r, id), cs, i + 1, log1);
        assert res.1[..|log1|] == log1;
        assert res.1[|log|..] == [id] + res.1[|log1|..];
        ElemsAppend([id], res.1[|log1|..]);
        assert Elems([id]) == {id};
    }
  }

  /** The work-list stays free of repetitions. */
  lemma {:induction false} CascadeDistinct(r: Registry, cs: seq<TaskId>, i: nat, log: seq<TaskId>)
    requires Wf(r) && i <= |cs|
    requires forall j :: 0 <= j < |cs| ==> cs[j] in r.tasks
    requires forall j :: 0 <= j < |log| ==> log[j] in r.tasks
    requires Distinct(log) && forall j :: 0 <= j < |log| ==> log[j] !in Idle(r)
    ensures Distinct(CascadeFrom(r, cs, i, log).1)
    decreases |cs| - i
  {
    if i < |cs| {
      match Pick(r, cs[i])
      case None =>
        CascadeDistinct(r, cs, i + 1, log);
      case Some(id) =>
        CascadeDistinct(Start(r, id), cs, i + 1, log + [id]);
    }
  }

  /** A child that is registered and has all its prerequisites done is not idle
      once its turn in the loop has passed. */
  lemma {:induction false} CascadeCovers(r: Registry, cs: seq<TaskId>, i: nat, log: seq<TaskId>, m: nat)
    requires Wf(r) && i <= m < |cs|
    requires forall j :: 0 <= j < |cs| ==> cs[j] in r.tasks
    requires forall j :: 0 <= j < |log| ==> log[j] in r.tasks
    requires Registered(r, cs[m]) && AllDone(r, r.tasks[cs[m]].depends)
    ensures cs[m] !in Idle(CascadeFrom(r, cs, i, log).0)
    decreases |cs| - i
  {
    var res := CascadeFrom(r, cs, i, log);
    match Pick(r, cs[i])
    case None =>
      CascadeFlags(r, cs, i + 1, log);
      if m != i {
        CascadeCovers(r, cs, i + 1, log, m);
      }
    case Some(id) =>
      var r1 := Start(r, id);
      var log1 := log + [id];
      CascadeFlags(r1, cs, i + 1, log1);
      if m != i {
        SameDone(r1, r, r.tasks[cs[m]].depends);
        CascadeCovers(r1, cs, i + 1, log1, m);
      }
  }

  /** Each Task in the work-list was registered and idle when the call began. */
  ghost predicate FromIdle(r0: Registry, log: seq<TaskId>) {
    forall i :: 0 <= i < |log| ==> log[i] in Idle(r0) && Registered(r0, log[i])
  }

  /** Each prerequisite of a Task in the work-list is registered, and was either
      executed when the call began or is a Task whose action was invoked
      earlier. */
  ghost predicate InOrder(r0: Registry, log: seq<TaskId>) {
    forall i, d :: 0 <= i < |log| && log[i] in r0.tasks && d in r0.tasks[log[i]].depends ==>
      d in r0.name2item && (Done(r0, d) || r0.name2item[d] in log[..i])
  }

  /** Every Task but the first was reached through the slot of an earlier one. */
  ghost predicate Spawned(r0: Registry, log: seq<TaskId>) {
    forall i :: 0 < i < |log| ==> exists j :: 0 <= j < i && IsChild(r0, log[j], log[i])
  }

  /** A registered Task whose prerequisites are all done is not idle. */
  ghost predicate Covered(r0: Registry, r: Registry, c: TaskId) {
    Registered(r0, c) && AllDone(r, r0.tasks[c].depends) ==> c !in Idle(r)
  }

  /** The slots of the settled Tasks are covered. */
  ghost predicate Closed(r0: Registry, r: Registry, log: seq<TaskId>, k: nat) {
    forall i, m :: 0 <= i < k && i < |log| && log[i] in r0.tasks && 0 <= m < |Slot(r0.depend2item, r0.tasks[log[i]].name)| ==>
      Covered(r0, r, Slot(r0.depend2item, r0.tasks[log[i]].name)[m])
  }

  /** The invariant of the work-list: started at rest in `r0`, the Tasks
      `log[..k]` have finished and the rest of `log` is running. */
  ghost predicate DrainInv(r0: Registry, r: Registry, log: seq<TaskId>, k: nat) {
    && Base(r0, r, log, k) && Indexed(r0)
    && InOrder(r0, log) && Spawned(r0, log) && Closed(r0, r, log, k)
  }

  /** The flags part of that invariant. */
  ghost predicate Base(r0: Registry, r: Registry, log: seq<TaskId>, k: nat) {
    && Wf(r0) && AtRest(r0) && SameShape(r0, r) && k <= |log| && Distinct(log)
    && r.executed == r0.executed + Elems(log[..k])
    && r.running == Elems(log[k..])
    && FromIdle(r0, log)
  }

  /** The situation of one continuation: `log[k]` finishes in `r1`, and the
      loop over its slot `cs` gives `res`. */
  ghost predicate StepCtx(r0: Registry, r: Registry, log: seq<TaskId>, k: nat,
                          r1: Registry, cs: seq<TaskId>, res: (Registry, seq<TaskId>)) {
    && Base(r0, r, log, k) && k < |log|
    && r1 == Finish(r, log[k]) && Wf(r1) && log[k] in r1.tasks
    && cs == Slot(r1.depend2item, r1.tasks[log[k]].name)
    && (forall j :: 0 <= j < |cs| ==> cs[j] in r1.tasks)
    && (forall j :: 0 <= j < |log| ==> log[j] in r1.tasks)
    && res == CascadeFrom(r1, cs, 0, log)
  }

  lemma StepOpen(r0: Registry, r: Registry, log: seq<TaskId>, k: nat)
    requires Base(r0, r, log, k) && k < |log|
    ensures var r1 := Finish(r, log[k]);
      && Wf(r1) && log[k] in r1.tasks
      && var cs := Slot(r1.depend2item, r1.tasks[log[k]].name);
      && (forall j :: 0 <= j < |cs| ==> cs[j] in r1.tasks)
      && (forall j :: 0 <= j < |log| ==> log[j] in r1.tasks)
      && StepCtx(r0, r, log, k, r1, cs, CascadeFrom(r1, cs, 0, log))
  {
    var r1 := Finish(r, log[k]);
    assert forall j :: 0 <= j < |log| ==> log[j] in Idle(r0);
    assert Elems(log) <= r0.tasks.Keys;
    assert log == log[..k] + log[k..];
    ElemsAppend(log[..k], log[k..]);
    ShapeValid(r0, r1);
  }

  lemma StepAppends(r0: Registry, r: Registry, log: seq<TaskId>, k: nat,
                    r1: Registry, cs: seq<TaskId>, res: (Registry, seq<TaskId>))
    requires StepCtx(r0, r, log, k, r1, cs, res)
    ensures res.1 == log + res.1[|log|..]
  {
    assert res.1[..|log|] == log;
  }

  /** Finishing `log[k]` moves it from the running to the executed part. */
  lemma StepFinish(r0: Registry, r: Registry, log: seq<TaskId>, k: nat)
    requires Base(r0, r, log, k) && k < |log|
    ensures Finish(r, log[k]).executed == r0.executed + Elems(log[..k + 1])
    ensures Finish(r, log[k]).running == Elems(log[k + 1..])
  {
    var u := log[k];
    assert log[..k + 1] == log[..k] + [u];
    ElemsAppend(log[..k], [u]);
    assert log[k..] == [u] + log[k + 1..];
    ElemsAppend([u], log[k + 1..]);
    assert u !in log[k + 1..];
  }

  lemma StepFlags(r0: Registry, r: Registry, log: seq<TaskId>, k: nat,
                  r1: Registry, cs: seq<TaskId>, res: (Registry, seq<TaskId>))
    requires StepCtx(r0, r, log, k, r1, cs, res)
    requires res.1 == log + res.1[|log|..]
    ensures res.0.executed == r0.executed + Elems(res.1[..k + 1])
    ensures res.0.running == Elems(res.1[k + 1..])
  {
    var nw := res.1[|log|..];
    StepFinish(r0, r, log, k);
    CascadeFlags(r1, cs, 0, log);
    assert res.1[..k + 1] == log[..k + 1];
    assert res.1[k + 1..] == log[k + 1..] + nw;
    ElemsAppend(log[k + 1..], nw);
  }

  lemma StepDistinct(r0: Registry, r: Registry, log: seq<TaskId>, k: nat,
                     r1: Registry, cs: seq<TaskId>, res: (Registry, seq<TaskId>))
    requires StepCtx(r0, r, log, k, r1, cs, res)
    ensures Distinct(res.1)
  {
    var u := log[k];
    assert r1.executed == r.executed + {u};
    forall j | 0 <= j < |log| ensures log[j] !in Idle(r1) {
      if j < k {
        assert log[j] in log[..k];
      } else if j > k {
        assert log[j] in log[k..];
        assert log[j] != u;
      }
    }
    CascadeDistinct(r1, cs, 0, log);
  }

  lemma StepFromIdle(r0: Registry, r: Registry, log: seq<TaskId>, k: nat,
                     r1: Registry, cs: seq<TaskId>, res: (Registry, seq<TaskId>))
    requires StepCtx(r0, r, log, k, r1, cs, res)
    requires res.1 == log + res.1[|log|..]
    ensures FromIdle(r0, res.1)
  {
    forall j | 0 <= j < |res.1| ensures res.1[j] in Idle(r0) && Registered(r0, res.1[j]) {
      if j >= |log| {
        CascadeStarts(r1, cs, 0, log, res.1[j]);
      }
    }
  }

  lemma StepOrder(r0: Registry, r: Registry, log: seq<TaskId>, k: nat,
                  r1: Registry, cs: seq<TaskId>, res: (Registry, seq<TaskId>))
    requires StepCtx(r0, r, log, k, r1, cs, res) && InOrder(r0, log)
    requires res.1 == log + res.1[|log|..]
    ensures InOrder(r0, res.1)
  {
    forall j, d | 0 <= j < |res.1| && res.1[j] in r0.tasks && d in r0.tasks[res.1[j]].depends
      ensures d in r0.name2item && (Done(r0, d) || r0.name2item[d] in res.1[..j])
    {
      var x := res.1[j];
      if j < |log| {
        assert res.1[..j] == log[..j];
      } else {
        CascadeStarts(r1, cs, 0, log, x);
        var ds := r0.tasks[x].depends;
        var idx :| 0 <= idx < |ds| && ds[idx] == d;
        assert Done(r1, ds[idx]);
        var y := r0.name2item[d];
        if !Done(r0, d) {
          assert y in Elems(log[..k + 1]);
          assert res.1[..j][..k + 1] == log[..k + 1];
          assert y in res.1[..j];
        }
      }
    }
  }

  lemma StepSpawned(r0: Registry, r: Registry, log: seq<TaskId>, k: nat,
                    r1: Registry, cs: seq<TaskId>, res: (Registry, seq<TaskId>))
    requires StepCtx(r0, r, log, k, r1, cs, res) && Spawned(r0, log)
    requires res.1 == log + res.1[|log|..]
    ensures Spawned(r0, res.1)
  {
    forall j | 0 < j < |res.1| ensures exists i :: 0 <= i < j && IsChild(r0, res.1[i], res.1[j]) {
      if j < |log| {
        var i :| 0 <= i < j && IsChild(r0, log[i], log[j]);
        assert res.1[i] == log[i];
      } else {
        CascadeStarts(r1, cs, 0, log, res.1[j]);
        assert res.1[k] == log[k];
        assert IsChild(r0, res.1[k], res.1[j]);
      }
    }
  }

  lemma StepClosed(r0: Registry, r: Registry, log: seq<TaskId>, k: nat,
                   r1: Registry, cs: seq<TaskId>, res: (Registry, seq<TaskId>))
    requires StepCtx(r0, r, log, k, r1, cs, res) && Closed(r0, r, log, k) && Indexed(r0)
    requires res.1 == log + res.1[|log|..]
    requires res.0.executed == r0.executed + Elems(res.1[..k + 1])
    requires res.0.running == Elems(res.1[k + 1..])
    ensures Closed(r0, res.0, res.1, k + 1)
  {
    CascadeFlags(r1, cs, 0, log);
    forall i, m | 0 <= i < k + 1 && i < |res.1| && res.1[i] in r0.tasks
                  && 0 <= m < |Slot(r0.depend2item, r0.tasks[res.1[i]].name)|
      ensures Covered(r0, res.0, Slot(r0.depend2item, r0.tasks[res.1[i]].name)[m])
    {
      var c := Slot(r0.depend2item, r0.tasks[res.1[i]].name)[m];
      assert res.1[i] == log[i];
      if Registered(r0, c) && AllDone(res.0, r0.tasks[c].depends) {
        SameDone(res.0, r1, r0.tasks[c].depends);
        if i == k {
          CascadeCovers(r1, cs, 0, log, m);
        } else if AllDone(r, r0.tasks[c].depends) {
          assert Covered(r0, r, c);
        } else {
          StepWakes(r0, r, log, k, r1, cs, res, c);
        }
      }
    }
  }

  /** A Task registered by name and woken by `log[k]` finishing is in its slot. */
  lemma StepWakes(r0: Registry, r: Registry, log: seq<TaskId>, k: nat,
                  r1: Registry, cs: seq<TaskId>, res: (Registry, seq<TaskId>), c: TaskId)
    requires StepCtx(r0, r, log, k, r1, cs, res) && Indexed(r0)
    requires Registered(r0, c) && AllDone(r1, r0.tasks[c].depends) && !AllDone(r, r0.tasks[c].depends)
    ensures c !in Idle(res.0)
  {
    var ds := r0.tasks[c].depends;
    var idx :| 0 <= idx < |ds| && !Done(r, ds[idx]);
    var d := ds[idx];
    assert Done(r1, d);
    assert r0.name2item[d] == log[k];
    assert d == r0.tasks[log[k]].name;
    assert Count(Slot(r0.depend2item, d), c) == Count(ds, d) > 0;
    var m :| 0 <= m < |cs| && cs[m] == c;
    CascadeCovers(r1, cs, 0, log, m);
  }

  /** One continuation keeps the invariant. */
  lemma DrainStep(r0: Registry, r: Registry, log: seq<TaskId>, k: nat)
    requires DrainInv(r0, r, log, k) && k < |log|
    requires Wf(r) && forall i :: 0 <= i < |log| ==> log[i] in r.tasks
    ensures var res := Continue(r, log, k); DrainInv(r0, res.0, res.1, k + 1)
  {
    StepOpen(r0, r, log, k);
    var r1 := Finish(r, log[k]);
    var cs := Slot(r1.depend2item, r1.tasks[log[k]].name);
    var res := CascadeFrom(r1, cs, 0, log);
    assert res == Continue(r, log, k);
    StepAppends(r0, r, log, k, r1, cs, res);
    StepFlags(r0, r, log, k, r1, cs, res);
    StepDistinct(r0, r, log, k, r1, cs, res);
    StepFromIdle(r0, r, log, k, r1, cs, res);
    StepOrder(r0, r, log, k, r1, cs, res);
    StepSpawned(r0, r, log, k, r1, cs, res);
    StepClosed(r0, r, log, k, r1, cs, res);
  }

  lemma BaseWf(r0: Registry, r: Registry, log: seq<TaskId>, k: nat)
    requires Base(r0, r, log, k)
    ensures Wf(r) && forall i :: 0 <= i < |log| ==> log[i] in r.tasks
  {
    assert forall i :: 0 <= i < |log| ==> log[i] in Idle(r0);
    assert Elems(log) <= r0.tasks.Keys;
    assert log == log[..k] + log[k..];
    ElemsAppend(log[..k], log[k..]);
    ShapeValid(r0, r);
  }

  /** Draining the work-list keeps the invariant to the end, and only appends. */
  lemma {:induction false} DrainSound(r0: Registry, r: Registry, log: seq<TaskId>, k: nat)
    requires DrainInv(r0, r, log, k)
    requires Wf(r) && forall i :: 0 <= i < |log| ==> log[i] in r.tasks
    ensures var res := Drain(r, log, k);
      DrainInv(r0, res.0, res.1, |res.1|) && log <= res.1
    decreases |Idle(r)|, |log| - k
  {
    if k < |log| {
      DrainStep(r0, r, log, k);
      var res := Continue(r, log, k);
      DrainSound(r0, res.0, res.1, k + 1);
    }
  }

  /** Starting the Task named in the call establishes the invariant. */
  lemma ExecuteInit(r: Registry, name: string)
    requires Valid(r) && Admit(r, name) == Started
    ensures name in r.name2item
    ensures var id := r.name2item[name]; var r1 := Start(r, id);
      DrainInv(r, r1, [id], 0) && Wf(r1) && id in r1.tasks
  {
    var id := r.name2item[name];
    AdmitIdle(r, name);
    var r1 := Start(r, id);
    assert Elems([id]) == {id};
    assert [id][..0] == [];
    assert Elems<TaskId>([]) == {};
    forall i, d | 0 <= i < 1 && [id][i] in r.tasks && d in r.tasks[[id][i]].depends
      ensures d in r.name2item && (Done(r, d) || r.name2item[d] in [id][..i])
    {
      var ds := r.tasks[id].depends;
      var idx :| 0 <= idx < |ds| && ds[idx] == d;
      assert Done(r, ds[idx]);
    }
    ShapeValid(r, r1);
  }

  lemma ExecuteRun(r: Registry, name: string)
    requires Valid(r) && Admit(r, name) == Started
    ensures var run := Execute(r, name);
      && DrainInv(r, run.after, run.ran, |run.ran|)
      && run.ran != [] && run.ran[0] == r.name2item[name]
  {
    ExecuteInit(r, name);
    var id := r.name2item[name];
    DrainSound(r, Start(r, id), [id], 0);
  }

  /** `execute` changes nothing and invokes no action exactly when the name is
      unregistered, a prerequisite of its Task is unregistered or not executed,
      or the Task is executed or running already; `Admit` tells which. */
  lemma ExecuteRefused(r: Registry, name: string)
    requires Valid(r)
    ensures var run := Execute(r, name);
      && run.outcome == Admit(r, name)
      && (run.outcome != Started <==>
            name !in r.name2item || !AllDone(r, r.tasks[r.name2item[name]].depends)
            || r.name2item[name] !in Idle(r))
      && (run.outcome != Started ==> run.after == r && run.ran == [])
  {
  }

  /** A successful `execute` invokes the action of the named Task first, and of
      each Task at most once; every Task it ran was registered and idle, and
      ends executed and not running; no other flag and no dictionary changes,
      and the invariant is kept. */
  lemma ExecuteFlags(r: Registry, name: string)
    requires Valid(r) && Admit(r, name) == Started
    ensures var run := Execute(r, name);
      && Valid(run.after) && SameShape(r, run.after)
      && run.ran != [] && run.ran[0] == r.name2item[name] && Distinct(run.ran)
      && (forall i :: 0 <= i < |run.ran| ==> run.ran[i] in Idle(r) && Registered(r, run.ran[i]))
      && run.after.executed == r.executed + Elems(run.ran)
      && run.after.running == {}
  {
    ExecuteRun(r, name);
    var run := Execute(r, name);
    assert run.ran[..|run.ran|] == run.ran;
    assert run.ran[|run.ran|..] == [];
    assert Elems<TaskId>([]) == {};
    BaseWf(r, run.after, run.ran, |run.ran|);
    ShapeValid(r, run.after);
  }

  lemma RunOrdered(r: Registry, name: string)
    requires Valid(r) && Admit(r, name) == Started
    ensures InOrder(r, Execute(r, name).ran)
  {
    ExecuteRun(r, name);
  }

  lemma ExecuteValid(r: Registry, name: string)
    requires Valid(r)
    ensures Valid(Execute(r, name).after)
  {
    if Admit(r, name) == Started {
      ExecuteFlags(r, name);
    }
  }

  /** Every prerequisite of a Task that `execute` ran is registered, and was
      executed before the call or had its action invoked earlier in the run. */
  lemma ExecuteOrder(r: Registry, name: string)
    requires Valid(r) && Admit(r, name) == Started
    ensures var ran := Execute(r, name).ran;
      forall i, d :: 0 <= i < |ran| && ran[i] in r.tasks && d in r.tasks[ran[i]].depends ==>
        d in r.name2item && (Done(r, d) || r.name2item[d] in ran[..i])
  {
    RunOrdered(r, name);
  }

  /** Every Task that `execute` ran after the first is registered under the
      name of a Task in the slot of an earlier one: nothing unrelated runs. */
  lemma ExecuteReached(r: Registry, name: string)
    requires Valid(r) && Admit(r, name) == Started
    ensures Spawned(r, Execute(r, name).ran)
  {
    ExecuteRun(r, name);
  }

  /** The cascade misses nothing: after `execute`, every registered Task in the
      slot of a Task it ran whose prerequisites are all registered and executed
      is executed too. */
  lemma ExecuteComplete(r: Registry, name: string)
    requires Valid(r) && Admit(r, name) == Started
    ensures var run := Execute(r, name);
      forall i, m :: 0 <= i < |run.ran| && run.ran[i] in r.tasks
                     && 0 <= m < |Slot(r.depend2item, r.tasks[run.ran[i]].name)| ==>
        var c := Slot(r.depend2item, r.tasks[run.ran[i]].name)[m];
        Registered(r, c) && AllDone(run.after, r.tasks[c].depends) ==> c in run.after.executed
  {
    ExecuteRun(r, name);
    var run := Execute(r, name);
    assert run.ran[|run.ran|..] == [];
    assert Elems<TaskId>([]) == {};
    forall i, m | 0 <= i < |run.ran| && run.ran[i] in r.tasks
                  && 0 <= m < |Slot(r.depend2item, r.tasks[run.ran[i]].name)|
      ensures var c := Slot(r.depend2item, r.tasks[run.ran[i]].name)[m];
        Registered(r, c) && AllDone(run.after, r.tasks[c].depends) ==> c in run.after.executed
    {
      assert Covered(r, run.after, Slot(r.depend2item, r.tasks[run.ran[i]].name)[m]);
    }
  }
}
