/** The `TaskScheduler` class: its two dictionaries and the Task objects they
    point at are fields updated in place, and each method is proved to leave
    the state its specification function in `SchedulerRegistry`,
    `SchedulerExecute` or `SchedulerRevert` describes. */
module TaskSchedulers {
  import opened Seqs
  import opened SchedulerRegistry
  import opened SchedulerExecute
  import opened SchedulerExecuteFacts
  import opened SchedulerRevert
  import opened SchedulerRevertFacts

  class TaskScheduler {
    /** The Task objects created so far, by handle, with their fixed fields. */
    var tasks: map<TaskId, Task>
    var name2item: map<string, TaskId>
    var depend2item: map<string, seq<TaskId>>
    var nextId: TaskId
    /** The `executed` and `running` fields of the Task objects, as the sets of
        handles whose field is true. */
    var executed: set<TaskId>
    var running: set<TaskId>

    /** The state as a value. */
    function Model(): Registry
      reads this
    {
      Registry(tasks, name2item, depend2item, nextId, executed, running)
    }

    ghost predicate Valid()
      reads this
    {
      SchedulerRegistry.Valid(Model())
    }

    constructor()
      ensures Model() == Empty() && Valid()
    {
      tasks, name2item, depend2item, nextId := map[], map[], map[], 0;
      executed, running := {}, {};
    }

    /** `get size`. */
    function Size(): (n: nat)
      reads this
      ensures n == SchedulerRegistry.Size(Model())
    {
      |name2item|
    }

    /** `add(name, option)`. */
    method Add(name: string, depends: seq<string>)
      requires Valid()
      modifies this
      ensures Model() == SchedulerRegistry.Add(old(Model()), name, depends)
      ensures Valid()
    {
      AddValid(Model(), name, depends);
      var id := nextId;
      tasks := tasks[id := Task(name, depends)];
      name2item := name2item[name := id];
      nextId := id + 1;
      var i := 0;
      while i < |depends|
        invariant 0 <= i <= |depends|
        invariant Link(depend2item, depends[i..], id) == Link(old(depend2item), depends, id)
        invariant tasks == old(tasks)[id := Task(name, depends)] && name2item == old(name2item)[name := id]
        invariant nextId == id + 1 && executed == old(executed) && running == old(running)
      {
        var d := depends[i];
        assert depends[i..][1..] == depends[i + 1..];
        depend2item := depend2item[d := Slot(depend2item, d) + [id]];
        i := i + 1;
      }
    }

    /** `remove(name)`. */
    method Remove(name: string)
      requires Valid()
      modifies this
      ensures Model() == SchedulerRegistry.Remove(old(Model()), name)
      ensures Valid()
    {
      RemoveValid(Model(), name);
      if name !in name2item {
        return;
      }
      var id := name2item[name];
      name2item := name2item - {name};
      var ds := tasks[id].depends;
      var i := 0;
      while i < |ds|
        invariant 0 <= i <= |ds|
        invariant forall d :: Count(Slot(depend2item, d), id) == Count(ds[i..], d)
        invariant Unlink(depend2item, ds[i..], id) == Unlink(old(depend2item), ds, id)
        invariant tasks == old(tasks) && name2item == old(name2item) - {name}
        invariant nextId == old(nextId) && executed == old(executed) && running == old(running)
      {
        var d := ds[i];
        UnlinkStep(depend2item, ds[i..], id);
        assert ds[i..][0] == d;
        var slot := depend2item[d];
        var rest := RemoveAt(slot, IndexOf(slot, id));
        if |rest| == 0 {
          depend2item := depend2item - {d};
        } else {
          depend2item := depend2item[d := rest];
        }
        assert ds[i..][1..] == ds[i + 1..];
        i := i + 1;
      }
    }

    /** `execute(name)`, run until every continuation it causes has finished:
        the outcome of its synchronous part and the Tasks whose action was
        invoked, in invocation order. `log` is the work-list of continuations;
        the first `k` of them have run. */
    method Execute(name: string) returns (o: ExecOutcome, ran: seq<TaskId>)
      requires Valid()
      modifies this
      ensures var run := SchedulerExecute.Execute(old(Model()), name);
        o == run.outcome && ran == run.ran && Model() == run.after
      ensures Valid()
    {
      ExecuteValid(Model(), name);
      o := Admit(Model(), name);
      if o != Started {
        ran := [];
        return;
      }
      var id := name2item[name];
      running := running + {id};
      ran := Drain(id);
    }

    /** The work-list loop of `execute`, from the continuation of `id`, whose
        action has just been invoked. */
    method Drain(id: TaskId) returns (log: seq<TaskId>)
      requires Wf(Model()) && id in tasks
      modifies this
      ensures (Model(), log) == SchedulerExecute.Drain(old(Model()), [id], 0)
    {
      ghost var r0 := Model();
      log := [id];
      var k := 0;
      while k < |log|
        invariant k <= |log| && Wf(Model())
        invariant forall j :: 0 <= j < |log| ==> log[j] in tasks
        invariant SchedulerExecute.Drain(Model(), log, k) == SchedulerExecute.Drain(r0, [id], 0)
        decreases |Idle(Model())|, |log| - k
      {
        log := Continuation(log, k);
        k := k + 1;
      }
    }

    /** The continuation of `log[k]` in `execute`: its flags change, then the
        loop over the slot of its name starts each eligible child, appending it
        to the work-list. */
    method Continuation(log: seq<TaskId>, k: nat) returns (log': seq<TaskId>)
      requires Wf(Model()) && k < |log| && forall j :: 0 <= j < |log| ==> log[j] in tasks
      modifies this
      ensures (Model(), log') == Continue(old(Model()), log, k)
    {
      var u := log[k];
      running := running - {u};
      executed := executed + {u};
      ghost var r1 := Model();
      var cs := Slot(depend2item, tasks[u].name);
      log' := log;
      var i := 0;
      while i < |cs|
        invariant i <= |cs| && Wf(Model())
        invariant forall j :: 0 <= j < |cs| ==> cs[j] in tasks
        invariant forall j :: 0 <= j < |log'| ==> log'[j] in tasks
        invariant CascadeFrom(Model(), cs, i, log') == CascadeFrom(r1, cs, 0, log)
      {
        var next := Pick(Model(), cs[i]);
        if next.Some? {
          running := running + {next.value};
          log' := log' + [next.value];
        }
        i := i + 1;
      }
    }

    /** `revert(name)`, run until every continuation it causes has finished:
        the Tasks whose revert action was invoked, in invocation order. The
        rank is a proof device: with a cycle reachable from `name` the source
        never finishes. */
    method Revert(name: string, ghost rank: string -> nat) returns (ran: seq<TaskId>)
      requires Valid() && Ranked(Model(), rank) && (name in name2item ==> 0 < rank(name))
      modifies this
      ensures var res := SchedulerRevert.Revert(old(Model()), rank, name);
        Model() == res.0 && ran == res.1
      ensures Valid()
    {
      ghost var r0 := Model();
      if name !in name2item {
        ran := [];
        return;
      }
      var root := name2item[name];
      var log := [root];
      var k := 0;
      while k < |log|
        invariant k <= |log| && SameShape(r0, Model())
        invariant forall j :: 0 <= j < |log| ==> Live(r0, rank, log[j])
        invariant RevertLog(r0, rank, log, k) == RevertLog(r0, rank, [root], 0)
        invariant executed == r0.executed - Elems(log[..k]) && running == r0.running - Elems(log[..k])
        decreases Total(r0, rank, log[k..])
      {
        StepWeight(r0, rank, log, k);
        log := RevertContinuation(r0, log, k);
        k := k + 1;
      }
      assert log[..k] == log;
      ran := log;
      RevertAgain(r0, rank, name);
    }

    /** The continuation of `log[k]` in `revert`: both its flags are cleared,
        then `revert` is called on the name of each Task in the slot of its
        name, appending the Task registered there, if any, to the work-list. */
    method RevertContinuation(ghost r0: Registry, log: seq<TaskId>, k: nat) returns (log': seq<TaskId>)
      requires Wf(r0) && SameShape(r0, Model()) && k < |log| && log[k] in tasks
      requires executed == r0.executed - Elems(log[..k]) && running == r0.running - Elems(log[..k])
      modifies this
      ensures log' == log + Children(r0, log[k])
      ensures SameShape(r0, Model())
      ensures executed == r0.executed - Elems(log'[..k + 1]) && running == r0.running - Elems(log'[..k + 1])
    {
      var u := log[k];
      executed := executed - {u};
      running := running - {u};
      var cs := Slot(depend2item, tasks[u].name);
      log' := log;
      var i := 0;
      while i < |cs|
        invariant i <= |cs| && log' + Wake(r0, cs[i..]) == log + Children(r0, u)
      {
        assert cs[i..][1..] == cs[i + 1..];
        var n := tasks[cs[i]].name;
        if n in name2item {
          log' := log' + [name2item[n]];
        }
        i := i + 1;
      }
      assert cs[i..] == [];
      assert log' == log + Children(r0, u);
      assert log'[..k + 1] == log[..k + 1];
      assert log[..k + 1] == log[..k] + [u];
      ElemsAppend(log[..k], [u]);
    }
  }
}
