/** `execute` of the task scheduler as functions of the scheduler's state.

    An `execute(name)` call runs synchronously up to `await item.option.execute()`:
    it checks the Task, sets `running` and invokes the action. The rest of the
    call (clearing `running`, setting `executed`, scanning `depend2item[name]`)
    runs later, and every further `execute` it makes does the same. With
    synchronous actions the continuations run in the order their actions were
    invoked, so a run is a first-in first-out work-list: `log` lists the Tasks
    whose action has been invoked, in invocation order, and the first `k` of them
    have finished their continuation. */
module SchedulerExecute {
  import opened Seqs
  import opened SchedulerRegistry

  /** `name2item[n]` exists and is executed: the guarded test of the cascade. */
  predicate Done(r: Registry, n: string) {
    n in r.name2item && r.name2item[n] in r.executed
  }

  /** Every prerequisite is registered and executed. */
  predicate AllDone(r: Registry, ds: seq<string>) {
    forall i :: 0 <= i < |ds| ==> Done(r, ds[i])
  }

  /** `id` is the Task registered under its own name. */
  predicate Registered(r: Registry, id: TaskId) {
    id in r.tasks && r.tasks[id].name in r.name2item && r.name2item[r.tasks[id].name] == id
  }

  /** Verdict of the prerequisite test at the head of `execute`, which scans
      `depends` in order and stops at the first entry that is not done. */
  datatype Verdict =
    | Ready
      /** `name2item[dep]` is undefined, so reading its `executed` raises. */
    | Missing(dep: string)
      /** `dep` is registered but not executed. */
    | Waiting(dep: string)

  function CheckDepends(r: Registry, ds: seq<string>): (v: Verdict)
    ensures v == Ready <==> AllDone(r, ds)
    ensures v.Missing? ==> v.dep in ds && v.dep !in r.name2item && AllDone(r, ds[..IndexOf(ds, v.dep)])
    ensures v.Waiting? ==> v.dep in ds && v.dep in r.name2item && !Done(r, v.dep)
                           && AllDone(r, ds[..IndexOf(ds, v.dep)])
  {
    if ds == [] then Ready
    else if ds[0] !in r.name2item then Missing(ds[0])
    else if !Done(r, ds[0]) then Waiting(ds[0])
    else
      var v := CheckDepends(r, ds[1..]);
      if v.Ready? then
        assert forall i :: 1 <= i < |ds| ==> ds[i] == ds[1..][i - 1];
        v
      else
        assert ds[0] != v.dep;
        var j := IndexOf(ds[1..], v.dep);
        assert IndexOf(ds, v.dep) == j + 1;
        assert ds[..j + 1] == [ds[0]] + ds[1..][..j];
        v
  }

  /** What the synchronous part of `execute(name)` decides. */
  datatype ExecOutcome =
      /** No Task under `name`: a warning, and `null`. */
    | UnknownTask
      /** A prerequisite is not registered: the unguarded lookup raises. */
    | MissingDependency(dep: string)
      /** A prerequisite is not executed: a warning, and `null`. */
    | DependencyPending(dep: string)
      /** The Task is executed or running already: `null`. */
    | AlreadyHandled
      /** The action is invoked and the Task is marked running. */
    | Started

  function Admit(r: Registry, name: string): (o: ExecOutcome)
    requires Wf(r)
    ensures o == UnknownTask <==> name !in r.name2item
    ensures name in r.name2item ==>
      var t := r.tasks[r.name2item[name]];
      && (o == Started <==> AllDone(r, t.depends) && r.name2item[name] in Idle(r))
      && (o == AlreadyHandled <==> AllDone(r, t.depends) && r.name2item[name] !in Idle(r))
      && (o.MissingDependency? ==> o.dep in t.depends && o.dep !in r.name2item)
      && (o.DependencyPending? ==> o.dep in t.depends && o.dep in r.name2item && !Done(r, o.dep))
  {
    if name !in r.name2item then UnknownTask
    else
      var id := r.name2item[name];
      match CheckDepends(r, r.tasks[id].depends)
      case Missing(d) => MissingDependency(d)
      case Waiting(d) => DependencyPending(d)
      case Ready => if id !in r.executed && id !in r.running then Started else AlreadyHandled
  }

  /** The Tasks that are neither executed nor running. */
  function Idle(r: Registry): set<TaskId> {
    r.tasks.Keys - r.executed - r.running
  }

  /** Only the flags of Tasks differ. */
  predicate SameShape(a: Registry, b: Registry) {
    a.tasks == b.tasks && a.name2item == b.name2item && a.depend2item == b.depend2item && a.nextId == b.nextId
  }

  /** `item.running = true`, just before the action is invoked. */
  function Start(r: Registry, id: TaskId): Registry {
    r.(running := r.running + {id})
  }

  /** `item.running = false; item.executed = true`, once the action has returned. */
  function Finish(r: Registry, id: TaskId): Registry {
    r.(running := r.running - {id}, executed := r.executed + {id})
  }

  /** One child of the `for` loop: when its own `depends` are all registered and
      executed, `execute` is called with its name, and it starts whatever Task
      is registered under that name if it admits it. The Task started, if any. */
  function Pick(r: Registry, c: TaskId): (o: Option<TaskId>)
    requires Wf(r) && c in r.tasks
    ensures o.Some? ==> Launch(r, c, o.value)
    ensures o.None? ==> !(Registered(r, c) && AllDone(r, r.tasks[c].depends) && c in Idle(r))
  {
    var child := r.tasks[c];
    if AllDone(r, child.depends) && Admit(r, child.name) == Started then
      AdmitIdle(r, child.name);
      Some(r.name2item[child.name])
    else None
  }

  /** `id` is idle, registered under the name of `c`, and has every
      prerequisite done. */
  predicate Launch(r: Registry, c: TaskId, id: TaskId)
    requires c in r.tasks
  {
    id in Idle(r) && Registered(r, id) && r.tasks[id].name == r.tasks[c].name && AllDone(r, r.tasks[id].depends)
  }

  /** The `for` loop over `depend2item[name]` from index `i` on. Started Tasks
      join the end of `log`. */
  function CascadeFrom(r: Registry, cs: seq<TaskId>, i: nat, log: seq<TaskId>): (res: (Registry, seq<TaskId>))
    requires Wf(r) && i <= |cs|
    requires forall j :: 0 <= j < |cs| ==> cs[j] in r.tasks
    requires forall j :: 0 <= j < |log| ==> log[j] in r.tasks
    ensures SameShape(r, res.0) && Wf(res.0)
    ensures |res.1| >= |log| && res.1[..|log|] == log
    ensures forall j :: 0 <= j < |res.1| ==> res.1[j] in res.0.tasks
    decreases |cs| - i
  {
    if i == |cs| then (r, log)
    else
      match Pick(r, cs[i])
      case None => CascadeFrom(r, cs, i + 1, log)
      case Some(id) =>
        var res := CascadeFrom(Start(r, id), cs, i + 1, log + [id]);
        assert res.1[..|log|] == (log + [id])[..|log|];
        res
  }

  /** Every Task the cascade starts leaves the idle set. */
  lemma {:induction false} CascadeIdle(r: Registry, cs: seq<TaskId>, i: nat, log: seq<TaskId>)
    requires Wf(r) && i <= |cs|
    requires forall j :: 0 <= j < |cs| ==> cs[j] in r.tasks
    requires forall j :: 0 <= j < |log| ==> log[j] in r.tasks
    ensures var res := CascadeFrom(r, cs, i, log); |Idle(res.0)| + |res.1| == |Idle(r)| + |log|
    decreases |cs| - i
  {
    if i < |cs| {
      match Pick(r, cs[i])
      case None => CascadeIdle(r, cs, i + 1, log);
      case Some(id) =>
        IdleTake(Idle(r), id);
        assert Idle(Start(r, id)) == Idle(r) - {id};
        CascadeIdle(Start(r, id), cs, i + 1, log + [id]);
    }
  }

  lemma AdmitIdle(r: Registry, name: string)
    requires Wf(r) && Admit(r, name) == Started
    ensures name in r.name2item && r.name2item[name] in Idle(r)
  {
  }

  lemma IdleTake(s: set<TaskId>, id: TaskId)
    ensures |s - {id}| == if id in s then |s| - 1 else |s|
  {
    if id in s {
      assert s == (s - {id}) + {id};
    } else {
      assert s - {id} == s;
    }
  }

  /** The continuation of `log[k]`: its flags change from running to executed
      and the loop over `depend2item[name]` runs. Either a Task is started,
      so fewer are idle, or the rest of the work-list is shorter. */
  function Continue(r: Registry, log: seq<TaskId>, k: nat): (res: (Registry, seq<TaskId>))
    requires Wf(r) && k < |log|
    requires forall i :: 0 <= i < |log| ==> log[i] in r.tasks
    ensures SameShape(r, res.0) && Wf(res.0)
    ensures log <= res.1
    ensures forall j :: 0 <= j < |res.1| ==> res.1[j] in res.0.tasks
    ensures |Idle(res.0)| < |Idle(r)| || (|Idle(res.0)| == |Idle(r)| && |res.1| - (k + 1) < |log| - k)
  {
    var u := log[k];
    var r1 := Finish(r, u);
    assert Idle(r1) == Idle(r) - {u};
    IdleTake(Idle(r), u);
    CascadeIdle(r1, Slot(r1.depend2item, r1.tasks[u].name), 0, log);
    CascadeFrom(r1, Slot(r1.depend2item, r1.tasks[u].name), 0, log)
  }

  /** The continuations still to run, from `log[k]` on, until none is left. */
  function Drain(r: Registry, log: seq<TaskId>, k: nat): (res: (Registry, seq<TaskId>))
    requires Wf(r) && k <= |log|
    requires forall i :: 0 <= i < |log| ==> log[i] in r.tasks
    decreases |Idle(r)|, |log| - k
  {
    if k == |log| then (r, log)
    else
      var res := Continue(r, log, k);
      Drain(res.0, res.1, k + 1)
  }

  /** The result of a top-level `execute(name)` once every continuation it
      caused has run: the synchronous outcome, the new state, and the Tasks
      whose action was invoked in invocation order. */
  datatype Run = Run(outcome: ExecOutcome, after: Registry, ran: seq<TaskId>)

  function Execute(r: Registry, name: string): Run
    requires Wf(r)
  {
    var o := Admit(r, name);
    if o != Started then Run(o, r, [])
    else
      var id := r.name2item[name];
      var res := Drain(Start(r, id), [id], 0);
      Run(Started, res.0, res.1)
  }
}
