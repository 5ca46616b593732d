/** The cases of `source/test/task-scheduler.spec.ts`, computed on the
    functions of the scheduler: each case registers its Tasks with `add`, makes
    its calls, and compares the sizes, or the names of the Tasks whose action or
    revert action was invoked, in invocation order. The handles are those `add`
    hands out: 0 for the first Task, 1 for the second, and so on. */
module SchedulerTables {
  import opened Seqs
  import opened SchedulerRegistry
  import opened SchedulerExecute
  import opened SchedulerRevert

  /** The names of the Tasks `ids`, in order: the tests' `execList` and
      `revertList`. */
  function Names(r: Registry, ids: seq<TaskId>): (ns: seq<string>)
    requires forall j :: 0 <= j < |ids| ==> ids[j] in r.tasks
    ensures |ns| == |ids|
  {
    if ids == [] then [] else [r.tasks[ids[0]].name] + Names(r, ids[1..])
  }

  // Unfolding the functions one step at a time, on any state.

  lemma CascadeTake(r: Registry, cs: seq<TaskId>, i: nat, log: seq<TaskId>, id: TaskId)
    requires Wf(r) && i < |cs| && (forall j :: 0 <= j < |cs| ==> cs[j] in r.tasks)
    requires (forall j :: 0 <= j < |log| ==> log[j] in r.tasks) && Pick(r, cs[i]) == Some(id)
    ensures CascadeFrom(r, cs, i, log) == CascadeFrom(Start(r, id), cs, i + 1, log + [id])
  {
  }

  /** A child whose own prerequisites, and those of the Task now registered
      under its name, are all done starts that Task when it is idle. */
  lemma PickStarts(r: Registry, c: TaskId, id: TaskId)
    requires Wf(r) && c in r.tasks && r.tasks[c].name in r.name2item && r.name2item[r.tasks[c].name] == id
    requires AllDone(r, r.tasks[c].depends) && AllDone(r, r.tasks[id].depends) && id in Idle(r)
    ensures Pick(r, c) == Some(id)
  {
    assert CheckDepends(r, r.tasks[id].depends) == Ready;
  }

  /** After the continuation of `log[k]`, the rest of the work-list carries on. */
  lemma DrainOnce(r: Registry, log: seq<TaskId>, k: nat)
    requires Wf(r) && k < |log| && forall i :: 0 <= i < |log| ==> log[i] in r.tasks
    ensures var (r', log') := Continue(r, log, k);
      Wf(r') && k + 1 <= |log'| && (forall i :: 0 <= i < |log'| ==> log'[i] in r'.tasks)
      && Drain(r, log, k) == Drain(r', log', k + 1)
  {
  }

  /** With no continuation left, nothing changes. */
  lemma DrainDone(r: Registry, log: seq<TaskId>, k: nat)
    requires Wf(r) && k == |log| && forall i :: 0 <= i < |log| ==> log[i] in r.tasks
    ensures Drain(r, log, k).0 == r && Drain(r, log, k).1 == log
  {
  }

  lemma RevertOnce(r: Registry, rank: string -> nat, log: seq<TaskId>, k: nat)
    requires Wf(r) && Ranked(r, rank) && k < |log| && forall j :: 0 <= j < |log| ==> Live(r, rank, log[j])
    ensures var log' := log + Children(r, log[k]);
      && (forall j :: 0 <= j < |log'| ==> Live(r, rank, log'[j]))
      && RevertLog(r, rank, log, k) == RevertLog(r, rank, log', k + 1)
  {
    StepWeight(r, rank, log, k);
  }

  /** A continuation whose slot is empty only marks `log[k]` executed. */
  lemma ContinueNone(r: Registry, log: seq<TaskId>, k: nat)
    requires Wf(r) && k < |log| && forall i :: 0 <= i < |log| ==> log[i] in r.tasks
    requires var r1 := Finish(r, log[k]); Slot(r1.depend2item, r1.tasks[log[k]].name) == []
    ensures Continue(r, log, k) == (Finish(r, log[k]), log)
  {
  }

  /** A continuation whose slot holds one child that starts `id`. */
  lemma ContinueOne(r: Registry, log: seq<TaskId>, k: nat, c: TaskId, id: TaskId)
    requires Wf(r) && k < |log| && forall i :: 0 <= i < |log| ==> log[i] in r.tasks
    requires var r1 := Finish(r, log[k]);
      Slot(r1.depend2item, r1.tasks[log[k]].name) == [c] && c in r1.tasks && Pick(r1, c) == Some(id)
    ensures Continue(r, log, k).0 == Start(Finish(r, log[k]), id) && Continue(r, log, k).1 == log + [id]
  {
    var r1 := Finish(r, log[k]);
    CascadeTake(r1, [c], 0, log, id);
  }

  /** A continuation whose slot holds two children that start `id1`, then `id2`. */
  lemma ContinueTwo(r: Registry, log: seq<TaskId>, k: nat, c1: TaskId, c2: TaskId, id1: TaskId, id2: TaskId)
    requires Wf(r) && k < |log| && forall i :: 0 <= i < |log| ==> log[i] in r.tasks
    requires var r1 := Finish(r, log[k]);
      && Slot(r1.depend2item, r1.tasks[log[k]].name) == [c1, c2] && c1 in r1.tasks && c2 in r1.tasks
      && Pick(r1, c1) == Some(id1) && Pick(Start(r1, id1), c2) == Some(id2)
    ensures Continue(r, log, k) == (Start(Start(Finish(r, log[k]), id1), id2), log + [id1, id2])
  {
    var r1 := Finish(r, log[k]);
    CascadeTake(r1, [c1, c2], 0, log, id1);
    assert Wf(Start(r1, id1));
    CascadeTake(Start(r1, id1), [c1, c2], 1, log + [id1], id2);
    assert log + [id1] + [id2] == log + [id1, id2];
  }

  // The `add` and `remove` cases: the size after each call.

  const TTest := Task("test", [])

  /** The scheduler holding the single Task `test`, with its flags. */
  function One(executed: set<TaskId>): Registry {
    Registry(map[0 := TTest], map["test" := 0], map[], 1, executed, {})
  }

  lemma OneWf(executed: set<TaskId>)
    requires executed <= {0}
    ensures Wf(One(executed))
  {
  }

  /** `add('test')` on a new scheduler. */
  lemma AddOne()
    ensures Add(Empty(), "test", []) == One({}) && Valid(One({}))
  {
    AddValid(Empty(), "test", []);
  }

  /** The scheduler after `add('test1')` and `add('test2')`. */
  function Two(): Registry {
    Registry(map[0 := Task("test1", []), 1 := Task("test2", [])], map["test1" := 0, "test2" := 1], map[], 2, {}, {})
  }

  lemma AddTwo()
    ensures Add(Add(Empty(), "test1", []), "test2", []) == Two() && Valid(Two())
  {
    AddValid(Empty(), "test1", []);
    AddValid(Add(Empty(), "test1", []), "test2", []);
  }

  /** Adding one Task makes the size 1, two Tasks 2, and the same name twice 1. */
  lemma TableAdd()
    ensures Size(Empty()) == 0 && Size(Add(Empty(), "test", [])) == 1
    ensures Size(Add(Add(Empty(), "test1", []), "test2", [])) == 2
    ensures Size(Add(Add(Empty(), "test", []), "test", [])) == 1
  {
    AddOne();
    AddTwo();
    assert Two().name2item.Keys == {"test1", "test2"};
    assert Add(Add(Empty(), "test", []), "test", []).name2item == map["test" := 1];
  }

  /** Removing a name never added leaves the size at 1. */
  lemma TableRemoveMissing()
    ensures Size(Remove(Add(Empty(), "test", []), "test1")) == 1
  {
    AddOne();
  }

  /** Removing one of two Tasks leaves the size at 1. */
  lemma TableRemoveOne()
    ensures Size(Remove(Add(Add(Empty(), "test1", []), "test2", []), "test1")) == 1
  {
    AddTwo();
    assert Remove(Two(), "test1").name2item == map["test2" := 1];
  }

  /** Adding a Task and removing it leaves the size at 0. */
  lemma TableAddRemove()
    ensures Size(Add(Empty(), "test", [])) == 1 && Size(Remove(Add(Empty(), "test", []), "test")) == 0
  {
    AddOne();
    assert Remove(One({}), "test").name2item == map[];
  }

  // `execute` and `revert` of the single Task.

  /** `execute('test')` invokes the action of `test` once, and no revert
      action. */
  lemma TableExecuteOne()
    ensures Wf(One({})) && Execute(One({}), "test") == Run(Started, One({0}), [0])
    ensures Names(One({0}), [0]) == ["test"]
  {
    OneWf({});
    OneWf({0});
    var r := One({});
    assert Admit(r, "test") == Started;
    var r0 := Start(r, 0);
    var r1 := Finish(r0, 0);
    assert r1 == One({0});
    assert Slot(r1.depend2item, "test") == [];
    ContinueNone(r0, [0], 0);
    DrainOnce(r0, [0], 0);
    DrainDone(r1, [0], 1);
    assert Names(One({0}), [0]) == ["test"] + Names(One({0}), []);
  }

  /** The rank 1 on every name. */
  function UnitRank(n: string): nat {
    1
  }

  /** The one-Task scheduler has no dependants, so any positive rank will do. */
  lemma OneRanked(executed: set<TaskId>)
    requires executed <= {0}
    ensures Wf(One(executed)) && Ranked(One(executed), UnitRank)
  {
    OneWf(executed);
    assert forall n :: Slot(One(executed).depend2item, n) == [];
  }

  /** `revert('test')` right after `execute('test')` invokes the revert action
      of `test` once and clears its flag, so a later `execute` would run it
      again. */
  lemma TableRevertOne()
    ensures Wf(One({0})) && Ranked(One({0}), UnitRank)
    ensures Revert(One({0}), UnitRank, "test").0 == One({}) && Revert(One({0}), UnitRank, "test").1 == [0]
  {
    OneRanked({0});
    var r := One({0});
    assert Live(r, UnitRank, 0);
    RevertOnce(r, UnitRank, [0], 0);
    assert Children(r, 0) == [];
    assert [0] + [] == [0];
    assert RevertLog(r, UnitRank, [0], 1) == [0];
    assert RevertLog(r, UnitRank, [0], 0) == [0];
    assert Revert(r, UnitRank, "test").1 == [0];
    assert Elems([0]) == {0};
    assert Reset(r, {0}) == One({});
    assert Revert(r, UnitRank, "test").0 == Reset(r, Elems([0]));
  }

  // `execute('a')` and `revert('a')` on the four Tasks `a`, `b` (after `a`),
  // `c` (after `b`) and `d`, which is independent of the others in the first
  // case and comes after `b` in the second.

  const TA := Task("a", [])
  const TB := Task("b", ["a"])
  const TC := Task("c", ["b"])

  /** The four Tasks, with `d` as given, its reverse index, and the flags. */
  function Four(td: Task, dm: map<string, seq<TaskId>>, executed: set<TaskId>, running: set<TaskId>): Registry {
    Registry(map[0 := TA, 1 := TB, 2 := TC, 3 := td], map["a" := 0, "b" := 1, "c" := 2, "d" := 3], dm, 4, executed, running)
  }

  /** `d` depends on nothing. */
  function Serial(executed: set<TaskId>, running: set<TaskId>): Registry {
    Four(Task("d", []), map["a" := [1], "b" := [2]], executed, running)
  }

  /** `d` comes after `b`, beside `c`. */
  function Fan(executed: set<TaskId>, running: set<TaskId>): Registry {
    Four(Task("d", ["b"]), map["a" := [1], "b" := [2, 3]], executed, running)
  }

  lemma SerialWf(executed: set<TaskId>, running: set<TaskId>)
    requires executed <= {0, 1, 2, 3} && running <= {0, 1, 2, 3}
    ensures Wf(Serial(executed, running))
  {
  }

  lemma FanWf(executed: set<TaskId>, running: set<TaskId>)
    requires executed <= {0, 1, 2, 3} && running <= {0, 1, 2, 3}
    ensures Wf(Fan(executed, running))
  {
  }

  lemma LinkOne(dm: map<string, seq<TaskId>>, d: string, id: TaskId)
    ensures Link(dm, [d], id) == dm[d := Slot(dm, d) + [id]]
  {
    assert [d][1..] == [];
  }

  lemma LinkA()
    ensures Link(map[], ["a"], 1) == map["a" := [1]]
  {
    LinkOne(map[], "a", 1);
    assert Slot(map[], "a") + [1] == [1];
  }

  lemma LinkB(id: TaskId)
    ensures Link(map["a" := [1]], ["b"], id) == map["a" := [1], "b" := [id]]
  {
    LinkOne(map["a" := [1]], "b", id);
    assert Slot(map["a" := [1]], "b") + [id] == [id];
  }

  lemma LinkD()
    ensures Link(map["a" := [1], "b" := [2]], ["b"], 3) == map["a" := [1], "b" := [2, 3]]
  {
    LinkOne(map["a" := [1], "b" := [2]], "b", 3);
    assert Slot(map["a" := [1], "b" := [2]], "b") + [3] == [2, 3];
  }

  /** The first three `add` calls of both cases. */
  function Three(): Registry {
    Registry(map[0 := TA, 1 := TB, 2 := TC], map["a" := 0, "b" := 1, "c" := 2], map["a" := [1], "b" := [2]], 3, {}, {})
  }

  lemma AddThree()
    ensures Add(Add(Add(Empty(), "a", []), "b", ["a"]), "c", ["b"]) == Three() && Valid(Three())
  {
    var r1 := Add(Empty(), "a", []);
    assert r1 == Registry(map[0 := TA], map["a" := 0], map[], 1, {}, {});
    LinkA();
    var r2 := Add(r1, "b", ["a"]);
    assert r2 == Registry(map[0 := TA, 1 := TB], map["a" := 0, "b" := 1], map["a" := [1]], 2, {}, {});
    LinkB(2);
    AddValid(Empty(), "a", []);
    AddValid(r1, "b", ["a"]);
    AddValid(r2, "c", ["b"]);
  }

  /** The `add` calls of the first case build `Serial`. */
  lemma AddSerial()
    ensures Add(Add(Add(Add(Empty(), "a", []), "b", ["a"]), "c", ["b"]), "d", []) == Serial({}, {})
    ensures Valid(Serial({}, {}))
  {
    AddThree();
    AddValid(Three(), "d", []);
  }

  /** The `add` calls of the second case build `Fan`. */
  lemma AddFan()
    ensures Add(Add(Add(Add(Empty(), "a", []), "b", ["a"]), "c", ["b"]), "d", ["b"]) == Fan({}, {})
    ensures Valid(Fan({}, {}))
  {
    AddThree();
    LinkD();
    AddValid(Three(), "d", ["b"]);
  }

  lemma FourNames(td: Task, dm: map<string, seq<TaskId>>, executed: set<TaskId>, running: set<TaskId>)
    requires td.name == "d"
    ensures Names(Four(td, dm, executed, running), [0, 1, 2]) == ["a", "b", "c"]
    ensures Names(Four(td, dm, executed, running), [0, 1, 2, 3]) == ["a", "b", "c", "d"]
  {
    var r := Four(td, dm, executed, running);
    assert [0, 1, 2, 3][1..] == [1, 2, 3] && [1, 2, 3][1..] == [2, 3] && [2, 3][1..] == [3];
    assert [0, 1, 2][1..] == [1, 2] && [1, 2][1..] == [2] && [2][1..] == [] && [3][1..] == [];
    assert Names(r, [3]) == ["d"];
    assert Names(r, [2]) == ["c"];
    assert Names(r, [2, 3]) == ["c", "d"];
  }

  /** The flags of `Four` as `Start` and `Finish` change them. */
  lemma FourFlags(td: Task, dm: map<string, seq<TaskId>>, executed: set<TaskId>, running: set<TaskId>, id: TaskId)
    ensures Start(Four(td, dm, executed, running), id) == Four(td, dm, executed, running + {id})
    ensures Finish(Four(td, dm, executed, running), id) == Four(td, dm, executed + {id}, running - {id})
  {
  }

  /** The work-lists and flag sets the cases below go through. */
  lemma Literals()
    ensures [0] + [1] == [0, 1] && [0, 1] + [2] == [0, 1, 2] && [0, 1] + [2, 3] == [0, 1, 2, 3]
    ensures {} + {0} == {0} && {0} - {0} == {} && {} + {1} == {1}
    ensures {0} + {1} == {0, 1} && {1} - {1} == {} && {} + {2} == {2}
    ensures {0, 1} + {2} == {0, 1, 2} && {2} - {2} == {}
    ensures {0, 1} + {2, 3} == {0, 1, 2, 3} && {2, 3} - {2} == {3} && {0, 1, 2} + {3} == {0, 1, 2, 3} && {3} - {3} == {}
  {
  }

  // The continuations of `execute('a')` on `Serial`, one at a time.

  lemma SerialPicks()
    ensures Wf(Serial({0}, {})) && Pick(Serial({0}, {}), 1) == Some(1)
    ensures Wf(Serial({0, 1}, {})) && Pick(Serial({0, 1}, {}), 2) == Some(2)
  {
    SerialWf({0}, {});
    PickStarts(Serial({0}, {}), 1, 1);
    SerialWf({0, 1}, {});
    PickStarts(Serial({0, 1}, {}), 2, 2);
  }

  lemma SerialFirst()
    ensures Wf(Serial({}, {0}))
    ensures Continue(Serial({}, {0}), [0], 0).0 == Serial({0}, {1}) && Continue(Serial({}, {0}), [0], 0).1 == [0, 1]
  {
    SerialWf({}, {0});
    FourFlags(Task("d", []), map["a" := [1], "b" := [2]], {}, {0}, 0);
    FourFlags(Task("d", []), map["a" := [1], "b" := [2]], {0}, {}, 1);
    Literals();
    SerialPicks();
    ContinueOne(Serial({}, {0}), [0], 0, 1, 1);
  }

  lemma SerialSecond()
    ensures Wf(Serial({0}, {1}))
    ensures Continue(Serial({0}, {1}), [0, 1], 1).0 == Serial({0, 1}, {2})
    ensures Continue(Serial({0}, {1}), [0, 1], 1).1 == [0, 1, 2]
  {
    SerialWf({0}, {1});
    FourFlags(Task("d", []), map["a" := [1], "b" := [2]], {0}, {1}, 1);
    FourFlags(Task("d", []), map["a" := [1], "b" := [2]], {0, 1}, {}, 2);
    Literals();
    SerialPicks();
    ContinueOne(Serial({0}, {1}), [0, 1], 1, 2, 2);
  }

  lemma SerialThird()
    ensures Wf(Serial({0, 1}, {2}))
    ensures Continue(Serial({0, 1}, {2}), [0, 1, 2], 2).0 == Serial({0, 1, 2}, {})
    ensures Continue(Serial({0, 1}, {2}), [0, 1, 2], 2).1 == [0, 1, 2]
  {
    SerialWf({0, 1}, {2});
    FourFlags(Task("d", []), map["a" := [1], "b" := [2]], {0, 1}, {2}, 2);
    Literals();
    ContinueNone(Serial({0, 1}, {2}), [0, 1, 2], 2);
  }

  lemma SerialStep1()
    ensures Wf(Serial({}, {0})) && Wf(Serial({0}, {1}))
    ensures Drain(Serial({}, {0}), [0], 0) == Drain(Serial({0}, {1}), [0, 1], 1)
  {
    SerialFirst();
    SerialWf({0}, {1});
  }

  lemma SerialStep2()
    ensures Wf(Serial({0}, {1})) && Wf(Serial({0, 1}, {2}))
    ensures Drain(Serial({0}, {1}), [0, 1], 1) == Drain(Serial({0, 1}, {2}), [0, 1, 2], 2)
  {
    SerialSecond();
    SerialWf({0, 1}, {2});
  }

  lemma SerialStep3()
    ensures Wf(Serial({0, 1}, {2})) && Wf(Serial({0, 1, 2}, {}))
    ensures Drain(Serial({0, 1}, {2}), [0, 1, 2], 2) == Drain(Serial({0, 1, 2}, {}), [0, 1, 2], 3)
  {
    SerialThird();
    SerialWf({0, 1, 2}, {});
  }

  lemma SerialChain()
    ensures Drain(Serial({}, {0}), [0], 0) == Drain(Serial({0, 1, 2}, {}), [0, 1, 2], 3)
  {
    SerialStep1();
    SerialStep2();
    SerialStep3();
  }

  lemma SerialDone()
    ensures Drain(Serial({0, 1, 2}, {}), [0, 1, 2], 3).0 == Serial({0, 1, 2}, {})
    ensures Drain(Serial({0, 1, 2}, {}), [0, 1, 2], 3).1 == [0, 1, 2]
  {
    SerialWf({0, 1, 2}, {});
    DrainDone(Serial({0, 1, 2}, {}), [0, 1, 2], 3);
  }

  lemma SerialDrain()
    ensures Drain(Serial({}, {0}), [0], 0).0 == Serial({0, 1, 2}, {}) && Drain(Serial({}, {0}), [0], 0).1 == [0, 1, 2]
  {
    SerialChain();
    SerialDone();
  }

  /** `execute('a')` invokes the actions of `a`, `b` and `c` in that order;
      `d`, which depends on nothing, is not invoked. */
  lemma TableExecuteSerial()
    ensures Wf(Serial({}, {})) && Execute(Serial({}, {}), "a") == Run(Started, Serial({0, 1, 2}, {}), [0, 1, 2])
    ensures Names(Serial({0, 1, 2}, {}), [0, 1, 2]) == ["a", "b", "c"] && 3 !in Serial({0, 1, 2}, {}).executed
  {
    SerialWf({}, {});
    var r := Serial({}, {});
    assert Admit(r, "a") == Started;
    FourFlags(Task("d", []), map["a" := [1], "b" := [2]], {}, {}, 0);
    assert {} + {0} == {0};
    SerialDrain();
    FourNames(Task("d", []), map["a" := [1], "b" := [2]], {0, 1, 2}, {});
  }

  // The continuations of `execute('a')` on `Fan`: `b` wakes `c` and `d`.

  lemma FanPicks()
    ensures Wf(Fan({0}, {})) && Pick(Fan({0}, {}), 1) == Some(1)
    ensures Wf(Fan({0, 1}, {})) && Pick(Fan({0, 1}, {}), 2) == Some(2)
    ensures Wf(Fan({0, 1}, {2})) && Pick(Fan({0, 1}, {2}), 3) == Some(3)
  {
    FanWf({0}, {});
    PickStarts(Fan({0}, {}), 1, 1);
    FanWf({0, 1}, {});
    PickStarts(Fan({0, 1}, {}), 2, 2);
    FanWf({0, 1}, {2});
    PickStarts(Fan({0, 1}, {2}), 3, 3);
  }

  lemma FanFirst()
    ensures Wf(Fan({}, {0}))
    ensures Continue(Fan({}, {0}), [0], 0).0 == Fan({0}, {1}) && Continue(Fan({}, {0}), [0], 0).1 == [0, 1]
  {
    FanWf({}, {0});
    FourFlags(Task("d", ["b"]), map["a" := [1], "b" := [2, 3]], {}, {0}, 0);
    FourFlags(Task("d", ["b"]), map["a" := [1], "b" := [2, 3]], {0}, {}, 1);
    Literals();
    FanPicks();
    ContinueOne(Fan({}, {0}), [0], 0, 1, 1);
  }

  lemma FanSecond()
    ensures Wf(Fan({0}, {1}))
    ensures Continue(Fan({0}, {1}), [0, 1], 1).0 == Fan({0, 1}, {2, 3})
    ensures Continue(Fan({0}, {1}), [0, 1], 1).1 == [0, 1, 2, 3]
  {
    FanWf({0}, {1});
    FourFlags(Task("d", ["b"]), map["a" := [1], "b" := [2, 3]], {0}, {1}, 1);
    FourFlags(Task("d", ["b"]), map["a" := [1], "b" := [2, 3]], {0, 1}, {}, 2);
    FourFlags(Task("d", ["b"]), map["a" := [1], "b" := [2, 3]], {0, 1}, {2}, 3);
    Literals();
    FanPicks();
    ContinueTwo(Fan({0}, {1}), [0, 1], 1, 2, 3, 2, 3);
  }

  lemma FanThird()
    ensures Wf(Fan({0, 1}, {2, 3}))
    ensures Continue(Fan({0, 1}, {2, 3}), [0, 1, 2, 3], 2).0 == Fan({0, 1, 2}, {3})
    ensures Continue(Fan({0, 1}, {2, 3}), [0, 1, 2, 3], 2).1 == [0, 1, 2, 3]
  {
    FanWf({0, 1}, {2, 3});
    FourFlags(Task("d", ["b"]), map["a" := [1], "b" := [2, 3]], {0, 1}, {2, 3}, 2);
    Literals();
    ContinueNone(Fan({0, 1}, {2, 3}), [0, 1, 2, 3], 2);
  }

  lemma FanFourth()
    ensures Wf(Fan({0, 1, 2}, {3}))
    ensures Continue(Fan({0, 1, 2}, {3}), [0, 1, 2, 3], 3).0 == Fan({0, 1, 2, 3}, {})
    ensures Continue(Fan({0, 1, 2}, {3}), [0, 1, 2, 3], 3).1 == [0, 1, 2, 3]
  {
    FanWf({0, 1, 2}, {3});
    FourFlags(Task("d", ["b"]), map["a" := [1], "b" := [2, 3]], {0, 1, 2}, {3}, 3);
    Literals();
    ContinueNone(Fan({0, 1, 2}, {3}), [0, 1, 2, 3], 3);
  }

  lemma FanStep1()
    ensures Wf(Fan({}, {0})) && Wf(Fan({0}, {1}))
    ensures Drain(Fan({}, {0}), [0], 0) == Drain(Fan({0}, {1}), [0, 1], 1)
  {
    FanFirst();
    FanWf({0}, {1});
  }

  lemma FanStep2()
    ensures Wf(Fan({0}, {1})) && Wf(Fan({0, 1}, {2, 3}))
    ensures Drain(Fan({0}, {1}), [0, 1], 1) == Drain(Fan({0, 1}, {2, 3}), [0, 1, 2, 3], 2)
  {
    FanSecond();
    FanWf({0, 1}, {2, 3});
  }

  lemma FanStep3()
    ensures Wf(Fan({0, 1}, {2, 3})) && Wf(Fan({0, 1, 2}, {3}))
    ensures Drain(Fan({0, 1}, {2, 3}), [0, 1, 2, 3], 2) == Drain(Fan({0, 1, 2}, {3}), [0, 1, 2, 3], 3)
  {
    FanThird();
    FanWf({0, 1, 2}, {3});
  }

  lemma FanStep4()
    ensures Wf(Fan({0, 1, 2}, {3})) && Wf(Fan({0, 1, 2, 3}, {}))
    ensures Drain(Fan({0, 1, 2}, {3}), [0, 1, 2, 3], 3) == Drain(Fan({0, 1, 2, 3}, {}), [0, 1, 2, 3], 4)
  {
    FanFourth();
    FanWf({0, 1, 2, 3}, {});
  }

  lemma FanChain()
    ensures Drain(Fan({}, {0}), [0], 0) == Drain(Fan({0, 1, 2, 3}, {}), [0, 1, 2, 3], 4)
  {
    FanStep1();
    FanStep2();
    FanStep3();
    FanStep4();
  }

  lemma FanDone()
    ensures Drain(Fan({0, 1, 2, 3}, {}), [0, 1, 2, 3], 4).0 == Fan({0, 1, 2, 3}, {})
    ensures Drain(Fan({0, 1, 2, 3}, {}), [0, 1, 2, 3], 4).1 == [0, 1, 2, 3]
  {
    FanWf({0, 1, 2, 3}, {});
    DrainDone(Fan({0, 1, 2, 3}, {}), [0, 1, 2, 3], 4);
  }

  lemma FanDrain()
    ensures Drain(Fan({}, {0}), [0], 0).0 == Fan({0, 1, 2, 3}, {}) && Drain(Fan({}, {0}), [0], 0).1 == [0, 1, 2, 3]
  {
    FanChain();
    FanDone();
  }

  /** `execute('a')` invokes the actions of `a`, `b`, `c` and `d` in that
      order: `c` and `d` both wait for `b` and start in the order they were
      added. */
  lemma TableExecuteFan()
    ensures Wf(Fan({}, {})) && Execute(Fan({}, {}), "a") == Run(Started, Fan({0, 1, 2, 3}, {}), [0, 1, 2, 3])
    ensures Names(Fan({0, 1, 2, 3}, {}), [0, 1, 2, 3]) == ["a", "b", "c", "d"]
  {
    FanWf({}, {});
    var r := Fan({}, {});
    assert Admit(r, "a") == Started;
    FourFlags(Task("d", ["b"]), map["a" := [1], "b" := [2, 3]], {}, {}, 0);
    Literals();
    FanDrain();
    FourNames(Task("d", ["b"]), map["a" := [1], "b" := [2, 3]], {0, 1, 2, 3}, {});
  }

  // `revert('a')` on `Fan` once everything has run.

  /** `a` above `b` above `c` and `d`; no other name can be reached. */
  function FanRank(n: string): nat {
    if n == "a" then 3 else if n == "b" then 2 else if n == "c" || n == "d" then 1 else 0
  }

  lemma FanRanked()
    ensures Wf(Fan({0, 1, 2, 3}, {})) && Ranked(Fan({0, 1, 2, 3}, {}), FanRank)
  {
    var r := Fan({0, 1, 2, 3}, {});
    FanWf({0, 1, 2, 3}, {});
    forall n, m | n in r.name2item && 0 < FanRank(n) && 0 <= m < |Slot(r.depend2item, n)|
      ensures 0 < FanRank(r.tasks[Slot(r.depend2item, n)[m]].name) < FanRank(n)
    {
      assert n == "a" || n == "b" || n == "c" || n == "d";
    }
  }

  lemma FanChildren()
    ensures Wf(Fan({0, 1, 2, 3}, {}))
    ensures var r := Fan({0, 1, 2, 3}, {});
      Children(r, 0) == [1] && Children(r, 1) == [2, 3] && Children(r, 2) == [] && Children(r, 3) == []
  {
    var r := Fan({0, 1, 2, 3}, {});
    FanWf({0, 1, 2, 3}, {});
    assert [1][1..] == [] && [2, 3][1..] == [3] && [3][1..] == [];
    assert Wake(r, [3]) == [3];
    assert Wake(r, [2, 3]) == [2] + Wake(r, [3]);
  }

  lemma FanRevertLog()
    ensures Wf(Fan({0, 1, 2, 3}, {})) && Ranked(Fan({0, 1, 2, 3}, {}), FanRank)
    ensures RevertLog(Fan({0, 1, 2, 3}, {}), FanRank, [0], 0) == [0, 1, 2, 3]
  {
    var r := Fan({0, 1, 2, 3}, {});
    FanRanked();
    FanChildren();
    Literals();
    assert [0, 1, 2, 3] + [] == [0, 1, 2, 3];
    RevertOnce(r, FanRank, [0], 0);
    RevertOnce(r, FanRank, [0, 1], 1);
    RevertOnce(r, FanRank, [0, 1, 2, 3], 2);
    RevertOnce(r, FanRank, [0, 1, 2, 3], 3);
  }

  lemma FanReset()
    ensures Reset(Fan({0, 1, 2, 3}, {}), Elems([0, 1, 2, 3])) == Fan({}, {})
  {
    assert Elems([0, 1, 2, 3]) == {0, 1, 2, 3};
    assert Reset(Fan({0, 1, 2, 3}, {}), {0, 1, 2, 3}) == Fan({}, {});
  }

  /** `revert('a')` after `execute('a')` invokes the revert actions of `a`,
      `b`, `c` and `d` in that order, and clears every flag. */
  lemma TableRevertFan()
    ensures Wf(Fan({0, 1, 2, 3}, {})) && Ranked(Fan({0, 1, 2, 3}, {}), FanRank)
    ensures Revert(Fan({0, 1, 2, 3}, {}), FanRank, "a").0 == Fan({}, {})
    ensures Revert(Fan({0, 1, 2, 3}, {}), FanRank, "a").1 == [0, 1, 2, 3]
    ensures Names(Fan({}, {}), [0, 1, 2, 3]) == ["a", "b", "c", "d"]
  {
    FanRevertLog();
    FanReset();
    FourNames(Task("d", ["b"]), map["a" := [1], "b" := [2, 3]], {}, {});
  }

  // A cycle the reverted name cannot reach: `a`, and `p` and `q` that wait
  // for each other.

  function Cycle(): Registry {
    Registry(map[0 := TA, 1 := Task("p", ["q"]), 2 := Task("q", ["p"])], map["a" := 0, "p" := 1, "q" := 2],
             map["q" := [1], "p" := [2]], 3, {}, {})
  }

  lemma AddCycle()
    ensures Add(Add(Add(Empty(), "a", []), "p", ["q"]), "q", ["p"]) == Cycle() && Valid(Cycle())
  {
    var r1 := Add(Empty(), "a", []);
    var r2 := Add(r1, "p", ["q"]);
    LinkOne(map[], "q", 1);
    assert Slot(map[], "q") + [1] == [1];
    assert r2.depend2item == map["q" := [1]];
    LinkOne(map["q" := [1]], "p", 2);
    assert Slot(map["q" := [1]], "p") + [2] == [2];
    AddValid(Empty(), "a", []);
    AddValid(r1, "p", ["q"]);
    AddValid(r2, "q", ["p"]);
  }

  /** Positive on `a` only. */
  function OnlyA(n: string): nat {
    if n == "a" then 1 else 0
  }

  /** `Ranked` at one entry of one slot. */
  lemma RankedAt(r: Registry, rank: string -> nat, n: string, m: nat)
    requires Wf(r) && Ranked(r, rank) && n in r.name2item && m < |Slot(r.depend2item, n)|
    requires r.tasks[Slot(r.depend2item, n)[m]].name in r.name2item
    ensures 0 < rank(n) ==> 0 < rank(r.tasks[Slot(r.depend2item, n)[m]].name) < rank(n)
  {
  }

  /** No rank the revert functions accept is positive on `p` or `q`: reverting
      either would cascade around the cycle for ever. */
  lemma CycleUnranked(rank: string -> nat)
    requires Wf(Cycle()) && Ranked(Cycle(), rank)
    ensures rank("p") == 0 && rank("q") == 0
  {
    var r := Cycle();
    assert Slot(r.depend2item, "p") == [2] && Slot(r.depend2item, "q") == [1];
    assert r.tasks[2].name == "q" && r.tasks[1].name == "p";
    RankedAt(r, rank, "p", 0);
    RankedAt(r, rank, "q", 0);
  }

  lemma CycleWf()
    ensures Wf(Cycle())
  {
  }

  lemma CycleRanked()
    ensures Wf(Cycle()) && Ranked(Cycle(), OnlyA)
  {
    CycleWf();
    var r := Cycle();
    forall n | n in r.name2item && 0 < OnlyA(n)
      ensures Slot(r.depend2item, n) == []
    {
      assert n == "a";
    }
  }

  /** `revert('a')` invokes only the revert action of `a`, although `p` and `q`
      form a cycle: the rank only has to order what `a` reaches. */
  lemma CycleRevertA()
    ensures Wf(Cycle()) && Ranked(Cycle(), OnlyA)
    ensures Revert(Cycle(), OnlyA, "a").0 == Cycle() && Revert(Cycle(), OnlyA, "a").1 == [0]
  {
    CycleRanked();
    var r := Cycle();
    RevertOnce(r, OnlyA, [0], 0);
    assert Slot(r.depend2item, "a") == [];
    assert Children(r, 0) == [];
    assert [0] + [] == [0];
    assert Elems([0]) == {0};
    assert Reset(r, {0}) == r;
  }
}
