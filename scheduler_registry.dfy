/** The registry half of the task scheduler: the Task records, the name index
    `name2item`, the reverse index `depend2item`, and `add` / `remove` as
    functions of the scheduler's state. */
module SchedulerRegistry {
  import opened Seqs

  /** Handle of a Task object. The source compares Tasks by identity
      (`indexOf(item)` in `remove`), and a Task replaced by a second `add`
      of its name stays in `depend2item`, so every Task created is kept, under
      its own handle. */
  type TaskId = nat

  /** The fields of a Task that never change: its name and its prerequisite
      names. Its `execute` and `revert` callbacks are opaque and are identified
      with its handle. */
  datatype Task = Task(name: string, depends: seq<string>)

  /** The scheduler's state. `tasks` is the part of the heap holding Task
      objects; `nextId` is the handle the next `new Task` gets. The two boolean
      fields of the Task objects are kept as the sets of handles of the Tasks
      whose field is true: `executed` and `running`. */
  datatype Registry = Registry(
    tasks: map<TaskId, Task>,
    name2item: map<string, TaskId>,
    depend2item: map<string, seq<TaskId>>,
    nextId: TaskId,
    executed: set<TaskId>,
    running: set<TaskId>)

  /** `depend2item[d] || []`. */
  function Slot(dm: map<string, seq<TaskId>>, d: string): seq<TaskId> {
    if d in dm then dm[d] else []
  }

  /** `size`: the number of registered names. */
  function Size(r: Registry): nat {
    |r.name2item|
  }

  /** Every handle resolves, a registered name points at a Task of that name,
      and `nextId` is fresh. */
  ghost predicate Wf(r: Registry) {
    && (forall n :: n in r.name2item ==> r.name2item[n] in r.tasks && r.tasks[r.name2item[n]].name == n)
    && (forall d, i :: d in r.depend2item && 0 <= i < |r.depend2item[d]| ==> r.depend2item[d][i] in r.tasks)
    && (forall id :: id in r.tasks ==> id < r.nextId)
    && r.executed <= r.tasks.Keys && r.running <= r.tasks.Keys
  }

  /** The reverse index is exact for every registered Task: it occurs in
      `depend2item[d]` exactly as often as `d` occurs in its `depends`. Tasks
      that are no longer registered may still occur anywhere. */
  ghost predicate Indexed(r: Registry)
    requires Wf(r)
  {
    forall n, d :: n in r.name2item ==>
      Count(Slot(r.depend2item, d), r.name2item[n]) == Count(r.tasks[r.name2item[n]].depends, d)
  }

  /** Between two calls no Task is half-way through its action. */
  ghost predicate AtRest(r: Registry) {
    r.running == {}
  }

  /** The invariant every reachable state satisfies. */
  ghost predicate Valid(r: Registry) {
    Wf(r) && Indexed(r) && AtRest(r)
  }

  /** A new scheduler: both dictionaries empty. */
  function Empty(): (r: Registry)
    ensures Valid(r) && Size(r) == 0
  {
    Registry(map[], map[], map[], 0, {}, {})
  }

  /** The `forEach` of `add`: push `id` onto `depend2item[d]` for every `d` in
      `ds`, creating the slots that are missing. */
  function Link(dm: map<string, seq<TaskId>>, ds: seq<string>, id: TaskId): map<string, seq<TaskId>>
    decreases |ds|
  {
    if ds == [] then dm
    else Link(dm[ds[0] := Slot(dm, ds[0]) + [id]], ds[1..], id)
  }

  /** `add(name, option)`: a fresh Task with both flags false is registered
      under `name`, replacing any Task registered there, and is pushed onto the
      slot of each of its prerequisites. Nothing checks that the prerequisites
      exist, and the replaced Task is left in `depend2item`. */
  function Add(r: Registry, name: string, depends: seq<string>): Registry
  {
    var id := r.nextId;
    Registry(r.tasks[id := Task(name, depends)], r.name2item[name := id],
             Link(r.depend2item, depends, id), id + 1, r.executed, r.running)
  }

  /** The `forEach` of `remove`: for every `d` in `ds`, `depend2item[d].splice(
      depend2item[d].indexOf(id), 1)`, deleting the slot when it becomes empty.
      The precondition is what `Indexed` guarantees for a registered Task; under
      it `depend2item[d]` exists and `indexOf` never returns -1. */
  function Unlink(dm: map<string, seq<TaskId>>, ds: seq<string>, id: TaskId): map<string, seq<TaskId>>
    requires forall d :: Count(Slot(dm, d), id) == Count(ds, d)
    decreases |ds|
  {
    if ds == [] then dm
    else
      var d := ds[0];
      var dm' := UnlinkOne(dm, ds, id);
      UnlinkOneCounts(dm, ds, id);
      Unlink(dm', ds[1..], id)
  }

  /** One step of that `forEach`, on the first prerequisite `ds[0]`. */
  function UnlinkOne(dm: map<string, seq<TaskId>>, ds: seq<string>, id: TaskId): map<string, seq<TaskId>>
    requires ds != []
    requires forall d :: Count(Slot(dm, d), id) == Count(ds, d)
  {
    var d := ds[0];
    assert ds == [d] + ds[1..];
    assert Count(Slot(dm, d), id) == Count(ds, d) > 0;
    var slot := dm[d];
    var rest := RemoveAt(slot, IndexOf(slot, id));
    if rest == [] then dm - {d} else dm[d := rest]
  }

  lemma UnlinkOneCounts(dm: map<string, seq<TaskId>>, ds: seq<string>, id: TaskId)
    requires ds != []
    requires forall d :: Count(Slot(dm, d), id) == Count(ds, d)
    ensures forall d :: Count(Slot(UnlinkOne(dm, ds, id), d), id) == Count(ds[1..], d)
  {
    var d0 := ds[0];
    assert ds == [d0] + ds[1..];
    assert Count(Slot(dm, d0), id) == Count(ds, d0) > 0;
    var slot := dm[d0];
    RemoveFirstCount(slot, id, id);
    var dm' := UnlinkOne(dm, ds, id);
    forall d ensures Count(Slot(dm', d), id) == Count(ds[1..], d) {
      if d != d0 {
        assert Slot(dm', d) == Slot(dm, d);
        assert Count(ds, d) == Count(ds[1..], d);
      } else {
        assert Slot(dm', d) == RemoveAt(slot, IndexOf(slot, id));
      }
    }
  }

  /** One round of the loop of `remove`, on the first prerequisite `ds[0]`:
      its slot holds the Task, and the step leaves the counts of the rest. */
  lemma UnlinkStep(dm: map<string, seq<TaskId>>, ds: seq<string>, id: TaskId)
    requires ds != []
    requires forall d :: Count(Slot(dm, d), id) == Count(ds, d)
    ensures ds[0] in dm && id in dm[ds[0]]
    ensures var slot := dm[ds[0]]; var rest := RemoveAt(slot, IndexOf(slot, id));
      UnlinkOne(dm, ds, id) == (if rest == [] then dm - {ds[0]} else dm[ds[0] := rest])
    ensures forall d :: Count(Slot(UnlinkOne(dm, ds, id), d), id) == Count(ds[1..], d)
    ensures Unlink(dm, ds, id) == Unlink(UnlinkOne(dm, ds, id), ds[1..], id)
  {
    assert ds == [ds[0]] + ds[1..];
    assert Count(Slot(dm, ds[0]), id) == Count(ds, ds[0]) > 0;
    UnlinkOneCounts(dm, ds, id);
  }

  /** `remove(name)`: an unknown name changes nothing; otherwise the name is
      unregistered and its Task is unlinked from the slots of its own
      prerequisites. `depend2item[name]` itself is not touched. */
  function Remove(r: Registry, name: string): Registry
    requires Wf(r) && Indexed(r)
  {
    if name !in r.name2item then r
    else
      var id := r.name2item[name];
      r.(name2item := r.name2item - {name}, depend2item := Unlink(r.depend2item, r.tasks[id].depends, id))
  }

  /** What `Unlink` does to each slot: the Task disappears from the slots of its
      prerequisites, every other entry stays in order, and a slot is deleted
      exactly when nothing else is left in it. */
  lemma {:induction false} UnlinkSlots(dm: map<string, seq<TaskId>>, ds: seq<string>, id: TaskId, d: string)
    requires forall d :: Count(Slot(dm, d), id) == Count(ds, d)
    ensures Slot(Unlink(dm, ds, id), d) == Without(Slot(dm, d), id)
    ensures d in Unlink(dm, ds, id) <==> d in dm && (d in ds ==> Without(dm[d], id) != [])
    decreases |ds|
  {
    assert Count(Slot(dm, d), id) == Count(ds, d);
    if ds == [] {
      WithoutAbsent(Slot(dm, d), id);
    } else {
      var d0 := ds[0];
      assert ds == [d0] + ds[1..];
      assert Count(Slot(dm, d0), id) == Count(ds, d0) > 0;
      var slot := dm[d0];
      var rest := RemoveAt(slot, IndexOf(slot, id));
      var dm' := UnlinkOne(dm, ds, id);
      UnlinkOneCounts(dm, ds, id);
      UnlinkSlots(dm', ds[1..], id, d);
      assert Unlink(dm, ds, id) == Unlink(dm', ds[1..], id);
      if d == d0 {
        WithoutAfterRemoveFirst(slot, id);
        assert Slot(dm', d) == rest;
        if d0 !in ds[1..] {
          assert Count(rest, id) == 0;
          WithoutAbsent(rest, id);
        }
      } else {
        assert Slot(dm', d) == Slot(dm, d);
        assert d in dm' <==> d in dm;
      }
    }
  }

  /** What `Link` does to each slot: `id` is appended once per occurrence of
      the slot's name in `ds`, after the entries already there. */
  lemma {:induction false} LinkSlot(dm: map<string, seq<TaskId>>, ds: seq<string>, id: TaskId, d: string)
    ensures Slot(Link(dm, ds, id), d) == Slot(dm, d) + Repeat(id, Count(ds, d))
    ensures d in Link(dm, ds, id) <==> d in dm || d in ds
    decreases |ds|
  {
    if ds != [] {
      var d0 := ds[0];
      var dm' := dm[d0 := Slot(dm, d0) + [id]];
      assert ds == [d0] + ds[1..];
      LinkSlot(dm', ds[1..], id, d);
      var m := Count(ds[1..], d);
      if d == d0 {
        assert Count(ds, d) == m + 1;
        assert Repeat(id, m + 1) == [id] + Repeat(id, m);
        assert Slot(dm, d0) + [id] + Repeat(id, m) == Slot(dm, d0) + Repeat(id, m + 1);
      } else {
        assert Count(ds, d) == m;
      }
    }
  }

  /** `add` on a well-formed state: a fresh Task with both flags false is
      registered under `name`, `size` grows by one only for a new name, no other
      registration or Task changes, and each slot gains the new Task once per
      occurrence in `depends`, a missing slot being created, and nothing else. */
  lemma AddEffect(r: Registry, name: string, depends: seq<string>, d: string)
    requires Wf(r)
    ensures var r' := Add(r, name, depends);
      && r'.name2item.Keys == r.name2item.Keys + {name}
      && r'.name2item[name] !in r.tasks
      && r'.tasks[r'.name2item[name]] == Task(name, depends)
      && r'.name2item[name] !in r'.executed && r'.name2item[name] !in r'.running
      && r'.executed == r.executed && r'.running == r.running
      && Size(r') == (if name in r.name2item then Size(r) else Size(r) + 1)
      && (forall n :: n in r.name2item && n != name ==> r'.name2item[n] == r.name2item[n])
      && (forall id :: id in r.tasks ==> id in r'.tasks && r'.tasks[id] == r.tasks[id])
      && Slot(r'.depend2item, d) == Slot(r.depend2item, d) + Repeat(r'.name2item[name], Count(depends, d))
      && (d in r'.depend2item <==> d in r.depend2item || d in depends)
  {
    LinkSlot(r.depend2item, depends, r.nextId, d);
  }

  /** `add` keeps the invariant. */
  lemma AddValid(r: Registry, name: string, depends: seq<string>)
    requires Valid(r)
    ensures Valid(Add(r, name, depends))
  {
    var r' := Add(r, name, depends);
    var id := r.nextId;
    forall n, d | n in r'.name2item
      ensures Count(Slot(r'.depend2item, d), r'.name2item[n]) == Count(r'.tasks[r'.name2item[n]].depends, d)
    {
      var k := r'.name2item[n];
      LinkSlot(r.depend2item, depends, id, d);
      RepeatCount(id, Count(depends, d), k);
      CountAppend(Slot(r.depend2item, d), Repeat(id, Count(depends, d)), k);
      if n == name {
        assert k !in Slot(r.depend2item, d);
      } else {
        assert k == r.name2item[n] && k != id;
        assert Count(Slot(r.depend2item, d), k) == Count(r.tasks[k].depends, d);
      }
    }
    forall d, i | d in r'.depend2item && 0 <= i < |r'.depend2item[d]|
      ensures r'.depend2item[d][i] in r'.tasks
    {
      LinkSlot(r.depend2item, depends, id, d);
      assert r'.depend2item[d] == Slot(r'.depend2item, d);
      var s := Slot(r.depend2item, d);
      if i >= |s| {
        assert r'.depend2item[d][i] == id;
      } else {
        assert r'.depend2item[d][i] == s[i];
      }
    }
  }

  /** `remove` of an unknown name changes nothing; of a known name it deletes
      exactly that key (so `size` drops by one), keeps every Task object, takes
      the removed Task out of every slot, deletes a slot of one of its
      prerequisites when nothing else is left in it, and leaves every other
      entry, including the slot under the removed name, as it was. */
  lemma RemoveEffect(r: Registry, name: string, d: string)
    requires Valid(r)
    ensures name !in r.name2item ==> Remove(r, name) == r
    ensures name in r.name2item ==>
      var id := r.name2item[name];
      var r' := Remove(r, name);
      && r'.name2item.Keys == r.name2item.Keys - {name}
      && Size(r') == Size(r) - 1
      && (forall n :: n in r'.name2item ==> r'.name2item[n] == r.name2item[n])
      && r'.tasks == r.tasks && r'.executed == r.executed && r'.running == r.running
      && Slot(r'.depend2item, d) == Without(Slot(r.depend2item, d), id)
      && (d in r'.depend2item <==>
            d in r.depend2item && (d in r.tasks[id].depends ==> Without(r.depend2item[d], id) != []))
      && (name !in r.tasks[id].depends ==> Slot(r'.depend2item, name) == Slot(r.depend2item, name))
  {
    if name in r.name2item {
      var id := r.name2item[name];
      var ds := r.tasks[id].depends;
      UnlinkSlots(r.depend2item, ds, id, d);
      if name !in ds {
        UnlinkSlots(r.depend2item, ds, id, name);
        assert Count(Slot(r.depend2item, name), id) == Count(ds, name) == 0;
        WithoutAbsent(Slot(r.depend2item, name), id);
      }
    }
  }

  /** `remove` keeps the invariant. */
  lemma RemoveValid(r: Registry, name: string)
    requires Valid(r)
    ensures Valid(Remove(r, name))
  {
    if name in r.name2item {
      var id := r.name2item[name];
      var ds := r.tasks[id].depends;
      var r' := Remove(r, name);
      forall d, i | d in r'.depend2item && 0 <= i < |r'.depend2item[d]|
        ensures r'.depend2item[d][i] in r'.tasks
      {
        UnlinkSlots(r.depend2item, ds, id, d);
        assert d in r.depend2item;
        assert r'.depend2item[d] == Without(r.depend2item[d], id);
        WithoutSubset(r.depend2item[d], id, r'.depend2item[d][i]);
        var j :| 0 <= j < |r.depend2item[d]| && r.depend2item[d][j] == r'.depend2item[d][i];
      }
      forall n, d | n in r'.name2item
        ensures Count(Slot(r'.depend2item, d), r'.name2item[n]) == Count(r'.tasks[r'.name2item[n]].depends, d)
      {
        UnlinkSlots(r.depend2item, ds, id, d);
        WithoutCount(Slot(r.depend2item, d), id, r.name2item[n]);
      }
    }
  }
}
