/** What the listener table of `EventEmitter` promises: adding refuses a
    handle already listening, removing drops only the first entry of a
    handle, clearing forgets whole entries, and `emit` calls every listener
    once, in order, and keeps only the listeners not marked `once`. No list
    ever holds a handle twice. */
module EventTableFacts {
  import opened Seqs
  import opened EventTable

  /** `addListener` appends the new entry, or refuses a handle already
      listening, leaving the table as it was; other actions are untouched. */
  lemma AddEffect(t: Table, action: string, handle: Handle, once: bool)
    ensures var r := AddListener(t, action, handle, once);
      && (r.duplicate <==> Listens(Slot(t, action), handle))
      && (r.duplicate ==> r.table == t)
      && (!r.duplicate ==> r.table[action] == Slot(t, action) + [Item(handle, once)])
      && r.table - {action} == t - {action}
  {
    var r := AddListener(t, action, handle, once);
    if r.duplicate {
      assert action in t;
    }
  }

  /** ... so no list holds a handle twice, and afterwards the handle is one of
      the action's listeners. */
  lemma AddWf(t: Table, action: string, handle: Handle, once: bool)
    requires Wf(t)
    ensures var r := AddListener(t, action, handle, once);
      Wf(r.table) && Listens(r.table[action], handle)
  {
    var items := Slot(t, action);
    AddEffect(t, action, handle, once);
    var r := AddListener(t, action, handle, once);
    if !r.duplicate {
      assert r.table[action][|items|].handle == handle;
    }
  }

  /** `RemoveFirst` drops the entry at the first index holding the handle. */
  lemma {:induction false} RemoveFirstAt(items: seq<Item>, handle: Handle, i: nat)
    requires i < |items| && items[i].handle == handle
    requires forall j :: 0 <= j < i ==> items[j].handle != handle
    ensures RemoveFirst(items, handle) == items[..i] + items[i + 1..]
  {
    if i > 0 {
      RemoveFirstAt(items[1..], handle, i - 1);
      assert items[..i] == [items[0]] + items[1..][..i - 1];
      assert items[i + 1..] == items[1..][i..];
    }
  }

  /** ... and nothing when no entry holds it. */
  lemma {:induction false} RemoveFirstAbsent(items: seq<Item>, handle: Handle)
    requires !Listens(items, handle)
    ensures RemoveFirst(items, handle) == items
  {
    if items != [] {
      assert items[0].handle != handle;
      assert !Listens(items[1..], handle) by {
        assert forall i :: 0 <= i < |items| - 1 ==> items[1..][i] == items[i + 1];
      }
      RemoveFirstAbsent(items[1..], handle);
      assert [items[0]] + items[1..] == items;
    }
  }

  /** Dropping one entry of a list without duplicates leaves a list without
      duplicates that no longer holds the entry's handle. */
  lemma DropUnique(items: seq<Item>, i: nat)
    requires Unique(items) && i < |items|
    ensures Unique(items[..i] + items[i + 1..])
    ensures !Listens(items[..i] + items[i + 1..], items[i].handle)
  {
    var r := items[..i] + items[i + 1..];
    forall p | 0 <= p < |r|
      ensures r[p] == items[if p < i then p else p + 1]
    {
    }
    forall p, q | 0 <= p < q < |r|
      ensures r[p].handle != r[q].handle
    {
      var p', q' := if p < i then p else p + 1, if q < i then q else q + 1;
      assert r[p] == items[p'] && r[q] == items[q'] && p' < q';
    }
    forall p | 0 <= p < |r|
      ensures r[p].handle != items[i].handle
    {
      var p' := if p < i then p else p + 1;
      assert r[p] == items[p'] && p' != i;
    }
  }

  /** Removing from a list without duplicates keeps it so and leaves the
      handle no longer listening. */
  lemma RemoveFirstUnique(items: seq<Item>, handle: Handle)
    requires Unique(items)
    ensures var r := RemoveFirst(items, handle);
      Unique(r) && !Listens(r, handle)
  {
    if Listens(items, handle) {
      var i :| 0 <= i < |items| && items[i].handle == handle;
      RemoveFirstAt(items, handle, i);
      DropUnique(items, i);
    } else {
      RemoveFirstAbsent(items, handle);
    }
  }

  /** `removeListener(action)` deletes the action's entry; with a handle,
      only the action's list changes, created when absent: it loses the
      entry at the first index holding the handle, and nothing when there is
      none. */
  lemma RemoveEffect(t: Table, action: string, handle: Option<Handle>)
    ensures var r := RemoveListener(t, action, handle);
      && (handle.None? ==> r == t - {action})
      && (handle.Some? ==> r - {action} == t - {action})
      && (handle.Some? && !Listens(Slot(t, action), handle.value) ==> r[action] == Slot(t, action))
      && (forall i :: handle.Some? && 0 <= i < |Slot(t, action)| && Slot(t, action)[i].handle == handle.value
                      && (forall j :: 0 <= j < i ==> Slot(t, action)[j].handle != handle.value) ==>
            r[action] == Slot(t, action)[..i] + Slot(t, action)[i + 1..])
  {
    if handle.Some? {
      var items := Slot(t, action);
      if !Listens(items, handle.value) {
        RemoveFirstAbsent(items, handle.value);
      }
      forall i | 0 <= i < |items| && items[i].handle == handle.value
                 && (forall j :: 0 <= j < i ==> items[j].handle != handle.value)
        ensures RemoveFirst(items, handle.value) == items[..i] + items[i + 1..]
      {
        RemoveFirstAt(items, handle.value, i);
      }
    }
  }

  lemma RemoveWf(t: Table, action: string, handle: Option<Handle>)
    requires Wf(t)
    ensures var r := RemoveListener(t, action, handle);
      Wf(r) && (handle.Some? ==> !Listens(r[action], handle.value))
  {
    if handle.Some? {
      RemoveFirstUnique(Slot(t, action), handle.value);
    }
  }

  /** `addListener` of a new handle then `removeListener` of it leaves the
      action's list as it was. */
  lemma AddThenRemove(t: Table, action: string, handle: Handle, once: bool)
    requires !Listens(Slot(t, action), handle)
    ensures var a := AddListener(t, action, handle, once);
      RemoveListener(a.table, action, Some(handle)) == t[action := Slot(t, action)]
  {
    var items := Slot(t, action);
    var l := items + [Item(handle, once)];
    AddEffect(t, action, handle, once);
    forall j | 0 <= j < |items|
      ensures l[j].handle != handle
    {
      assert l[j] == items[j];
    }
    RemoveFirstAt(l, handle, |items|);
    assert l[..|items|] + l[|items| + 1..] == items by {
      assert l[..|items|] == items && l[|items| + 1..] == [];
    }
  }

  /** After `clear(action)` emitting that action calls nothing and leaves
      other actions as they were; after `clear()`, or `clear("")`, no action
      calls anything. */
  lemma ClearEffect(t: Table, action: Option<string>)
    ensures action.Some? && action.value != "" ==>
      && Clear(t, action) == t - {action.value}
      && Emit(Clear(t, action), action.value) == Emitted(Clear(t, action), [])
    ensures !(action.Some? && action.value != "") ==>
      Clear(t, action) == map[] && forall b :: Emit(Clear(t, action), b) == Emitted(map[], [])
  {
  }

  /** ... and other actions are called as before. */
  lemma ClearKeepsOthers(t: Table, action: string, other: string)
    requires action != "" && other != action
    ensures Emit(Clear(t, Some(action)), other).called == Emit(t, other).called
  {
  }

  /** `Keep` filters piecewise, so it keeps the original order. */
  lemma {:induction false} KeepAppend(a: seq<Item>, b: seq<Item>)
    ensures Keep(a + b) == Keep(a) + Keep(b)
    decreases |b|
  {
    if b == [] {
      assert a + b == a;
    } else {
      var last := b[|b| - 1];
      assert (a + b)[..|a + b| - 1] == a + b[..|b| - 1];
      KeepAppend(a, b[..|b| - 1]);
    }
  }

  /** An entry is kept exactly when it is in the list and not `once`. */
  lemma {:induction false} KeepMembers(items: seq<Item>, x: Item)
    ensures x in Keep(items) <==> x in items && !x.once
    decreases |items|
  {
    if items != [] {
      var init := items[..|items| - 1];
      assert items == init + [items[|items| - 1]];
      KeepMembers(init, x);
    }
  }

  /** A list with no `once` entry is kept whole; in particular a kept list. */
  lemma {:induction false} KeepIdempotent(items: seq<Item>)
    ensures Keep(Keep(items)) == Keep(items)
    decreases |items|
  {
    if items != [] {
      var init := items[..|items| - 1];
      var last := items[|items| - 1];
      KeepIdempotent(init);
      KeepAppend(Keep(init), if last.once then [] else [last]);
      if !last.once {
        assert [last][..0] == [];
        assert Keep([last]) == Keep([]) + [last];
      }
    }
  }

  /** `Keep` never duplicates a handle. */
  lemma {:induction false} KeepUnique(items: seq<Item>)
    requires Unique(items)
    ensures Unique(Keep(items))
    decreases |items|
  {
    if items != [] {
      var init := items[..|items| - 1];
      var last := items[|items| - 1];
      assert Unique(init);
      KeepUnique(init);
      if !last.once {
        var k := Keep(init);
        forall p | 0 <= p < |k|
          ensures k[p].handle != last.handle
        {
          KeepMembers(init, k[p]);
          var q :| 0 <= q < |init| && init[q] == k[p];
          assert items[q] == k[p];
        }
        var r := k + [last];
        assert forall p :: 0 <= p < |k| ==> r[p] == k[p];
      }
    }
  }

  lemma EmitWf(t: Table, action: string)
    requires Wf(t)
    ensures Wf(Emit(t, action).table)
  {
    if action in t {
      KeepUnique(t[action]);
    }
  }

  /** `emit` changes only the emitted action's list: it calls each listener
      once, in order, and afterwards the list holds exactly the entries that
      were not `once`. */
  lemma EmitEffect(t: Table, action: string)
    requires action in t
    ensures var r := Emit(t, action);
      && r.called == Handles(t[action])
      && r.table - {action} == t - {action}
      && forall x :: x in r.table[action] <==> x in t[action] && !x.once
  {
    forall x {
      KeepMembers(t[action], x);
    }
  }

  /** A second `emit` calls exactly the listeners the first one kept, and
      changes nothing more: a `once` listener is called a single time. */
  lemma EmitTwice(t: Table, action: string)
    requires action in t
    ensures var r1 := Emit(t, action); var r2 := Emit(r1.table, action);
      && r2.called == Handles(Keep(t[action])) && r2.table == r1.table
      && forall x :: x in t[action] && x.once ==> x !in r1.table[action]
  {
    KeepIdempotent(t[action]);
    forall x | x in t[action] && x.once
      ensures x !in Emit(t, action).table[action]
    {
      KeepMembers(t[action], x);
    }
  }

  /** The cases of `source/test/event.spec.ts`, which share one emitter: the
      listener of case k is the handle k. Each case's counter is the number
      of times its handle is called. */
  const TestA := "test-a"
  const TestB := "test-b"

  /** Case 1: emitting with no entry calls nothing; after `addListener` the
      listener is called once. */
  lemma TableAddEmit()
    ensures Emit(map[], TestA) == Emitted(map[], [])
    ensures AddListener(map[], TestA, 1, false).table == map[TestA := [Item(1, false)]]
    ensures Emit(map[TestA := [Item(1, false)]], TestA).called == [1]
  {
    var items := [Item(1, false)];
    assert Handles(items) == [1];
    assert !Listens([], 1);
    assert [] + items == items;
  }

  /** Case 2: a listener added and removed again is not called. */
  lemma TableAddRemove()
    ensures var t1 := map[TestA := [Item(1, false)]];
      var t2 := AddListener(t1, TestA, 2, false).table;
      && t2 == map[TestA := [Item(1, false), Item(2, false)]]
      && RemoveListener(t2, TestA, Some(2)) == t1
      && Emit(t1, TestA).called == [1]
  {
    var t1 := map[TestA := [Item(1, false)]];
    assert !Listens([Item(1, false)], 2);
    assert [Item(1, false)] + [Item(2, false)] == [Item(1, false), Item(2, false)];
    AddThenRemove(t1, TestA, 2, false);
    assert Handles([Item(1, false)]) == [1];
  }

  /** Case 3: `clear("test-a")` forgets only that action: emitting `test-a`
      calls nothing and emitting `test-b` calls the listener once. */
  lemma TableClearOne()
    ensures var t1 := map[TestA := [Item(1, false)]];
      var t2 := AddListener(t1, TestA, 3, false).table;
      var t3 := AddListener(t2, TestB, 3, false).table;
      var t4 := Clear(t3, Some(TestA));
      && t4 == map[TestB := [Item(3, false)]]
      && Emit(t4, TestA).called == [] && Emit(t4, TestB).called == [3]
  {
    var t1 := map[TestA := [Item(1, false)]];
    assert !Listens([Item(1, false)], 3) && !Listens([], 3);
    assert TestA != TestB by {
      assert TestA[5] != TestB[5];
    }
    var t2 := AddListener(t1, TestA, 3, false).table;
    assert [Item(1, false)] + [Item(3, false)] == [Item(1, false), Item(3, false)];
    assert t2 == map[TestA := [Item(1, false), Item(3, false)]];
    assert [] + [Item(3, false)] == [Item(3, false)];
    var t3 := AddListener(t2, TestB, 3, false).table;
    assert t3 == map[TestA := [Item(1, false), Item(3, false)], TestB := [Item(3, false)]];
    assert Clear(t3, Some(TestA)) == map[TestB := [Item(3, false)]];
    assert Handles([Item(3, false)]) == [3];
  }

  /** Case 4: `clear()` forgets every action, so neither emit calls the
      listener. */
  lemma TableClearAll()
    ensures var t1 := map[TestB := [Item(3, false)]];
      var t2 := AddListener(t1, TestA, 4, false).table;
      var t3 := AddListener(t2, TestB, 4, false).table;
      && Emit(t1, TestA).called == []
      && Clear(t3, None) == map[]
      && Emit(Clear(t3, None), TestA).called == [] && Emit(Clear(t3, None), TestB).called == []
  {
  }
}
