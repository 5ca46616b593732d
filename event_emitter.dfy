/** The `EventEmitter` class: `_events` is a field updated in place, its
    lists changed by `push` and `splice`, and each method is proved to leave
    the table its function in `EventTable` describes. */
module EventEmitters {
  import opened Seqs
  import opened EventTable
  import opened EventTableFacts

  /** `items.find(item => item.handle === handle)`, as the loop it runs:
      whether an entry holds the handle. */
  method Find(items: seq<Item>, handle: Handle) returns (found: bool)
    ensures found <==> Listens(items, handle)
  {
    var i := 0;
    while i < |items|
      invariant 0 <= i <= |items|
      invariant forall j :: 0 <= j < i ==> items[j].handle != handle
    {
      if items[i].handle == handle {
        return true;
      }
      i := i + 1;
    }
    return false;
  }

  /** One round of the loop of `emit`: the list is the kept part of the
      entries visited so far followed by the rest, and `i` points at the
      first of the rest. Visiting it keeps, or splices out, that entry alone
      and calls its handle. */
  lemma EmitStep(orig: seq<Item>, k: nat, list: seq<Item>, i: nat)
    requires k < |orig| && list == Keep(orig[..k]) + orig[k..] && i == |Keep(orig[..k])|
    ensures i < |list| && list[i] == orig[k]
    ensures Handles(orig[..k + 1]) == Handles(orig[..k]) + [orig[k].handle]
    ensures orig[k].once ==>
      list[..i] + list[i + 1..] == Keep(orig[..k + 1]) + orig[k + 1..]
      && i == |Keep(orig[..k + 1])|
    ensures !orig[k].once ==>
      list == Keep(orig[..k + 1]) + orig[k + 1..] && i + 1 == |Keep(orig[..k + 1])|
  {
    var p := Keep(orig[..k]);
    assert orig[..k + 1][..k] == orig[..k];
    assert orig[k..] == [orig[k]] + orig[k + 1..];
    assert list[..i] == p && list[i + 1..] == orig[k + 1..];
  }

  /** The loop of `emit` over the action's list: each entry's handle is
      called in turn; a `once` entry is spliced out before its call, and the
      index steps back over it. What is left is exactly the entries that are
      not `once`, in order. */
  method Sweep(items: seq<Item>) returns (list: seq<Item>, called: seq<Handle>)
    ensures list == Keep(items) && called == Handles(items)
  {
    list := items;
    called := [];
    ghost var k := 0;
    var i: int := 0;
    assert items[..0] == [] && items[0..] == items;
    while i < |list|
      invariant 0 <= k <= |items| && 0 <= i
      invariant list == Keep(items[..k]) + items[k..]
      invariant i == |Keep(items[..k])|
      invariant called == Handles(items[..k])
      decreases |list| - i
    {
      var item := list[i];
      EmitStep(items, k, list, i);
      if item.once {
        list := list[..i] + list[i + 1..];
        i := i - 1;
      }
      called := called + [item.handle];
      i := i + 1;
      k := k + 1;
    }
    assert k == |items|;
    assert items[..k] == items && items[k..] == [];
  }

  class EventEmitter {
    var events: Table

    /** No list holds the same handle twice. */
    ghost predicate Valid()
      reads this
    {
      Wf(events)
    }

    /** `new EventEmitter()`: no entries. */
    constructor()
      ensures events == map[] && Valid()
    {
      events := map[];
    }

    /** The body shared by `addListener` and `addOnceListener`;
        `duplicate` is the `console.error` branch. */
    method Listen(action: string, handle: Handle, once: bool) returns (duplicate: bool)
      requires Valid()
      modifies this
      ensures Added(events, duplicate) == EventTable.AddListener(old(events), action, handle, once)
      ensures Valid()
    {
      AddWf(events, action, handle, once);
      var items := Slot(events, action);
      events := events[action := items];
      duplicate := Find(items, handle);
      if !duplicate {
        events := events[action := items + [Item(handle, once)]];
      }
    }

    /** `addListener(action, handle)`. */
    method AddListener(action: string, handle: Handle) returns (duplicate: bool)
      requires Valid()
      modifies this
      ensures Added(events, duplicate) == EventTable.AddListener(old(events), action, handle, false)
      ensures Valid()
    {
      duplicate := Listen(action, handle, false);
    }

    /** `addOnceListener(action, handle)`. */
    method AddOnceListener(action: string, handle: Handle) returns (duplicate: bool)
      requires Valid()
      modifies this
      ensures Added(events, duplicate) == EventTable.AddListener(old(events), action, handle, true)
      ensures Valid()
    {
      duplicate := Listen(action, handle, true);
    }

    /** `removeListener(action, handle)`; `None` is a missing handle. */
    method RemoveListener(action: string, handle: Option<Handle>)
      requires Valid()
      modifies this
      ensures events == EventTable.RemoveListener(old(events), action, handle)
      ensures Valid()
    {
      RemoveWf(events, action, handle);
      if handle.None? {
        if action in events {
          events := events - {action};
        }
        return;
      }
      var h := handle.value;
      var items := Slot(events, action);
      var i := 0;
      var done := false;
      while i < |items| && !done
        invariant 0 <= i <= |items| && events == old(events)
        invariant !done ==> items == Slot(events, action)
        invariant !done ==> forall j :: 0 <= j < i ==> items[j].handle != h
        invariant done ==> items == RemoveFirst(Slot(events, action), h)
        decreases |items| - i, if done then 0 else 1
      {
        if items[i].handle == h {
          RemoveFirstAt(items, h, i);
          items := RemoveAt(items, i);
          done := true;
        } else {
          i := i + 1;
        }
      }
      if !done {
        assert !Listens(items, h);
        RemoveFirstAbsent(items, h);
      }
      events := events[action := items];
    }

    /** `clear(action)`; `None` is a missing action. */
    method Clear(action: Option<string>)
      requires Valid()
      modifies this
      ensures events == EventTable.Clear(old(events), action)
      ensures Valid()
    {
      if action.Some? && action.value != "" {
        if action.value in events {
          events := events - {action.value};
        }
        return;
      }
      var keys := events.Keys;
      while keys != {}
        invariant events.Keys == keys
        invariant forall k :: k in events ==> k in old(events) && events[k] == old(events)[k]
        decreases |keys|
      {
        var name :| name in keys;
        events := events - {name};
        keys := keys - {name};
      }
      assert events == map[];
    }

    /** `emit(action)`: the handles it calls, in order. */
    method Emit(action: string) returns (called: seq<Handle>)
      requires Valid()
      modifies this
      ensures Emitted(events, called) == EventTable.Emit(old(events), action)
      ensures Valid()
    {
      EmitWf(events, action);
      called := [];
      if action !in events {
        return;
      }
      var list;
      list, called := Sweep(events[action]);
      events := events[action := list];
    }
  }
}
