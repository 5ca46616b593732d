/** The listener table of `EventEmitter` (`source/lib/event.ts`), as
    functions: a dictionary from action name to the list of its listeners,
    each a handle and a `once` flag.

    Listener functions are compared by identity only, so a listener is a
    handle. Calling a listener is opaque: `emit` returns the handles it
    calls, in order. */
module EventTable {
  import opened Seqs

  type Handle = nat

  /** `HandleItem`. */
  datatype Item = Item(handle: Handle, once: bool)

  /** `_events`. */
  type Table = map<string, seq<Item>>

  /** `this._events[action] || []`: the action's list, empty when absent. */
  function Slot(t: Table, action: string): seq<Item> {
    if action in t then t[action] else []
  }

  /** The handles of a list, in order. */
  function Handles(items: seq<Item>): (hs: seq<Handle>)
    ensures |hs| == |items| && forall i :: 0 <= i < |items| ==> hs[i] == items[i].handle
  {
    seq(|items|, i requires 0 <= i < |items| => items[i].handle)
  }

  /** `items.find(item => item.handle === handle)` finds an entry. */
  predicate Listens(items: seq<Item>, handle: Handle) {
    exists i :: 0 <= i < |items| && items[i].handle == handle
  }

  /** No two entries of a list share a handle. */
  predicate Unique(items: seq<Item>) {
    forall p, q :: 0 <= p < q < |items| ==> items[p].handle != items[q].handle
  }

  /** No list holds the same handle twice. */
  ghost predicate Wf(t: Table) {
    forall action :: action in t ==> Unique(t[action])
  }

  /** What `addListener` leaves, and whether it refused a duplicate (the
      `console.error` branch). */
  datatype Added = Added(table: Table, duplicate: bool)

  /** `addListener(action, handle)` (`once` false) and
      `addOnceListener(action, handle)` (`once` true): the list is created
      when absent; a handle already in it is refused, else appended. */
  function AddListener(t: Table, action: string, handle: Handle, once: bool): (r: Added)
    ensures action in r.table
  {
    var items := Slot(t, action);
    if Listens(items, handle) then Added(t[action := items], true)
    else Added(t[action := items + [Item(handle, once)]], false)
  }

  /** The `for` loop of `removeListener` with its `break`: the list without
      its first entry for `handle`. */
  function RemoveFirst(items: seq<Item>, handle: Handle): (r: seq<Item>)
    ensures |r| == |items| - (if Listens(items, handle) then 1 else 0)
  {
    if items == [] then []
    else if items[0].handle == handle then items[1..]
    else
      assert Listens(items, handle) <==> Listens(items[1..], handle) by {
        assert forall i :: 0 < i < |items| ==> items[i] == items[1..][i - 1];
      }
      [items[0]] + RemoveFirst(items[1..], handle)
  }

  /** `removeListener(action, handle)`. A missing `handle` deletes the
      action's entry; otherwise the list, created when absent, loses its
      first entry for `handle`. */
  function RemoveListener(t: Table, action: string, handle: Option<Handle>): (t': Table)
    ensures handle.None? ==> action !in t'
    ensures handle.Some? ==> action in t'
  {
    if handle.None? then
      if action in t then t - {action} else t
    else t[action := RemoveFirst(Slot(t, action), handle.value)]
  }

  /** `clear(action)`: an action that is present and not `""` (a falsy
      string) loses its entry; with no action, or `""`, every entry goes. */
  function Clear(t: Table, action: Option<string>): (t': Table)
    ensures t'.Keys <= t.Keys
  {
    if action.Some? && action.value != "" then
      if action.value in t then t - {action.value} else t
    else map[]
  }

  /** The entries of a list not marked `once`, in order. */
  function Keep(items: seq<Item>): (r: seq<Item>)
    ensures |r| <= |items|
  {
    if items == [] then []
    else
      var last := items[|items| - 1];
      Keep(items[..|items| - 1]) + (if last.once then [] else [last])
  }

  /** What `emit` leaves and the handles it calls. */
  datatype Emitted = Emitted(table: Table, called: seq<Handle>)

  /** `emit(action)`: nothing without an entry; otherwise every listener is
      called once, in list order, and the `once` ones are dropped. */
  function Emit(t: Table, action: string): (r: Emitted)
    ensures action !in t ==> r == Emitted(t, [])
    ensures action in t ==> |r.called| == |t[action]| && action in r.table
  {
    if action !in t then Emitted(t, [])
    else Emitted(t[action := Keep(t[action])], Handles(t[action]))
  }
}
