/** `ObjectRecycler`, as functions of its pool.

    Pooled objects are compared by identity, so an object is a handle. The
    callbacks the recycler invokes (`generate`, `initialize`, `destroy`) are
    opaque: each operation returns the calls it makes, in order, and the
    object `generate()` would return is a parameter. */
module Recycling {
  import opened Seqs

  type Obj = nat

  /** A call the recycler makes on the caller's behalf. */
  datatype Call = Generate | Initialize(obj: Obj) | Destroy(obj: Obj)

  /** What `acquireObject()` leaves, returns and calls. */
  datatype Acquired = Acquired(pool: seq<Obj>, obj: Obj, calls: seq<Call>)

  /** What `recycleObject(object)` leaves and calls. */
  datatype Recycled = Recycled(pool: seq<Obj>, calls: seq<Call>)

  /** `acquireObject()`: pops the last pooled object, or else takes the one
      `generate()` returns; either way initializes it. */
  function Acquire(pool: seq<Obj>, generated: Obj): (r: Acquired)
    ensures |pool| > 0 ==> |r.pool| == |pool| - 1 && r.pool + [r.obj] == pool
    ensures |pool| == 0 ==> r.pool == [] && r.obj == generated
  {
    if |pool| > 0 then
      var obj := pool[|pool| - 1];
      assert pool[..|pool| - 1] + [obj] == pool;
      Acquired(pool[..|pool| - 1], obj, [Initialize(obj)])
    else
      Acquired(pool, generated, [Generate, Initialize(generated)])
  }

  /** `recycleObject(object)`: destroys the object when it has a `destroy`,
      then pools it unless `indexOf` finds it there already. */
  function Recycle(pool: seq<Obj>, obj: Obj, hasDestroy: bool): (r: Recycled)
    ensures obj in r.pool
  {
    var calls := if hasDestroy then [Destroy(obj)] else [];
    if IndexOf(pool, obj) == -1 then Recycled(pool + [obj], calls)
    else Recycled(pool, calls)
  }

  /** The kind of a call, whatever its object. */
  datatype Kind = Generating | Initializing | Destroying

  function KindOf(c: Call): Kind {
    match c
    case Generate => Generating
    case Initialize(_) => Initializing
    case Destroy(_) => Destroying
  }

  /** The number of calls of kind `k` in a log. */
  function Counted(calls: seq<Call>, k: Kind): (n: nat)
    ensures n <= |calls|
  {
    if calls == [] then 0 else (if KindOf(calls[0]) == k then 1 else 0) + Counted(calls[1..], k)
  }

  lemma {:induction false} CountedAppend(a: seq<Call>, b: seq<Call>, k: Kind)
    ensures Counted(a + b, k) == Counted(a, k) + Counted(b, k)
  {
    if a == [] {
      assert a + b == b;
    } else {
      assert (a + b)[1..] == a[1..] + b;
      CountedAppend(a[1..], b, k);
    }
  }

  /** How many calls of each kind a log holds: the tests' `ctorNum`,
      `initNum` and `destroyNum`. */
  datatype Tally = Tally(generated: nat, initialized: nat, destroyed: nat)

  function Tallied(calls: seq<Call>): Tally {
    Tally(Counted(calls, Generating), Counted(calls, Initializing), Counted(calls, Destroying))
  }

  function Plus(a: Tally, b: Tally): Tally {
    Tally(a.generated + b.generated, a.initialized + b.initialized, a.destroyed + b.destroyed)
  }

  /** The tally of a one-call log. */
  lemma TalliedOne(c: Call)
    ensures Tallied([c]) == Tally(if c.Generate? then 1 else 0,
                                  if c.Initialize? then 1 else 0,
                                  if c.Destroy? then 1 else 0)
  {
    assert [c][1..] == [];
  }

  /** The tally of a log is the sum of the tallies of its parts. */
  lemma TalliedAppend(a: seq<Call>, b: seq<Call>)
    ensures Tallied(a + b) == Plus(Tallied(a), Tallied(b))
  {
    CountedAppend(a, b, Generating);
    CountedAppend(a, b, Initializing);
    CountedAppend(a, b, Destroying);
    var t, ta, tb := Tallied(a + b), Tallied(a), Tallied(b);
    assert t.generated == ta.generated + tb.generated;
    assert t.initialized == ta.initialized + tb.initialized;
    assert t.destroyed == ta.destroyed + tb.destroyed;
  }
}
