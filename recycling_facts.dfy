/** What `ObjectRecycler` promises: a last-in first-out pool that never holds
    an object twice, which calls `generate` only when empty, `initialize` on
    every acquire and `destroy` on every recycle. */
module RecyclingFacts {
  import opened Seqs
  import opened Recycling

  /** `acquireObject()` on a non-empty pool returns the object pooled last,
      removes exactly it, and initializes it without generating. */
  lemma AcquirePops(pool: seq<Obj>, generated: Obj)
    requires |pool| > 0
    ensures var r := Acquire(pool, generated);
      && r.obj == pool[|pool| - 1] && r.pool == pool[..|pool| - 1]
      && r.calls == [Initialize(r.obj)] && Tallied(r.calls) == Tally(0, 1, 0)
  {
    TalliedOne(Initialize(pool[|pool| - 1]));
  }

  /** `acquireObject()` on an empty pool generates one object, initializes
      it and returns it, leaving the pool empty. */
  lemma AcquireGenerates(generated: Obj)
    ensures var r := Acquire([], generated);
      && r.obj == generated && r.pool == []
      && r.calls == [Generate, Initialize(generated)] && Tallied(r.calls) == Tally(1, 1, 0)
  {
    OneCallTallies(generated);
  }

  /** `recycleObject(object)` calls `destroy` on every call, when the object
      has one, pooled already or not; it adds the object at the end exactly
      when it is not pooled, and changes nothing else. */
  lemma RecycleEffect(pool: seq<Obj>, obj: Obj, hasDestroy: bool)
    ensures var r := Recycle(pool, obj, hasDestroy);
      && r.calls == (if hasDestroy then [Destroy(obj)] else [])
      && Tallied(r.calls) == Tally(0, 0, if hasDestroy then 1 else 0)
      && (obj in pool ==> r.pool == pool)
      && (obj !in pool ==> r.pool == pool + [obj])
      && |pool| <= |r.pool| <= |pool| + 1
  {
    if hasDestroy {
      TalliedOne(Destroy(obj));
    }
  }

  /** The pool never holds an object twice: both operations keep it so, and
      an acquired object is no longer pooled. */
  lemma AcquireDistinct(pool: seq<Obj>, generated: Obj)
    requires Distinct(pool)
    ensures var r := Acquire(pool, generated);
      Distinct(r.pool) && (|pool| > 0 ==> r.obj !in r.pool)
  {
  }

  lemma RecycleDistinct(pool: seq<Obj>, obj: Obj, hasDestroy: bool)
    requires Distinct(pool)
    ensures Distinct(Recycle(pool, obj, hasDestroy).pool)
  {
    RecycleEffect(pool, obj, hasDestroy);
  }

  /** Recycling an object that is not pooled and acquiring again returns
      that object and restores the pool. */
  lemma RecycleThenAcquire(pool: seq<Obj>, obj: Obj, hasDestroy: bool, generated: Obj)
    requires obj !in pool
    ensures var a := Acquire(Recycle(pool, obj, hasDestroy).pool, generated);
      a.obj == obj && a.pool == pool && a.calls == [Initialize(obj)]
  {
    RecycleEffect(pool, obj, hasDestroy);
    AcquirePops(pool + [obj], generated);
    assert (pool + [obj])[..|pool|] == pool;
  }

  /** Acquiring from a pool without duplicates and recycling the object
      restores the pool. */
  lemma AcquireThenRecycle(pool: seq<Obj>, generated: Obj, hasDestroy: bool)
    requires Distinct(pool) && |pool| > 0
    ensures var a := Acquire(pool, generated);
      Recycle(a.pool, a.obj, hasDestroy).pool == pool
  {
    var a := Acquire(pool, generated);
    AcquireDistinct(pool, generated);
    RecycleEffect(a.pool, a.obj, hasDestroy);
  }

  /** The first case of `source/test/object-recycler.spec.ts`: one acquire
      generates and initializes; recycling it destroys it once. The counters
      are tallies of all calls so far. */
  lemma TableOneObject()
    ensures var a := Acquire([], 0); var r := Recycle(a.pool, a.obj, true);
      && Tallied(a.calls) == Tally(1, 1, 0)
      && Tallied(a.calls + r.calls) == Tally(1, 1, 1)
      && r.pool == [a.obj]
  {
    var a := Acquire([], 0);
    AcquireGenerates(0);
    RecycleEffect(a.pool, a.obj, true);
    TalliedAppend(a.calls, Recycle(a.pool, a.obj, true).calls);
  }

  /** The calls and pools of the second case, one operation at a time. */
  lemma TwoObjectsSteps(g: Obj, h: Obj)
    ensures var a := Acquire([], 0); var b := Acquire(a.pool, 1);
      var r1 := Recycle(b.pool, a.obj, true); var r2 := Recycle(r1.pool, a.obj, true);
      var r3 := Recycle(r2.pool, b.obj, true);
      var c := Acquire(r3.pool, g); var d := Acquire(c.pool, h);
      && a == Acquired([], 0, [Generate, Initialize(0)])
      && b == Acquired([], 1, [Generate, Initialize(1)])
      && r1 == Recycled([0], [Destroy(0)]) && r2 == Recycled([0], [Destroy(0)])
      && r3 == Recycled([0, 1], [Destroy(1)])
      && c == Acquired([0], 1, [Initialize(1)]) && d == Acquired([], 0, [Initialize(0)])
  {
    RecycleEffect([], 0, true);
    RecycleEffect([0], 0, true);
    RecycleEffect([0], 1, true);
    assert [] + [0] == [0] && [0] + [1] == [0, 1];
    AcquirePops([0, 1], g);
    AcquirePops([0], h);
    assert [0, 1][..1] == [0];
  }

  lemma OneCallTallies(x: Obj)
    ensures Tallied([Generate, Initialize(x)]) == Tally(1, 1, 0)
    ensures Tallied([Initialize(x)]) == Tally(0, 1, 0)
    ensures Tallied([Destroy(x)]) == Tally(0, 0, 1)
  {
    TalliedOne(Initialize(x));
    TalliedOne(Destroy(x));
    var s := [Generate, Initialize(x)];
    assert s[1..] == [Initialize(x)];
    assert Counted(s, Generating) == 1 + Counted([Initialize(x)], Generating);
    assert Counted(s, Initializing) == Counted([Initialize(x)], Initializing);
    assert Counted(s, Destroying) == Counted([Initialize(x)], Destroying);
  }

  /** The running totals of seven logs with the tallies of the second case. */
  lemma RunningTallies(l1: seq<Call>, l2: seq<Call>, l3: seq<Call>, l4: seq<Call>,
                       l5: seq<Call>, l6: seq<Call>, l7: seq<Call>)
    requires Tallied(l1) == Tally(1, 1, 0) && Tallied(l2) == Tally(1, 1, 0)
    requires Tallied(l3) == Tally(0, 0, 1) && Tallied(l4) == Tally(0, 0, 1)
    requires Tallied(l5) == Tally(0, 0, 1)
    requires Tallied(l6) == Tally(0, 1, 0) && Tallied(l7) == Tally(0, 1, 0)
    ensures Tallied(l1 + l2) == Tally(2, 2, 0)
    ensures Tallied(l1 + l2 + l3) == Tally(2, 2, 1)
    ensures Tallied(l1 + l2 + l3 + l4) == Tally(2, 2, 2)
    ensures Tallied(l1 + l2 + l3 + l4 + l5) == Tally(2, 2, 3)
    ensures Tallied(l1 + l2 + l3 + l4 + l5 + l6) == Tally(2, 3, 3)
    ensures Tallied(l1 + l2 + l3 + l4 + l5 + l6 + l7) == Tally(2, 4, 3)
  {
    var s2 := l1 + l2;
    TalliedAppend(l1, l2);
    assert Tallied(s2) == Tally(2, 2, 0);
    var s3 := s2 + l3;
    TalliedAppend(s2, l3);
    assert Tallied(s3) == Tally(2, 2, 1);
    var s4 := s3 + l4;
    TalliedAppend(s3, l4);
    assert Tallied(s4) == Tally(2, 2, 2);
    var s5 := s4 + l5;
    TalliedAppend(s4, l5);
    assert Tallied(s5) == Tally(2, 2, 3);
    var s6 := s5 + l6;
    TalliedAppend(s5, l6);
    assert Tallied(s6) == Tally(2, 3, 3);
    TalliedAppend(s6, l7);
  }

  /** The second case: `generate()` returns a new object each time (0, then
      1). Recycling `objA` twice destroys it twice but pools it once, and
      the next two acquires return `objB`, then `objA`, generating nothing. */
  lemma TableTwoObjects(g: Obj, h: Obj)
    ensures var a := Acquire([], 0); var b := Acquire(a.pool, 1);
      var r1 := Recycle(b.pool, a.obj, true); var r2 := Recycle(r1.pool, a.obj, true);
      var r3 := Recycle(r2.pool, b.obj, true);
      var c := Acquire(r3.pool, g); var d := Acquire(c.pool, h);
      && Tallied(a.calls) == Tally(1, 1, 0)
      && Tallied(a.calls + b.calls) == Tally(2, 2, 0)
      && Tallied(a.calls + b.calls + r1.calls) == Tally(2, 2, 1)
      && Tallied(a.calls + b.calls + r1.calls + r2.calls) == Tally(2, 2, 2)
      && Tallied(a.calls + b.calls + r1.calls + r2.calls + r3.calls) == Tally(2, 2, 3)
      && Tallied(a.calls + b.calls + r1.calls + r2.calls + r3.calls + c.calls) == Tally(2, 3, 3)
      && Tallied(a.calls + b.calls + r1.calls + r2.calls + r3.calls + c.calls + d.calls) == Tally(2, 4, 3)
      && c.obj == b.obj && d.obj == a.obj && a.obj != b.obj
  {
    TwoObjectsSteps(g, h);
    OneCallTallies(0);
    OneCallTallies(1);
    RunningTallies([Generate, Initialize(0)], [Generate, Initialize(1)], [Destroy(0)], [Destroy(0)],
                   [Destroy(1)], [Initialize(1)], [Initialize(0)]);
  }
}
