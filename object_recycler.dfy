/** The `ObjectRecycler` class: `objectPool` is updated in place by `pop` and
    `push`, and each method is proved to leave the pool its function in
    `Recycling` describes. */
module ObjectRecyclers {
  import opened Seqs
  import opened Recycling
  import opened RecyclingFacts

  class ObjectRecycler {
    var objectPool: seq<Obj>

    /** The pool never holds an object twice. */
    ghost predicate Valid()
      reads this
    {
      Distinct(objectPool)
    }

    /** `new ObjectRecycler(option)`: an empty pool. The `generate` option is
        the `generated` argument of `AcquireObject`. */
    constructor()
      ensures objectPool == [] && Valid()
    {
      objectPool := [];
    }

    /** `acquireObject()`; `generated` is what `option.generate()` returns,
        used only when the pool is empty. */
    method AcquireObject(generated: Obj) returns (obj: Obj, calls: seq<Call>)
      requires Valid()
      modifies this
      ensures Acquired(objectPool, obj, calls) == Acquire(old(objectPool), generated)
      ensures Valid() && (|old(objectPool)| > 0 ==> obj !in objectPool)
    {
      AcquireDistinct(objectPool, generated);
      if |objectPool| > 0 {
        obj := objectPool[|objectPool| - 1];
        objectPool := objectPool[..|objectPool| - 1];
        calls := [Initialize(obj)];
      } else {
        obj := generated;
        calls := [Generate, Initialize(obj)];
      }
    }

    /** `recycleObject(object)`; `hasDestroy` says whether the object has a
        `destroy` method. */
    method RecycleObject(obj: Obj, hasDestroy: bool) returns (calls: seq<Call>)
      requires Valid()
      modifies this
      ensures Recycled(objectPool, calls) == Recycle(old(objectPool), obj, hasDestroy)
      ensures Valid() && obj in objectPool
    {
      RecycleDistinct(objectPool, obj, hasDestroy);
      calls := [];
      if hasDestroy {
        calls := [Destroy(obj)];
      }
      var index := IndexOf(objectPool, obj);
      if index == -1 {
        objectPool := objectPool + [obj];
      }
    }
  }
}
