/** AbstractPool<T>: the intrusive pool, where the poolable type owns its cache. The
    type's static `mPool` stack becomes the object SelfPoolCache, shared by every instance
    of the type; `Recycle2Cache`, an instance method in the source, takes the instance as
    a parameter here. The stack's `10` is an initial capacity, not a bound: there is no
    capacity and no double-recycle guard. */
module SelfPool {

  /** An instance of a type T derived from AbstractPool<T>: its `mInPool` flag and a
      ghost count of the `OnRecycle` calls it has received. */
  class SelfPooled {
    var inPool: bool
    ghost var onRecycleCalls: nat

    constructor ()
      ensures !inPool && onRecycleCalls == 0
    {
      inPool := false;
      onRecycleCalls := 0;
    }

    /** The type's OnRecycle hook; the model records only that it ran. */
    method OnRecycle()
      modifies this
      ensures inPool == old(inPool)
      ensures onRecycleCalls == old(onRecycleCalls) + 1
    {
      onRecycleCalls := onRecycleCalls + 1;
    }
  }

  /** The static pool of one type; the last element of `pool` is the top. */
  class SelfPoolCache {
    var pool: seq<SelfPooled>

    constructor ()
      ensures pool == []
    {
      pool := [];
    }

    /** AbstractPool<T>.Allocate: pops the top instance, or constructs one when the
        stack is empty, and clears its in-pool flag. */
    method Allocate() returns (node: SelfPooled)
      modifies this, if pool == [] then {} else {pool[|pool| - 1]}
      ensures old(pool) == [] ==> fresh(node) && pool == [] && node.onRecycleCalls == 0
      ensures old(pool) != [] ==>
        && node == old(pool[|pool| - 1])
        && pool == old(pool[..|pool| - 1])
        && node.onRecycleCalls == old(node.onRecycleCalls)
      ensures !node.inPool
    {
      if |pool| == 0 {
        node := new SelfPooled();
      } else {
        node := pool[|pool| - 1];
        pool := pool[..|pool| - 1];
      }
      node.inPool := false;
    }

    /** Recycle2Cache: runs the hook, sets the in-pool flag and pushes the instance,
        unconditionally: the count always grows by one. */
    method Recycle2Cache(node: SelfPooled)
      modifies this, node
      ensures pool == old(pool) + [node]
      ensures |pool| == |old(pool)| + 1
      ensures node.inPool
      ensures node.onRecycleCalls == old(node.onRecycleCalls) + 1
    {
      node.OnRecycle();
      node.inPool := true;
      pool := pool + [node];
    }
  }

  /** Nothing stops an instance from being recycled twice: it is then cached twice, and
      the next two Allocates hand out the same instance. */
  method RecycleTwiceCachesTwice(cache: SelfPoolCache, node: SelfPooled)
    modifies cache, node
    ensures cache.pool == old(cache.pool) + [node, node]
  {
    cache.Recycle2Cache(node);
    cache.Recycle2Cache(node);
  }
}
