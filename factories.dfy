/** The poolable object (IPoolable) and the construction strategies (IObjectFactory<T>
    and its three implementations). Every factory has a `Create` method; the ones that
    make a new object return a fresh one, and the non-public strategy may fail. */
module Factories {
  import opened Wrappers

  /** An object implementing IPoolable: the `IsRecycled` flag the bounded pools test and
      set, and a ghost count of the `OnRecycled` notifications it has received. */
  class Poolable {
    var isRecycled: bool
    ghost var recycledNotices: nat

    /** A newly constructed object is not recycled and has not been notified. */
    constructor ()
      ensures !isRecycled && recycledNotices == 0
    {
      isRecycled := false;
      recycledNotices := 0;
    }

    /** IPoolable.OnRecycled: the pool's notification that the object is being handed
        back (whether or not the pool keeps it). Its body is the object's own business;
        the model records only that it was called. */
    method OnRecycled()
      modifies this
      ensures isRecycled == old(isRecycled)
      ensures recycledNotices == old(recycledNotices) + 1
    {
      recycledNotices := recycledNotices + 1;
    }
  }

  /** DefaultObjectFactory<T>: `new T()`, which always succeeds. */
  class DefaultObjectFactory {
    constructor ()
    {
    }

    method Create() returns (t: Poolable)
      ensures fresh(t) && !t.isRecycled && t.recycledNotices == 0
    {
      t := new Poolable();
    }
  }

  /** NonPublicObjectFactory<T>: invokes the parameterless non-public constructor of T,
      found by reflection. Whether T declares one is a property of the type, fixed for
      the factory's lifetime; without one every Create fails. */
  class NonPublicObjectFactory {
    const hasHiddenConstructor: bool

    constructor (hasHiddenConstructor: bool)
      ensures this.hasHiddenConstructor == hasHiddenConstructor
    {
      this.hasHiddenConstructor := hasHiddenConstructor;
    }

    method Create() returns (r: Result<Poolable>)
      ensures r.Ok? <==> hasHiddenConstructor
      ensures r.Err? ==> r.error == ConstructorNotFound
      ensures r.Ok? ==> fresh(r.value) && !r.value.isRecycled && r.value.recycledNotices == 0
    {
      if !hasHiddenConstructor {
        return Err(ConstructorNotFound);
      }
      var t := new Poolable();
      r := Ok(t);
    }
  }

  /** CustomObjectFactory<T>: defers to the function it was constructed with. */
  class CustomObjectFactory<T> {
    const factoryMethod: () -> T

    constructor (factoryMethod: () -> T)
      ensures this.factoryMethod == factoryMethod
    {
      this.factoryMethod := factoryMethod;
    }

    method Create() returns (t: T)
      ensures t == factoryMethod()
    {
      t := factoryMethod();
    }
  }
}
