/** ListPool<T> and DictionaryPool<TKey, TValue>: pools of scratch containers. Each
    static stack (`mListStack`) becomes an object holding a sequence of containers, whose
    last element is the top. Release clears a container before it is pushed, so every
    cached container is empty and Get only ever hands out empty containers. The stacks'
    initial capacity of 8 is not a bound. */
module ContainerPools {

  /** A List<T> used as scratch space. */
  class ScratchList<T> {
    var items: seq<T>

    constructor ()
      ensures items == []
    {
      items := [];
    }

    method Add(x: T)
      modifies this
      ensures items == old(items) + [x]
    {
      items := items + [x];
    }

    method Clear()
      modifies this
      ensures items == []
    {
      items := [];
    }
  }

  /** A Dictionary<TKey, TValue> used as scratch space. */
  class ScratchDictionary<K(==), V> {
    var entries: map<K, V>

    constructor ()
      ensures entries == map[]
    {
      entries := map[];
    }

    method Put(k: K, v: V)
      modifies this
      ensures entries == old(entries)[k := v]
    {
      entries := entries[k := v];
    }

    method Clear()
      modifies this
      ensures entries == map[]
    {
      entries := map[];
    }
  }

  /** The static stack of ListPool<T>. */
  class ListPool<T> {
    var listStack: seq<ScratchList<T>>

    /** Every cached list is empty (as long as no caller keeps using a list it released). */
    ghost predicate Valid()
      reads this, listStack
    {
      forall i :: 0 <= i < |listStack| ==> listStack[i].items == []
    }

    constructor ()
      ensures Valid() && listStack == []
    {
      listStack := [];
    }

    /** Pops the top list, or makes a new one when the stack is empty; either way the
        list handed out is empty. */
    method Get() returns (r: ScratchList<T>)
      requires Valid()
      modifies this
      ensures Valid()
      ensures r.items == []
      ensures old(listStack) == [] ==> fresh(r) && listStack == []
      ensures old(listStack) != [] ==> r == old(listStack[|listStack| - 1]) && listStack == old(listStack[..|listStack| - 1])
    {
      if |listStack| == 0 {
        r := new ScratchList();
        return;
      }
      r := listStack[|listStack| - 1];
      listStack := listStack[..|listStack| - 1];
    }

    /** Clears the list and pushes it. */
    method Release(toRelease: ScratchList<T>)
      requires Valid()
      modifies this, toRelease
      ensures Valid()
      ensures toRelease.items == []
      ensures listStack == old(listStack) + [toRelease]
    {
      toRelease.Clear();
      listStack := listStack + [toRelease];
    }
  }

  /** The static stack of DictionaryPool<TKey, TValue>. */
  class DictionaryPool<K(==), V> {
    var dictionaryStack: seq<ScratchDictionary<K, V>>

    /** Every cached dictionary is empty (as long as no caller keeps using one it released). */
    ghost predicate Valid()
      reads this, dictionaryStack
    {
      forall i :: 0 <= i < |dictionaryStack| ==> dictionaryStack[i].entries == map[]
    }

    constructor ()
      ensures Valid() && dictionaryStack == []
    {
      dictionaryStack := [];
    }

    /** Pops the top dictionary, or makes a new one when the stack is empty; either way
        the dictionary handed out is empty. */
    method Get() returns (r: ScratchDictionary<K, V>)
      requires Valid()
      modifies this
      ensures Valid()
      ensures r.entries == map[]
      ensures old(dictionaryStack) == [] ==> fresh(r) && dictionaryStack == []
      ensures old(dictionaryStack) != [] ==>
        r == old(dictionaryStack[|dictionaryStack| - 1]) && dictionaryStack == old(dictionaryStack[..|dictionaryStack| - 1])
    {
      if |dictionaryStack| == 0 {
        r := new ScratchDictionary();
        return;
      }
      r := dictionaryStack[|dictionaryStack| - 1];
      dictionaryStack := dictionaryStack[..|dictionaryStack| - 1];
    }

    /** Clears the dictionary and pushes it. */
    method Release(toRelease: ScratchDictionary<K, V>)
      requires Valid()
      modifies this, toRelease
      ensures Valid()
      ensures toRelease.entries == map[]
      ensures dictionaryStack == old(dictionaryStack) + [toRelease]
    {
      toRelease.Clear();
      dictionaryStack := dictionaryStack + [toRelease];
    }
  }

  /** Whatever a list held when it was released, the next Get hands it back empty. */
  method ReleaseThenGetIsEmpty<T>(pool: ListPool<T>, scratch: ScratchList<T>, x: T) returns (again: ScratchList<T>)
    requires pool.Valid() && scratch !in pool.listStack
    modifies pool, scratch
    ensures again == scratch && again.items == []
    ensures pool.Valid() && pool.listStack == old(pool.listStack)
  {
    scratch.Add(x);
    pool.Release(scratch);
    again := pool.Get();
  }

  /** The same for a dictionary: whatever it held when it was released, the next Get
      hands it back empty. */
  method ReleaseThenGetIsEmptyDictionary<K(==), V>(pool: DictionaryPool<K, V>, scratch: ScratchDictionary<K, V>, k: K, v: V)
    returns (again: ScratchDictionary<K, V>)
    requires pool.Valid() && scratch !in pool.dictionaryStack
    modifies pool, scratch
    ensures again == scratch && again.entries == map[]
    ensures pool.Valid() && pool.dictionaryStack == old(pool.dictionaryStack)
  {
    scratch.Put(k, v);
    pool.Release(scratch);
    again := pool.Get();
  }
}
