/** The two bounded pools of poolable objects, SafeObjectPool<T> and NonPublicObjectPool<T>,
    each with the state its base class Pool<T> gives it: the cache stack (`mCacheStack`),
    the capacity (`mMaxCount`, initially 12) and the factory. The stack is a sequence whose
    last element is the top. Every method is proved against the functions of PoolSpec. */
module ObjectPools {
  import opened Wrappers
  import opened PoolSpec
  import opened Factories

  /** What the double-recycle guard keeps true of a cache stack: every cached object is
      flagged as recycled, and no object is cached twice. */
  ghost predicate Cached(s: seq<Poolable>)
    reads s
  {
    && (forall i :: 0 <= i < |s| ==> s[i].isRecycled)
    && (forall i, j :: 0 <= i < j < |s| ==> s[i] != s[j])
  }

  /** The setters' `while (removeCount > 0) { mCacheStack.Pop(); --removeCount; }` loop,
      on the stack's value. */
  method PopWhilePositive<T>(stack: seq<T>, removeCount: int) returns (s: seq<T>)
    requires removeCount <= |stack|
    ensures s == Popped(stack, removeCount)
  {
    s := stack;
    var remaining := removeCount;
    while remaining > 0
      invariant remaining <= removeCount && remaining <= |s|
      invariant removeCount > 0 ==> 0 <= remaining && s == stack[..|stack| - (removeCount - remaining)]
      invariant removeCount <= 0 ==> s == stack
    {
      s := s[..|s| - 1];
      remaining := remaining - 1;
    }
  }

  /** SafeObjectPool<T>: constructs with `new T()` and keeps the capacity bound at all times. */
  class SafeObjectPool {
    var cacheStack: seq<Poolable>
    var maxCount: int
    const factory: DefaultObjectFactory

    ghost function State(): PoolState<Poolable>
      reads this
    {
      PoolState(cacheStack, maxCount)
    }

    ghost predicate Valid()
      reads this, cacheStack
    {
      WithinCapacity(State()) && Cached(cacheStack)
    }

    constructor ()
      ensures Valid() && fresh(factory)
      ensures cacheStack == [] && maxCount == DefaultMaxCount
    {
      cacheStack := [];
      maxCount := DefaultMaxCount;
      factory := new DefaultObjectFactory();
    }

    /** Pool<T>.CurCount: the number of cached objects, which never exceeds a positive
        capacity. */
    function CurCount(): (n: nat)
      requires Valid()
      reads this, cacheStack
      ensures n == |cacheStack|
      ensures maxCount > 0 ==> n <= maxCount
    {
      |cacheStack|
    }

    /** Pops the top object, or makes a fresh one when the stack is empty, and clears its
        recycled flag. Nothing else is touched. */
    method Allocate() returns (r: Poolable)
      requires Valid()
      modifies this, if cacheStack == [] then {} else {cacheStack[|cacheStack| - 1]}
      ensures Valid()
      ensures State() == AfterAllocate(old(State()))
      ensures old(cacheStack) == [] ==> fresh(r) && r.recycledNotices == 0
      ensures old(cacheStack) != [] ==> r == Top(old(State())) && r.recycledNotices == old(r.recycledNotices)
      ensures !r.isRecycled
    {
      if |cacheStack| == 0 {
        r := factory.Create();
      } else {
        r := cacheStack[|cacheStack| - 1];
        cacheStack := cacheStack[..|cacheStack| - 1];
      }
      r.isRecycled := false;
    }

    /** Hands `t` back: refused when null or already recycled, dropped (but notified) at
        capacity, and otherwise flagged, notified and pushed on top. */
    method Recycle(t: Poolable?) returns (ok: bool)
      requires Valid()
      modifies this, t
      ensures Valid() && maxCount == old(maxCount)
      ensures var v := RecycleVerdict(old(State()), t == null, t != null && old(t.isRecycled));
        && (ok <==> v == Stored)
        && (v == Stored ==> t != null && cacheStack == old(cacheStack) + [t]
                            && t.isRecycled && t.recycledNotices == old(t.recycledNotices) + 1)
        && (v == Dropped ==> t != null && cacheStack == old(cacheStack)
                             && !t.isRecycled && t.recycledNotices == old(t.recycledNotices) + 1)
        && (v == Refused ==> cacheStack == old(cacheStack)
                             && (t != null ==> t.isRecycled == old(t.isRecycled)
                                               && t.recycledNotices == old(t.recycledNotices)))
    {
      if t == null || t.isRecycled {
        return false;
      }
      if maxCount > 0 {
        if |cacheStack| >= maxCount {
          t.OnRecycled();
          return false;
        }
      }
      t.isRecycled := true;
      t.OnRecycled();
      cacheStack := cacheStack + [t];
      ok := true;
    }

    /** The MaxCacheCount setter: stores the value and, when it is positive and below the
        count, pops the excess off the top without notifying anyone. */
    method SetMaxCacheCount(value: int)
      requires Valid()
      modifies this
      ensures Valid()
      ensures maxCount == value
      ensures cacheStack == SafeTrimmed(old(cacheStack), value)
    {
      maxCount := value;
      if maxCount > 0 {
        if maxCount < |cacheStack| {
          var removeCount := |cacheStack| - maxCount;
          cacheStack := PopWhilePositive(cacheStack, removeCount);
        }
      }
    }

    /** Sets the capacity (with trimming), then recycles fresh objects until the count
        reaches initCount, capped by a positive maxCount. Objects already cached stay. */
    method Init(newMaxCount: int, initCount: int)
      requires Valid()
      modifies this
      ensures Valid()
      ensures maxCount == newMaxCount
      ensures var kept := SafeTrimmed(old(cacheStack), newMaxCount);
        && |cacheStack| == SafeInitCount(|kept|, newMaxCount, initCount)
        && cacheStack[..|kept|] == kept
        && forall k :: |kept| <= k < |cacheStack| ==> fresh(cacheStack[k]) && cacheStack[k].recycledNotices == 1
    {
      SetMaxCacheCount(newMaxCount);
      ghost var kept := cacheStack;
      var target := if newMaxCount > 0 then Min(newMaxCount, initCount) else initCount;
      if |cacheStack| < target {
        for i := |cacheStack| to target
          invariant Valid() && maxCount == newMaxCount
          invariant |cacheStack| == i && cacheStack[..|kept|] == kept
          invariant forall k :: |kept| <= k < i ==> fresh(cacheStack[k]) && cacheStack[k].recycledNotices == 1
        {
          var t := new Poolable();
          var _ := Recycle(t);
        }
      }
    }
  }

  /** NonPublicObjectPool<T>: constructs through T's non-public constructor, which may be
      missing. Its setter and its Init are modelled as written (see PoolSpec.NonPublicTrimmed
      and PoolSpec.NonPublicInitCount), so it does not keep the capacity bound. */
  class NonPublicObjectPool {
    var cacheStack: seq<Poolable>
    var maxCount: int
    const factory: NonPublicObjectFactory

    ghost function State(): PoolState<Poolable>
      reads this
    {
      PoolState(cacheStack, maxCount)
    }

    ghost predicate Valid()
      reads this, cacheStack
    {
      Cached(cacheStack)
    }

    constructor (hasHiddenConstructor: bool)
      ensures Valid() && fresh(factory)
      ensures cacheStack == [] && maxCount == DefaultMaxCount
      ensures factory.hasHiddenConstructor == hasHiddenConstructor
    {
      cacheStack := [];
      maxCount := DefaultMaxCount;
      factory := new NonPublicObjectFactory(hasHiddenConstructor);
    }

    /** Pool<T>.CurCount: the number of cached objects. Unlike the Safe pool, no capacity
        bound comes with it, since the setter can leave the stack over capacity. */
    function CurCount(): (n: nat)
      reads this
      ensures n == |State().stack|
      ensures n == 0 <==> cacheStack == []
    {
      |cacheStack|
    }

    /** Pops the top object, or asks the factory when the stack is empty (which fails
        when T has no non-public constructor), and clears the object's recycled flag. */
    method Allocate() returns (r: Result<Poolable>)
      requires Valid()
      modifies this, if cacheStack == [] then {} else {cacheStack[|cacheStack| - 1]}
      ensures Valid()
      ensures State() == AfterAllocate(old(State()))
      ensures r.Err? <==> old(cacheStack) == [] && !factory.hasHiddenConstructor
      ensures r.Ok? && old(cacheStack) == [] ==> fresh(r.value) && r.value.recycledNotices == 0
      ensures r.Ok? && old(cacheStack) != [] ==>
        r.value == Top(old(State())) && r.value.recycledNotices == old(r.value.recycledNotices)
      ensures r.Ok? ==> !r.value.isRecycled
    {
      var t: Poolable;
      if |cacheStack| == 0 {
        var created := factory.Create();
        if created.Err? {
          return Err(created.error);
        }
        t := created.value;
      } else {
        t := cacheStack[|cacheStack| - 1];
        cacheStack := cacheStack[..|cacheStack| - 1];
      }
      t.isRecycled := false;
      r := Ok(t);
    }

    /** The same guards and effects as SafeObjectPool.Recycle. */
    method Recycle(t: Poolable?) returns (ok: bool)
      requires Valid()
      modifies this, t
      ensures Valid() && maxCount == old(maxCount)
      ensures var v := RecycleVerdict(old(State()), t == null, t != null && old(t.isRecycled));
        && (ok <==> v == Stored)
        && (v == Stored ==> t != null && cacheStack == old(cacheStack) + [t]
                            && t.isRecycled && t.recycledNotices == old(t.recycledNotices) + 1)
        && (v == Dropped ==> t != null && cacheStack == old(cacheStack)
                             && !t.isRecycled && t.recycledNotices == old(t.recycledNotices) + 1)
        && (v == Refused ==> cacheStack == old(cacheStack)
                             && (t != null ==> t.isRecycled == old(t.isRecycled)
                                               && t.recycledNotices == old(t.recycledNotices)))
    {
      if t == null || t.isRecycled {
        return false;
      }
      if maxCount > 0 {
        if |cacheStack| >= maxCount {
          t.OnRecycled();
          return false;
        }
      }
      t.isRecycled := true;
      t.OnRecycled();
      cacheStack := cacheStack + [t];
      ok := true;
    }

    /** The MaxCacheCount setter as written: the value is stored, and the pop loop is
        handed `maxCount - count`, which is negative whenever it is reached, so the stack
        never changes. */
    method SetMaxCacheCount(value: int)
      requires Valid()
      modifies this
      ensures Valid()
      ensures maxCount == value
      ensures cacheStack == NonPublicTrimmed(old(cacheStack), value)
      ensures cacheStack == old(cacheStack)
    {
      maxCount := value;
      if maxCount <= 0 { return; }
      if maxCount >= |cacheStack| { return; }
      var removeCount := maxCount - |cacheStack|;
      cacheStack := PopWhilePositive(cacheStack, removeCount);
    }

    /** Init as written: newMaxCount only caps how many objects are made and is never
        stored; each object comes from the factory and is recycled against the pool's own
        capacity. When T has no non-public constructor, the first creation throws before
        anything is cached. */
    method Init(newMaxCount: int, initCount: int) returns (outcome: Outcome)
      requires Valid()
      modifies this
      ensures Valid()
      ensures maxCount == old(maxCount)
      ensures outcome.Fail? <==>
        |old(cacheStack)| < InitTarget(newMaxCount, initCount) && !factory.hasHiddenConstructor
      ensures outcome.Fail? ==> outcome.error == ConstructorNotFound && cacheStack == old(cacheStack)
      ensures outcome.Pass? ==>
        && |cacheStack| == NonPublicInitCount(|old(cacheStack)|, maxCount, newMaxCount, initCount)
        && cacheStack[..|old(cacheStack)|] == old(cacheStack)
        && forall k :: |old(cacheStack)| <= k < |cacheStack| ==>
             fresh(cacheStack[k]) && cacheStack[k].recycledNotices == 1
    {
      var target := if newMaxCount > 0 then Min(newMaxCount, initCount) else initCount;
      if |cacheStack| >= target {
        return Pass;
      }
      ghost var start := cacheStack;
      for i := |cacheStack| to target
        invariant Valid() && maxCount == old(maxCount)
        invariant |cacheStack| == NonPublicFillCount(|start|, maxCount, i)
        invariant cacheStack[..|start|] == start
        invariant !factory.hasHiddenConstructor ==> i == |start| && cacheStack == start
        invariant forall k :: |start| <= k < |cacheStack| ==>
                    fresh(cacheStack[k]) && cacheStack[k].recycledNotices == 1
      {
        var created := factory.Create();
        if created.Err? {
          return Fail(created.error);
        }
        var _ := Recycle(created.value);
      }
      outcome := Pass;
    }
  }
}
