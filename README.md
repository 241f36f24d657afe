# QFramework object reuse: pools and lazy singletons in Dafny

This project models the reuse layer that QFramework's AudioKit carries in
`AudioKitDependency.cs`, and proves properties of that model:

- **Bounded pools.** `SafeObjectPool<T>` and `NonPublicObjectPool<T>`, with the state of
  their base class `Pool<T>`: a LIFO cache stack, a capacity field that starts at 12, and a
  factory. `Allocate` pops the stack, or asks the factory when the stack is empty.
  `Recycle` refuses null and already-recycled objects. At capacity it still notifies the
  object but drops it. Otherwise it flags the object, notifies it and pushes it. `Init`
  pre-fills the stack, and the `MaxCacheCount` setter trims it.
- **Factories.** `DefaultObjectFactory` (`new T()`), `NonPublicObjectFactory` (the
  non-public parameterless constructor, which may be missing) and `CustomObjectFactory`
  (a caller-supplied function).
- **The intrusive pool.** `AbstractPool<T>` has one static stack per type, with no bound
  and no double-recycle guard.
- **Scratch container pools.** `ListPool<T>` and `DictionaryPool<K,V>` clear a container
  on `Release`, so `Get` only hands out empty containers.
- **Lazy singleton cells.** `Singleton<T>`, `SingletonProperty<T>`, `MonoSingleton<T>` and
  `MonoSingletonProperty<T>`: an empty slot, one construction plus one `OnSingletonInit`,
  the same instance on every read, and an empty slot again after `Dispose`.
  `MonoSingleton` adds a one-way application-quit flag, after which `Instance` is null.

Layout, one module per file:

| file | module | contents |
|---|---|---|
| `wrappers.dfy` | `Wrappers` | `Result`, `Outcome`, the `ConstructorNotFound` error, `Min` |
| `pool_spec.dfy` | `PoolSpec` | the pools as values: stack and capacity, the effect of each operation, operation sequences, and the lemmas about them |
| `factories.dfy` | `Factories` | `Poolable` (an `IPoolable` object) and the three factories |
| `object_pools.dfy` | `ObjectPools` | the classes `SafeObjectPool` and `NonPublicObjectPool`, proved against `PoolSpec` |
| `self_pool.dfy` | `SelfPool` | `AbstractPool<T>`'s static stack and its instances |
| `container_pools.dfy` | `ContainerPools` | `ListPool`, `DictionaryPool` and their containers |
| `singletons.dfy` | `Singletons` | the singleton slots, `SingletonCreator`, and the host engine as an oracle |

Conventions:

- A stack is a `seq` whose last element is the top.
- Each piece of static state of the source (a pool's `mPool` or `mListStack`, a singleton's
  `mInstance` and `mOnApplicationQuit`) is a field of one object standing for that type's
  static state.
- The objects' hooks (`OnRecycled`, `OnRecycle`, `OnSingletonInit`) only increment a ghost
  counter.
- Pool methods require `Valid()`. For both bounded pools this says that every cached
  object is flagged as recycled and that no object is cached twice; these are what the
  double-recycle guard protects. `SafeObjectPool.Valid()` also holds the capacity bound:
  with a positive maximum, the count never exceeds it.

Where the code differs from its comments or from what the pools are documented to do, the
model follows the code:

- The capacity starts at 12. The comment above the field says 5.
- `NonPublicObjectPool`'s `MaxCacheCount` setter never trims, and its `Init` never stores
  the maximum it is given. Both are recorded under Findings.
- The intrusive pool has no bound; the `10` in its constructor is only an initial capacity.
- `MonoSingleton<T>.Instance` and `MonoSingletonProperty<T>.Instance` take no lock.

## Model

| member | source | states |
|---|---|---|
| `PoolSpec.RecycleVerdict` | Assets/Plugins/QFramework/Toolkits/AudioKit/Scripts/AudioKitDependency.cs:104-125 | Recycle is refused exactly when the object is null or already recycled; it is dropped exactly when it passes that guard and a positive capacity is reached; and it is stored exactly in the remaining case |
| `PoolSpec.AfterAllocate` | Assets/Plugins/QFramework/Toolkits/AudioKit/Scripts/AudioKitDependency.cs:333-338 | Allocate keeps the capacity; a miss leaves the pool unchanged, and a hit removes exactly the top object, the rest staying in order |
| `PoolSpec.RecycleThenAllocate` | Assets/Plugins/QFramework/Toolkits/AudioKit/Scripts/AudioKitDependency.cs:333-338 | LIFO: after a Recycle that stores `t`, the next Allocate hands out `t` and puts the pool back exactly as it was before the Recycle |
| `PoolSpec.AllocateThenRecycle` | Assets/Plugins/QFramework/Toolkits/AudioKit/Scripts/AudioKitDependency.cs:111-124 | in a pool within capacity, an allocated hit can always be stored again, and storing it restores the pool |
| `PoolSpec.AllocateRecycleKeepCapacity` | Assets/Plugins/QFramework/Toolkits/AudioKit/Scripts/AudioKitDependency.cs:111-118 | for any guard outcome, neither Allocate nor Recycle takes a pool out of its capacity bound |
| `PoolSpec.Popped` | Assets/Plugins/QFramework/Toolkits/AudioKit/Scripts/AudioKitDependency.cs:79-83 | the pop loop removes exactly `n` objects from the top when `n` is positive, and none otherwise; what is left is the bottom of the old stack |
| `PoolSpec.SafeTrimmed` | Assets/Plugins/QFramework/Toolkits/AudioKit/Scripts/AudioKitDependency.cs:65-88 | setting a value `0 < v < count` leaves exactly the bottom `v` objects; any other value leaves the stack unchanged; with a positive value the result never exceeds it |
| `PoolSpec.SafeTrimmedIdempotent` | Assets/Plugins/QFramework/Toolkits/AudioKit/Scripts/AudioKitDependency.cs:74-84 | setting the same capacity twice trims only once |
| `PoolSpec.NonPublicTrimmed` | Assets/Plugins/QFramework/Toolkits/AudioKit/Scripts/AudioKitDependency.cs:186-196 | the NonPublicObjectPool setter, as written, leaves the stack unchanged for every value, so a value below the count leaves the pool over it |
| `PoolSpec.NonPublicSetMaxBreaksCapacity` | Assets/Plugins/QFramework/Toolkits/AudioKit/Scripts/AudioKitDependency.cs:191 | a NonPublic pool holding two objects and given capacity 1 is over capacity afterwards, while the Safe setter keeps only the bottom object |
| `PoolSpec.InitTarget` | Assets/Plugins/QFramework/Toolkits/AudioKit/Scripts/AudioKitDependency.cs:47-50 | the number of objects Init aims for is `initCount`, capped by `maxCount` only when `maxCount` is positive |
| `PoolSpec.SafeInitCount` | Assets/Plugins/QFramework/Toolkits/AudioKit/Scripts/AudioKitDependency.cs:52-58 | Init only adds missing objects: the final count is the larger of the trimmed count and the target, and it stays within a positive maximum |
| `PoolSpec.SafeInitSettles` | Assets/Plugins/QFramework/Toolkits/AudioKit/Scripts/AudioKitDependency.cs:43-59 | once the count lies between the target and the positive maximum, a second Init with the same arguments trims nothing and adds nothing |
| `PoolSpec.NonPublicInitCount` | Assets/Plugins/QFramework/Toolkits/AudioKit/Scripts/AudioKitDependency.cs:162-175 | NonPublic Init, as written, ends at the Safe Init count computed with the pool's old capacity field in place of the maximum it was given, and without the trim. So it never removes objects, and it cannot push the count past a positive capacity field |
| `PoolSpec.NonPublicInitIgnoresMax` | Assets/Plugins/QFramework/Toolkits/AudioKit/Scripts/AudioKitDependency.cs:162-175 | on a fresh NonPublic pool, Init(20, 20) keeps 12 objects, while the Safe Init keeps 20 |
| `PoolSpec.StepKeepsCapacity` | Assets/Plugins/QFramework/Toolkits/AudioKit/Scripts/AudioKitDependency.cs:65-125 | every Safe operation keeps the capacity bound, and so does every NonPublic operation except a capacity change |
| `PoolSpec.SafeRunKeepsCapacity` | Assets/Plugins/QFramework/Toolkits/AudioKit/Scripts/AudioKitDependency.cs:65-125 | for any sequence of Allocate, Recycle and capacity changes on a Safe pool that starts within its bound, the count stays within a positive maximum |
| `PoolSpec.NonPublicRunKeepsCapacity` | Assets/Plugins/QFramework/Toolkits/AudioKit/Scripts/AudioKitDependency.cs:203-235 | any sequence of Allocate and Recycle alone on a NonPublic pool keeps the capacity bound |
| `PoolSpec.CapacityTwoScenario` | Assets/Plugins/QFramework/Toolkits/AudioKit/Scripts/AudioKitDependency.cs:104-125 | with capacity 2, recycling 1 and 2 stores both, recycling 3 is dropped, and the next two allocations return 2 and then 1 |
| `Factories.Poolable.OnRecycled` | Assets/Plugins/QFramework/Toolkits/AudioKit/Scripts/AudioKitDependency.cs:290 | the notification counts one call and leaves the recycled flag alone |
| `Factories.DefaultObjectFactory.Create` | Assets/Plugins/QFramework/Toolkits/AudioKit/Scripts/AudioKitDependency.cs:569-575 | always yields a fresh object that is not yet recycled and has not been notified |
| `Factories.NonPublicObjectFactory.Create` | Assets/Plugins/QFramework/Toolkits/AudioKit/Scripts/AudioKitDependency.cs:594-608 | succeeds exactly when the type has a non-public parameterless constructor, and then yields a fresh object; otherwise it fails with ConstructorNotFound |
| `Factories.CustomObjectFactory.Create` | Assets/Plugins/QFramework/Toolkits/AudioKit/Scripts/AudioKitDependency.cs:550-563 | yields whatever the caller-supplied function yields |
| `ObjectPools.PopWhilePositive` | Assets/Plugins/QFramework/Toolkits/AudioKit/Scripts/AudioKitDependency.cs:79-83 | the `while (removeCount > 0)` pop loop computes `Popped`, including for a non-positive count, where nothing is popped |
| `ObjectPools.SafeObjectPool.constructor` | Assets/Plugins/QFramework/Toolkits/AudioKit/Scripts/AudioKitDependency.cs:21-24 | a new pool is empty, has capacity 12 and a default factory, and is valid |
| `ObjectPools.SafeObjectPool.CurCount` | Assets/Plugins/QFramework/Toolkits/AudioKit/Scripts/AudioKitDependency.cs:314-317 | the count of cached objects, which never exceeds a positive capacity |
| `ObjectPools.SafeObjectPool.Allocate` | Assets/Plugins/QFramework/Toolkits/AudioKit/Scripts/AudioKitDependency.cs:93-98 | an empty stack yields a fresh object and stays empty; otherwise the top object is returned and the count drops by one; the returned object is never flagged recycled; the pool stays valid, and nothing else is touched |
| `ObjectPools.SafeObjectPool.Recycle` | Assets/Plugins/QFramework/Toolkits/AudioKit/Scripts/AudioKitDependency.cs:104-125 | the three outcomes of `RecycleVerdict`. Refused: returns false and changes nothing. Dropped: returns false, notifies once, leaves the flag false and keeps the stack. Stored: flags, notifies once, pushes `t` on an otherwise unchanged stack and returns true. The capacity and validity are kept |
| `ObjectPools.SafeObjectPool.SetMaxCacheCount` | Assets/Plugins/QFramework/Toolkits/AudioKit/Scripts/AudioKitDependency.cs:65-88 | stores the value and leaves `SafeTrimmed` of the old stack, without notifying anyone; the pool stays valid |
| `ObjectPools.SafeObjectPool.Init` | Assets/Plugins/QFramework/Toolkits/AudioKit/Scripts/AudioKitDependency.cs:43-59 | stores the capacity and keeps the trimmed old stack at the bottom; the count ends at `SafeInitCount`; every object above the kept ones is fresh, notified once and flagged (by validity) |
| `ObjectPools.NonPublicObjectPool.constructor` | Assets/Plugins/QFramework/Toolkits/AudioKit/Scripts/AudioKitDependency.cs:145-148 | a new pool is empty, has capacity 12 and a non-public factory for the type |
| `ObjectPools.NonPublicObjectPool.CurCount` | Assets/Plugins/QFramework/Toolkits/AudioKit/Scripts/AudioKitDependency.cs:314-317 | the number of cached objects, zero exactly when the stack is empty; no capacity bound is promised, because the setter can break it |
| `ObjectPools.NonPublicObjectPool.Allocate` | Assets/Plugins/QFramework/Toolkits/AudioKit/Scripts/AudioKitDependency.cs:203-208 | like the Safe Allocate; it fails, changing nothing, exactly when the stack is empty and the type has no non-public constructor |
| `ObjectPools.NonPublicObjectPool.Recycle` | Assets/Plugins/QFramework/Toolkits/AudioKit/Scripts/AudioKitDependency.cs:214-235 | the same three outcomes as the Safe Recycle |
| `ObjectPools.NonPublicObjectPool.SetMaxCacheCount` | Assets/Plugins/QFramework/Toolkits/AudioKit/Scripts/AudioKitDependency.cs:181-198 | stores the value; the stack is `NonPublicTrimmed` of the old one, that is, unchanged |
| `ObjectPools.NonPublicObjectPool.Init` | Assets/Plugins/QFramework/Toolkits/AudioKit/Scripts/AudioKitDependency.cs:162-175 | never changes the capacity field. It fails, changing nothing, exactly when objects are missing and the type has no non-public constructor. Otherwise it keeps the old stack at the bottom, ends at `NonPublicInitCount`, and every added object is fresh and notified once |
| `SelfPool.SelfPoolCache.constructor` | Assets/Plugins/QFramework/Toolkits/AudioKit/Scripts/AudioKitDependency.cs:240 | the per-type stack starts empty |
| `SelfPool.SelfPoolCache.Allocate` | Assets/Plugins/QFramework/Toolkits/AudioKit/Scripts/AudioKitDependency.cs:244-249 | pops the top instance, or builds a fresh one when the stack is empty; clears its in-pool flag |
| `SelfPool.SelfPoolCache.Recycle2Cache` | Assets/Plugins/QFramework/Toolkits/AudioKit/Scripts/AudioKitDependency.cs:251-256 | runs the hook once, sets the in-pool flag and always pushes, so the count grows by exactly one |
| `SelfPool.RecycleTwiceCachesTwice` | Assets/Plugins/QFramework/Toolkits/AudioKit/Scripts/AudioKitDependency.cs:251-256 | with no guard, recycling an instance twice caches it twice |
| `ContainerPools.ListPool.constructor` | Assets/Plugins/QFramework/Toolkits/AudioKit/Scripts/AudioKitDependency.cs:410 | the list stack starts empty, so it is valid |
| `ContainerPools.ListPool.Get` | Assets/Plugins/QFramework/Toolkits/AudioKit/Scripts/AudioKitDependency.cs:416-424 | pops the top list, or makes a fresh one when the stack is empty; the list handed out is always empty |
| `ContainerPools.ListPool.Release` | Assets/Plugins/QFramework/Toolkits/AudioKit/Scripts/AudioKitDependency.cs:430-434 | clears the list and pushes it, so every cached list stays empty |
| `ContainerPools.DictionaryPool.constructor` | Assets/Plugins/QFramework/Toolkits/AudioKit/Scripts/AudioKitDependency.cs:357 | the dictionary stack starts empty, so it is valid |
| `ContainerPools.DictionaryPool.Get` | Assets/Plugins/QFramework/Toolkits/AudioKit/Scripts/AudioKitDependency.cs:363-371 | pops the top dictionary, or makes a fresh one when the stack is empty; the dictionary handed out is always empty |
| `ContainerPools.DictionaryPool.Release` | Assets/Plugins/QFramework/Toolkits/AudioKit/Scripts/AudioKitDependency.cs:377-381 | clears the dictionary and pushes it, so every cached dictionary stays empty |
| `ContainerPools.ReleaseThenGetIsEmpty` | Assets/Plugins/QFramework/Toolkits/AudioKit/Scripts/AudioKitDependency.cs:416-434 | a list released with contents is the one the next Get returns, and it comes back empty; the pool is then as before and still valid |
| `ContainerPools.ReleaseThenGetIsEmptyDictionary` | Assets/Plugins/QFramework/Toolkits/AudioKit/Scripts/AudioKitDependency.cs:363-381 | a dictionary released with entries is the one the next Get returns, and it comes back empty; the pool is then as before and still valid |
| `Singletons.CreateSingleton` | Assets/Plugins/QFramework/Toolkits/AudioKit/Scripts/AudioKitDependency.cs:744-759 | for a type that is not a MonoBehaviour: fails with ConstructorNotFound exactly when there is no non-public constructor; otherwise yields a fresh instance initialised once |
| `Singletons.SingletonSlot.constructor` | Assets/Plugins/QFramework/Toolkits/AudioKit/Scripts/AudioKitDependency.cs:687 | the slot starts empty, with nothing constructed yet |
| `Singletons.SingletonSlot.Instance` | Assets/Plugins/QFramework/Toolkits/AudioKit/Scripts/AudioKitDependency.cs:697-711 | a filled slot returns its instance and constructs nothing. An empty slot constructs exactly once and stores the fresh, once-initialised instance, or fails and stays empty. The slot keeps at most one construction per dispose |
| `Singletons.SingletonSlot.Dispose` | Assets/Plugins/QFramework/Toolkits/AudioKit/Scripts/AudioKitDependency.cs:716-719 | empties the slot |
| `Singletons.InstanceTwiceIsOneInstance` | Assets/Plugins/QFramework/Toolkits/AudioKit/Scripts/AudioKitDependency.cs:646-660 | two reads with no Dispose in between return the same result, with at most one construction and one OnSingletonInit |
| `Singletons.CreateMonoSingleton` | Assets/Plugins/QFramework/Toolkits/AudioKit/Scripts/AudioKitDependency.cs:824-868 | returns null exactly when the application is neither playing nor in unit test mode. Otherwise it adopts the scene's existing component, or creates a fresh one, and initialises it once more. On the null return the scene and its component are left untouched |
| `Singletons.MonoSingleton.constructor` | Assets/Plugins/QFramework/Toolkits/AudioKit/Scripts/AudioKitDependency.cs:926-977 | the slot starts empty and the quit flag starts false |
| `Singletons.MonoSingleton.Instance` | Assets/Plugins/QFramework/Toolkits/AudioKit/Scripts/AudioKitDependency.cs:931-942 | after the quit it returns null and leaves the scene alone. A filled slot returns its instance without initialising it again. An empty slot stores the result of CreateMonoSingleton: null exactly when the host is neither playing nor in unit test mode; otherwise the scene's component, initialised once more, or a fresh one initialised once. The playing flag is unchanged |
| `Singletons.MonoSingleton.IsApplicationQuit` | Assets/Plugins/QFramework/Toolkits/AudioKit/Scripts/AudioKitDependency.cs:1001-1004 | reports the quit flag; when it is set, the slot is empty |
| `Singletons.MonoSingleton.OnApplicationQuit` | Assets/Plugins/QFramework/Toolkits/AudioKit/Scripts/AudioKitDependency.cs:982-988 | sets the quit flag and empties the slot |
| `Singletons.MonoSingleton.OnDestroy` | Assets/Plugins/QFramework/Toolkits/AudioKit/Scripts/AudioKitDependency.cs:993-996 | empties the slot and leaves the quit flag alone |
| `Singletons.MonoSingleton.Dispose` | Assets/Plugins/QFramework/Toolkits/AudioKit/Scripts/AudioKitDependency.cs:954-972 | in unit test mode it empties the slot; otherwise it leaves the slot to the engine's later OnDestroy |
| `Singletons.QuitIsForever` | Assets/Plugins/QFramework/Toolkits/AudioKit/Scripts/AudioKitDependency.cs:935-942 | after OnApplicationQuit, Instance returns null, and still does after an OnDestroy |
| `Singletons.MonoSingletonProperty.constructor` | Assets/Plugins/QFramework/Toolkits/AudioKit/Scripts/AudioKitDependency.cs:1032 | the slot starts empty |
| `Singletons.MonoSingletonProperty.Instance` | Assets/Plugins/QFramework/Toolkits/AudioKit/Scripts/AudioKitDependency.cs:1034-1045 | a filled slot returns its instance, without initialising it again or touching the scene. An empty slot, on every read since there is no quit flag, stores the result of CreateMonoSingleton, with the same null, adopt and fresh cases as MonoSingleton. The playing flag is unchanged |
| `Singletons.MonoSingletonProperty.Dispose` | Assets/Plugins/QFramework/Toolkits/AudioKit/Scripts/AudioKitDependency.cs:1047-1059 | empties the slot; it reports failure (the source's null dereference) exactly when the slot was already empty |

## Findings

| source | as written | input that shows it | evidently intended | confidence | as-written member | corrected member |
|---|---|---|---|---|---|---|
| Assets/Plugins/QFramework/Toolkits/AudioKit/Scripts/AudioKitDependency.cs:191 | `removeCount = mMaxCount - mCacheStack.Count`: whenever this line is reached the value is negative, so the pop loop never runs | a NonPublicObjectPool holding 2 objects, then `MaxCacheCount = 1`: it still holds 2 | `mCacheStack.Count - mMaxCount`, as in the SafeObjectPool setter at line 78 | not executed; high | `PoolSpec.NonPublicSetMaxBreaksCapacity` | `PoolSpec.SafeTrimmed` |
| Assets/Plugins/QFramework/Toolkits/AudioKit/Scripts/AudioKitDependency.cs:162-175 | `Init` caps `initCount` by `maxCount` but never stores `maxCount`; the pool's own capacity then drops the excess objects | a fresh NonPublicObjectPool (capacity 12), then `Init(20, 20)`: it keeps 12 objects, and the other 8 are created, notified and dropped | set `MaxCacheCount = maxCount` first, as SafeObjectPool.Init does at line 45 | not executed; medium | `PoolSpec.NonPublicInitIgnoresMax` | `PoolSpec.SafeInitCount` |

The class `ObjectPools.NonPublicObjectPool` keeps the code as written, since that class
models the code. The corrected definitions are the ones `ObjectPools.SafeObjectPool` is
proved against. The lemmas `PoolSpec.SafeRunKeepsCapacity` and `PoolSpec.SafeInitSettles`
prove the intended properties about them: the capacity bound, and a repeated Init is a
no-op.

## Left out

- Locking: the `lock (mLock)` in `Singleton<T>.Instance` and `SingletonProperty<T>.Instance`
  is not modelled. Calls are sequential, so "at most one construction" is a sequential
  property (the `SingletonSlot.Valid()` counter invariant).
- Reflection: the static `ObjectFactory` helpers (`Create(type, args)`,
  `CreateNonPublicConstructorObject`, `CreateWithInitialAction`) and the constructor lookup
  are not modelled. The lookup inside `NonPublicObjectFactory` and `SingletonCreator` is
  replaced by a fixed per-type fact, `hasHiddenConstructor`.
- Engine calls: `GameObject.Find`, `new GameObject`, `AddComponent`, `DontDestroyOnLoad`,
  `Destroy`/`DestroyImmediate`, the `transform` parent walk in `MonoSingleton.Dispose`,
  `FindGameObject`, `CreateComponentOnGameObject` and the `MonoSingletonPath` attribute
  lookup are not modelled. `Host` reports only the unit-test flag, the playing flag and the
  component `FindObjectOfType` would find. Placement on a path and placement on a new scene
  object both yield a fresh component here, and destroying scene objects does not clear
  `Host.sceneInstance`.
- Singletons.MonoSingletonProperty.Instance: the model has no engine-destroy event and tests
  references only. It does not capture Unity's overloaded null test, under which a destroyed
  component equals null. In the source, once the engine destroys an adopted component, the next
  `Instance` creates a new one and `Dispose` throws at `mInstance.gameObject`. The model
  instead keeps returning the old reference, and its `Dispose` reports success.
  `MonoSingleton.Instance` has the same gap, except that its `OnDestroy` empties the slot.
- Unit test mode: `SingletonCreator.IsUnitTestMode` is a settable static property, but each
  `Host` fixes it as a constant, so the model does not capture switching the mode between calls.
- `PersistentMonoSingleton` and `ReplaceableMonoSingleton`: engine lifecycle callbacks that
  compare floating-point timestamps.
- `SafeObjectPool.Instance`/`Dispose` and `NonPublicObjectPool.Instance`/`Dispose` are not
  modelled separately: they only delegate to `SingletonProperty<T>`, whose behaviour
  `SingletonSlot` models.
- The `Release2Pool` extension methods: one-line delegations to `Release`.
- Generic element types: the bounded pools hold `Poolable` objects standing for any
  reference type implementing `IPoolable`. Value types implementing it are not modelled.
- `Factories.CustomObjectFactory.Create`: the caller's `Func<T>` is a pure Dafny function,
  so the model does not capture a factory function that allocates or has side effects.
- The `mCacheStack != null` tests in the setters: the field is a read-only initialised
  stack, so the test is always true.
- Caller obligations are preconditions (`Valid()`). A caller must not flip `IsRecycled` on a
  cached object, and must not fill a container after releasing it. The source cannot stop
  either.
- A null argument to `ListPool.Release` or `DictionaryPool.Release` throws in the source;
  here the parameter type excludes null.
- Integer width: counts and capacities are unbounded integers. A stack's count never comes
  near the 32-bit limit.
