/** The lazy singleton cells. Each static slot of the source (`mInstance`, and for
    MonoSingleton<T> the `mOnApplicationQuit` flag) becomes a field of an object that stands
    for the per-type static state, so each cell is a small state machine:
    empty -> created once (plus one OnSingletonInit) -> the same instance on every read ->
    back to empty on Dispose. The host engine is the object Host, an oracle for what
    CreateMonoSingleton asks of it. */
module Singletons {
  import opened Wrappers

  // ---------------------------------------------------------------------------
  // Plain singletons: Singleton<T> and SingletonProperty<T>

  /** An object implementing ISingleton, with a ghost count of its OnSingletonInit calls. */
  class SingletonObject {
    ghost var initCalls: nat

    constructor ()
      ensures initCalls == 0
    {
      initCalls := 0;
    }

    method OnSingletonInit()
      modifies this
      ensures initCalls == old(initCalls) + 1
    {
      initCalls := initCalls + 1;
    }
  }

  /** SingletonCreator.CreateSingleton<T> for a T that is not a MonoBehaviour: invokes
      T's parameterless non-public constructor (failing when there is none), then runs
      OnSingletonInit once. */
  method CreateSingleton(hasHiddenConstructor: bool) returns (r: Result<SingletonObject>)
    ensures r.Ok? <==> hasHiddenConstructor
    ensures r.Err? ==> r.error == ConstructorNotFound
    ensures r.Ok? ==> fresh(r.value) && r.value.initCalls == 1
  {
    if !hasHiddenConstructor {
      return Err(ConstructorNotFound);
    }
    var instance := new SingletonObject();
    instance.OnSingletonInit();
    r := Ok(instance);
  }

  /** The static state of Singleton<T> and of SingletonProperty<T>, whose `Instance` and
      `Dispose` are the same code: the `mInstance` slot, plus two ghost counters of the
      constructions and the disposes so far. The lock around the emptiness test is not
      modelled; calls are sequential. */
  class SingletonSlot {
    const hasHiddenConstructor: bool
    var instance: SingletonObject?
    ghost var creations: nat
    ghost var disposes: nat

    /** At most one construction per dispose (and one before the first), and the held
        instance has been initialised exactly once. */
    ghost predicate Valid()
      reads this, instance
    {
      && creations + (if instance == null then 1 else 0) <= disposes + 1
      && (instance != null ==> instance.initCalls == 1)
    }

    constructor (hasHiddenConstructor: bool)
      ensures Valid() && instance == null && creations == 0 && disposes == 0
      ensures this.hasHiddenConstructor == hasHiddenConstructor
    {
      this.hasHiddenConstructor := hasHiddenConstructor;
      instance := null;
      creations, disposes := 0, 0;
    }

    /** The Instance getter: constructs when the slot is empty, and otherwise returns
        the instance it holds. A failed construction leaves the slot empty. */
    method Instance() returns (r: Result<SingletonObject>)
      requires Valid()
      modifies this
      ensures Valid() && disposes == old(disposes)
      ensures old(instance) != null ==>
        r.Ok? && r.value == old(instance) && instance == old(instance) && creations == old(creations)
      ensures old(instance) == null && hasHiddenConstructor ==>
        && r.Ok? && fresh(r.value) && instance == r.value && r.value.initCalls == 1
        && creations == old(creations) + 1
      ensures old(instance) == null && !hasHiddenConstructor ==>
        r == Err(ConstructorNotFound) && instance == null && creations == old(creations)
    {
      if instance == null {
        var created := CreateSingleton(hasHiddenConstructor);
        if created.Err? {
          return Err(created.error);
        }
        instance := created.value;
        creations := creations + 1;
      }
      r := Ok(instance);
    }

    /** Dispose: empties the slot, so the next read constructs again. */
    method Dispose()
      requires Valid()
      modifies this
      ensures Valid()
      ensures instance == null && creations == old(creations) && disposes == old(disposes) + 1
    {
      instance := null;
      disposes := disposes + 1;
    }
  }

  /** Two reads with no Dispose between them see the same instance, and at most the
      first of them constructs. */
  method InstanceTwiceIsOneInstance(slot: SingletonSlot) returns (first: Result<SingletonObject>, second: Result<SingletonObject>)
    requires slot.Valid()
    modifies slot
    ensures slot.Valid()
    ensures first == second
    ensures slot.creations <= old(slot.creations) + 1
    ensures first.Ok? ==> first.value.initCalls == 1
  {
    first := slot.Instance();
    second := slot.Instance();
  }

  // ---------------------------------------------------------------------------
  // MonoBehaviour singletons: the host and CreateMonoSingleton

  /** A MonoBehaviour singleton component, with a ghost count of its OnSingletonInit calls. */
  class MonoComponent {
    ghost var initCalls: nat

    constructor ()
      ensures initCalls == 0
    {
      initCalls := 0;
    }

    method OnSingletonInit()
      modifies this
      ensures initCalls == old(initCalls) + 1
    {
      initCalls := initCalls + 1;
    }
  }

  /** What CreateMonoSingleton asks of the engine: whether the singleton kit is in unit
      test mode (SingletonCreator.IsUnitTestMode), whether the application is playing, and
      which component of the type the scene already holds (FindObjectOfType). */
  class Host {
    const isUnitTestMode: bool
    var isPlaying: bool
    var sceneInstance: MonoComponent?

    constructor (isUnitTestMode: bool, isPlaying: bool)
      ensures this.isUnitTestMode == isUnitTestMode && this.isPlaying == isPlaying
      ensures sceneInstance == null
    {
      this.isUnitTestMode := isUnitTestMode;
      this.isPlaying := isPlaying;
      sceneInstance := null;
    }
  }

  /** SingletonCreator.CreateMonoSingleton<T>: outside play mode and outside unit test mode
      it yields null; otherwise it adopts the component the scene already holds, or
      attaches a new one to a new scene object, and runs OnSingletonInit on it. */
  method CreateMonoSingleton(host: Host) returns (r: MonoComponent?)
    modifies host, host.sceneInstance
    ensures r == null <==> !host.isUnitTestMode && !host.isPlaying
    ensures host.isPlaying == old(host.isPlaying)
    ensures r == null ==> host.sceneInstance == old(host.sceneInstance)
    ensures r == null && host.sceneInstance != null ==> unchanged(host.sceneInstance)
    ensures r != null ==> host.sceneInstance == r
    ensures r != null && old(host.sceneInstance) != null ==>
      r == old(host.sceneInstance) && r.initCalls == old(r.initCalls) + 1
    ensures r != null && old(host.sceneInstance) == null ==> fresh(r) && r.initCalls == 1
  {
    if !host.isUnitTestMode && !host.isPlaying {
      return null;
    }
    r := host.sceneInstance;
    if r != null {
      r.OnSingletonInit();
      return;
    }
    r := new MonoComponent();
    host.sceneInstance := r;
    r.OnSingletonInit();
  }

  // ---------------------------------------------------------------------------
  // MonoSingleton<T>

  /** The static state of MonoSingleton<T>: the `mInstance` slot and the one-way
      `mOnApplicationQuit` flag. */
  class MonoSingleton {
    const host: Host
    var instance: MonoComponent?
    var onApplicationQuit: bool

    /** Once the application quits, the slot stays empty. */
    ghost predicate Valid()
      reads this
    {
      onApplicationQuit ==> instance == null
    }

    constructor (host: Host)
      ensures Valid() && this.host == host
      ensures instance == null && !onApplicationQuit
    {
      this.host := host;
      instance := null;
      onApplicationQuit := false;
    }

    /** The Instance getter: asks CreateMonoSingleton only when the slot is empty and
        the application has not quit; after the quit it always returns null. */
    method Instance() returns (r: MonoComponent?)
      requires Valid()
      modifies this, host, host.sceneInstance
      ensures Valid() && onApplicationQuit == old(onApplicationQuit)
      ensures host.isPlaying == old(host.isPlaying)
      ensures r == instance
      ensures old(onApplicationQuit) ==> r == null
      ensures old(instance) != null ==> r == old(instance) && r.initCalls == old(r.initCalls)
      ensures old(instance) != null || old(onApplicationQuit) ==>
        host.sceneInstance == old(host.sceneInstance) &&
        (host.sceneInstance != null ==> unchanged(host.sceneInstance))
      ensures old(instance) == null && !old(onApplicationQuit) ==>
        && (r == null <==> !host.isUnitTestMode && !host.isPlaying)
        && (r == null ==> host.sceneInstance == old(host.sceneInstance))
        && (r == null && host.sceneInstance != null ==> unchanged(host.sceneInstance))
        && (r != null ==> host.sceneInstance == r)
        && (r != null && old(host.sceneInstance) != null ==>
              r == old(host.sceneInstance) && r.initCalls == old(r.initCalls) + 1)
        && (r != null && old(host.sceneInstance) == null ==> fresh(r) && r.initCalls == 1)
    {
      if instance == null && !onApplicationQuit {
        instance := CreateMonoSingleton(host);
      }
      r := instance;
    }

    /** IsApplicationQuit: true once the application has quit, and then no instance is held. */
    function IsApplicationQuit(): (quit: bool)
      requires Valid()
      reads this
      ensures quit == onApplicationQuit
      ensures quit ==> instance == null
    {
      onApplicationQuit
    }

    /** OnApplicationQuit: raises the flag for good and empties the slot (destroying the
        instance's scene object is the engine's business). */
    method OnApplicationQuit()
      requires Valid()
      modifies this
      ensures Valid()
      ensures onApplicationQuit && instance == null
    {
      onApplicationQuit := true;
      if instance == null {
        return;
      }
      instance := null;
    }

    /** OnDestroy: empties the slot. */
    method OnDestroy()
      requires Valid()
      modifies this
      ensures Valid()
      ensures instance == null && onApplicationQuit == old(onApplicationQuit)
    {
      instance := null;
    }

    /** Dispose: in unit test mode the scene objects are destroyed at once and the slot is
        emptied; otherwise the destruction is deferred to the engine, whose later call of
        OnDestroy empties the slot. */
    method Dispose()
      requires Valid()
      modifies this
      ensures Valid() && onApplicationQuit == old(onApplicationQuit)
      ensures instance == if host.isUnitTestMode then null else old(instance)
    {
      if host.isUnitTestMode {
        instance := null;
      }
    }
  }

  /** After the quit, no sequence of reads and destroys brings an instance back. */
  method QuitIsForever(s: MonoSingleton) returns (a: MonoComponent?, b: MonoComponent?)
    requires s.Valid()
    modifies s, s.host, s.host.sceneInstance
    ensures a == null && b == null
  {
    s.OnApplicationQuit();
    a := s.Instance();
    s.OnDestroy();
    b := s.Instance();
  }

  // ---------------------------------------------------------------------------
  // MonoSingletonProperty<T>

  /** The static state of MonoSingletonProperty<T>: only the `mInstance` slot. */
  class MonoSingletonProperty {
    const host: Host
    var instance: MonoComponent?

    constructor (host: Host)
      ensures this.host == host && instance == null
    {
      this.host := host;
      instance := null;
    }

    /** The Instance getter: asks CreateMonoSingleton whenever the slot is empty. */
    method Instance() returns (r: MonoComponent?)
      modifies this, host, host.sceneInstance
      ensures host.isPlaying == old(host.isPlaying)
      ensures r == instance
      ensures old(instance) != null ==>
        && r == old(instance) && r.initCalls == old(r.initCalls)
        && host.sceneInstance == old(host.sceneInstance)
        && (host.sceneInstance != null ==> unchanged(host.sceneInstance))
      ensures old(instance) == null ==>
        && (r == null <==> !host.isUnitTestMode && !host.isPlaying)
        && (r == null ==> host.sceneInstance == old(host.sceneInstance))
        && (r == null && host.sceneInstance != null ==> unchanged(host.sceneInstance))
        && (r != null ==> host.sceneInstance == r)
        && (r != null && old(host.sceneInstance) != null ==>
              r == old(host.sceneInstance) && r.initCalls == old(r.initCalls) + 1)
        && (r != null && old(host.sceneInstance) == null ==> fresh(r) && r.initCalls == 1)
    {
      if instance == null {
        instance := CreateMonoSingleton(host);
      }
      r := instance;
    }

    /** Dispose: destroys the instance's scene object and empties the slot. With an empty
        slot the source dereferences null and throws; `ok` is false then. */
    method Dispose() returns (ok: bool)
      modifies this
      ensures ok <==> old(instance) != null
      ensures instance == null
    {
      if instance == null {
        return false;
      }
      instance := null;
      ok := true;
    }
  }
}
