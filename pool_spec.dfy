/** The value-level behaviour of the bounded pools (Pool<T>, SafeObjectPool<T>,
    NonPublicObjectPool<T>): the cache stack and the capacity field, without the objects'
    own state. A stack is a sequence whose LAST element is the top, so Push is `s + [x]`
    and Pop drops the last element. The classes in module ObjectPools are proved against
    these functions; the lemmas here state what the functions promise. */
module PoolSpec {
  import opened Wrappers

  /** The capacity a pool starts with (the field initialiser of Pool<T>.mMaxCount). */
  const DefaultMaxCount: int := 12

  datatype PoolState<T> = PoolState(stack: seq<T>, maxCount: int)

  /** The capacity bound: a positive maximum caps the number of cached objects;
      zero or a negative maximum means unbounded. */
  predicate WithinCapacity<T>(p: PoolState<T>) {
    p.maxCount > 0 ==> |p.stack| <= p.maxCount
  }

  // ---------------------------------------------------------------------------
  // Allocate and Recycle

  /** The stack after Pool<T>.Allocate: on a hit the top is popped, on a miss the
      factory is asked and the stack is left alone. */
  function AfterAllocate<T>(p: PoolState<T>): (q: PoolState<T>)
    ensures q.maxCount == p.maxCount
    ensures p.stack == [] ==> q == p
    ensures p.stack != [] ==> q.stack + [Top(p)] == p.stack
  {
    if p.stack == [] then p else p.(stack := p.stack[..|p.stack| - 1])
  }

  /** The object a hit hands out: the most recently pushed one. */
  function Top<T>(p: PoolState<T>): T
    requires p.stack != []
  {
    p.stack[|p.stack| - 1]
  }

  /** The three ways Recycle can end: refused outright (null, or already recycled),
      dropped at capacity (the object is notified but not kept), or stored. */
  datatype Verdict = Refused | Dropped | Stored

  /** Which way Recycle ends, from the pool state and the two facts its guards test. */
  function RecycleVerdict<T>(p: PoolState<T>, isNull: bool, alreadyRecycled: bool): (v: Verdict)
    ensures v == Refused <==> isNull || alreadyRecycled
    ensures v == Dropped <==> !isNull && !alreadyRecycled && p.maxCount > 0 && |p.stack| >= p.maxCount
    ensures v == Stored <==> !isNull && !alreadyRecycled && (p.maxCount <= 0 || |p.stack| < p.maxCount)
  {
    if isNull || alreadyRecycled then Refused
    else if p.maxCount > 0 && |p.stack| >= p.maxCount then Dropped
    else Stored
  }

  /** The stack after Recycle: only a stored object is pushed. */
  function AfterRecycle<T>(p: PoolState<T>, t: T, v: Verdict): PoolState<T> {
    if v == Stored then p.(stack := p.stack + [t]) else p
  }

  /** LIFO: an object that Recycle stored is the next one Allocate hands out, and that
      Allocate puts the pool back exactly as it was before the Recycle. */
  lemma RecycleThenAllocate<T>(p: PoolState<T>, t: T)
    requires RecycleVerdict(p, false, false) == Stored
    ensures var q := AfterRecycle(p, t, Stored);
      q.stack != [] && Top(q) == t && AfterAllocate(q) == p
  {
    var q := AfterRecycle(p, t, Stored);
    assert q.stack[..|q.stack| - 1] == p.stack;
  }

  /** Allocating a hit and recycling it straight back restores the pool: after the pop
      there is always room for the object again. */
  lemma AllocateThenRecycle<T>(p: PoolState<T>)
    requires WithinCapacity(p) && p.stack != []
    ensures RecycleVerdict(AfterAllocate(p), false, false) == Stored
    ensures AfterRecycle(AfterAllocate(p), Top(p), Stored) == p
  {
    assert p.stack[..|p.stack| - 1] + [Top(p)] == p.stack;
  }

  /** Neither a pop nor a guarded push can break the capacity bound. */
  lemma AllocateRecycleKeepCapacity<T>(p: PoolState<T>, t: T, isNull: bool, alreadyRecycled: bool)
    requires WithinCapacity(p)
    ensures WithinCapacity(AfterAllocate(p))
    ensures WithinCapacity(AfterRecycle(p, t, RecycleVerdict(p, isNull, alreadyRecycled)))
  {
  }

  // ---------------------------------------------------------------------------
  // The MaxCacheCount setters

  /** The `while (removeCount > 0) { Pop(); --removeCount; }` loop of both setters:
      it pops `n` objects when `n` is positive and none otherwise. */
  function Popped<T>(s: seq<T>, n: int): (r: seq<T>)
    requires n <= |s|
    ensures |r| == if n > 0 then |s| - n else |s|
    ensures r == s[..|r|]
  {
    if n > 0 then s[..|s| - n] else s
  }

  /** SafeObjectPool.MaxCacheCount = v: a positive v below the count pops
      `count - v` objects off the top, so the bottom v remain. */
  function SafeTrimmed<T>(s: seq<T>, v: int): (r: seq<T>)
    ensures v > 0 ==> |r| <= v
    ensures |r| == if 0 < v < |s| then v else |s|
    ensures r == s[..|r|]
  {
    if v > 0 && v < |s| then Popped(s, |s| - v) else s
  }

  /** NonPublicObjectPool.MaxCacheCount = v, as written: the loop is given
      `removeCount = v - count`, which is negative whenever the loop is reached, so the
      setter never removes anything, and a value below the count leaves the stack over it. */
  function NonPublicTrimmed<T>(s: seq<T>, v: int): (r: seq<T>)
    ensures r == s
    ensures 0 < v < |s| ==> |r| > v
  {
    if v <= 0 || v >= |s| then s else Popped(s, v - |s|)
  }

  /** Setting the Safe capacity twice to the same value trims only once. */
  lemma SafeTrimmedIdempotent<T>(s: seq<T>, v: int)
    ensures SafeTrimmed(SafeTrimmed(s, v), v) == SafeTrimmed(s, v)
  {
  }

  // ---------------------------------------------------------------------------
  // Init

  /** How many objects Init aims for: initCount, capped by a positive maxCount. */
  function InitTarget(maxCount: int, initCount: int): (n: int)
    ensures maxCount > 0 ==> n <= maxCount
    ensures n <= initCount
    ensures maxCount <= 0 ==> n == initCount
    ensures maxCount > 0 ==> n == maxCount || n == initCount
  {
    if maxCount > 0 then Min(maxCount, initCount) else initCount
  }

  /** The count after SafeObjectPool.Init, given the count after its trimming step:
      only the missing objects are added, so the count never drops below either. */
  function SafeInitCount(trimmed: nat, maxCount: int, initCount: int): (n: nat)
    ensures n >= trimmed && n >= InitTarget(maxCount, initCount)
    ensures n == trimmed || n == InitTarget(maxCount, initCount)
    ensures maxCount > 0 && trimmed <= maxCount ==> n <= maxCount
  {
    var target := InitTarget(maxCount, initCount);
    if trimmed < target then target else trimmed
  }

  /** A second SafeObjectPool.Init with the same arguments is a no-op: once the count
      lies between the target and the positive maximum, there is nothing to trim and
      nothing missing. */
  lemma SafeInitSettles<T>(s: seq<T>, maxCount: int, initCount: int)
    requires maxCount > 0 ==> |s| <= maxCount
    requires |s| >= InitTarget(maxCount, initCount)
    ensures SafeTrimmed(s, maxCount) == s
    ensures SafeInitCount(|SafeTrimmed(s, maxCount)|, maxCount, initCount) == |s|
  {
  }

  /** The count inside NonPublicObjectPool.Init's loop after it has reached index i
      (starting from `start` cached objects), while every Recycle is checked against the
      pool's own capacity field `field`. */
  function NonPublicFillCount(start: nat, field: int, i: int): int {
    if field <= 0 then i else if start >= field then start else Min(i, field)
  }

  /** The count after NonPublicObjectPool.Init as written: the capacity it is given
      only caps how many objects it makes; the pool's field is never updated, and each
      Recycle beyond that field drops its object. So it is the Safe Init's count with the
      pool's old field in place of the given maximum, and with no trim. */
  function NonPublicInitCount(start: nat, field: int, maxCount: int, initCount: int): (n: int)
    ensures n == SafeInitCount(start, field, InitTarget(maxCount, initCount))
    ensures n >= start
    ensures field > 0 && start <= field ==> n <= field
  {
    var target := InitTarget(maxCount, initCount);
    if start >= target then start else NonPublicFillCount(start, field, target)
  }

  /** NonPublicObjectPool.Init(20, 20) on a fresh pool keeps only 12 objects, while
      the SafeObjectPool.Init it mirrors keeps 20. */
  lemma NonPublicInitIgnoresMax()
    ensures NonPublicInitCount(0, DefaultMaxCount, 20, 20) == 12
    ensures SafeInitCount(|SafeTrimmed<int>([], 20)|, 20, 20) == 20
  {
  }

  // ---------------------------------------------------------------------------
  // Sequences of operations

  datatype Variant = Safe | NonPublic

  /** One call on a pool: Allocate, Recycle (with the two facts its guard tests), or
      the MaxCacheCount setter. */
  datatype PoolOp<T> = AllocateOp | RecycleOp(t: T, isNull: bool, alreadyRecycled: bool) | SetMaxOp(value: int)

  function Step<T>(variant: Variant, p: PoolState<T>, op: PoolOp<T>): PoolState<T> {
    match op
    case AllocateOp => AfterAllocate(p)
    case RecycleOp(t, isNull, alreadyRecycled) => AfterRecycle(p, t, RecycleVerdict(p, isNull, alreadyRecycled))
    case SetMaxOp(v) =>
      PoolState(if variant == Safe then SafeTrimmed(p.stack, v) else NonPublicTrimmed(p.stack, v), v)
  }

  function Run<T>(variant: Variant, p: PoolState<T>, ops: seq<PoolOp<T>>): PoolState<T>
    decreases |ops|
  {
    if ops == [] then p else Run(variant, Step(variant, p, ops[0]), ops[1..])
  }

  /** Every single Safe step keeps the capacity bound, and so does every step of either
      pool other than a NonPublic capacity change. */
  lemma StepKeepsCapacity<T>(variant: Variant, p: PoolState<T>, op: PoolOp<T>)
    requires WithinCapacity(p)
    requires variant == NonPublic ==> !op.SetMaxOp?
    ensures WithinCapacity(Step(variant, p, op))
  {
    match op
    case AllocateOp =>
    case RecycleOp(t, isNull, alreadyRecycled) =>
      AllocateRecycleKeepCapacity(p, t, isNull, alreadyRecycled);
    case SetMaxOp(v) =>
  }

  /** Any sequence of Allocate, Recycle and capacity changes on a SafeObjectPool keeps
      the number of cached objects within a positive maximum. */
  lemma {:induction false} SafeRunKeepsCapacity<T>(p: PoolState<T>, ops: seq<PoolOp<T>>)
    requires WithinCapacity(p)
    ensures WithinCapacity(Run(Safe, p, ops))
    decreases |ops|
  {
    if ops != [] {
      StepKeepsCapacity(Safe, p, ops[0]);
      SafeRunKeepsCapacity(Step(Safe, p, ops[0]), ops[1..]);
    }
  }

  /** On a NonPublicObjectPool, Allocate and Recycle alone keep the capacity bound. */
  lemma {:induction false} NonPublicRunKeepsCapacity<T>(p: PoolState<T>, ops: seq<PoolOp<T>>)
    requires WithinCapacity(p)
    requires forall i :: 0 <= i < |ops| ==> !ops[i].SetMaxOp?
    ensures WithinCapacity(Run(NonPublic, p, ops))
    decreases |ops|
  {
    if ops != [] {
      StepKeepsCapacity(NonPublic, p, ops[0]);
      NonPublicRunKeepsCapacity(Step(NonPublic, p, ops[0]), ops[1..]);
    }
  }

  /** Shrinking the capacity of a NonPublicObjectPool below its count leaves the pool
      over capacity; the SafeObjectPool setter keeps the bottom object. */
  lemma NonPublicSetMaxBreaksCapacity<T>(a: T, b: T)
    ensures !WithinCapacity(Run(NonPublic, PoolState([a, b], DefaultMaxCount), [SetMaxOp(1)]))
    ensures Run(Safe, PoolState([a, b], DefaultMaxCount), [SetMaxOp(1)]) == PoolState([a], 1)
  {
    assert Run(NonPublic, PoolState([a, b], DefaultMaxCount), [SetMaxOp(1)])
        == Run(NonPublic, PoolState([a, b], 1), []);
    assert Run(Safe, PoolState([a, b], DefaultMaxCount), [SetMaxOp(1)])
        == Run(Safe, PoolState([a], 1), []);
  }

  /** The capacity-two scenario: recycling 1 and 2 fills the pool, recycling 3 is
      dropped, and the next two Allocates hand out 2 and then 1. */
  lemma CapacityTwoScenario()
    ensures var p := PoolState([], 2);
      var after := Run(Safe, p, [RecycleOp(1, false, false), RecycleOp(2, false, false), RecycleOp(3, false, false)]);
      after.stack == [1, 2] &&
      RecycleVerdict(PoolState([1, 2], 2), false, false) == Dropped &&
      Top(after) == 2 && Top(AfterAllocate(after)) == 1 && AfterAllocate(AfterAllocate(after)).stack == []
  {
    var p := PoolState([], 2);
    assert Step(Safe, p, RecycleOp(1, false, false)) == PoolState([1], 2);
    assert Step(Safe, PoolState([1], 2), RecycleOp(2, false, false)) == PoolState([1, 2], 2);
    assert Step(Safe, PoolState([1, 2], 2), RecycleOp(3, false, false)) == PoolState([1, 2], 2);
    assert Run(Safe, p, [RecycleOp(1, false, false), RecycleOp(2, false, false), RecycleOp(3, false, false)])
        == Run(Safe, PoolState([1], 2), [RecycleOp(2, false, false), RecycleOp(3, false, false)]);
    assert Run(Safe, PoolState([1], 2), [RecycleOp(2, false, false), RecycleOp(3, false, false)])
        == Run(Safe, PoolState([1, 2], 2), [RecycleOp(3, false, false)]);
  }
}
