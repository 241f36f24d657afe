/** Small failure-carrying datatypes shared by the pool and singleton models. */
module Wrappers {

  /** Why a construction strategy could not produce an object: the type declares no
      parameterless non-public constructor ("Non-Public Constructor() not found!"). */
  datatype CreateError = ConstructorNotFound

  /** The value produced by an operation whose construction step may throw. */
  datatype Result<+T> = Ok(value: T) | Err(error: CreateError)

  /** The outcome of an operation that returns nothing but whose construction step may throw. */
  datatype Outcome = Pass | Fail(error: CreateError)

  function Min(a: int, b: int): (m: int)
    ensures m <= a && m <= b && (m == a || m == b)
  {
    if a < b then a else b
  }
}
