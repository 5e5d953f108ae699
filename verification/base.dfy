/** Failure-carrying values shared by every module of the reader model, and
    the one piece of JavaScript array semantics the services rely on. */
module Base {

  /** A value that may be absent; `None` plays the part of `undefined`/`null`. */
  datatype Option<+T> = None | Some(value: T)

  /** The value of a call that either returns or throws an `Error`. */
  datatype Result<+T, +E> = Ok(value: T) | Err(error: E)

  /** The value of a call that returns nothing or throws. */
  datatype Outcome<+E> = Pass | Fail(error: E)

  /** JavaScript's `a[i]` on an array: the element when `i` is an index of
      `a`, `undefined` for every other number, negative ones included. */
  function ElementAt<T>(a: seq<T>, i: int): (r: Option<T>)
    ensures r.Some? <==> 0 <= i < |a|
    ensures r.Some? ==> r.value == a[i]
  {
    if 0 <= i < |a| then Some(a[i]) else None
  }
}
