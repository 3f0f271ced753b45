/** Nullable values of the C# model: `string?`, `bool?`, and a reference that may be null. */
module Nullable {

  datatype Option<+T> = None | Some(value: T)

  /** The null-coalescing operator `a ?? b`. */
  function Coalesce<T>(a: Option<T>, b: T): (r: T)
    ensures a.Some? ==> r == a.value
    ensures a.None? ==> r == b
  {
    match a
    case Some(v) => v
    case None => b
  }

  /** `a ?? b` where both sides are nullable. */
  function CoalesceOption<T>(a: Option<T>, b: Option<T>): (r: Option<T>)
    ensures a.Some? ==> r == a
    ensures a.None? ==> r == b
  {
    if a.Some? then a else b
  }
}
