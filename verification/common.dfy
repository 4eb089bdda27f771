/** Small failure-carrying datatypes shared by every module of the model. */
module Common {

  /** A value that may be absent: Python's `None` or a missing dictionary key. */
  datatype Option<T> = None | Some(value: T) {

    /** The carried value, or `default` when there is none (Python's `d.get(k, default)`). */
    function GetOr(default: T): T {
      match this
      case Some(v) => v
      case None => default
    }
  }

  /** Either a computed value or the exception the Python code would raise. */
  datatype Result<T, E> = Success(value: T) | Failure(error: E)

  /** `a` is `b` with some elements left out, the rest in their order. */
  ghost predicate IsSubsequence<T>(a: seq<T>, b: seq<T>)
    decreases |b|
  {
    if |a| == 0 then true
    else if |b| == 0 then false
    else if a[0] == b[0] then IsSubsequence(a[1..], b[1..])
    else IsSubsequence(a, b[1..])
  }
}
