/** Outcome types shared by every module. A C++ function that throws
    `FileFormatError` returns `Throws` here; its message is not modelled. */
module Wrappers {

  datatype Option<+T> = None | Some(value: T)

  datatype Result<+T> = Ok(value: T) | Throws {

    predicate IsFailure() {
      Throws?
    }

    function PropagateFailure<U>(): Result<U>
      requires Throws?
    {
      Throws
    }

    function Extract(): T
      requires Ok?
    {
      value
    }
  }

  /** A result with something put before it. */
  function Prepend<T>(head: seq<T>, r: Result<seq<T>>): Result<seq<T>> {
    match r
    case Ok(tail) => Ok(head + tail)
    case Throws => Throws
  }

  lemma PrependNothing<T>(r: Result<seq<T>>)
    ensures Prepend([], r) == r
  {
    if r.Ok? {
      assert [] + r.value == r.value;
    }
  }
}
