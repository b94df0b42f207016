/** Small helper datatypes shared by every module of the model. */
module Wrappers {

  /** Python's `X | None`: a value that may be absent. */
  datatype Option<+T> = None | Some(value: T) {
    function GetOr(default: T): T {
      match this
      case Some(v) => v
      case None => default
    }

    /** The value as a list of at most one element. */
    function ToSeq(): seq<T> {
      match this
      case Some(v) => [v]
      case None => []
    }
  }

  /** The Python exception classes an operation of the core can let escape. */
  datatype PyError = TypeError | AttributeError | ValueError | KeyError

  /** How a Python call ends: it returns a value, or an exception escapes from it. */
  datatype Outcome<+T> = Returned(value: T) | Raised(error: PyError) {
    predicate IsFailure() {
      Raised?
    }

    function PropagateFailure<U>(): Outcome<U>
      requires Raised?
    {
      Raised(error)
    }

    function Extract(): T
      requires Returned?
    {
      value
    }
  }

  /** `prefix` followed by what `o` returns; the exception, if `o` raised one. */
  function Prepend<T>(prefix: seq<T>, o: Outcome<seq<T>>): Outcome<seq<T>> {
    match o
    case Returned(v) => Returned(prefix + v)
    case Raised(e) => Raised(e)
  }
}
