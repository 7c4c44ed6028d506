/** Option and Result values standing for null pointers and thrown exceptions. */
module Wrappers {

  datatype Option<+T> = None | Some(value: T)

  /** Success carries the computed value; Failure carries what the source throws. */
  datatype Result<+R, +E> = Success(value: R) | Failure(error: E) {

    /** The value of a Success, None for a Failure. */
    function ToOption(): Option<R>
    {
      match this
      case Success(v) => Some(v)
      case Failure(_) => None
    }
  }
}
