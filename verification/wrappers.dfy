/** Option and Result values, the shapes Rust's `Option` and `Result` take in this model. */
module Wrappers {

  datatype Option<+T> = None | Some(value: T)

  datatype Result<+T, +E> = Ok(value: T) | Err(error: E) {

    /** The error carried by a failed result, as an `Option`. */
    function ErrorOption(): Option<E> {
      match this
      case Ok(_) => None
      case Err(e) => Some(e)
    }
  }
}
