/** Option and Result values shared by every part of the model.  They stand
    for Rust's `Option` and `Result`; errors carry the source's own error
    variants as datatypes defined next to the code that raises them. */
module Outcomes {

  datatype Option<+T> = None | Some(value: T) {
    function GetOr(default: T): T {
      match this
      case Some(v) => v
      case None => default
    }
  }

  datatype Result<+T, +E> = Ok(value: T) | Err(error: E)
}
