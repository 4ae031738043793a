// Value carriers shared by the model.
module Wrappers {
  datatype Option<+T> = None | Some(value: T)

  datatype Result<+T, +E> = Ok(value: T) | Err(error: E)

  // For counting.
  function One(b: bool): nat { if b then 1 else 0 }
}
