// Types shared by every module.
module Prelude {

  datatype Option<+T> = None | Some(value: T)

  // Outcome of an operation that only reports success or an error.
  datatype Status = Ok | Err
}
