/** Result types shared by every component of the model. */
module Prelude {

  /** `None` stands for a panic, a `null` or an exception without payload. */
  datatype Option<+T> = None | Some(value: T)

  /** `Err` stands for a thrown error or an error return. */
  datatype Result<+T, +E> = Ok(value: T) | Err(error: E)

  // The parts joined in order.
  function Flatten<T>(parts: seq<seq<T>>): seq<T> {
    if parts == [] then [] else Flatten(parts[..|parts| - 1]) + parts[|parts| - 1]
  }
}
