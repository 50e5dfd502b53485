/** Option and Result types shared by the model.
    A Rust panic (an `unwrap` on `None`, an index past the end of a `Vec`)
    and a call to `process::exit` are modelled as a `Failure` carrying the
    reason, so that every operation of the model is total. */
module Wrappers {

  datatype Option<T> = None | Some(value: T)

  /** Why a computation of the original program stops instead of returning. */
  datatype Fault =
    | IndexOutOfBounds(index: nat, length: nat)  // `v[index]` on a `Vec` of `length` elements
    | UnwrapOnNone                               // `Option::unwrap` on `None`
    | ProcessExit(status: int)                   // `std::process::exit(status)`

  datatype Result<T> = Success(value: T) | Failure(fault: Fault)
}
