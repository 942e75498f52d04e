/** Failure-carrying datatypes shared by the whole model. */
module Wrappers {

  /** Rust's `Option<T>`. */
  datatype Option<+T> = None | Some(value: T)

  /** `std::io::Error` built with `from_raw_os_error`: it carries the raw
      Windows error code reported by `GetLastError`. The source casts the
      DWORD to `i32`; the bit pattern is kept here as a 32-bit word. */
  datatype OsError = OsError(code: bv32)

  /** Rust's `Result<T, std::io::Error>`. */
  datatype Result<+T> = Ok(value: T) | Err(error: OsError)

  /** Ways a computation can fail to return at all: a Rust panic, or a raw
      read outside a buffer (undefined behaviour, which the model refuses to
      give a value). */
  datatype Fault = Panic | OutOfBounds

  /** How a run ends: with a value or an error, or in a fault. */
  datatype Run<+T> = Done(result: Result<T>) | Crashed(fault: Fault)
}
