/** Two result types that several modules share. */
module Wrappers {

  /** A C++ call: it returns a value or an exception leaves it. A Lua error is one too. */
  datatype Outcome<+T> = Returns(value: T) | Throws

  datatype Option<+T> = None | Some(value: T)
}
