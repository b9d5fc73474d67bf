/** Failure-carrying values shared by the whole model.

    The Java code reports no errors itself, but it can throw two runtime
    exceptions on inputs its callers do reach; the model returns them as
    `Fail(fault)` instead of leaving them out. */
module Outcomes {

  /** The runtime exceptions the board logic can raise. */
  datatype Fault =
    | IndexOutOfBounds   // `ArrayList.get` outside 0..63
    | DivisionByZero     // integer division by a zero row distance

  /** A computed value, or the exception that ended the computation. */
  datatype Result<+T> = Ok(value: T) | Fail(fault: Fault)

  /** A Java reference that may be `null`. */
  datatype Option<+T> = None | Some(value: T)
}
