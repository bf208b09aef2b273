/** Failure values shared by the scanner, the Pratt compiler and the VM.
    Every `panic!`, failed `unwrap` and out-of-range index of the Rust
    code becomes a `Fault` carried by `Result.Fail`, so that callers can see
    which condition aborted the run. */
module Faults {

  /** The conditions under which the Rust code aborts. */
  datatype Fault =
    // scanner
    | UnknownToken
    | SliceOutOfRange
    // compiler
    | NoNextPrecedence
    | TokenOutOfRange
    | NoPrefixRule
    | NoInfixRule
    | InvalidAssignmentTarget
    | UnknownBinaryOperator
    | ConsumeFailed(message: string)
    | Unimplemented(handler: string)
    // virtual machine
    | InstructionOutOfRange
    | ExpectedConstantIndex
    | ConstantOutOfRange
    | StackOutOfRange
    | OperandsMustBeNumbers
    | WrongArity(got: int, expected: int)
    | StackOverflow
    | ArithmeticOverflow
    | FrameOutOfRange
    | JumpOrConstantIndex

  datatype Option<+T> = None | Some(value: T)

  /** Result of an operation that may abort; usable with `:-`. */
  datatype Result<+T> = Ok(value: T) | Fail(fault: Fault) {
    predicate IsFailure() {
      Fail?
    }

    function PropagateFailure<U>(): Result<U>
      requires Fail?
    {
      Fail(fault)
    }

    function Extract(): T
      requires Ok?
    {
      value
    }
  }
}
