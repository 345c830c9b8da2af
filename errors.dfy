/** Error kinds and failure-compatible result types shared by the margin engine
    and the vault deposit instruction. */
module Errors {

  /** The ways an operation of the core can end early.
      - UnsupportedKind:  a margin or OTM amount asked for a product kind the formulas do not cover.
      - ArithmeticError:  an `unwrap` on a checked multiply, divide, subtract, power or
                          narrowing conversion that failed; the program panics.
      - Unreachable:      `unreachable!()` reached (an option position with `Side::Uninitialized`).
      - Panic:            an `unwrap` on the result of a helper that is not part of this model.
      - VaultIsFull:      a deposit would take the vault past its deposit limit.
      - External(code):   an error returned by an external program (token program, lending market). */
  datatype Error =
    | UnsupportedKind
    | ArithmeticError
    | Unreachable
    | Panic
    | VaultIsFull
    | External(code: nat)

  datatype Option<+T> = None | Some(value: T)

  /** A value or the error that stopped its computation; usable with `:-`. */
  datatype Result<+T> = Ok(value: T) | Err(error: Error) {

    predicate IsFailure() {
      Err?
    }

    function PropagateFailure<U>(): Result<U>
      requires Err?
    {
      Err(error)
    }

    function Extract(): T
      requires Ok?
    {
      value
    }
  }

  /** The result of a step that returns nothing on success (`Result<()>`). */
  datatype Outcome = Pass | Fail(error: Error)
}
