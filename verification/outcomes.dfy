/** Failure-carrying values shared by the installer model.

    `Result` stands for a Python computation that either returns a value or
    raises/exits; `Outcome` is the three-way result of one `install_module`
    call as its caller sees it.
 */
module Outcomes {

  datatype Option<+T> = None | Some(value: T)

  datatype Result<+R, +E> = Success(value: R) | Failure(error: E) {

    predicate IsFailure() {
      Failure?
    }

    function PropagateFailure<U>(): Result<U, E>
      requires Failure?
    {
      Failure(error)
    }

    function Extract(): R
      requires Success?
    {
      value
    }
  }

  /** The argument given to Python's `sys.exit`: an integer status, or a
      message that is printed before the process ends with status 1. */
  datatype ExitArg = Status(code: int) | Text(message: string)

  /** What a call does, seen from its caller: it returns normally, it ends the
      program through `sys.exit` (a `SystemExit`, which `except Exception`
      does not catch), or it raises an ordinary exception. */
  datatype Outcome = Ok | Exit(arg: ExitArg) | Raised(error: string)
}
