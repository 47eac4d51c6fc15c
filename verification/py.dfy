/** Python-level notions shared by the models of the repository's scripts:
    the `None` object, raised exceptions, and a value-or-exception outcome. */
module Py {

  /** A slot that holds either Python's `None` or some other value.
      Also used for "argument absent" where the source passes `None`. */
  datatype Option<+T> = None | Some(value: T)

  /** The kind of exception a Python statement raises. Message wording is not modelled. */
  datatype Error =
    | TypeError
    | ValueError
    | IndexError
    | KeyError
    | AttributeError
    | UnboundLocalError
    | RuntimeError
    | UserException(kind: string)   // raised by a user-supplied callable
    | BaseOnly(kind: string)        // `SystemExit`, `KeyboardInterrupt`, `GeneratorExit`, an old-style instance

  /** Whether `except exceptions.Exception` catches the error: everything but the
      exceptions outside the `Exception` hierarchy. */
  predicate IsException(e: Error) {
    !e.BaseOnly?
  }

  /** Either the value a Python expression evaluates to, or the exception it raises. */
  datatype Result<+T> = Success(value: T) | Failure(error: Error) {
    predicate IsFailure() { Failure? }

    function PropagateFailure<U>(): Result<U>
      requires Failure?
    {
      Failure(error)
    }

    function Extract(): T
      requires Success?
    {
      value
    }
  }

  /** What calling a user-supplied callable does: return a value or raise. */
  datatype Outcome<+R> = Returns(value: R) | Raises(error: Error)

  /** True when no two positions of `s` hold the same element. */
  predicate Distinct<T(==)>(s: seq<T>) {
    forall i, j :: 0 <= i < j < |s| ==> s[i] != s[j]
  }
}
