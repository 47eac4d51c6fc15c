/** `Progress._invalid_function` (threading-progress/progress2.py:602-621, and the
    class-method copy at threading-progress/progress.py:553-573). The function is
    seen through an abstract signature record in place of `inspect.getargspec`,
    and the reserved names (`_fieldnames` of the instance or class) are a parameter. */
module Validation {
  import opened Py
  import NamedLists

  /** What the validation and the constructors learn about the user's function. */
  datatype Signature<V> = Signature(
    isFunction: bool,                       // `type(func) is FunctionType`
    argNames: seq<string>,                  // `argspec.args`
    varArgs: bool,                          // `argspec.varargs is not None`
    kwArgs: bool,                           // `argspec.keywords is not None`
    defaults: Option<seq<Option<V>>>)       // `argspec.defaults`

  /** The three ways `_invalid_function` can end: it returns `False`, it returns an
      exception object (which the constructor raises), or it raises itself. */
  datatype Verdict = Valid | Returned(error: Error) | Raised(error: Error)

  /** The argument-name test shared with NamedList's constructor. */
  predicate HasReservedName(names: seq<string>, reserved: set<string>) {
    exists i :: 0 <= i < |names| && NamedLists.IsReserved(names[i], reserved)
  }

  /** The checks run in order: not a function, then `*args`/`**kwargs`, then a
      reserved argument name (whose error message has two `%s` and one argument,
      so the formatting raises `TypeError`). */
  function InvalidFunction<V>(sig: Signature<V>, reserved: set<string>): (v: Verdict)
    ensures v == Valid <==>
              sig.isFunction && !sig.varArgs && !sig.kwArgs && !HasReservedName(sig.argNames, reserved)
    ensures !sig.isFunction ==> v == Returned(TypeError)
    ensures sig.isFunction && (sig.varArgs || sig.kwArgs) ==> v == Returned(ValueError)
    ensures v.Raised? <==>
              sig.isFunction && !sig.varArgs && !sig.kwArgs && HasReservedName(sig.argNames, reserved)
    ensures v.Raised? ==> v.error == TypeError
  {
    if !sig.isFunction then Returned(TypeError)
    else if sig.varArgs || sig.kwArgs then Returned(ValueError)
    else if HasReservedName(sig.argNames, reserved) then Raised(TypeError)
    else Valid
  }

  /** The first part of each constructor: a returned error is raised (`if e: raise e`,
      an exception object being true), a raised one propagates. */
  function CheckFunction<V>(sig: Signature<V>, reserved: set<string>): (r: Result<()>)
    ensures r.Success? <==> InvalidFunction(sig, reserved) == Valid
    ensures r.Failure? ==> r.error == InvalidFunction(sig, reserved).error
  {
    match InvalidFunction(sig, reserved)
    case Valid => Success(())
    case Returned(e) => Failure(e)
    case Raised(e) => Failure(e)
  }
}
