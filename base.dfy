/** Small wrappers shared by every other module: optional values, the
    errors the evaluator can raise, and results that carry either. */
module Base {

  datatype Option<+T> = None | Some(value: T)

  /** The failures of evaluation. The first five are the `RuntimeError`
      kinds the interpreter raises itself and `interpret` reports; `Fault`
      stands for every other Java exception the evaluator can hit (a failed
      cast, a null unboxed, a dangling environment link). */
  datatype Error =
    | TypeError(message: string)
    | UndefinedVariable(name: string)
    | UndefinedProperty(name: string)
    | ArityError(expected: nat, got: nat)
    | ImportError(message: string)
    | Fault(reason: string)
  {
    predicate IsRuntimeError() { !Fault? }
  }

  datatype Result<+T> = Ok(value: T) | Err(error: Error)

  predicate NoDuplicates<T(==)>(s: seq<T>) {
    forall i, j :: 0 <= i < j < |s| ==> s[i] != s[j]
  }
}
