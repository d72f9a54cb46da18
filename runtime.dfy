/** The interpreter's state as a value, the outcomes of evaluation, and the
    collaborators the evaluator calls but whose code is not part of this
    model (the host). */
module Runtime {
  import opened Base
  import opened Syntax
  import opened Values
  import opened Environments
  import opened Objects

  /** A snapshot of every field of the interpreter. `globals` and
      `environment` are indices into `frames`; `locals` is what the resolver
      recorded; the three registries are fixed when the interpreter is
      built; `imported` is the import ledger; `output` is what `print` wrote. */
  datatype State = State(
    frames: Frames,
    instances: seq<InstanceObj>,
    environment: nat,
    globals: nat,
    locals: map<ExprId, nat>,
    natImport: map<string, Option<map<string, Value>>>,
    modImport: map<string, Option<InstanceObj>>,
    stdImport: seq<string>,
    imported: seq<string>,
    output: seq<string>)

  /** The state after an expression and the value it produced (or its error). */
  datatype Evaluated = Evaluated(st: State, result: Result<Value>)

  /** The state after a list of argument expressions and their values. */
  datatype EvaluatedArgs = EvaluatedArgs(st: State, result: Result<seq<Value>>)

  /** How a statement ends: normally, with the `Return` or `Break` signal,
      with an error, or (an artefact of the model) without fuel to go on. */
  datatype Outcome = Normal | Return(value: Value) | Break | Raise(error: Error) | OutOfFuel

  datatype Step = Step(st: State, outcome: Outcome)

  /** The collaborators outside the evaluator. `call` is `HclCallable.call`
      (running a user function body or constructing an instance);
      `importFile` is `HclUtils.importIt` (None when the file loaded);
      `prelude`, `structures` and `math` are what `NativeModule`,
      `HclStructures` and `HclMath` supply (None when instantiation threw);
      `math` is the object a fresh `HclMath` instance starts as. */
  datatype Host = Host(
    stringify: Value -> string,
    repeatStr: (string, int) -> string,
    quotient: (real, real) -> real,
    power: (real, real) -> real,
    call: (State, Value, seq<Value>) -> Evaluated,
    importFile: string -> Option<Error>,
    prelude: map<string, Value>,
    structures: Option<map<string, Value>>,
    math: Option<InstanceObj>,
    homePath: string,
    separator: string)

  /** What an expression may change: the frames and the instances. */
  predicate OnlyHeapChanged(before: State, after: State) {
    after == before.(frames := after.frames, instances := after.instances)
  }

  /** What a statement keeps: the current environment (restored on every
      exit path), the globals, the resolver's map and the registries; the
      ledger and the output only grow. */
  predicate Preserves(before: State, after: State) {
    && after.environment == before.environment
    && after.globals == before.globals
    && after.locals == before.locals
    && after.natImport == before.natImport
    && after.modImport == before.modImport
    && after.stdImport == before.stdImport
    && before.imported <= after.imported
    && before.output <= after.output
  }
}
