/** The runtime values of HCL: a closed tagged union in place of the
    source's `Object` with run-time type tests. */
module Values {
  import opened Base
  import opened Syntax

  /** A user function: its declaration, the index of the frame it closes
      over, and whether it is a class initializer (`_init`). */
  datatype Closure = Closure(decl: FunDecl, env: nat, isInitializer: bool)

  /** Something callable that is not a class: a user closure or a function
      supplied by a native module. */
  datatype Routine =
    | UserFunction(fn: Closure)
    | Native(name: string, arity: nat, variadic: bool)

  /** A class: its name, its metaclass (holding the class-level methods), its
      superclass and its method table. Classes never change after they are
      built, so they are values; the superclass is shared, not copied. */
  datatype ClassObj = ClassObj(
    name: string,
    metaclass: Option<ClassObj>,
    superclass: Option<ClassObj>,
    methods: map<string, Closure>)

  datatype Value =
    | Nil
    | Bool(b: bool)
    | Num(n: real)
    | Str(s: string)
    | Callable(routine: Routine)
    | Class(cls: ClassObj)
    | Instance(ref: nat)   // index into the instance arena

  function FromLiteral(l: Lit): Value {
    match l
    case NilLit => Nil
    case BoolLit(b) => Bool(b)
    case NumLit(n) => Num(n)
    case StrLit(s) => Str(s)
  }

  /** Nil and false are falsy; every other value, 0 and "" included, is truthy. */
  predicate IsTruthy(v: Value) {
    match v
    case Nil => false
    case Bool(b) => b
    case _ => true
  }

  /** Structural equality for primitives, identity for instances. */
  predicate IsEqual(a: Value, b: Value) {
    a == b
  }
}
