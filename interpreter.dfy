/** The interpreter object: its fields are updated in place by the visitor
    methods, each proved to compute exactly what the corresponding
    function of `Evaluator` or `Execution` says about a snapshot of the
    fields. */
module Interpreters {
  import opened Base
  import opened Syntax
  import opened Values
  import opened Environments
  import opened Objects
  import opened Runtime
  import opened Operators
  import opened Evaluator
  import opened Execution
  import opened Invariants

  /** The method table of a class declaration, built by putting each
      declaration in turn, so a later one of the same name wins. */
  method BuildMethodTable(decls: seq<FunDecl>, env: nat, markInit: bool) returns (table: map<string, Closure>)
    ensures table == MethodTable(decls, env, markInit)
  {
    table := map[];
    for i := 0 to |decls|
      invariant table == MethodTable(decls[..i], env, markInit)
    {
      var d := decls[i];
      assert decls[..i + 1][..i] == decls[..i];
      table := table[d.name := Closure(d, env, markInit && d.name == "_init")];
    }
    assert decls[..|decls|] == decls;
  }

  class Interpreter {
    const host: Host
    var frames: Frames
    var instances: seq<InstanceObj>
    var environment: nat
    const globals: nat
    var locals: map<ExprId, nat>
    const natImport: map<string, Option<map<string, Value>>>
    const modImport: map<string, Option<InstanceObj>>
    const stdImport: seq<string>
    var imported: seq<string>
    var output: seq<string>

    /** The fields as a value. */
    function Snapshot(): State
      reads this
    {
      State(frames, instances, environment, globals, locals, natImport, modImport, stdImport, imported, output)
    }

    /** The arena invariant of the fields, under a host that keeps it. */
    ghost predicate Valid()
      reads this
    {
      ValidHost(host) && ValidState(Snapshot())
    }

    /** A fresh interpreter: one global frame holding the prelude, which is
        also the current environment, and the registries of native and
        linked standard modules. */
    constructor(host: Host)
      ensures this.host == host
      ensures Snapshot() == State([Frame(host.prelude, None)], [], 0, 0, map[],
                                  map["structures" := host.structures], map["Math" := host.math], [], [], [])
      ensures WellFormed(frames)
      ensures ValidHost(host) ==> Valid()
    {
      this.host := host;
      frames := [Frame(map[], None)];
      instances := [];
      environment := 0;
      globals := 0;
      locals := map[];
      natImport := map["structures" := host.structures];
      modImport := map["Math" := host.math];
      stdImport := [];
      imported := [];
      output := [];
      new;
      frames := ImportInto(frames, globals, host.prelude).value;
      assert map[] + host.prelude == host.prelude;
      assert Snapshot().frames[0].values == host.prelude;
    }

    /** `resolve`: record the scope distance of one expression. */
    method Resolve(id: ExprId, depth: nat)
      modifies this
      ensures Snapshot() == old(Snapshot()).(locals := old(locals)[id := depth])
    {
      locals := locals[id := depth];
    }

    //////////////////////////////////////////////////////////////////////
    // Expressions

    method Evaluate(e: Expr) returns (r: Result<Value>)
      modifies this
      ensures Evaluated(Snapshot(), r) == Eval(host, old(Snapshot()), e)
      ensures old(Valid()) ==> Valid()
      decreases e, 1
    {
      if Valid() {
        EvalKeepsValid(host, Snapshot(), e);
      }
      match e
      case Literal(l) => r := Ok(FromLiteral(l));
      case Grouping(inner) => r := Evaluate(inner);
      case Variable(id, name) => r := LookUpVariable(Snapshot(), id, name);
      case SelfRef(id) => r := LookUpVariable(Snapshot(), id, "self");
      case Assign(_, _, _) => r := VisitAssign(e);
      case Logical(_, _, _) => r := VisitLogical(e);
      case Unary(op, operand) =>
        r := Evaluate(operand);
        if r.Ok? {
          r := ApplyUnary(op, r.value);
        }
      case Binary(_, _, _) => r := VisitBinary(e);
      case Call(_, _) => r := VisitCall(e);
      case Get(_, _) => r := VisitGet(e);
      case Set(_, _, _) => r := VisitSet(e);
      case Super(id, methodName) =>
        var x := SuperMethod(Snapshot(), id, methodName);
        frames, instances := x.st.frames, x.st.instances;
        r := x.result;
    }

    method VisitAssign(e: Expr) returns (r: Result<Value>)
      requires e.Assign?
      modifies this
      ensures Evaluated(Snapshot(), r) == Eval(host, old(Snapshot()), e)
      decreases e, 0
    {
      r := Evaluate(e.value);
      if r.Ok? {
        var a := AssignValue(Snapshot(), e.id, e.name, r.value);
        frames, instances := a.st.frames, a.st.instances;
        r := a.result;
      }
    }

    method VisitLogical(e: Expr) returns (r: Result<Value>)
      requires e.Logical?
      modifies this
      ensures Evaluated(Snapshot(), r) == Eval(host, old(Snapshot()), e)
      decreases e, 0
    {
      r := Evaluate(e.left);
      if r.Err? {
        return;
      }
      if e.lop == Or {
        if IsTruthy(r.value) {
          return;
        }
      } else if !IsTruthy(r.value) {
        return;
      }
      r := Evaluate(e.right);
    }

    method VisitBinary(e: Expr) returns (r: Result<Value>)
      requires e.Binary?
      modifies this
      ensures Evaluated(Snapshot(), r) == Eval(host, old(Snapshot()), e)
      decreases e, 0
    {
      var left := Evaluate(e.left);
      if left.Err? {
        return left;
      }
      var right := Evaluate(e.right);
      if right.Err? {
        return right;
      }
      r := ApplyBinary(host, e.bop, left.value, right.value);
    }

    /** `visitCallExpr`: the callee, then each argument in turn, then the
        call. */
    method VisitCall(e: Expr) returns (r: Result<Value>)
      requires e.Call?
      modifies this
      ensures Evaluated(Snapshot(), r) == Eval(host, old(Snapshot()), e)
      decreases e, 0
    {
      var callee := Evaluate(e.callee);
      if callee.Err? {
        return callee;
      }
      var arguments := EvaluateArguments(e.arguments);
      if arguments.Err? {
        return Err(arguments.error);
      }
      var c := CallValue(host, Snapshot(), callee.value, arguments.value);
      frames, instances := c.st.frames, c.st.instances;
      r := c.result;
    }

    /** The argument loop of `visitCallExpr`: left to right, stopping at the
        first error. */
    method EvaluateArguments(args: seq<Expr>) returns (r: Result<seq<Value>>)
      modifies this
      ensures EvaluatedArgs(Snapshot(), r) == EvalArgs(host, old(Snapshot()), args)
    {
      ghost var start := Snapshot();
      var arguments: seq<Value> := [];
      var i := 0;
      while i < |args|
        invariant 0 <= i <= |args|
        invariant EvalArgs(host, start, args[..i]) == EvaluatedArgs(Snapshot(), Ok(arguments))
      {
        EvalArgsSnoc(host, start, args[..i], args[i]);
        assert args[..i + 1] == args[..i] + [args[i]];
        var a := Evaluate(args[i]);
        if a.Err? {
          EvalArgsStopsAtError(host, start, args[..i + 1], args[i + 1..]);
          assert args[..i + 1] + args[i + 1..] == args;
          return Err(a.error);
        }
        arguments := arguments + [a.value];
        i := i + 1;
      }
      assert args[..i] == args;
      r := Ok(arguments);
    }

    method VisitGet(e: Expr) returns (r: Result<Value>)
      requires e.Get?
      modifies this
      ensures Evaluated(Snapshot(), r) == Eval(host, old(Snapshot()), e)
      decreases e, 0
    {
      r := Evaluate(e.obj);
      if r.Err? {
        return;
      }
      if !r.value.Instance? {
        return Err(TypeError(NoProperties));
      }
      var g := GetProperty(Snapshot(), r.value.ref, e.name);
      frames, instances := g.st.frames, g.st.instances;
      r := g.result;
    }

    method VisitSet(e: Expr) returns (r: Result<Value>)
      requires e.Set?
      modifies this
      ensures Evaluated(Snapshot(), r) == Eval(host, old(Snapshot()), e)
      decreases e, 0
    {
      var o := Evaluate(e.obj);
      if o.Err? {
        return o;
      }
      if !o.value.Instance? {
        return Err(TypeError(NoFields));
      }
      r := Evaluate(e.value);
      if r.Ok? {
        var x := SetProperty(Snapshot(), o.value.ref, e.name, r.value);
        frames, instances := x.st.frames, x.st.instances;
        r := x.result;
      }
    }

    //////////////////////////////////////////////////////////////////////
    // Statements

    method Execute(s: Stmt, fuel: nat) returns (o: Outcome)
      modifies this
      ensures Step(Snapshot(), o) == Exec(host, old(Snapshot()), s, fuel)
      ensures old(Valid()) ==> Valid()
      decreases fuel, 4
    {
      ghost var start := Snapshot();
      ghost var valid := Valid();
      if fuel == 0 {
        o := OutOfFuel;
      } else {
        o := Dispatch(s, fuel);
      }
      if valid {
        ExecKeepsValid(host, start, s, fuel);
      }
    }

    /** `stmt.accept(this)`: the visitor for each kind of statement. */
    method Dispatch(s: Stmt, fuel: nat) returns (o: Outcome)
      requires fuel > 0
      modifies this
      ensures Step(Snapshot(), o) == Exec(host, old(Snapshot()), s, fuel)
      decreases fuel, 3
    {
      if !s.BlockStmt? && !s.IfStmt? && !s.LoopStmt? {
        LeafIgnoresFuel(host, Snapshot(), s, fuel);
      }
      match s
      case ExprStmt(e) => o := VisitExpression(e);
      case PrintStmt(e) => o := VisitPrint(e);
      case LetStmt(name, initializer) => o := VisitLet(name, initializer);
      case BlockStmt(ss) => o := VisitBlock(ss, fuel);
      case IfStmt(_, _, _) => o := VisitIf(s, fuel);
      case LoopStmt(body) => o := VisitLoop(body, fuel - 1);
      case BreakStmt => o := Break;
      case ReturnStmt(value) => o := VisitReturn(value);
      case FunctionStmt(decl) => o := VisitFunction(decl);
      case ClassStmt(name, superclass, methods, classMethods) =>
        o := VisitClass(name, superclass, methods, classMethods);
      case ImportStmt(m, isStd) => o := VisitImport(m, isStd);
    }

    /** `executeBlock`: run the statements in `env`, stop at the first that
        does not complete normally, and restore the environment. */
    method ExecuteBlock(ss: seq<Stmt>, env: nat, fuel: nat) returns (o: Outcome)
      modifies this
      ensures Step(Snapshot(), o) == ExecBlock(host, old(Snapshot()), ss, env, fuel)
      decreases fuel, 5
    {
      var previous := environment;
      environment := env;
      ghost var start := Snapshot();
      o := Normal;
      var i := 0;
      while i < |ss| && o.Normal?
        invariant 0 <= i <= |ss| && environment == env
        invariant o.Normal? ==> ExecList(host, start, ss, fuel) == ExecList(host, Snapshot(), ss[i..], fuel)
        invariant !o.Normal? ==> ExecList(host, start, ss, fuel) == Step(Snapshot(), o)
      {
        assert ss[i..][0] == ss[i] && ss[i..][1..] == ss[i + 1..];
        o := Execute(ss[i], fuel);
        i := i + 1;
      }
      environment := previous;
    }

    /** `visitBlockStmt`: a fresh environment enclosed by the current one. */
    method VisitBlock(ss: seq<Stmt>, fuel: nat) returns (o: Outcome)
      requires fuel > 0
      modifies this
      ensures Step(Snapshot(), o) == Exec(host, old(Snapshot()), BlockStmt(ss), fuel)
      decreases fuel, 2
    {
      var inner := |frames|;
      frames := Push(frames, environment, map[]);
      o := ExecuteBlock(ss, inner, fuel - 1);
    }

    method VisitIf(s: Stmt, fuel: nat) returns (o: Outcome)
      requires s.IfStmt? && fuel > 0
      modifies this
      ensures Step(Snapshot(), o) == Exec(host, old(Snapshot()), s, fuel)
      decreases fuel, 2
    {
      var c := Evaluate(s.condition);
      if c.Err? {
        o := Raise(c.error);
      } else if IsTruthy(c.value) {
        o := Execute(s.thenBranch, fuel - 1);
      } else if s.elseBranch.Some? {
        o := Execute(s.elseBranch.value, fuel - 1);
      } else {
        o := Normal;
      }
    }

    /** `visitLoopStmt`: run the body until it breaks. */
    method VisitLoop(body: Stmt, fuel: nat) returns (o: Outcome)
      modifies this
      ensures Step(Snapshot(), o) == ExecLoop(host, old(Snapshot()), body, fuel)
      decreases fuel, 4
    {
      ghost var goal := ExecLoop(host, Snapshot(), body, fuel);
      var f: nat := fuel;
      while true
        invariant f <= fuel
        invariant goal == ExecLoop(host, Snapshot(), body, f)
        decreases f
      {
        if f == 0 {
          return OutOfFuel;
        }
        ghost var before := Snapshot();
        var b := Execute(body, f - 1);
        LoopStep(host, before, body, f, Step(Snapshot(), b));
        if b.Break? {
          return Normal;
        } else if !b.Normal? {
          return b;
        }
        f := f - 1;
      }
    }

    /** `environment.define` on the current environment. */
    method DefineCurrent(name: string, v: Value) returns (o: Outcome)
      modifies this
      ensures Step(Snapshot(), o) == Define(old(Snapshot()), name, v)
    {
      match DefineIn(frames, environment, name, v)
      case Err(err) => o := Raise(err);
      case Ok(fs) =>
        frames := fs;
        o := Normal;
    }

    method VisitExpression(e: Expr) returns (o: Outcome)
      modifies this
      ensures Step(Snapshot(), o) == Exec(host, old(Snapshot()), ExprStmt(e), 1)
    {
      var v := Evaluate(e);
      o := if v.Err? then Raise(v.error) else Normal;
    }

    /** `visitFunctionStmt`: a closure over the current environment. */
    method VisitFunction(decl: FunDecl) returns (o: Outcome)
      modifies this
      ensures Step(Snapshot(), o) == Exec(host, old(Snapshot()), FunctionStmt(decl), 1)
    {
      o := DefineCurrent(decl.name, Callable(UserFunction(Closure(decl, environment, false))));
    }

    method VisitPrint(e: Expr) returns (o: Outcome)
      modifies this
      ensures Step(Snapshot(), o) == Exec(host, old(Snapshot()), PrintStmt(e), 1)
    {
      var v := Evaluate(e);
      if v.Err? {
        return Raise(v.error);
      }
      output := output + [host.stringify(v.value)];
      o := Normal;
    }

    method VisitLet(name: string, initializer: Option<Expr>) returns (o: Outcome)
      modifies this
      ensures Step(Snapshot(), o) == Exec(host, old(Snapshot()), LetStmt(name, initializer), 1)
    {
      var v: Result<Value> := Ok(Nil);
      if initializer.Some? {
        v := Evaluate(initializer.value);
      }
      if v.Err? {
        return Raise(v.error);
      }
      o := DefineCurrent(name, v.value);
    }

    method VisitReturn(value: Option<Expr>) returns (o: Outcome)
      modifies this
      ensures Step(Snapshot(), o) == Exec(host, old(Snapshot()), ReturnStmt(value), 1)
    {
      var v: Result<Value> := Ok(Nil);
      if value.Some? {
        v := Evaluate(value.value);
      }
      o := if v.Err? then Raise(v.error) else Return(v.value);
    }

    /** `visitClassStmt`. */
    method VisitClass(name: string, superclass: Option<Expr>, methods: seq<FunDecl>,
                      classMethods: seq<FunDecl>) returns (o: Outcome)
      modifies this
      ensures Step(Snapshot(), o) == DeclareClass(host, old(Snapshot()), name, superclass, methods, classMethods)
    {
      var parent: Option<ClassObj> := None;
      if superclass.Some? {
        var sup := Evaluate(superclass.value);
        if sup.Err? {
          return Raise(sup.error);
        }
        if !sup.value.Class? {
          return Raise(TypeError(SuperclassNotClass));
        }
        parent := Some(sup.value.cls);
      }
      match DefineIn(frames, environment, name, Nil) {
        case Err(err) => return Raise(err);
        case Ok(fs) => frames := fs;
      }
      if parent.Some? {
        var superFrame := |frames|;
        frames := Push(frames, environment, map["super" := Class(parent.value)]);
        environment := superFrame;
      }
      var classTable := BuildMethodTable(classMethods, environment, false);
      var metaclass := ClassObj(name + " metaclass", None, parent, classTable);
      var methodTable := BuildMethodTable(methods, environment, true);
      var klass := ClassObj(name, Some(metaclass), parent, methodTable);
      if parent.Some? {
        environment := frames[environment].enclosing.value;
      }
      match AssignChain(frames, environment, name, Class(klass)) {
        case Err(err) => return Raise(err);
        case Ok(fs) => frames := fs;
      }
      o := Normal;
    }

    /** `visitImportStmt`. */
    method VisitImport(moduleName: Expr, isStd: bool) returns (o: Outcome)
      modifies this
      ensures Step(Snapshot(), o) == ImportModule(host, old(Snapshot()), moduleName, isStd)
    {
      var m := Evaluate(moduleName);
      if m.Err? {
        return Raise(m.error);
      }
      if !m.value.Str? {
        return Raise(TypeError(ExpectedString));
      }
      var name := m.value.s;
      if name in imported {
        return Raise(ImportError(AlreadyImported(name)));
      }
      if StdEntry(name) in imported {
        return Raise(ImportError(StdAlreadyImported(name)));
      }
      if !isStd {
        var failure := host.importFile(name + ".hcl");
        if failure.Some? {
          return Raise(failure.value);
        }
        imported := imported + [name];
      } else if name in natImport {
        var objects := natImport[name];
        if objects.Some? {
          match ImportInto(frames, globals, objects.value) {
            case Err(err) => return Raise(err);
            case Ok(fs) =>
              frames := fs;
              imported := imported + [StdEntry(name)];
          }
        }
      } else if name in modImport {
        var instance := modImport[name];
        if instance.Some? {
          match DefineIn(frames, globals, name, Instance(|instances|)) {
            case Err(err) => return Raise(err);
            case Ok(fs) =>
              frames := fs;
              instances := instances + [instance.value];
              imported := imported + [StdEntry(name)];
          }
        }
      } else if name in stdImport {
        var failure := host.importFile(StdPath(host, name));
        if failure.Some? {
          return Raise(failure.value);
        }
        imported := imported + [StdEntry(name)];
      } else {
        return Raise(ImportError(CannotImportStd(name)));
      }
      o := Normal;
    }

    /** `interpret(List<Stmt>)`: run the statements in order; a runtime
        error stops the run and is reported. */
    method Interpret(statements: seq<Stmt>, fuel: nat) returns (ending: Ending)
      modifies this
      ensures Run(Snapshot(), ending) == Interpretation(host, old(Snapshot()), statements, fuel)
      ensures old(Valid()) ==> Valid()
    {
      ghost var start := Snapshot();
      if Valid() {
        ListKeepsValid(host, start, statements, fuel);
      }
      var o := Normal;
      var i := 0;
      while i < |statements| && o.Normal?
        invariant 0 <= i <= |statements|
        invariant o.Normal? ==> ExecList(host, start, statements, fuel) == ExecList(host, Snapshot(), statements[i..], fuel)
        invariant !o.Normal? ==> ExecList(host, start, statements, fuel) == Step(Snapshot(), o)
      {
        assert statements[i..][0] == statements[i] && statements[i..][1..] == statements[i + 1..];
        o := Execute(statements[i], fuel);
        i := i + 1;
      }
      match o
      case Normal => ending := Completed;
      case Raise(err) => ending := if err.IsRuntimeError() then Reported(err) else Escaped(o);
      case _ => ending := Escaped(o);
    }
  }
}
