/** Statement execution as functions of the interpreter's state: the
    specification that the methods of `Interpreter.Interpreter` are proved
    to implement. A statement nested in another, and each iteration of a
    loop, takes one unit of fuel; statements in sequence share theirs. Fuel
    so bounds the nesting depth and the otherwise unbounded `loop`. */
module Execution {
  import opened Base
  import opened Syntax
  import opened Values
  import opened Environments
  import opened Objects
  import opened Runtime
  import opened Evaluator

  const SuperclassNotClass := "Superclass must be a class."
  const ExpectedString := "Expected a string."

  function AlreadyImported(name: string): string { "Module " + name + " is already imported." }
  function StdAlreadyImported(name: string): string { "Standard Module " + name + " is already imported." }
  function CannotImportStd(name: string): string { "Can't import Standard Module " + name + "." }

  /** The ledger entry of a standard module. */
  function StdEntry(name: string): string { "Std " + name }

  /** `<home>/std/<name>.hcl`. */
  function StdPath(host: Host, name: string): string {
    host.homePath + host.separator + "std" + host.separator + name + ".hcl"
  }

  /** `environment.define` in the current frame. */
  function Define(st: State, name: string, v: Value): (r: Step)
    ensures r.st == st.(frames := r.st.frames) && SameLinks(st.frames, r.st.frames)
    ensures r.outcome.Normal? <==> st.environment < |st.frames|
    ensures r.outcome.Normal? ==> r.st.frames[st.environment].values == st.frames[st.environment].values[name := v]
    ensures r.outcome.Normal? ==> forall j :: 0 <= j < |st.frames| && j != st.environment ==> r.st.frames[j] == st.frames[j]
    ensures r.outcome.Raise? ==> r.st == st
    ensures r.outcome.Normal? || r.outcome.Raise?
  {
    match DefineIn(st.frames, st.environment, name, v)
    case Err(err) => Step(st, Raise(err))
    case Ok(fs) => Step(st.(frames := fs), Normal)
  }

  /** The value of an optional expression, nil when absent. */
  function EvalOptional(host: Host, st: State, e: Option<Expr>): (r: Evaluated)
    ensures OnlyHeapChanged(st, r.st)
  {
    if e.None? then Evaluated(st, Ok(Nil)) else Eval(host, st, e.value)
  }

  function Exec(host: Host, st: State, s: Stmt, fuel: nat): (r: Step)
    ensures Preserves(st, r.st)
    decreases fuel, 0
  {
    if fuel == 0 then Step(st, OutOfFuel)
    else match s
    case ExprStmt(e) =>
      var v := Eval(host, st, e);
      Step(v.st, if v.result.Err? then Raise(v.result.error) else Normal)
    case PrintStmt(e) =>
      var v := Eval(host, st, e);
      if v.result.Err? then Step(v.st, Raise(v.result.error))
      else Step(v.st.(output := v.st.output + [host.stringify(v.result.value)]), Normal)
    case LetStmt(name, init) =>
      var v := EvalOptional(host, st, init);
      if v.result.Err? then Step(v.st, Raise(v.result.error)) else Define(v.st, name, v.result.value)
    case BlockStmt(ss) =>
      ExecBlock(host, st.(frames := Push(st.frames, st.environment, map[])), ss, |st.frames|, fuel - 1)
    case IfStmt(c, thenBranch, elseBranch) =>
      var v := Eval(host, st, c);
      if v.result.Err? then Step(v.st, Raise(v.result.error))
      else if IsTruthy(v.result.value) then Exec(host, v.st, thenBranch, fuel - 1)
      else if elseBranch.Some? then Exec(host, v.st, elseBranch.value, fuel - 1)
      else Step(v.st, Normal)
    case LoopStmt(body) => ExecLoop(host, st, body, fuel - 1)
    case BreakStmt => Step(st, Break)
    case ReturnStmt(value) =>
      var v := EvalOptional(host, st, value);
      Step(v.st, if v.result.Err? then Raise(v.result.error) else Return(v.result.value))
    case FunctionStmt(decl) =>
      Define(st, decl.name, Callable(UserFunction(Closure(decl, st.environment, false))))
    case ClassStmt(name, superclass, methods, classMethods) =>
      DeclareClass(host, st, name, superclass, methods, classMethods)
    case ImportStmt(m, isStd) => ImportModule(host, st, m, isStd)
  }

  /** A statement that holds no other statement takes one unit of fuel,
      whatever fuel it is given. */
  lemma LeafIgnoresFuel(host: Host, st: State, s: Stmt, fuel: nat)
    requires fuel > 0 && !s.BlockStmt? && !s.IfStmt? && !s.LoopStmt?
    ensures Exec(host, st, s, fuel) == Exec(host, st, s, 1)
  {
  }

  /** Statements in order, stopping at the first that does not complete
      normally. */
  function ExecList(host: Host, st: State, ss: seq<Stmt>, fuel: nat): (r: Step)
    ensures Preserves(st, r.st)
    decreases fuel, |ss|
  {
    if |ss| == 0 then Step(st, Normal)
    else
      var first := Exec(host, st, ss[0], fuel);
      if !first.outcome.Normal? then first else ExecList(host, first.st, ss[1..], fuel)
  }

  /** `executeBlock`: run the statements with `env` as the current
      environment, then restore the previous one whatever the outcome. */
  function ExecBlock(host: Host, st: State, ss: seq<Stmt>, env: nat, fuel: nat): (r: Step)
    ensures Preserves(st, r.st)
    decreases fuel, |ss| + 1
  {
    var inner := ExecList(host, st.(environment := env), ss, fuel);
    Step(inner.st.(environment := st.environment), inner.outcome)
  }

  /** `visitLoopStmt`: run the body again and again; a Break from it ends the
      loop normally, any other signal or error ends the loop with it. */
  function ExecLoop(host: Host, st: State, body: Stmt, fuel: nat): (r: Step)
    ensures Preserves(st, r.st)
    decreases fuel, 1
  {
    if fuel == 0 then Step(st, OutOfFuel)
    else
      var b := Exec(host, st, body, fuel - 1);
      match b.outcome
      case Normal => ExecLoop(host, b.st, body, fuel - 1)
      case Break => Step(b.st, Normal)
      case _ => b
  }

  /** One iteration of a loop, given what the body's run gave. */
  lemma LoopStep(host: Host, st: State, body: Stmt, fuel: nat, b: Step)
    requires fuel > 0 && b == Exec(host, st, body, fuel - 1)
    ensures b.outcome.Normal? ==> ExecLoop(host, st, body, fuel) == ExecLoop(host, b.st, body, fuel - 1)
    ensures b.outcome.Break? ==> ExecLoop(host, st, body, fuel) == Step(b.st, Normal)
    ensures !b.outcome.Normal? && !b.outcome.Break? ==> ExecLoop(host, st, body, fuel) == b
  {
  }

  /** The class and metaclass a class declaration builds, with their
      methods closing over frame `closure` (the `super` frame when there is a
      superclass). The metaclass has the user superclass itself as its
      superclass. */
  function BuildClass(name: string, parent: Option<ClassObj>, methods: seq<FunDecl>,
                      classMethods: seq<FunDecl>, closure: nat): ClassObj
  {
    var metaclass := ClassObj(name + " metaclass", None, parent, MethodTable(classMethods, closure, false));
    ClassObj(name, Some(metaclass), parent, MethodTable(methods, closure, true))
  }

  /** `visitClassStmt`. */
  function DeclareClass(host: Host, st: State, name: string, superclass: Option<Expr>,
                        methods: seq<FunDecl>, classMethods: seq<FunDecl>): (r: Step)
    ensures Preserves(st, r.st) && r.st.imported == st.imported && r.st.output == st.output
    ensures r.outcome.Normal? || r.outcome.Raise?
  {
    var sup := EvalOptional(host, st, superclass);
    if sup.result.Err? then Step(sup.st, Raise(sup.result.error))
    else if superclass.Some? && !sup.result.value.Class? then Step(sup.st, Raise(TypeError(SuperclassNotClass)))
    else
      var parent := if superclass.Some? then Some(sup.result.value.cls) else None;
      var s1 := sup.st;
      match DefineIn(s1.frames, s1.environment, name, Nil)
      case Err(err) => Step(s1, Raise(err))
      case Ok(fs) =>
        var s2 := s1.(frames := fs);
        var s3 := if parent.Some? then s2.(frames := Push(fs, s2.environment, map["super" := Class(parent.value)]),
                                            environment := |fs|)
                  else s2;
        var klass := BuildClass(name, parent, methods, classMethods, s3.environment);
        var s4 := if parent.Some? then s3.(environment := s3.frames[s3.environment].enclosing.value) else s3;
        match AssignChain(s4.frames, s4.environment, name, Class(klass))
        case Err(err) => Step(s4, Raise(err))
        case Ok(fs') => Step(s4.(frames := fs'), Normal)
  }

  /** The standard-module branch of `visitImportStmt`, for a name not yet in
      the ledger: native modules first, then linked modules, then library
      files. A linked module is a fresh instance, allocated at the import. A
      module whose instantiation throws is skipped silently. */
  function ImportStd(host: Host, s: State, name: string): (r: Step)
    ensures Preserves(s, r.st) && r.st.output == s.output
    ensures r.outcome.Normal? || r.outcome.Raise?
    ensures r.outcome.Raise? ==> r.st == s
    ensures Skipped(s, name) ==> r == Step(s, Normal)
    ensures r.outcome.Normal? && !Skipped(s, name) ==> r.st.imported == s.imported + [StdEntry(name)]
    ensures r.st.instances == s.instances ||
      (name !in s.natImport && name in s.modImport && s.modImport[name].Some? &&
       r.st.instances == s.instances + [s.modImport[name].value])
    ensures r.st.frames == s.frames ||
      (s.globals < |s.frames| && SameLinks(s.frames, r.st.frames) &&
       forall j :: 0 <= j < |s.frames| && j != s.globals ==> r.st.frames[j] == s.frames[j])
    ensures r.outcome.Normal? && name in s.natImport && s.natImport[name].Some? ==>
      s.globals < |s.frames| && var g := s.frames[s.globals];
      r.st == s.(frames := s.frames[s.globals := g.(values := g.values + s.natImport[name].value)],
                 imported := s.imported + [StdEntry(name)])
    ensures r.outcome.Normal? && name !in s.natImport && name in s.modImport && s.modImport[name].Some? ==>
      s.globals < |s.frames| && var g := s.frames[s.globals];
      r.st == s.(frames := s.frames[s.globals := g.(values := g.values[name := Instance(|s.instances|)])],
                 instances := s.instances + [s.modImport[name].value],
                 imported := s.imported + [StdEntry(name)])
    ensures r.outcome.Normal? && name !in s.natImport && name !in s.modImport ==>
      r.st == s.(imported := s.imported + [StdEntry(name)])
  {
    if name in s.natImport then
      if s.natImport[name].None? then Step(s, Normal)
      else
        match ImportInto(s.frames, s.globals, s.natImport[name].value)
        case Err(err) => Step(s, Raise(err))
        case Ok(fs) => Step(s.(frames := fs, imported := s.imported + [StdEntry(name)]), Normal)
    else if name in s.modImport then
      if s.modImport[name].None? then Step(s, Normal)
      else
        match DefineIn(s.frames, s.globals, name, Instance(|s.instances|))
        case Err(err) => Step(s, Raise(err))
        case Ok(fs) =>
          Step(s.(frames := fs, instances := s.instances + [s.modImport[name].value],
                  imported := s.imported + [StdEntry(name)]), Normal)
    else if name in s.stdImport then
      match host.importFile(StdPath(host, name))
      case Some(err) => Step(s, Raise(err))
      case None => Step(s.(imported := s.imported + [StdEntry(name)]), Normal)
    else Step(s, Raise(ImportError(CannotImportStd(name))))
  }

  /** A standard module registered as one whose instantiation threw: the
      import completes without effect. */
  predicate Skipped(s: State, name: string) {
    if name in s.natImport then s.natImport[name].None?
    else name in s.modImport && s.modImport[name].None?
  }

  /** `visitImportStmt`: the module name must be a string not yet in the
      ledger, bare or as a standard module; a successful import records it. */
  function ImportModule(host: Host, st: State, moduleName: Expr, isStd: bool): (r: Step)
    ensures Preserves(st, r.st) && r.st.output == st.output
    ensures r.outcome.Normal? || r.outcome.Raise?
    ensures var m := Eval(host, st, moduleName);
      && (m.result.Err? ==> r == Step(m.st, Raise(m.result.error)))
      && (m.result.Ok? && !m.result.value.Str? ==> r == Step(m.st, Raise(TypeError(ExpectedString))))
    ensures var m := Eval(host, st, moduleName);
      r.outcome.Normal? && m.result.Ok? && m.result.value.Str? && !isStd ==>
        r.st == m.st.(imported := m.st.imported + [m.result.value.s])
    ensures var m := Eval(host, st, moduleName);
      r.outcome.Normal? && m.result.Ok? && m.result.value.Str? && isStd && !Skipped(m.st, m.result.value.s) ==>
        r.st.imported == m.st.imported + [StdEntry(m.result.value.s)]
    ensures var m := Eval(host, st, moduleName);
      r.st.imported == st.imported ||
      (r.outcome.Normal? && m.result.Ok? && m.result.value.Str? &&
       r.st.imported == st.imported + [if isStd then StdEntry(m.result.value.s) else m.result.value.s])
  {
    var m := Eval(host, st, moduleName);
    if m.result.Err? then Step(m.st, Raise(m.result.error))
    else if !m.result.value.Str? then Step(m.st, Raise(TypeError(ExpectedString)))
    else
      var name := m.result.value.s;
      var s := m.st;
      if name in s.imported then
        Step(s, Raise(ImportError(AlreadyImported(name))))
      else if StdEntry(name) in s.imported then
        Step(s, Raise(ImportError(StdAlreadyImported(name))))
      else if !isStd then
        match host.importFile(name + ".hcl")
        case Some(err) => Step(s, Raise(err))
        case None => Step(s.(imported := s.imported + [name]), Normal)
      else ImportStd(host, s, name)
  }

  /** How a top-level batch of statements ends: completed, stopped by a
      runtime error that `interpret` reports, or stopped by anything else
      (a fault, or a Return or Break at top level), which escapes it. */
  datatype Ending = Completed | Reported(error: Error) | Escaped(outcome: Outcome)

  datatype Run = Run(st: State, ending: Ending)

  /** `interpret(List<Stmt>)`. */
  function Interpretation(host: Host, st: State, stmts: seq<Stmt>, fuel: nat): (r: Run)
    ensures Preserves(st, r.st)
  {
    var x := ExecList(host, st, stmts, fuel);
    Run(x.st,
        match x.outcome
        case Normal => Completed
        case Raise(err) => if err.IsRuntimeError() then Reported(err) else Escaped(x.outcome)
        case _ => Escaped(x.outcome))
  }

  // ---------------------------------------------------------------------
  // Statement sequences and blocks

  /** Running `a + b` is running `a` and, only when it completes normally,
      `b` from the state it leaves. */
  lemma {:induction false} ExecListAppend(host: Host, st: State, a: seq<Stmt>, b: seq<Stmt>, fuel: nat)
    ensures ExecList(host, st, a + b, fuel) ==
            (var x := ExecList(host, st, a, fuel);
             if x.outcome.Normal? then ExecList(host, x.st, b, fuel) else x)
    decreases |a|
  {
    if |a| == 0 {
      assert a + b == b;
    } else {
      assert (a + b)[0] == a[0];
      assert (a + b)[1..] == a[1..] + b;
      var first := Exec(host, st, a[0], fuel);
      if first.outcome.Normal? {
        ExecListAppend(host, first.st, a[1..], b, fuel);
      }
    }
  }

  /** Once a statement raises, returns or breaks, none after it runs. */
  lemma SignalSkipsRest(host: Host, st: State, a: seq<Stmt>, b: seq<Stmt>, fuel: nat)
    requires !ExecList(host, st, a, fuel).outcome.Normal?
    ensures ExecList(host, st, a + b, fuel) == ExecList(host, st, a, fuel)
  {
    ExecListAppend(host, st, a, b, fuel);
  }

  /** A `let` inside a block binds in the block's own fresh frame, which
      links to the current one; the current environment is restored. */
  lemma LetInBlockIsLocal(host: Host, st: State, name: string, fuel: nat)
    requires fuel >= 2
    ensures var r := Exec(host, st, BlockStmt([LetStmt(name, None)]), fuel);
      r.outcome == Normal && r.st.environment == st.environment &&
      r.st.frames == st.frames + [Frame(map[name := Nil], Some(st.environment))]
  {
    var st' := st.(frames := Push(st.frames, st.environment, map[]), environment := |st.frames|);
    assert ExecList(host, st', [LetStmt(name, None)], fuel - 1).st.frames
        == st.frames + [Frame(map[name := Nil], Some(st.environment))];
  }

  // ---------------------------------------------------------------------
  // Loops

  /** A loop never lets a Break escape: it is caught and ends the loop. */
  lemma {:induction false} LoopAbsorbsBreak(host: Host, st: State, body: Stmt, fuel: nat)
    ensures ExecLoop(host, st, body, fuel).outcome != Break
    decreases fuel
  {
    if fuel > 0 {
      var b := Exec(host, st, body, fuel - 1);
      if b.outcome.Normal? {
        LoopAbsorbsBreak(host, b.st, body, fuel - 1);
      }
    }
  }

  /** A Return or an error from the body ends the loop with that same
      outcome and state. */
  lemma LoopPropagatesSignal(host: Host, st: State, body: Stmt, fuel: nat)
    requires fuel > 0
    requires var b := Exec(host, st, body, fuel - 1); b.outcome.Return? || b.outcome.Raise?
    ensures ExecLoop(host, st, body, fuel) == Exec(host, st, body, fuel - 1)
  {
  }

  /** `loop { if (c) break; }`: a truthy condition ends the loop normally
      in the state the condition left; a falsy one starts the next
      iteration from that state. */
  lemma LoopUntil(host: Host, st: State, c: Expr, fuel: nat)
    requires fuel >= 3
    requires Eval(host, st, c).result.Ok?
    ensures var v := Eval(host, st, c);
      var loop := ExecLoop(host, st, IfStmt(c, BreakStmt, None), fuel);
      if IsTruthy(v.result.value) then loop == Step(v.st, Normal)
      else loop == ExecLoop(host, v.st, IfStmt(c, BreakStmt, None), fuel - 1)
  {
    var v := Eval(host, st, c);
    if IsTruthy(v.result.value) {
      assert Exec(host, v.st, BreakStmt, fuel - 2) == Step(v.st, Break);
      assert Exec(host, st, IfStmt(c, BreakStmt, None), fuel - 1) == Step(v.st, Break);
    }
  }

  // ---------------------------------------------------------------------
  // Classes

  /** A superclass expression that yields anything but a class stops the
      declaration before the name is bound. */
  lemma SuperclassMustBeClass(host: Host, st: State, name: string, sup: Expr,
                              methods: seq<FunDecl>, classMethods: seq<FunDecl>)
    requires Eval(host, st, sup).result.Ok? && !Eval(host, st, sup).result.value.Class?
    ensures DeclareClass(host, st, name, Some(sup), methods, classMethods)
         == Step(Eval(host, st, sup).st, Raise(TypeError(SuperclassNotClass)))
  {
  }

  /** A class declaration without a superclass binds the name, in the
      current frame, to a class whose methods close over that frame, with
      `_init` marked as the initializer, and whose metaclass carries the
      class methods. */
  lemma {:induction false} ClassWithoutSuperclass(host: Host, st: State, name: string,
                                                  methods: seq<FunDecl>, classMethods: seq<FunDecl>)
    requires st.environment < |st.frames|
    ensures var r := DeclareClass(host, st, name, None, methods, classMethods);
      var env := st.environment;
      r.outcome == Normal && r.st.environment == env && |r.st.frames| == |st.frames| &&
      r.st.frames[env].values == st.frames[env].values[name := Class(BuildClass(name, None, methods, classMethods, env))] &&
      (forall j :: 0 <= j < |st.frames| && j != env ==> r.st.frames[j] == st.frames[j]) &&
      SameLinks(st.frames, r.st.frames) &&
      r.st == st.(frames := r.st.frames)
  {
    var fs := Put(st.frames, st.environment, name, Nil);
    var k := Class(BuildClass(name, None, methods, classMethods, st.environment));
    assert st.frames[st.environment].values[name := Nil][name := k]
        == st.frames[st.environment].values[name := k];
    assert Lookup(fs, st.environment, name) == Ok(Nil);
  }

  /** With a superclass, the methods close over a fresh frame that binds
      `super` to it and links to the current frame, both class and
      metaclass have it as superclass, and the current environment is
      restored; the name is bound in the current frame as before. */
  lemma {:induction false} ClassWithSuperclass(host: Host, st: State, name: string, sup: Expr,
                                               methods: seq<FunDecl>, classMethods: seq<FunDecl>)
    requires var v := Eval(host, st, sup);
      v.result.Ok? && v.result.value.Class? && st.environment < |v.st.frames|
    ensures var v := Eval(host, st, sup);
      var parent := v.result.value.cls;
      var env := st.environment;
      var superFrame := |v.st.frames|;
      var r := DeclareClass(host, st, name, Some(sup), methods, classMethods);
      r.outcome == Normal && r.st.environment == env &&
      |r.st.frames| == superFrame + 1 &&
      r.st.frames[superFrame] == Frame(map["super" := Class(parent)], Some(env)) &&
      var k := BuildClass(name, Some(parent), methods, classMethods, superFrame);
      k.superclass == Some(parent) && k.metaclass.value.superclass == Some(parent) &&
      r.st.frames[env].values == v.st.frames[env].values[name := Class(k)] &&
      SameLinks(v.st.frames, r.st.frames[..superFrame]) &&
      (forall j :: 0 <= j < superFrame && j != env ==> r.st.frames[j] == v.st.frames[j]) &&
      r.st == v.st.(frames := r.st.frames)
  {
    var v := Eval(host, st, sup);
    var env := st.environment;
    var fs := Put(v.st.frames, env, name, Nil);
    var fs2 := Push(fs, env, map["super" := Class(v.result.value.cls)]);
    var k := Class(BuildClass(name, Some(v.result.value.cls), methods, classMethods, |fs|));
    assert Lookup(fs2, env, name) == Ok(Nil);
    assert v.st.frames[env].values[name := Nil][name := k] == v.st.frames[env].values[name := k];
  }

  // ---------------------------------------------------------------------
  // Imports

  /** A name already in the ledger, bare or as a standard module, cannot be
      imported again, by either kind of import; nothing changes. */
  lemma ImportDuplicateFails(host: Host, st: State, m: Expr, isStd: bool)
    requires var v := Eval(host, st, m);
      v.result.Ok? && v.result.value.Str? &&
      (v.result.value.s in v.st.imported || StdEntry(v.result.value.s) in v.st.imported)
    ensures var r := ImportModule(host, st, m, isStd);
      r.st == Eval(host, st, m).st && r.outcome.Raise? && r.outcome.error.ImportError?
  {
  }

  /** After a successful import, importing the same name again, by either
      kind of import, fails. */
  lemma ImportTwiceFails(host: Host, st: State, name: string, first: bool, second: bool)
    requires ImportModule(host, st, Literal(StrLit(name)), first).st.imported != st.imported
    ensures var r := ImportModule(host, st, Literal(StrLit(name)), first);
      var r2 := ImportModule(host, r.st, Literal(StrLit(name)), second);
      r.outcome == Normal && r2.st == r.st && r2.outcome.Raise? && r2.outcome.error.ImportError?
  {
    var r := ImportModule(host, st, Literal(StrLit(name)), first);
    assert Eval(host, r.st, Literal(StrLit(name))) == Evaluated(r.st, Ok(Str(name)));
    assert r.st.imported[|st.imported|] in r.st.imported;
    ImportDuplicateFails(host, r.st, Literal(StrLit(name)), second);
  }

  /** An import that completed, and was not skipped as a module whose
      instantiation threw, cannot be repeated by either kind of import. */
  lemma ImportedOnlyOnce(host: Host, st: State, name: string, first: bool, second: bool)
    requires ImportModule(host, st, Literal(StrLit(name)), first).outcome == Normal
    requires first ==> !Skipped(st, name)
    ensures var r := ImportModule(host, st, Literal(StrLit(name)), first);
      var r2 := ImportModule(host, r.st, Literal(StrLit(name)), second);
      r2.st == r.st && r2.outcome.Raise? && r2.outcome.error.ImportError?
  {
    var r := ImportModule(host, st, Literal(StrLit(name)), first);
    assert Eval(host, st, Literal(StrLit(name))) == Evaluated(st, Ok(Str(name)));
    assert Eval(host, r.st, Literal(StrLit(name))) == Evaluated(r.st, Ok(Str(name)));
    assert r.st.imported[|st.imported|] in r.st.imported;
    ImportDuplicateFails(host, r.st, Literal(StrLit(name)), second);
  }

  /** Where a fresh standard module comes from: a native module is merged
      into the globals, else a linked module is bound in the globals under
      its name, else a library file is loaded, else the import fails. */
  lemma StdImportSources(host: Host, st: State, name: string)
    requires name !in st.imported && StdEntry(name) !in st.imported && st.globals < |st.frames|
    ensures var r := ImportModule(host, st, Literal(StrLit(name)), true);
      if name in st.natImport then
        (st.natImport[name].None? ==> r == Step(st, Normal)) &&
        (st.natImport[name].Some? ==>
           r.outcome == Normal && r.st.imported == st.imported + [StdEntry(name)] &&
           r.st.frames[st.globals].values == st.frames[st.globals].values + st.natImport[name].value &&
           r.st == st.(frames := r.st.frames, imported := r.st.imported) &&
           SameLinks(st.frames, r.st.frames) &&
           (forall j :: 0 <= j < |st.frames| && j != st.globals ==> r.st.frames[j] == st.frames[j]))
      else if name in st.modImport then
        (st.modImport[name].None? ==> r == Step(st, Normal)) &&
        (st.modImport[name].Some? ==>
           r.outcome == Normal && r.st.imported == st.imported + [StdEntry(name)] &&
           r.st.instances == st.instances + [st.modImport[name].value] &&
           r.st.frames[st.globals].values == st.frames[st.globals].values[name := Instance(|st.instances|)] &&
           r.st == st.(frames := r.st.frames, instances := r.st.instances, imported := r.st.imported) &&
           SameLinks(st.frames, r.st.frames) &&
           (forall j :: 0 <= j < |st.frames| && j != st.globals ==> r.st.frames[j] == st.frames[j]))
      else if name in st.stdImport then
        (host.importFile(StdPath(host, name)).None? ==>
           r == Step(st.(imported := st.imported + [StdEntry(name)]), Normal)) &&
        (host.importFile(StdPath(host, name)).Some? ==>
           r == Step(st, Raise(host.importFile(StdPath(host, name)).value)))
      else r == Step(st, Raise(ImportError(CannotImportStd(name))))
  {
  }

  /** The ledger never records a module twice. */
  lemma ImportKeepsLedgerDistinct(host: Host, st: State, m: Expr, isStd: bool)
    requires NoDuplicates(st.imported)
    ensures NoDuplicates(ImportModule(host, st, m, isStd).st.imported)
  {
    var r := ImportModule(host, st, m, isStd);
    if r.st.imported != st.imported {
      var v := Eval(host, st, m);
      var e := r.st.imported[|st.imported|];
      assert e == (if isStd then StdEntry(v.result.value.s) else v.result.value.s);
      assert e !in st.imported;
      forall i, j | 0 <= i < j < |r.st.imported|
        ensures r.st.imported[i] != r.st.imported[j]
      {
        if j == |st.imported| {
          assert r.st.imported[i] == st.imported[i];
        }
      }
    }
  }

  lemma {:induction false} ExecKeepsLedgerDistinct(host: Host, st: State, s: Stmt, fuel: nat)
    requires NoDuplicates(st.imported)
    ensures NoDuplicates(Exec(host, st, s, fuel).st.imported)
    decreases fuel, 0
  {
    if fuel > 0 {
      match s
      case BlockStmt(ss) =>
        BlockKeepsLedgerDistinct(host, st.(frames := Push(st.frames, st.environment, map[])), ss, |st.frames|, fuel - 1);
      case IfStmt(c, thenBranch, elseBranch) =>
        var v := Eval(host, st, c);
        if v.result.Ok? {
          if IsTruthy(v.result.value) {
            ExecKeepsLedgerDistinct(host, v.st, thenBranch, fuel - 1);
          } else if elseBranch.Some? {
            ExecKeepsLedgerDistinct(host, v.st, elseBranch.value, fuel - 1);
          }
        }
      case LoopStmt(body) => LoopKeepsLedgerDistinct(host, st, body, fuel - 1);
      case ImportStmt(m, isStd) => ImportKeepsLedgerDistinct(host, st, m, isStd);
      case _ =>
    }
  }

  lemma {:induction false} ListKeepsLedgerDistinct(host: Host, st: State, ss: seq<Stmt>, fuel: nat)
    requires NoDuplicates(st.imported)
    ensures NoDuplicates(ExecList(host, st, ss, fuel).st.imported)
    decreases fuel, |ss|
  {
    if |ss| > 0 {
      ExecKeepsLedgerDistinct(host, st, ss[0], fuel);
      var first := Exec(host, st, ss[0], fuel);
      if first.outcome.Normal? {
        ListKeepsLedgerDistinct(host, first.st, ss[1..], fuel);
      }
    }
  }

  lemma {:induction false} BlockKeepsLedgerDistinct(host: Host, st: State, ss: seq<Stmt>, env: nat, fuel: nat)
    requires NoDuplicates(st.imported)
    ensures NoDuplicates(ExecBlock(host, st, ss, env, fuel).st.imported)
    decreases fuel, |ss| + 1
  {
    ListKeepsLedgerDistinct(host, st.(environment := env), ss, fuel);
  }

  lemma {:induction false} LoopKeepsLedgerDistinct(host: Host, st: State, body: Stmt, fuel: nat)
    requires NoDuplicates(st.imported)
    ensures NoDuplicates(ExecLoop(host, st, body, fuel).st.imported)
    decreases fuel, 1
  {
    if fuel > 0 {
      ExecKeepsLedgerDistinct(host, st, body, fuel - 1);
      var b := Exec(host, st, body, fuel - 1);
      if b.outcome.Normal? {
        LoopKeepsLedgerDistinct(host, b.st, body, fuel - 1);
      }
    }
  }

  // ---------------------------------------------------------------------
  // Top level

  /** `interpret` stops at the first runtime error and reports it: the
      statements after the one that raised never run. */
  lemma InterpretStopsAtError(host: Host, st: State, a: seq<Stmt>, b: seq<Stmt>, fuel: nat)
    requires var x := ExecList(host, st, a, fuel);
      x.outcome.Raise? && x.outcome.error.IsRuntimeError()
    ensures var x := ExecList(host, st, a, fuel);
      Interpretation(host, st, a + b, fuel) == Run(x.st, Reported(x.outcome.error))
  {
    SignalSkipsRest(host, st, a, b, fuel);
  }
}

