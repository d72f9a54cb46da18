/** Expression evaluation: the expression visitors of the interpreter as one
    function over a snapshot of its state. An expression may change the
    frames (assignment, binding a method) and the instances (field writes,
    whatever a call does); nothing else. */
module Evaluator {
  import opened Base
  import opened Syntax
  import opened Values
  import opened Environments
  import opened Objects
  import opened Runtime
  import opened Operators

  const NotCallable := "Can only call functions and classes."
  const NoProperties := "Only instances have properties."
  const NoFields := "Only instances have fields."

  /** `lookUpVariable`: by distance when the resolver recorded one, else in
      the globals. */
  function LookUpVariable(st: State, id: ExprId, name: string): (r: Result<Value>)
    ensures id in st.locals ==>
      var k := Ancestor(st.frames, st.environment, st.locals[id]);
      (r.Ok? <==> k.Some? && name in st.frames[k.value].values) &&
      (r.Ok? ==> r.value == st.frames[k.value].values[name])
    ensures id !in st.locals ==>
      var k := Nearest(st.frames, st.globals, name);
      (r.Ok? <==> k.Some?) && (r.Ok? ==> r.value == st.frames[k.value].values[name])
  {
    if id in st.locals then GetAt(st.frames, st.environment, st.locals[id], name)
    else Lookup(st.frames, st.globals, name)
  }

  /** The write half of `visitAssignExpr`, once the value is known. */
  function AssignValue(st: State, id: ExprId, name: string, v: Value): (r: Evaluated)
    ensures OnlyHeapChanged(st, r.st)
    ensures r.result.Ok? ==> r.result.value == v && SameLinks(st.frames, r.st.frames)
    ensures r.result.Err? ==> r.st == st
    ensures id in st.locals ==> (r.result.Ok? <==> GetAt(st.frames, st.environment, st.locals[id], name).Ok?)
    ensures id !in st.locals ==> (r.result.Ok? <==> Lookup(st.frames, st.globals, name).Ok?)
    ensures r.result.Ok? ==>
      var k := if id in st.locals then Ancestor(st.frames, st.environment, st.locals[id])
               else Nearest(st.frames, st.globals, name);
      k.Some? && k.value < |st.frames| && r.st.frames == Put(st.frames, k.value, name, v)
  {
    var w := if id in st.locals then AssignAt(st.frames, st.environment, st.locals[id], name, v)
             else AssignChain(st.frames, st.globals, name, v);
    match w
    case Err(err) => Evaluated(st, Err(err))
    case Ok(fs) => Evaluated(st.(frames := fs), Ok(v))
  }

  /** The checks and the call of `visitCallExpr`, once callee and arguments
      are values: a non-callable is an error; a count mismatch is an error
      unless the callee is variadic; otherwise the callee's own `call`. */
  function CallValue(host: Host, st: State, callee: Value, args: seq<Value>): (r: Evaluated)
    ensures OnlyHeapChanged(st, r.st)
    ensures SignatureOf(callee).None? ==> r == Evaluated(st, Err(TypeError(NotCallable)))
    ensures SignatureOf(callee).Some? && |args| != SignatureOf(callee).value.arity && !SignatureOf(callee).value.variadic
      ==> r == Evaluated(st, Err(ArityError(SignatureOf(callee).value.arity, |args|)))
    ensures SignatureOf(callee).Some? && (|args| == SignatureOf(callee).value.arity || SignatureOf(callee).value.variadic)
      ==> && r.result == host.call(st, callee, args).result
          && r.st.frames == host.call(st, callee, args).st.frames
          && r.st.instances == host.call(st, callee, args).st.instances
  {
    match SignatureOf(callee)
    case None => Evaluated(st, Err(TypeError(NotCallable)))
    case Some(sig) =>
      if |args| != sig.arity && !sig.variadic then Evaluated(st, Err(ArityError(sig.arity, |args|)))
      else
        var c := host.call(st, callee, args);
        Evaluated(st.(frames := c.st.frames, instances := c.st.instances), c.result)
  }

  /** `HclInstance.get`: a field when the instance has one by that name,
      otherwise the class's method of that name bound to the instance. */
  function GetProperty(st: State, ref: nat, name: string): (r: Evaluated)
    ensures OnlyHeapChanged(st, r.st) && r.st.instances == st.instances
    ensures ref < |st.instances| && name in st.instances[ref].fields ==>
      r == Evaluated(st, Ok(st.instances[ref].fields[name]))
    ensures ref < |st.instances| && name !in st.instances[ref].fields ==>
      (r.result.Ok? <==> FindMethod(st.instances[ref].klass, name).Some?)
    ensures ref < |st.instances| && name !in st.instances[ref].fields && r.result.Ok? ==>
      r.result.value.Callable? && r.result.value.routine.UserFunction? &&
      r.result.value.routine.fn.decl == FindMethod(st.instances[ref].klass, name).value.decl &&
      Lookup(r.st.frames, r.result.value.routine.fn.env, "self") == Ok(Instance(ref))
    ensures ref < |st.instances| && name !in st.instances[ref].fields && FindMethod(st.instances[ref].klass, name).Some? ==>
      var b := Bind(st.frames, FindMethod(st.instances[ref].klass, name).value, Instance(ref));
      r == Evaluated(st.(frames := b.frames), Ok(Callable(UserFunction(b.bound))))
    ensures r.result.Err? && ref < |st.instances| ==> r.result.error == UndefinedProperty(name)
  {
    if ref >= |st.instances| then Evaluated(st, Err(Fault("dangling instance")))
    else
      var obj := st.instances[ref];
      if name in obj.fields then Evaluated(st, Ok(obj.fields[name]))
      else match FindMethod(obj.klass, name)
        case Some(m) =>
          var b := Bind(st.frames, m, Instance(ref));
          Evaluated(st.(frames := b.frames), Ok(Callable(UserFunction(b.bound))))
        case None => Evaluated(st, Err(UndefinedProperty(name)))
  }

  /** `HclInstance.set`: create or overwrite the field; fields of other
      instances and the frames do not change. */
  function SetProperty(st: State, ref: nat, name: string, v: Value): (r: Evaluated)
    ensures OnlyHeapChanged(st, r.st) && r.st.frames == st.frames
    ensures r.result.Ok? <==> ref < |st.instances|
    ensures r.result.Ok? ==> r.result.value == v && |r.st.instances| == |st.instances|
    ensures r.result.Ok? ==> r.st.instances[ref] == st.instances[ref].(fields := st.instances[ref].fields[name := v])
    ensures |r.st.instances| == |st.instances|
    ensures forall j :: 0 <= j < |st.instances| && j != ref ==> r.st.instances[j] == st.instances[j]
  {
    if ref >= |st.instances| then Evaluated(st, Err(Fault("dangling instance")))
    else
      var obj := st.instances[ref];
      Evaluated(st.(instances := st.instances[ref := obj.(fields := obj.fields[name := v])]), Ok(v))
  }

  /** `visitSuperExpr`: the superclass bound as `super` at the recorded
      distance, the receiver bound as `self` one frame nearer; the method is
      looked up from the superclass, so the current class's override is
      skipped, and it is bound to that receiver. */
  function SuperMethod(st: State, id: ExprId, methodName: string): (r: Evaluated)
    ensures OnlyHeapChanged(st, r.st) && r.st.instances == st.instances
    ensures r.result.Ok? ==>
      id in st.locals &&
      var sup := GetAt(st.frames, st.environment, st.locals[id], "super");
      var receiver := GetAt(st.frames, st.environment, st.locals[id] as int - 1, "self");
      sup.Ok? && sup.value.Class? && receiver.Ok? &&
      FindMethod(sup.value.cls, methodName).Some? &&
      r.result.value.Callable? && r.result.value.routine.UserFunction? &&
      r.result.value.routine.fn.decl == FindMethod(sup.value.cls, methodName).value.decl &&
      Lookup(r.st.frames, r.result.value.routine.fn.env, "self") == receiver
    ensures id in st.locals ==>
      var sup := GetAt(st.frames, st.environment, st.locals[id], "super");
      var receiver := GetAt(st.frames, st.environment, st.locals[id] as int - 1, "self");
      && (sup.Err? ==> r == Evaluated(st, Err(sup.error)))
      && (sup.Ok? && sup.value.Class? && receiver.Ok? && (receiver.value.Instance? || receiver.value.Nil?) ==>
            (r.result.Ok? <==> FindMethod(sup.value.cls, methodName).Some?) &&
            (r.result.Err? ==> r == Evaluated(st, Err(UndefinedProperty(methodName)))) &&
            (r.result.Ok? ==>
               var b := Bind(st.frames, FindMethod(sup.value.cls, methodName).value, receiver.value);
               r == Evaluated(st.(frames := b.frames), Ok(Callable(UserFunction(b.bound))))))
  {
    if id !in st.locals then Evaluated(st, Err(Fault("super without a resolved distance")))
    else
      var distance := st.locals[id];
      match GetAt(st.frames, st.environment, distance, "super")
      case Err(err) => Evaluated(st, Err(err))
      case Ok(sv) =>
        if !sv.Class? then Evaluated(st, Err(Fault("super is not a class")))
        else match GetAt(st.frames, st.environment, distance as int - 1, "self")
          case Err(err) => Evaluated(st, Err(err))
          case Ok(receiver) =>
            if !(receiver.Instance? || receiver.Nil?) then Evaluated(st, Err(Fault("self is not an instance")))
            else match FindMethod(sv.cls, methodName)
              case None => Evaluated(st, Err(UndefinedProperty(methodName)))
              case Some(m) =>
                var b := Bind(st.frames, m, receiver);
                Evaluated(st.(frames := b.frames), Ok(Callable(UserFunction(b.bound))))
  }

  /** Evaluate an expression; `OnlyHeapChanged` is the frame condition every
      visitor keeps. Each compound expression has its visitor below. */
  function Eval(host: Host, st: State, e: Expr): (r: Evaluated)
    ensures OnlyHeapChanged(st, r.st)
    decreases e, 1
  {
    match e
    case Literal(l) => Evaluated(st, Ok(FromLiteral(l)))
    case Grouping(inner) => Eval(host, st, inner)
    case Variable(id, name) => Evaluated(st, LookUpVariable(st, id, name))
    case SelfRef(id) => Evaluated(st, LookUpVariable(st, id, "self"))
    case Assign(id, name, rhs) => EvalAssign(host, st, id, name, rhs)
    case Logical(op, left, right) => EvalLogical(host, st, op, left, right)
    case Unary(op, operand) => EvalUnary(host, st, op, operand)
    case Binary(op, left, right) => EvalBinary(host, st, op, left, right)
    case Call(callee, args) => EvalCall(host, st, callee, args)
    case Get(obj, name) => EvalGet(host, st, obj, name)
    case Set(obj, name, rhs) => EvalSet(host, st, obj, name, rhs)
    case Super(id, methodName) => SuperMethod(st, id, methodName)
  }

  /** `visitAssignExpr`. */
  function EvalAssign(host: Host, st: State, id: ExprId, name: string, rhs: Expr): (r: Evaluated)
    ensures OnlyHeapChanged(st, r.st)
    decreases Assign(id, name, rhs), 0
  {
    var v := Eval(host, st, rhs);
    if v.result.Err? then v else AssignValue(v.st, id, name, v.result.value)
  }

  /** `visitLogicalExpr`. */
  function EvalLogical(host: Host, st: State, op: LogicalOp, left: Expr, right: Expr): (r: Evaluated)
    ensures OnlyHeapChanged(st, r.st)
    decreases Logical(op, left, right), 0
  {
    var l := Eval(host, st, left);
    if l.result.Err? then l
    else if op == Or && IsTruthy(l.result.value) then l
    else if op == And && !IsTruthy(l.result.value) then l
    else Eval(host, l.st, right)
  }

  /** `visitUnaryExpr`. */
  function EvalUnary(host: Host, st: State, op: UnaryOp, operand: Expr): (r: Evaluated)
    ensures OnlyHeapChanged(st, r.st)
    decreases Unary(op, operand), 0
  {
    var v := Eval(host, st, operand);
    if v.result.Err? then v else Evaluated(v.st, ApplyUnary(op, v.result.value))
  }

  /** `visitBinaryExpr`. */
  function EvalBinary(host: Host, st: State, op: BinaryOp, left: Expr, right: Expr): (r: Evaluated)
    ensures OnlyHeapChanged(st, r.st)
    decreases Binary(op, left, right), 0
  {
    var l := Eval(host, st, left);
    if l.result.Err? then l
    else
      var r := Eval(host, l.st, right);
      if r.result.Err? then r
      else Evaluated(r.st, ApplyBinary(host, op, l.result.value, r.result.value))
  }

  /** `visitCallExpr`. */
  function EvalCall(host: Host, st: State, callee: Expr, args: seq<Expr>): (r: Evaluated)
    ensures OnlyHeapChanged(st, r.st)
    decreases Call(callee, args), 0
  {
    var c := Eval(host, st, callee);
    if c.result.Err? then c
    else
      var a := EvalArgs(host, c.st, args);
      if a.result.Err? then Evaluated(a.st, Err(a.result.error))
      else CallValue(host, a.st, c.result.value, a.result.value)
  }

  /** `visitGetExpr`. */
  function EvalGet(host: Host, st: State, obj: Expr, name: string): (r: Evaluated)
    ensures OnlyHeapChanged(st, r.st)
    decreases Get(obj, name), 0
  {
    var o := Eval(host, st, obj);
    if o.result.Err? then o
    else if o.result.value.Instance? then GetProperty(o.st, o.result.value.ref, name)
    else Evaluated(o.st, Err(TypeError(NoProperties)))
  }

  /** `visitSetExpr`. */
  function EvalSet(host: Host, st: State, obj: Expr, name: string, rhs: Expr): (r: Evaluated)
    ensures OnlyHeapChanged(st, r.st)
    decreases Set(obj, name, rhs), 0
  {
    var o := Eval(host, st, obj);
    if o.result.Err? then o
    else if !o.result.value.Instance? then Evaluated(o.st, Err(TypeError(NoFields)))
    else
      var v := Eval(host, o.st, rhs);
      if v.result.Err? then v else SetProperty(v.st, o.result.value.ref, name, v.result.value)
  }

  /** The arguments of a call, left to right, stopping at the first error. */
  function EvalArgs(host: Host, st: State, args: seq<Expr>): (r: EvaluatedArgs)
    ensures OnlyHeapChanged(st, r.st)
    ensures r.result.Ok? ==> |r.result.value| == |args|
    decreases args, 0
  {
    if |args| == 0 then EvaluatedArgs(st, Ok([]))
    else
      var first := Eval(host, st, args[0]);
      if first.result.Err? then EvaluatedArgs(first.st, Err(first.result.error))
      else
        var rest := EvalArgs(host, first.st, args[1..]);
        if rest.result.Err? then rest
        else EvaluatedArgs(rest.st, Ok([first.result.value] + rest.result.value))
  }

  //////////////////////////////////////////////////////////////////////////
  // Properties of evaluation

  /** `or` yields a truthy left operand and `and` a falsy one without
      evaluating the right operand; otherwise the result is the right
      operand's, evaluated in the state the left one left behind. */
  lemma LogicalShortCircuit(host: Host, st: State, op: LogicalOp, left: Expr, right: Expr)
    ensures var l := Eval(host, st, left);
      var r := Eval(host, st, Logical(op, left, right));
      && (l.result.Err? ==> r == l)
      && (l.result.Ok? && (op == Or <==> IsTruthy(l.result.value)) ==> r == l)
      && (l.result.Ok? && (op == Or <==> !IsTruthy(l.result.value)) ==> r == Eval(host, l.st, right))
  {
  }

  /** A logical expression yields one of its operands' values, never a
      converted boolean. */
  lemma LogicalYieldsAnOperand(host: Host, st: State, op: LogicalOp, left: Expr, right: Expr)
    requires Eval(host, st, Logical(op, left, right)).result.Ok?
    ensures var v := Eval(host, st, Logical(op, left, right)).result.value;
      var l := Eval(host, st, left);
      (l.result.Ok? && v == l.result.value) || (Eval(host, l.st, right).result.Ok? && v == Eval(host, l.st, right).result.value)
  {
  }

  /** Binary operators evaluate the left operand, then the right one in the
      state the left left behind, then apply the operator; an error in the
      left operand means the right one is never evaluated. */
  lemma BinaryLeftToRight(host: Host, st: State, op: BinaryOp, left: Expr, right: Expr)
    ensures var l := Eval(host, st, left);
      var r := Eval(host, l.st, right);
      var b := Eval(host, st, Binary(op, left, right));
      && (l.result.Err? ==> b == l)
      && (l.result.Ok? && r.result.Err? ==> b == r)
      && (l.result.Ok? && r.result.Ok? ==> b == Evaluated(r.st, ApplyBinary(host, op, l.result.value, r.result.value)))
  {
  }

  /** A call evaluates the callee and then every argument before any check:
      an argument's error wins even over a callee that is not callable, and
      the checks see the state after the last argument. */
  lemma CallEvaluatesAllFirst(host: Host, st: State, callee: Expr, args: seq<Expr>)
    ensures var c := Eval(host, st, callee);
      var a := EvalArgs(host, c.st, args);
      var r := Eval(host, st, Call(callee, args));
      && (c.result.Err? ==> r == c)
      && (c.result.Ok? && a.result.Err? ==> r == Evaluated(a.st, Err(a.result.error)))
      && (c.result.Ok? && a.result.Ok? && SignatureOf(c.result.value).None? ==>
            r == Evaluated(a.st, Err(TypeError(NotCallable))))
  {
  }

  /** Arguments are evaluated left to right: the values of a list extended
      by one expression are those of the list followed by that expression's,
      evaluated in the state the list left behind. */
  lemma {:induction false} EvalArgsSnoc(host: Host, st: State, args: seq<Expr>, last: Expr)
    ensures var a := EvalArgs(host, st, args);
      var l := Eval(host, a.st, last);
      var all := EvalArgs(host, st, args + [last]);
      && (a.result.Err? ==> all == a)
      && (a.result.Ok? && l.result.Err? ==> all == EvaluatedArgs(l.st, Err(l.result.error)))
      && (a.result.Ok? && l.result.Ok? ==> all == EvaluatedArgs(l.st, Ok(a.result.value + [l.result.value])))
    decreases |args|
  {
    if |args| == 0 {
      assert args + [last] == [last];
      assert ([last])[1..] == [];
      var l := Eval(host, st, last);
      if l.result.Ok? {
        assert [l.result.value] + [] == [] + [l.result.value];
      }
    } else {
      assert (args + [last])[0] == args[0];
      assert (args + [last])[1..] == args[1..] + [last];
      var first := Eval(host, st, args[0]);
      if first.result.Ok? {
        EvalArgsSnoc(host, first.st, args[1..], last);
        var rest := EvalArgs(host, first.st, args[1..]);
        if rest.result.Ok? {
          var l := Eval(host, rest.st, last);
          if l.result.Ok? {
            assert [first.result.value] + (rest.result.value + [l.result.value])
                == ([first.result.value] + rest.result.value) + [l.result.value];
          }
        }
      }
    }
  }

  /** An argument that fails stops the evaluation of the rest. */
  lemma {:induction false} EvalArgsStopsAtError(host: Host, st: State, args: seq<Expr>, rest: seq<Expr>)
    requires EvalArgs(host, st, args).result.Err?
    ensures EvalArgs(host, st, args + rest) == EvalArgs(host, st, args)
    decreases |args|
  {
    assert (args + rest)[0] == args[0];
    assert (args + rest)[1..] == args[1..] + rest;
    var first := Eval(host, st, args[0]);
    if first.result.Ok? {
      EvalArgsStopsAtError(host, first.st, args[1..], rest);
    }
  }

  /** An assignment evaluates its value first and yields that value. */
  lemma AssignYieldsItsValue(host: Host, st: State, id: ExprId, name: string, rhs: Expr)
    ensures var v := Eval(host, st, rhs);
      var a := Eval(host, st, Assign(id, name, rhs));
      && (v.result.Err? ==> a == v)
      && (a.result.Ok? ==> a.result == v.result)
      && (a.result.Err? ==> a.st == v.st)
  {
  }

  /** What an assignment writes, a read of the same name resolved to the
      same place reads back: by the same distance when the resolver recorded
      one for both, and in the globals when it recorded neither. */
  lemma AssignThenRead(host: Host, st: State, id: ExprId, readId: ExprId, name: string, rhs: Expr)
    requires (id in st.locals && readId in st.locals && st.locals[id] == st.locals[readId])
          || (id !in st.locals && readId !in st.locals)
    requires Eval(host, st, Assign(id, name, rhs)).result.Ok?
    ensures var a := Eval(host, st, Assign(id, name, rhs));
      Eval(host, a.st, Variable(readId, name)).result == a.result
  {
    var v := Eval(host, st, rhs);
    var s := v.st;
    if id in st.locals {
      ReadAfterAssignAt(s.frames, s.environment, s.locals[id], name, name, v.result.value);
    } else {
      LookupAfterAssignChain(s.frames, s.globals, name, v.result.value);
    }
  }

  /** Assigning to a name bound nowhere fails with UndefinedVariable and
      leaves every binding as the value expression left it. */
  lemma AssignUndeclaredFails(host: Host, st: State, id: ExprId, name: string, rhs: Expr)
    requires id !in st.locals
    requires Eval(host, st, rhs).result.Ok?
    requires Lookup(Eval(host, st, rhs).st.frames, st.globals, name) == Err(UndefinedVariable(name))
    ensures Eval(host, st, Assign(id, name, rhs)) == Evaluated(Eval(host, st, rhs).st, Err(UndefinedVariable(name)))
  {
  }

  /** The same, stated by where the name is bound: when no frame on the
      chain from the globals binds it, the assignment fails with
      UndefinedVariable. */
  lemma AssignToUnboundFails(host: Host, st: State, id: ExprId, name: string, rhs: Expr)
    requires id !in st.locals
    requires var v := Eval(host, st, rhs);
      v.result.Ok? && WellFormed(v.st.frames) && st.globals < |v.st.frames| &&
      !exists d: nat :: Binds(v.st.frames, st.globals, d, name)
    ensures Eval(host, st, Assign(id, name, rhs)) == Evaluated(Eval(host, st, rhs).st, Err(UndefinedVariable(name)))
  {
    var v := Eval(host, st, rhs);
    NearestIsClosestAncestor(v.st.frames, st.globals, name);
    AssignUndeclaredFails(host, st, id, name, rhs);
  }
}
