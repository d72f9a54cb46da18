/** The arena invariant: every environment link points to an older frame,
    the current environment and the globals exist, and every closure, class
    and instance reference stored anywhere in the state points into the
    arenas. Evaluation and execution keep it, given a host whose `call`
    does. In such a state a chain walk never meets a dangling or cyclic
    link, and an instance reference never dangles. */
module Invariants {
  import opened Base
  import opened Syntax
  import opened Values
  import opened Environments
  import opened Objects
  import opened Runtime
  import opened Operators
  import opened Evaluator
  import opened Execution

  /** Every method of the class, its metaclass and its superclasses closes
      over one of the first `nf` frames. */
  ghost predicate ClassInArena(c: ClassObj, nf: nat)
    decreases c
  {
    && (forall x | x in c.methods :: c.methods[x].env < nf)
    && (c.metaclass.Some? ==> ClassInArena(c.metaclass.value, nf))
    && (c.superclass.Some? ==> ClassInArena(c.superclass.value, nf))
  }

  ghost predicate ValueInArena(v: Value, nf: nat, ni: nat) {
    match v
    case Callable(routine) => routine.UserFunction? ==> routine.fn.env < nf
    case Class(c) => ClassInArena(c, nf)
    case Instance(ref) => ref < ni
    case _ => true
  }

  ghost predicate TableInArena(t: map<string, Value>, nf: nat, ni: nat) {
    forall x | x in t :: ValueInArena(t[x], nf, ni)
  }

  ghost predicate ValuesInArena(vs: seq<Value>, nf: nat, ni: nat) {
    forall i | 0 <= i < |vs| :: ValueInArena(vs[i], nf, ni)
  }

  /** The bindings of frame `k`, when there is one, lie within the arenas. */
  ghost predicate FrameInArena(frames: Frames, k: int, nf: nat, ni: nat) {
    0 <= k < |frames| ==> TableInArena(frames[k].values, nf, ni)
  }

  /** The class and the fields of an object lie within the arenas. */
  ghost predicate ObjectInArena(obj: InstanceObj, nf: nat, ni: nat) {
    ClassInArena(obj.klass, nf) && TableInArena(obj.fields, nf, ni)
  }

  /** The class and the fields of instance `i`, when there is one, lie
      within the arenas. */
  ghost predicate InstanceInArena(instances: seq<InstanceObj>, i: int, nf: nat, ni: nat) {
    0 <= i < |instances| ==> ClassInArena(instances[i].klass, nf) && TableInArena(instances[i].fields, nf, ni)
  }

  /** Everything the state stores lies within arenas of `nf` frames and
      `ni` instances. */
  ghost predicate ContentsInArena(st: State, nf: nat, ni: nat) {
    && (forall k :: FrameInArena(st.frames, k, nf, ni))
    && (forall i :: InstanceInArena(st.instances, i, nf, ni))
    && (forall x | x in st.natImport && st.natImport[x].Some? :: TableInArena(st.natImport[x].value, nf, ni))
    && (forall x | x in st.modImport && st.modImport[x].Some? :: ObjectInArena(st.modImport[x].value, nf, ni))
  }

  ghost predicate ValidState(st: State) {
    && WellFormed(st.frames)
    && st.environment < |st.frames| && st.globals < |st.frames|
    && ContentsInArena(st, |st.frames|, |st.instances|)
  }

  /** `after` extends `before`'s arenas: no frame or instance goes away and
      every existing frame keeps its enclosing link. */
  ghost predicate Grows(before: State, after: State) {
    && |before.frames| <= |after.frames| && |before.instances| <= |after.instances|
    && forall k | 0 <= k < |before.frames| :: after.frames[k].enclosing == before.frames[k].enclosing
  }

  /** An evaluation from `st` that keeps the invariant, only grows the
      arenas and yields a value within them. */
  ghost predicate EvalKeeps(st: State, r: Evaluated) {
    && ValidState(r.st) && Grows(st, r.st)
    && (r.result.Ok? ==> ValueInArena(r.result.value, |r.st.frames|, |r.st.instances|))
  }

  /** A call of `callee` on `args` from a valid state with both in the
      arenas returns what `EvalKeeps` asks of an expression. */
  ghost predicate CallKeeps(host: Host, st: State, callee: Value, args: seq<Value>) {
    ValidState(st) && ValueInArena(callee, |st.frames|, |st.instances|) &&
    ValuesInArena(args, |st.frames|, |st.instances|) ==>
    var c := host.call(st, callee, args);
    EvalKeeps(st, Evaluated(st.(frames := c.st.frames, instances := c.st.instances), c.result))
  }

  /** The collaborators keep the invariant: the prelude and the standard
      modules hold values fit for the initial single-frame arena, and every
      call does what `CallKeeps` says. */
  ghost predicate ValidHost(host: Host) {
    && TableInArena(host.prelude, 1, 0)
    && (host.structures.Some? ==> TableInArena(host.structures.value, 1, 0))
    && (host.math.Some? ==> ObjectInArena(host.math.value, 1, 0))
    && forall st: State, callee: Value, args: seq<Value> :: CallKeeps(host, st, callee, args)
  }

  //////////////////////////////////////////////////////////////////////////
  // Growing the arenas keeps references valid

  lemma ClassInArenaGrows(c: ClassObj, nf: nat, nf': nat)
    requires ClassInArena(c, nf) && nf <= nf'
    ensures ClassInArena(c, nf')
    decreases c
  {
    if c.metaclass.Some? {
      ClassInArenaGrows(c.metaclass.value, nf, nf');
    }
    if c.superclass.Some? {
      ClassInArenaGrows(c.superclass.value, nf, nf');
    }
  }

  lemma ValueInArenaGrows(v: Value, nf: nat, ni: nat, nf': nat, ni': nat)
    requires ValueInArena(v, nf, ni) && nf <= nf' && ni <= ni'
    ensures ValueInArena(v, nf', ni')
  {
    if v.Class? {
      ClassInArenaGrows(v.cls, nf, nf');
    }
  }

  lemma TableInArenaGrows(t: map<string, Value>, nf: nat, ni: nat, nf': nat, ni': nat)
    requires TableInArena(t, nf, ni) && nf <= nf' && ni <= ni'
    ensures TableInArena(t, nf', ni')
  {
    forall x | x in t
      ensures ValueInArena(t[x], nf', ni')
    {
      ValueInArenaGrows(t[x], nf, ni, nf', ni');
    }
  }

  lemma ContentsGrow(st: State, nf: nat, ni: nat, nf': nat, ni': nat)
    requires ContentsInArena(st, nf, ni) && nf <= nf' && ni <= ni'
    ensures ContentsInArena(st, nf', ni')
  {
    forall k
      ensures FrameInArena(st.frames, k, nf', ni')
    {
      if 0 <= k < |st.frames| {
        assert FrameInArena(st.frames, k, nf, ni);
        TableInArenaGrows(st.frames[k].values, nf, ni, nf', ni');
      }
    }
    forall i
      ensures InstanceInArena(st.instances, i, nf', ni')
    {
      if 0 <= i < |st.instances| {
        assert InstanceInArena(st.instances, i, nf, ni);
        ClassInArenaGrows(st.instances[i].klass, nf, nf');
        TableInArenaGrows(st.instances[i].fields, nf, ni, nf', ni');
      }
    }
    forall x | x in st.natImport && st.natImport[x].Some?
      ensures TableInArena(st.natImport[x].value, nf', ni')
    {
      TableInArenaGrows(st.natImport[x].value, nf, ni, nf', ni');
    }
    forall x | x in st.modImport && st.modImport[x].Some?
      ensures ObjectInArena(st.modImport[x].value, nf', ni')
    {
      ClassInArenaGrows(st.modImport[x].value.klass, nf, nf');
      TableInArenaGrows(st.modImport[x].value.fields, nf, ni, nf', ni');
    }
  }

  /** A value within the arenas of `a` stays within them in any state that
      grows from `a`. */
  lemma ValueStays(v: Value, a: State, b: State)
    requires ValueInArena(v, |a.frames|, |a.instances|) && Grows(a, b)
    ensures ValueInArena(v, |b.frames|, |b.instances|)
  {
    ValueInArenaGrows(v, |a.frames|, |a.instances|, |b.frames|, |b.instances|);
  }

  lemma GrowsTransitive(a: State, b: State, c: State)
    requires Grows(a, b) && Grows(b, c)
    ensures Grows(a, c)
  {
  }

  /** The method found on a class lies within any arena the class does. */
  lemma FindMethodInArena(c: ClassObj, name: string, nf: nat)
    requires ClassInArena(c, nf) && FindMethod(c, name).Some?
    ensures FindMethod(c, name).value.env < nf
    decreases c
  {
    if name !in c.methods {
      FindMethodInArena(c.superclass.value, name, nf);
    }
  }

  //////////////////////////////////////////////////////////////////////////
  // The elementary updates keep the invariant

  lemma PutKeepsValid(st: State, k: nat, name: string, v: Value)
    requires ValidState(st) && k < |st.frames| && ValueInArena(v, |st.frames|, |st.instances|)
    ensures var s := st.(frames := Put(st.frames, k, name, v)); ValidState(s) && Grows(st, s)
  {
    var fs := Put(st.frames, k, name, v);
    SameLinksWellFormed(st.frames, fs);
    var ni := |st.instances|;
    forall j
      ensures FrameInArena(fs, j, |fs|, ni)
    {
      assert FrameInArena(st.frames, j, |fs|, ni);
      if j == k {
        forall x | x in fs[j].values
          ensures ValueInArena(fs[j].values[x], |fs|, ni)
        {
          if x != name {
            assert fs[j].values[x] == st.frames[k].values[x];
          }
        }
      }
    }
  }

  lemma PushKeepsValid(st: State, parent: nat, initial: map<string, Value>)
    requires ValidState(st) && parent < |st.frames|
    requires TableInArena(initial, |st.frames| + 1, |st.instances|)
    ensures var s := st.(frames := Push(st.frames, parent, initial)); ValidState(s) && Grows(st, s)
  {
    var n := |st.frames|;
    var s := st.(frames := Push(st.frames, parent, initial));
    ContentsGrow(st, n, |st.instances|, n + 1, |st.instances|);
    assert |s.frames| == n + 1;
    forall j
      ensures FrameInArena(s.frames, j, |s.frames|, |st.instances|)
    {
      if 0 <= j < n {
        assert FrameInArena(st.frames, j, |s.frames|, |st.instances|);
        assert s.frames[j] == s.frames[..n][j] == st.frames[j];
      }
    }
    forall j | 0 <= j < n
      ensures s.frames[j].enclosing == st.frames[j].enclosing
    {
      assert s.frames[j] == s.frames[..n][j];
    }
  }

  lemma ImportIntoKeepsValid(st: State, f: nat, table: map<string, Value>)
    requires ValidState(st) && f < |st.frames| && TableInArena(table, |st.frames|, |st.instances|)
    ensures var s := st.(frames := ImportInto(st.frames, f, table).value); ValidState(s) && Grows(st, s)
  {
    var fs := ImportInto(st.frames, f, table).value;
    SameLinksWellFormed(st.frames, fs);
    var ni := |st.instances|;
    forall j
      ensures FrameInArena(fs, j, |fs|, ni)
    {
      assert FrameInArena(st.frames, j, |fs|, ni);
      if j == f {
        forall x | x in fs[j].values
          ensures ValueInArena(fs[j].values[x], |fs|, ni)
        {
          if x !in table {
            assert fs[j].values[x] == st.frames[f].values[x];
          }
        }
      }
    }
  }

  /** A binding found in a valid state lies within its arenas. */
  lemma BindingInArena(st: State, k: nat, name: string)
    requires ValidState(st) && k < |st.frames| && name in st.frames[k].values
    ensures ValueInArena(st.frames[k].values[name], |st.frames|, |st.instances|)
  {
    assert FrameInArena(st.frames, k, |st.frames|, |st.instances|);
  }

  lemma DefineKeepsValid(st: State, name: string, v: Value)
    requires ValidState(st) && ValueInArena(v, |st.frames|, |st.instances|)
    ensures ValidState(Define(st, name, v).st) && Grows(st, Define(st, name, v).st)
  {
    PutKeepsValid(st, st.environment, name, v);
  }

  //////////////////////////////////////////////////////////////////////////
  // Expressions

  lemma LookUpVariableInArena(st: State, id: ExprId, name: string)
    requires ValidState(st) && LookUpVariable(st, id, name).Ok?
    ensures ValueInArena(LookUpVariable(st, id, name).value, |st.frames|, |st.instances|)
  {
    if id in st.locals {
      BindingInArena(st, Ancestor(st.frames, st.environment, st.locals[id]).value, name);
    } else {
      BindingInArena(st, Nearest(st.frames, st.globals, name).value, name);
    }
  }

  lemma AssignValueKeepsValid(st: State, id: ExprId, name: string, v: Value)
    requires ValidState(st) && ValueInArena(v, |st.frames|, |st.instances|)
    ensures EvalKeeps(st, AssignValue(st, id, name, v))
  {
    var r := AssignValue(st, id, name, v);
    if r.result.Ok? {
      var k := if id in st.locals then Ancestor(st.frames, st.environment, st.locals[id])
               else Nearest(st.frames, st.globals, name);
      PutKeepsValid(st, k.value, name, v);
    }
  }

  lemma CallValueKeepsValid(host: Host, st: State, callee: Value, args: seq<Value>)
    requires ValidHost(host) && ValidState(st)
    requires ValueInArena(callee, |st.frames|, |st.instances|) && ValuesInArena(args, |st.frames|, |st.instances|)
    ensures EvalKeeps(st, CallValue(host, st, callee, args))
  {
    assert CallKeeps(host, st, callee, args);
  }

  /** A method bound in a valid state to a receiver within the arenas. */
  lemma BindKeepsValid(st: State, m: Closure, receiver: Value)
    requires ValidState(st) && m.env < |st.frames| && ValueInArena(receiver, |st.frames|, |st.instances|)
    ensures var b := Bind(st.frames, m, receiver);
      EvalKeeps(st, Evaluated(st.(frames := b.frames), Ok(Callable(UserFunction(b.bound)))))
  {
    ValueInArenaGrows(receiver, |st.frames|, |st.instances|, |st.frames| + 1, |st.instances|);
    PushKeepsValid(st, m.env, map["self" := receiver]);
  }

  lemma GetPropertyKeepsValid(st: State, ref: nat, name: string)
    requires ValidState(st) && ref < |st.instances|
    ensures EvalKeeps(st, GetProperty(st, ref, name))
  {
    var obj := st.instances[ref];
    assert InstanceInArena(st.instances, ref, |st.frames|, |st.instances|);
    if name in obj.fields {
      assert TableInArena(obj.fields, |st.frames|, |st.instances|);
    } else if FindMethod(obj.klass, name).Some? {
      FindMethodInArena(obj.klass, name, |st.frames|);
      BindKeepsValid(st, FindMethod(obj.klass, name).value, Instance(ref));
    }
  }

  lemma SetPropertyKeepsValid(st: State, ref: nat, name: string, v: Value)
    requires ValidState(st) && ref < |st.instances| && ValueInArena(v, |st.frames|, |st.instances|)
    ensures EvalKeeps(st, SetProperty(st, ref, name, v))
  {
    var r := SetProperty(st, ref, name, v);
    forall i
      ensures InstanceInArena(r.st.instances, i, |r.st.frames|, |r.st.instances|)
    {
      assert InstanceInArena(st.instances, i, |st.frames|, |st.instances|);
      if i == ref {
        forall x | x in r.st.instances[i].fields
          ensures ValueInArena(r.st.instances[i].fields[x], |r.st.frames|, |r.st.instances|)
        {
          if x != name {
            assert r.st.instances[i].fields[x] == st.instances[ref].fields[x];
          }
        }
      }
    }
  }

  /** What `super.m` can yield: nothing changed, or the method found on
      the superclass bound to the receiver. */
  ghost predicate SuperShape(st: State, id: ExprId, methodName: string, r: Evaluated) {
    && (r.result.Err? ==> r.st == st)
    && (r.result.Ok? ==>
          id in st.locals &&
          var sup := GetAt(st.frames, st.environment, st.locals[id], "super");
          var receiver := GetAt(st.frames, st.environment, st.locals[id] as int - 1, "self");
          sup.Ok? && sup.value.Class? && receiver.Ok? && FindMethod(sup.value.cls, methodName).Some? &&
          var b := Bind(st.frames, FindMethod(sup.value.cls, methodName).value, receiver.value);
          r == Evaluated(st.(frames := b.frames), Ok(Callable(UserFunction(b.bound)))))
  }

  lemma SuperMethodShape(st: State, id: ExprId, methodName: string)
    ensures SuperShape(st, id, methodName, SuperMethod(st, id, methodName))
  {
  }

  lemma SuperShapeKeepsValid(st: State, id: ExprId, methodName: string, r: Evaluated)
    requires ValidState(st) && SuperShape(st, id, methodName, r)
    ensures EvalKeeps(st, r)
  {
    if r.result.Ok? {
      var distance := st.locals[id];
      var sup := GetAt(st.frames, st.environment, distance, "super");
      var receiver := GetAt(st.frames, st.environment, distance as int - 1, "self");
      GetAtInArena(st, distance, "super");
      GetAtInArena(st, distance as int - 1, "self");
      var b := Bind(st.frames, FindMethod(sup.value.cls, methodName).value, receiver.value);
      assert r == Evaluated(st.(frames := b.frames), Ok(Callable(UserFunction(b.bound))));
      BoundMethodKeepsValid(st, sup.value.cls, methodName, receiver.value);
    }
  }

  /** What a read at a distance finds in a valid state lies within its arenas. */
  lemma GetAtInArena(st: State, distance: int, name: string)
    requires ValidState(st) && GetAt(st.frames, st.environment, distance, name).Ok?
    ensures ValueInArena(GetAt(st.frames, st.environment, distance, name).value, |st.frames|, |st.instances|)
  {
    BindingInArena(st, Ancestor(st.frames, st.environment, distance).value, name);
  }

  /** A method found on a class within the arenas, bound to a receiver
      within them. */
  lemma BoundMethodKeepsValid(st: State, c: ClassObj, methodName: string, receiver: Value)
    requires ValidState(st) && ClassInArena(c, |st.frames|) && FindMethod(c, methodName).Some?
    requires ValueInArena(receiver, |st.frames|, |st.instances|)
    ensures var b := Bind(st.frames, FindMethod(c, methodName).value, receiver);
      EvalKeeps(st, Evaluated(st.(frames := b.frames), Ok(Callable(UserFunction(b.bound)))))
  {
    FindMethodInArena(c, methodName, |st.frames|);
    BindKeepsValid(st, FindMethod(c, methodName).value, receiver);
  }

  lemma SuperMethodKeepsValid(st: State, id: ExprId, methodName: string)
    requires ValidState(st)
    ensures EvalKeeps(st, SuperMethod(st, id, methodName))
  {
    SuperMethodShape(st, id, methodName);
    SuperShapeKeepsValid(st, id, methodName, SuperMethod(st, id, methodName));
  }

  /** Evaluation keeps the invariant. */
  lemma {:induction false} EvalKeepsValid(host: Host, st: State, e: Expr)
    requires ValidHost(host) && ValidState(st)
    ensures EvalKeeps(st, Eval(host, st, e))
    decreases e, 1
  {
    match e
    case Literal(_) => ReadKeepsValid(host, st, e);
    case Grouping(inner) => EvalKeepsValid(host, st, inner);
    case Variable(_, _) => ReadKeepsValid(host, st, e);
    case SelfRef(_) => ReadKeepsValid(host, st, e);
    case Assign(id, name, rhs) => AssignKeepsValid(host, st, id, name, rhs);
    case Logical(op, left, right) => LogicalKeepsValid(host, st, op, left, right);
    case Unary(op, operand) => UnaryKeepsValid(host, st, op, operand);
    case Binary(op, left, right) => BinaryKeepsValid(host, st, op, left, right);
    case Call(callee, args) => CallKeepsValid(host, st, callee, args);
    case Get(obj, name) => GetKeepsValid(host, st, obj, name);
    case Set(obj, name, rhs) => SetKeepsValid(host, st, obj, name, rhs);
    case Super(id, methodName) => SuperMethodKeepsValid(st, id, methodName);
  }

  /** Literals and reads change nothing and yield a value within the arenas. */
  lemma ReadKeepsValid(host: Host, st: State, e: Expr)
    requires ValidState(st) && (e.Literal? || e.Variable? || e.SelfRef?)
    ensures EvalKeeps(st, Eval(host, st, e))
  {
    var r := Eval(host, st, e);
    if e.Literal? {
      assert r == Evaluated(st, Ok(FromLiteral(e.lit)));
    } else if e.Variable? {
      assert r == Evaluated(st, LookUpVariable(st, e.id, e.name));
      if r.result.Ok? {
        LookUpVariableInArena(st, e.id, e.name);
      }
    } else {
      assert r == Evaluated(st, LookUpVariable(st, e.id, "self"));
      if r.result.Ok? {
        LookUpVariableInArena(st, e.id, "self");
      }
    }
  }

  lemma {:induction false} AssignKeepsValid(host: Host, st: State, id: ExprId, name: string, rhs: Expr)
    requires ValidHost(host) && ValidState(st)
    ensures EvalKeeps(st, Eval(host, st, Assign(id, name, rhs)))
    decreases Assign(id, name, rhs), 0
  {
    EvalKeepsValid(host, st, rhs);
    var v := Eval(host, st, rhs);
    var r := EvalAssign(host, st, id, name, rhs);
    if v.result.Err? {
      assert r == v;
    } else {
      assert r == AssignValue(v.st, id, name, v.result.value);
      AssignValueKeepsValid(v.st, id, name, v.result.value);
      GrowsTransitive(st, v.st, r.st);
    }
  }

  lemma {:induction false} LogicalKeepsValid(host: Host, st: State, op: LogicalOp, left: Expr, right: Expr)
    requires ValidHost(host) && ValidState(st)
    ensures EvalKeeps(st, Eval(host, st, Logical(op, left, right)))
    decreases Logical(op, left, right), 0
  {
    EvalKeepsValid(host, st, left);
    var l := Eval(host, st, left);
    var r := EvalLogical(host, st, op, left, right);
    if l.result.Err? || (op == Or && IsTruthy(l.result.value)) || (op == And && !IsTruthy(l.result.value)) {
      assert r == l;
    } else {
      assert r == Eval(host, l.st, right);
      EvalKeepsValid(host, l.st, right);
      GrowsTransitive(st, l.st, r.st);
    }
  }

  lemma {:induction false} UnaryKeepsValid(host: Host, st: State, op: UnaryOp, operand: Expr)
    requires ValidHost(host) && ValidState(st)
    ensures EvalKeeps(st, Eval(host, st, Unary(op, operand)))
    decreases Unary(op, operand), 0
  {
    EvalKeepsValid(host, st, operand);
    var v := Eval(host, st, operand);
    var r := EvalUnary(host, st, op, operand);
    if v.result.Err? {
      assert r == v;
    } else {
      assert r == Evaluated(v.st, ApplyUnary(op, v.result.value));
    }
  }

  lemma {:induction false} BinaryKeepsValid(host: Host, st: State, op: BinaryOp, left: Expr, right: Expr)
    requires ValidHost(host) && ValidState(st)
    ensures EvalKeeps(st, Eval(host, st, Binary(op, left, right)))
    decreases Binary(op, left, right), 0
  {
    EvalKeepsValid(host, st, left);
    var l := Eval(host, st, left);
    var r := EvalBinary(host, st, op, left, right);
    if l.result.Err? {
      assert r == l;
    } else {
      EvalKeepsValid(host, l.st, right);
      var v := Eval(host, l.st, right);
      GrowsTransitive(st, l.st, v.st);
      if v.result.Err? {
        assert r == v;
      } else {
        assert r == Evaluated(v.st, ApplyBinary(host, op, l.result.value, v.result.value));
      }
    }
  }

  lemma {:induction false} CallKeepsValid(host: Host, st: State, callee: Expr, args: seq<Expr>)
    requires ValidHost(host) && ValidState(st)
    ensures EvalKeeps(st, Eval(host, st, Call(callee, args)))
    decreases Call(callee, args), 0
  {
    EvalKeepsValid(host, st, callee);
    var c := Eval(host, st, callee);
    var r := EvalCall(host, st, callee, args);
    if c.result.Err? {
      assert r == c;
    } else {
      EvalArgsKeepsValid(host, c.st, args);
      var a := EvalArgs(host, c.st, args);
      GrowsTransitive(st, c.st, a.st);
      if a.result.Err? {
        assert r == Evaluated(a.st, Err(a.result.error));
      } else {
        assert r == CallValue(host, a.st, c.result.value, a.result.value);
        ValueStays(c.result.value, c.st, a.st);
        CallValueKeepsValid(host, a.st, c.result.value, a.result.value);
        GrowsTransitive(st, a.st, r.st);
      }
    }
  }

  lemma {:induction false} GetKeepsValid(host: Host, st: State, obj: Expr, name: string)
    requires ValidHost(host) && ValidState(st)
    ensures EvalKeeps(st, Eval(host, st, Get(obj, name)))
    decreases Get(obj, name), 0
  {
    EvalKeepsValid(host, st, obj);
    var o := Eval(host, st, obj);
    var r := EvalGet(host, st, obj, name);
    if o.result.Err? {
      assert r == o;
    } else if o.result.value.Instance? {
      assert r == GetProperty(o.st, o.result.value.ref, name);
      GetPropertyKeepsValid(o.st, o.result.value.ref, name);
      GrowsTransitive(st, o.st, r.st);
    } else {
      assert r == Evaluated(o.st, Err(TypeError(NoProperties)));
    }
  }

  lemma {:induction false} SetKeepsValid(host: Host, st: State, obj: Expr, name: string, rhs: Expr)
    requires ValidHost(host) && ValidState(st)
    ensures EvalKeeps(st, Eval(host, st, Set(obj, name, rhs)))
    decreases Set(obj, name, rhs), 0
  {
    EvalKeepsValid(host, st, obj);
    var o := Eval(host, st, obj);
    var r := EvalSet(host, st, obj, name, rhs);
    if o.result.Err? {
      assert r == o;
    } else if !o.result.value.Instance? {
      assert r == Evaluated(o.st, Err(TypeError(NoFields)));
    } else {
      EvalKeepsValid(host, o.st, rhs);
      var v := Eval(host, o.st, rhs);
      GrowsTransitive(st, o.st, v.st);
      if v.result.Err? {
        assert r == v;
      } else {
        assert r == SetProperty(v.st, o.result.value.ref, name, v.result.value);
        SetPropertyKeepsValid(v.st, o.result.value.ref, name, v.result.value);
        GrowsTransitive(st, v.st, r.st);
      }
    }
  }

  lemma {:induction false} EvalArgsKeepsValid(host: Host, st: State, args: seq<Expr>)
    requires ValidHost(host) && ValidState(st)
    ensures var r := EvalArgs(host, st, args);
      ValidState(r.st) && Grows(st, r.st) &&
      (r.result.Ok? ==> ValuesInArena(r.result.value, |r.st.frames|, |r.st.instances|))
    decreases args, 0
  {
    var r := EvalArgs(host, st, args);
    if |args| == 0 {
      assert r == EvaluatedArgs(st, Ok([]));
    } else {
      EvalKeepsValid(host, st, args[0]);
      var first := Eval(host, st, args[0]);
      if first.result.Err? {
        assert r == EvaluatedArgs(first.st, Err(first.result.error));
      } else {
        EvalArgsKeepsValid(host, first.st, args[1..]);
        var rest := EvalArgs(host, first.st, args[1..]);
        GrowsTransitive(st, first.st, rest.st);
        if rest.result.Err? {
          assert r == rest;
        } else {
          assert r == EvaluatedArgs(rest.st, Ok([first.result.value] + rest.result.value));
          ValueStays(first.result.value, first.st, rest.st);
        }
      }
    }
  }

  /** In a valid state a read of a global never meets a broken chain: it
      finds the name or reports it undefined. */
  lemma GlobalReadsNeverFault(st: State, id: ExprId, name: string)
    requires ValidState(st) && id !in st.locals
    ensures LookUpVariable(st, id, name).Err? ==> LookUpVariable(st, id, name).error == UndefinedVariable(name)
  {
  }

  //////////////////////////////////////////////////////////////////////////
  // Statements

  lemma EvalOptionalKeepsValid(host: Host, st: State, e: Option<Expr>)
    requires ValidHost(host) && ValidState(st)
    ensures EvalKeeps(st, EvalOptional(host, st, e))
  {
    if e.Some? {
      EvalKeepsValid(host, st, e.value);
    }
  }

  /** The class a declaration builds lies within any arena that holds its
      closure frame and its superclass. */
  lemma BuildClassInArena(name: string, parent: Option<ClassObj>, methods: seq<FunDecl>,
                          classMethods: seq<FunDecl>, closure: nat, nf: nat)
    requires closure < nf && (parent.Some? ==> ClassInArena(parent.value, nf))
    ensures ClassInArena(BuildClass(name, parent, methods, classMethods, closure), nf)
  {
  }

  /** What a class declaration does once its superclass is evaluated to
      `parent`: nothing, or it binds the name to nil in the current
      environment, opens a `super` frame when there is a superclass, returns
      to the current environment and may reassign the name to the class
      through the chain. */
  ghost predicate ClassDeclShape(s1: State, name: string, parent: Option<ClassObj>,
                                 methods: seq<FunDecl>, classMethods: seq<FunDecl>, r: State) {
    || r == s1
    || (s1.environment < |s1.frames| &&
        var fs := Put(s1.frames, s1.environment, name, Nil);
        var s3 := if parent.Some? then s1.(frames := Push(fs, s1.environment, map["super" := Class(parent.value)]),
                                           environment := |fs|)
                  else s1.(frames := fs);
        var s4 := s3.(environment := s1.environment);
        var klass := BuildClass(name, parent, methods, classMethods, s3.environment);
        || r == s4
        || (Nearest(s4.frames, s4.environment, name).Some? &&
            r == s4.(frames := Put(s4.frames, Nearest(s4.frames, s4.environment, name).value, name, Class(klass)))))
  }

  lemma DeclareClassShape(host: Host, st: State, name: string, superclass: Option<Expr>,
                          methods: seq<FunDecl>, classMethods: seq<FunDecl>)
    ensures var sup := EvalOptional(host, st, superclass);
      var r := DeclareClass(host, st, name, superclass, methods, classMethods);
      || r.st == sup.st
      || (sup.result.Ok? && (superclass.Some? ==> sup.result.value.Class?) &&
          ClassDeclShape(sup.st, name, if superclass.Some? then Some(sup.result.value.cls) else None,
                         methods, classMethods, r.st))
  {
  }

  lemma ClassDeclKeepsValid(s1: State, name: string, parent: Option<ClassObj>,
                            methods: seq<FunDecl>, classMethods: seq<FunDecl>, r: State)
    requires ValidState(s1) && (parent.Some? ==> ClassInArena(parent.value, |s1.frames|))
    requires ClassDeclShape(s1, name, parent, methods, classMethods, r)
    ensures ValidState(r) && Grows(s1, r)
  {
    if r != s1 {
      var fs := Put(s1.frames, s1.environment, name, Nil);
      PutKeepsValid(s1, s1.environment, name, Nil);
      var s2 := s1.(frames := fs);
      var s3 := s2;
      if parent.Some? {
        ClassInArenaGrows(parent.value, |s1.frames|, |fs| + 1);
        PushKeepsValid(s2, s2.environment, map["super" := Class(parent.value)]);
        s3 := s2.(frames := Push(fs, s2.environment, map["super" := Class(parent.value)]), environment := |fs|);
        ClassInArenaGrows(parent.value, |s1.frames|, |s3.frames|);
      }
      var s4 := s3.(environment := s1.environment);
      assert ValidState(s4) && Grows(s1, s4);
      var klass := BuildClass(name, parent, methods, classMethods, s3.environment);
      BuildClassInArena(name, parent, methods, classMethods, s3.environment, |s3.frames|);
      if r != s4 {
        PutKeepsValid(s4, Nearest(s4.frames, s4.environment, name).value, name, Class(klass));
      }
    }
  }

  lemma DeclareClassKeepsValid(host: Host, st: State, name: string, superclass: Option<Expr>,
                               methods: seq<FunDecl>, classMethods: seq<FunDecl>)
    requires ValidHost(host) && ValidState(st)
    ensures var r := DeclareClass(host, st, name, superclass, methods, classMethods);
      ValidState(r.st) && Grows(st, r.st)
  {
    EvalOptionalKeepsValid(host, st, superclass);
    DeclareClassShape(host, st, name, superclass, methods, classMethods);
    var sup := EvalOptional(host, st, superclass);
    var r := DeclareClass(host, st, name, superclass, methods, classMethods);
    if r.st != sup.st {
      var parent := if superclass.Some? then Some(sup.result.value.cls) else None;
      ClassDeclKeepsValid(sup.st, name, parent, methods, classMethods, r.st);
      GrowsTransitive(st, sup.st, r.st);
    }
  }

  /** Allocating an object within the arenas keeps the invariant. */
  lemma AllocKeepsValid(st: State, obj: InstanceObj)
    requires ValidState(st) && ObjectInArena(obj, |st.frames|, |st.instances|)
    ensures var s := st.(instances := st.instances + [obj]); ValidState(s) && Grows(st, s)
  {
    var n := |st.instances|;
    var s := st.(instances := st.instances + [obj]);
    ContentsGrow(st, |st.frames|, n, |st.frames|, n + 1);
    forall i
      ensures InstanceInArena(s.instances, i, |s.frames|, |s.instances|)
    {
      if 0 <= i < n {
        assert InstanceInArena(st.instances, i, |s.frames|, n + 1);
        assert s.instances[i] == st.instances[i];
      } else if i == n {
        ClassInArenaGrows(obj.klass, |st.frames|, |st.frames|);
        TableInArenaGrows(obj.fields, |st.frames|, n, |st.frames|, n + 1);
      }
    }
  }

  lemma ImportStdKeepsValid(host: Host, s: State, name: string)
    requires ValidState(s)
    ensures var r := ImportStd(host, s, name); ValidState(r.st) && Grows(s, r.st)
  {
    if name in s.natImport && s.natImport[name].Some? {
      ImportIntoKeepsValid(s, s.globals, s.natImport[name].value);
    } else if name !in s.natImport && name in s.modImport && s.modImport[name].Some? {
      var s' := s.(instances := s.instances + [s.modImport[name].value]);
      AllocKeepsValid(s, s.modImport[name].value);
      PutKeepsValid(s', s.globals, name, Instance(|s.instances|));
      GrowsTransitive(s, s', s'.(frames := Put(s'.frames, s.globals, name, Instance(|s.instances|))));
    }
  }

  lemma ImportModuleKeepsValid(host: Host, st: State, m: Expr, isStd: bool)
    requires ValidHost(host) && ValidState(st)
    ensures var r := ImportModule(host, st, m, isStd); ValidState(r.st) && Grows(st, r.st)
  {
    EvalKeepsValid(host, st, m);
    var v := Eval(host, st, m);
    if v.result.Ok? && v.result.value.Str? {
      ImportStdKeepsValid(host, v.st, v.result.value.s);
    }
  }

  /** Execution keeps the invariant. */
  lemma {:induction false} ExecKeepsValid(host: Host, st: State, s: Stmt, fuel: nat)
    requires ValidHost(host) && ValidState(st)
    ensures ValidState(Exec(host, st, s, fuel).st) && Grows(st, Exec(host, st, s, fuel).st)
    decreases fuel, 1
  {
    if fuel == 0 {
      assert Exec(host, st, s, fuel) == Step(st, OutOfFuel);
    } else {
      match s
      case ExprStmt(_) => SimpleStmtKeepsValid(host, st, s, fuel);
      case PrintStmt(_) => SimpleStmtKeepsValid(host, st, s, fuel);
      case LetStmt(name, init) => LetKeepsValid(host, st, name, init, fuel);
      case BlockStmt(ss) => BlockStmtKeepsValid(host, st, ss, fuel);
      case IfStmt(c, thenBranch, elseBranch) => IfKeepsValid(host, st, c, thenBranch, elseBranch, fuel);
      case LoopStmt(body) => LoopKeepsValid(host, st, body, fuel - 1);
      case BreakStmt => SimpleStmtKeepsValid(host, st, s, fuel);
      case ReturnStmt(_) => SimpleStmtKeepsValid(host, st, s, fuel);
      case FunctionStmt(_) => SimpleStmtKeepsValid(host, st, s, fuel);
      case ClassStmt(name, superclass, methods, classMethods) =>
        DeclareClassKeepsValid(host, st, name, superclass, methods, classMethods);
      case ImportStmt(m, isStd) => ImportModuleKeepsValid(host, st, m, isStd);
    }
  }

  /** Statements that run no nested statement. */
  lemma SimpleStmtKeepsValid(host: Host, st: State, s: Stmt, fuel: nat)
    requires ValidHost(host) && ValidState(st) && fuel > 0
    requires s.ExprStmt? || s.PrintStmt? || s.BreakStmt? || s.ReturnStmt? || s.FunctionStmt?
    ensures var r := Exec(host, st, s, fuel); ValidState(r.st) && Grows(st, r.st)
  {
    var r := Exec(host, st, s, fuel);
    if s.ExprStmt? {
      EvalKeepsValid(host, st, s.expr);
      assert r.st == Eval(host, st, s.expr).st;
    } else if s.PrintStmt? {
      EvalKeepsValid(host, st, s.expr);
      var v := Eval(host, st, s.expr);
      if v.result.Err? {
        assert r.st == v.st;
      } else {
        assert r.st == v.st.(output := v.st.output + [host.stringify(v.result.value)]);
      }
    } else if s.BreakStmt? {
      assert r.st == st;
    } else if s.ReturnStmt? {
      EvalOptionalKeepsValid(host, st, s.value);
      assert r.st == EvalOptional(host, st, s.value).st;
    } else {
      var f := Callable(UserFunction(Closure(s.decl, st.environment, false)));
      assert r == Define(st, s.decl.name, f);
      DefineKeepsValid(st, s.decl.name, f);
    }
  }

  lemma LetKeepsValid(host: Host, st: State, name: string, init: Option<Expr>, fuel: nat)
    requires ValidHost(host) && ValidState(st) && fuel > 0
    ensures var r := Exec(host, st, LetStmt(name, init), fuel); ValidState(r.st) && Grows(st, r.st)
  {
    EvalOptionalKeepsValid(host, st, init);
    var v := EvalOptional(host, st, init);
    var r := Exec(host, st, LetStmt(name, init), fuel);
    if v.result.Err? {
      assert r.st == v.st;
    } else {
      assert r == Define(v.st, name, v.result.value);
      DefineKeepsValid(v.st, name, v.result.value);
      GrowsTransitive(st, v.st, r.st);
    }
  }

  lemma {:induction false} BlockStmtKeepsValid(host: Host, st: State, ss: seq<Stmt>, fuel: nat)
    requires ValidHost(host) && ValidState(st) && fuel > 0
    ensures var r := Exec(host, st, BlockStmt(ss), fuel); ValidState(r.st) && Grows(st, r.st)
    decreases fuel, 0
  {
    PushKeepsValid(st, st.environment, map[]);
    var st' := st.(frames := Push(st.frames, st.environment, map[]));
    BlockKeepsValid(host, st', ss, |st.frames|, fuel - 1);
    var r := Exec(host, st, BlockStmt(ss), fuel);
    assert r == ExecBlock(host, st', ss, |st.frames|, fuel - 1);
    GrowsTransitive(st, st', r.st);
  }

  lemma {:induction false} IfKeepsValid(host: Host, st: State, c: Expr, thenBranch: Stmt,
                                        elseBranch: Option<Stmt>, fuel: nat)
    requires ValidHost(host) && ValidState(st) && fuel > 0
    ensures var r := Exec(host, st, IfStmt(c, thenBranch, elseBranch), fuel); ValidState(r.st) && Grows(st, r.st)
    decreases fuel, 0
  {
    EvalKeepsValid(host, st, c);
    var v := Eval(host, st, c);
    var r := Exec(host, st, IfStmt(c, thenBranch, elseBranch), fuel);
    if v.result.Err? {
      assert r.st == v.st;
    } else if IsTruthy(v.result.value) {
      assert r == Exec(host, v.st, thenBranch, fuel - 1);
      ExecKeepsValid(host, v.st, thenBranch, fuel - 1);
      GrowsTransitive(st, v.st, r.st);
    } else if elseBranch.Some? {
      assert r == Exec(host, v.st, elseBranch.value, fuel - 1);
      ExecKeepsValid(host, v.st, elseBranch.value, fuel - 1);
      GrowsTransitive(st, v.st, r.st);
    } else {
      assert r.st == v.st;
    }
  }

  lemma {:induction false} ListKeepsValid(host: Host, st: State, ss: seq<Stmt>, fuel: nat)
    requires ValidHost(host) && ValidState(st)
    ensures ValidState(ExecList(host, st, ss, fuel).st) && Grows(st, ExecList(host, st, ss, fuel).st)
    decreases fuel, |ss| + 1
  {
    var r := ExecList(host, st, ss, fuel);
    if |ss| == 0 {
      assert r.st == st;
    } else {
      ExecKeepsValid(host, st, ss[0], fuel);
      var first := Exec(host, st, ss[0], fuel);
      if first.outcome.Normal? {
        assert r == ExecList(host, first.st, ss[1..], fuel);
        ListKeepsValid(host, first.st, ss[1..], fuel);
        GrowsTransitive(st, first.st, r.st);
      } else {
        assert r == first;
      }
    }
  }

  lemma {:induction false} BlockKeepsValid(host: Host, st: State, ss: seq<Stmt>, env: nat, fuel: nat)
    requires ValidHost(host) && ValidState(st) && env < |st.frames|
    ensures ValidState(ExecBlock(host, st, ss, env, fuel).st) && Grows(st, ExecBlock(host, st, ss, env, fuel).st)
    decreases fuel, |ss| + 2
  {
    var inner := ExecList(host, st.(environment := env), ss, fuel);
    ListKeepsValid(host, st.(environment := env), ss, fuel);
    assert ExecBlock(host, st, ss, env, fuel).st == inner.st.(environment := st.environment);
  }

  lemma {:induction false} LoopKeepsValid(host: Host, st: State, body: Stmt, fuel: nat)
    requires ValidHost(host) && ValidState(st)
    ensures ValidState(ExecLoop(host, st, body, fuel).st) && Grows(st, ExecLoop(host, st, body, fuel).st)
    decreases fuel, 2
  {
    var r := ExecLoop(host, st, body, fuel);
    if fuel == 0 {
      assert r.st == st;
    } else {
      ExecKeepsValid(host, st, body, fuel - 1);
      var b := Exec(host, st, body, fuel - 1);
      if b.outcome.Normal? {
        assert r == ExecLoop(host, b.st, body, fuel - 1);
        LoopKeepsValid(host, b.st, body, fuel - 1);
        GrowsTransitive(st, b.st, r.st);
      } else {
        assert r.st == b.st;
      }
    }
  }
}
