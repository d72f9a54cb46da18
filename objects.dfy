/** Classes, instances and methods as the evaluator relies on them: method
    lookup up the superclass chain, binding a method to a receiver, the
    arity a callee declares, and the method tables a class declaration builds. */
module Objects {
  import opened Base
  import opened Syntax
  import opened Values
  import opened Environments

  /** An object: the class it was made from and its field table. */
  datatype InstanceObj = InstanceObj(klass: ClassObj, fields: map<string, Value>)

  /** The class and its ancestors, nearest first. */
  function Chain(c: ClassObj): (r: seq<ClassObj>)
    ensures |r| > 0 && r[0] == c
    decreases c
  {
    match c.superclass
    case None => [c]
    case Some(sc) => [c] + Chain(sc)
  }

  /** `findMethod`: the method of the nearest class on the chain that has one
      by that name. */
  function FindMethod(c: ClassObj, name: string): (r: Option<Closure>)
    ensures r.Some? <==> exists i :: 0 <= i < |Chain(c)| && name in Chain(c)[i].methods
    ensures name in c.methods ==> r == Some(c.methods[name])
    decreases c
  {
    if name in c.methods then
      assert Chain(c)[0] == c;
      Some(c.methods[name])
    else match c.superclass
      case None => None
      case Some(sc) =>
        var r := FindMethod(sc, name);
        assert Chain(c) == [c] + Chain(sc);
        assert forall i :: 0 <= i < |Chain(sc)| ==> Chain(c)[i + 1] == Chain(sc)[i];
        r
  }

  /** A class that does not define a method inherits its superclass's. */
  lemma InheritedDispatch(c: ClassObj, sc: ClassObj, name: string)
    requires c.superclass == Some(sc) && name !in c.methods
    ensures FindMethod(c, name) == FindMethod(sc, name)
  {
  }

  /** The result of binding a method: the grown arena and the bound method. */
  datatype Bound = Bound(frames: Frames, bound: Closure)

  /** `bind`: a fresh frame, enclosed by the method's closure, binding `self`
      to the receiver; the bound method closes over that frame. */
  function Bind(frames: Frames, m: Closure, receiver: Value): (r: Bound)
    ensures |r.frames| == |frames| + 1 && r.frames[..|frames|] == frames
    ensures Lookup(r.frames, r.bound.env, "self") == Ok(receiver)
    ensures r.bound.decl == m.decl && r.bound.isInitializer == m.isInitializer
    ensures r.frames[r.bound.env].enclosing == Some(m.env)
    ensures WellFormed(frames) && m.env < |frames| ==> WellFormed(r.frames)
  {
    Bound(Push(frames, m.env, map["self" := receiver]), m.(env := |frames|))
  }

  /** What a callee declares about its arguments. */
  datatype Signature = Signature(arity: nat, variadic: bool)

  /** `instanceof HclCallable` with `arity()` and `isVaArg()`: user functions
      take their parameters, natives declare theirs, and a class takes the
      arguments of its initializer (none without one). */
  function SignatureOf(v: Value): (r: Option<Signature>)
    ensures r.Some? <==> v.Callable? || v.Class?
    ensures v.Callable? && v.routine.UserFunction? ==> r == Some(Signature(|v.routine.fn.decl.params|, false))
    ensures v.Callable? && v.routine.Native? ==> r == Some(Signature(v.routine.arity, v.routine.variadic))
    ensures v.Class? && FindMethod(v.cls, "_init").None? ==> r == Some(Signature(0, false))
    ensures v.Class? && FindMethod(v.cls, "_init").Some? ==>
      r == Some(Signature(|FindMethod(v.cls, "_init").value.decl.params|, false))
  {
    match v
    case Callable(UserFunction(fn)) => Some(Signature(|fn.decl.params|, false))
    case Callable(Native(_, arity, variadic)) => Some(Signature(arity, variadic))
    case Class(c) =>
      (match FindMethod(c, "_init")
       case Some(init) => Some(Signature(|init.decl.params|, false))
       case None => Some(Signature(0, false)))
    case _ => None
  }

  /** The method table a class declaration builds from its declarations in
      order, each closing over `env`; a later declaration of a name replaces an
      earlier one. With `markInit`, exactly the method named `_init` is
      flagged as the initializer. */
  function MethodTable(decls: seq<FunDecl>, env: nat, markInit: bool): (m: map<string, Closure>)
    ensures m.Keys == set i | 0 <= i < |decls| :: decls[i].name
    ensures forall n | n in m ::
      m[n].env == env && m[n].decl.name == n && m[n].decl in decls &&
      (m[n].isInitializer <==> markInit && n == "_init")
    decreases |decls|
  {
    if |decls| == 0 then map[]
    else
      var d := decls[|decls| - 1];
      var front := decls[..|decls| - 1];
      var m := MethodTable(front, env, markInit)[d.name := Closure(d, env, markInit && d.name == "_init")];
      assert decls == front + [d];
      m
  }

  /** Adding a declaration at the end puts it in the table. */
  lemma MethodTableSnoc(front: seq<FunDecl>, d: FunDecl, env: nat, markInit: bool)
    ensures MethodTable(front + [d], env, markInit) ==
      MethodTable(front, env, markInit)[d.name := Closure(d, env, markInit && d.name == "_init")]
  {
    assert (front + [d])[..|front|] == front;
  }

  /** The last declaration of a name is the one the table keeps. */
  lemma {:induction false} MethodTableLastWins(before: seq<FunDecl>, d: FunDecl, after: seq<FunDecl>, env: nat, markInit: bool)
    requires forall i :: 0 <= i < |after| ==> after[i].name != d.name
    ensures d.name in MethodTable(before + [d] + after, env, markInit)
    ensures MethodTable(before + [d] + after, env, markInit)[d.name].decl == d
    decreases |after|
  {
    if |after| == 0 {
      assert before + [d] + after == before + [d];
      MethodTableSnoc(before, d, env, markInit);
    } else {
      var front := after[..|after| - 1];
      var last := after[|after| - 1];
      assert before + [d] + after == (before + [d] + front) + [last];
      MethodTableLastWins(before, d, front, env, markInit);
      MethodTableSnoc(before + [d] + front, last, env, markInit);
    }
  }
}
