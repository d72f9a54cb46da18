/** The chain of environments as an arena of frames. A frame maps names to
    values and optionally names its enclosing frame by index; closures keep
    frame indices, so a frame outlives the block that created it. */
module Environments {
  import opened Base
  import opened Values

  datatype Frame = Frame(values: map<string, Value>, enclosing: Option<nat>)

  type Frames = seq<Frame>

  /** Every enclosing link points to a frame allocated earlier. The
      interpreter only ever links a new frame to an existing one. */
  ghost predicate WellFormed(frames: Frames) {
    forall k :: 0 <= k < |frames| && frames[k].enclosing.Some? ==> frames[k].enclosing.value < k
  }

  /** The two arenas agree on every enclosing link (values may differ). */
  ghost predicate SameLinks(a: Frames, b: Frames) {
    |a| == |b| && forall k :: 0 <= k < |a| ==> a[k].enclosing == b[k].enclosing
  }

  /** The frame `distance` enclosing links above frame `f`; a distance of
      zero or less is `f` itself. None when the chain is shorter. */
  function Ancestor(frames: Frames, f: nat, distance: int): (r: Option<nat>)
    ensures r.Some? ==> f < |frames| && r.value < |frames|
    decreases distance
  {
    if f >= |frames| then None
    else if distance <= 0 then Some(f)
    else match frames[f].enclosing
      case None => None
      case Some(p) => Ancestor(frames, p, distance - 1)
  }

  /** `getAt`: read `name` in exactly the frame `distance` hops up. */
  function GetAt(frames: Frames, f: nat, distance: int, name: string): (r: Result<Value>)
    ensures r.Ok? <==> Ancestor(frames, f, distance).Some? && name in frames[Ancestor(frames, f, distance).value].values
    ensures r.Ok? ==> r.value == frames[Ancestor(frames, f, distance).value].values[name]
    ensures r.Err? && Ancestor(frames, f, distance).Some? ==> r.error == UndefinedVariable(name)
  {
    match Ancestor(frames, f, distance)
    case None => Err(Fault("environment chain shorter than the resolved distance"))
    case Some(k) =>
      if name in frames[k].values then Ok(frames[k].values[name]) else Err(UndefinedVariable(name))
  }

  /** The nearest frame from `f` outwards that binds `name`, if any; the
      walk gives up on a dangling or backward link. */
  function Nearest(frames: Frames, f: nat, name: string): (r: Option<nat>)
    ensures r.Some? ==> r.value <= f && r.value < |frames| && name in frames[r.value].values
    decreases f
  {
    if f >= |frames| then None
    else if name in frames[f].values then Some(f)
    else match frames[f].enclosing
      case None => None
      case Some(p) => if p < f then Nearest(frames, p, name) else None
  }

  /** `get`: search frame `f`, then its enclosing frames, for `name`. In a
      well-formed arena the only failure is an unbound name. */
  function Lookup(frames: Frames, f: nat, name: string): (r: Result<Value>)
    ensures r.Ok? <==> Nearest(frames, f, name).Some?
    ensures r.Ok? ==> r.value == frames[Nearest(frames, f, name).value].values[name]
    ensures r.Err? && WellFormed(frames) && f < |frames| ==> r.error == UndefinedVariable(name)
    decreases f
  {
    if f >= |frames| then Err(Fault("dangling environment"))
    else if name in frames[f].values then Ok(frames[f].values[name])
    else match frames[f].enclosing
      case None => Err(UndefinedVariable(name))
      case Some(p) => if p < f then Lookup(frames, p, name) else Err(Fault("cyclic environment chain"))
  }

  /** Replace the binding of `name` in frame `k` (a helper of the writes below). */
  function Put(frames: Frames, k: nat, name: string, v: Value): (r: Frames)
    requires k < |frames|
    ensures SameLinks(frames, r)
    ensures |r| == |frames| && r[k].values == frames[k].values[name := v]
    ensures forall j :: 0 <= j < |frames| && j != k ==> r[j] == frames[j]
  {
    frames[k := frames[k].(values := frames[k].values[name := v])]
  }

  /** `define`: bind (or rebind) `name` in frame `f` itself. */
  function DefineIn(frames: Frames, f: nat, name: string, v: Value): (r: Result<Frames>)
    ensures r.Ok? <==> f < |frames|
    ensures r.Ok? ==> SameLinks(frames, r.value) && r.value[f].values == frames[f].values[name := v]
    ensures r.Ok? ==> forall j :: 0 <= j < |frames| && j != f ==> r.value[j] == frames[j]
  {
    if f < |frames| then Ok(Put(frames, f, name, v)) else Err(Fault("dangling environment"))
  }

  /** `importMod`: merge a table of bindings into frame `f`; later tables win. */
  function ImportInto(frames: Frames, f: nat, table: map<string, Value>): (r: Result<Frames>)
    ensures r.Ok? <==> f < |frames|
    ensures r.Ok? ==> SameLinks(frames, r.value) && r.value[f].values == frames[f].values + table
    ensures r.Ok? ==> forall j :: 0 <= j < |frames| && j != f ==> r.value[j] == frames[j]
  {
    if f < |frames| then Ok(frames[f := frames[f].(values := frames[f].values + table)])
    else Err(Fault("dangling environment"))
  }

  /** `assignAt`: overwrite `name` in exactly the frame `distance` hops up;
      the name must already be bound there. */
  function AssignAt(frames: Frames, f: nat, distance: int, name: string, v: Value): (r: Result<Frames>)
    ensures r.Ok? <==> GetAt(frames, f, distance, name).Ok?
    ensures r.Err? ==> r.error == GetAt(frames, f, distance, name).error
    ensures r.Ok? ==> SameLinks(frames, r.value)
    ensures r.Ok? ==> var k := Ancestor(frames, f, distance).value;
      r.value == Put(frames, k, name, v) &&
      r.value[k].values == frames[k].values[name := v] &&
      forall j :: 0 <= j < |frames| && j != k ==> r.value[j] == frames[j]
  {
    match Ancestor(frames, f, distance)
    case None => Err(Fault("environment chain shorter than the resolved distance"))
    case Some(k) =>
      if name in frames[k].values then Ok(Put(frames, k, name, v)) else Err(UndefinedVariable(name))
  }

  /** `assign`: overwrite `name` in the nearest frame from `f` outwards that
      binds it. */
  function AssignChain(frames: Frames, f: nat, name: string, v: Value): (r: Result<Frames>)
    ensures r.Ok? <==> Lookup(frames, f, name).Ok?
    ensures r.Err? ==> r.error == Lookup(frames, f, name).error
    ensures r.Ok? ==> SameLinks(frames, r.value)
    ensures r.Ok? ==> r.value == Put(frames, Nearest(frames, f, name).value, name, v)
    decreases f
  {
    if f >= |frames| then Err(Fault("dangling environment"))
    else if name in frames[f].values then Ok(Put(frames, f, name, v))
    else match frames[f].enclosing
      case None => Err(UndefinedVariable(name))
      case Some(p) => if p < f then AssignChain(frames, p, name, v) else Err(Fault("cyclic environment chain"))
  }

  /** `new Environment(enclosing)`: allocate a frame below `parent`. */
  function Push(frames: Frames, parent: nat, initial: map<string, Value>): (r: Frames)
    ensures |r| == |frames| + 1 && r[..|frames|] == frames
    ensures r[|frames|] == Frame(initial, Some(parent))
    ensures WellFormed(frames) && parent < |frames| ==> WellFormed(r)
  {
    frames + [Frame(initial, Some(parent))]
  }

  /** Arenas with the same links are equally well formed. */
  lemma SameLinksWellFormed(a: Frames, b: Frames)
    requires SameLinks(a, b) && WellFormed(a)
    ensures WellFormed(b)
  {
    forall k | 0 <= k < |b| && b[k].enclosing.Some?
      ensures b[k].enclosing.value < k
    {
      assert a[k].enclosing == b[k].enclosing;
    }
  }

  /** Resolving a distance depends only on the links, not on the bindings. */
  lemma {:induction false} AncestorDependsOnLinks(a: Frames, b: Frames, f: nat, distance: int)
    requires SameLinks(a, b)
    ensures Ancestor(a, f, distance) == Ancestor(b, f, distance)
    decreases distance
  {
    if f < |a| && distance > 0 && a[f].enclosing.Some? {
      assert b[f].enclosing == a[f].enclosing;
      AncestorDependsOnLinks(a, b, a[f].enclosing.value, distance - 1);
    }
  }

  /** An assignment at a distance is read back by a read at the same distance,
      and leaves that frame's other bindings as they were. */
  lemma ReadAfterAssignAt(frames: Frames, f: nat, distance: int, name: string, other: string, v: Value)
    requires AssignAt(frames, f, distance, name, v).Ok?
    ensures GetAt(AssignAt(frames, f, distance, name, v).value, f, distance, name) == Ok(v)
    ensures other != name ==>
      GetAt(AssignAt(frames, f, distance, name, v).value, f, distance, other) == GetAt(frames, f, distance, other)
  {
    AncestorDependsOnLinks(frames, AssignAt(frames, f, distance, name, v).value, f, distance);
  }

  /** Frames that do not bind `name` in the first `distance` hops above `f`. */
  ghost predicate Unshadowed(frames: Frames, f: nat, distance: nat, name: string) {
    forall h :: 0 <= h < distance ==>
      Ancestor(frames, f, h).Some? && name !in frames[Ancestor(frames, f, h).value].values
  }

  /** Resolving by distance and walking the chain by name agree: when no
      nearer frame binds `name`, the chain walk from `f` finds what `getAt`
      finds `distance` hops up. */
  lemma {:induction false} ResolvedLookupAgrees(frames: Frames, f: nat, distance: nat, name: string)
    requires WellFormed(frames)
    requires Unshadowed(frames, f, distance, name)
    requires GetAt(frames, f, distance, name).Ok?
    ensures Lookup(frames, f, name) == GetAt(frames, f, distance, name)
    decreases distance
  {
    if distance > 0 {
      assert Ancestor(frames, f, 0) == Some(f);
      var p := frames[f].enclosing.value;
      assert p < f;
      forall h | 0 <= h < distance - 1
        ensures Ancestor(frames, p, h).Some? && name !in frames[Ancestor(frames, p, h).value].values
      {
        assert Ancestor(frames, f, h + 1) == Ancestor(frames, p, h);
      }
      ResolvedLookupAgrees(frames, p, distance - 1, name);
    }
  }

  /** What `assign` writes, `get` from the same frame reads back. */
  lemma {:induction false} LookupAfterAssignChain(frames: Frames, f: nat, name: string, v: Value)
    requires AssignChain(frames, f, name, v).Ok?
    ensures Lookup(AssignChain(frames, f, name, v).value, f, name) == Ok(v)
    decreases f
  {
    if name !in frames[f].values {
      var p := frames[f].enclosing.value;
      LookupAfterAssignChain(frames, p, name, v);
      AssignChainKeepsFrame(frames, p, name, v, f);
    }
  }

  /** `assign` from frame `f` writes `f` or one of its ancestors, so it never
      touches a frame allocated after `f`. */
  lemma {:induction false} AssignChainKeepsFrame(frames: Frames, f: nat, name: string, v: Value, j: nat)
    requires AssignChain(frames, f, name, v).Ok?
    requires f < j < |frames|
    ensures AssignChain(frames, f, name, v).value[j] == frames[j]
    decreases f
  {
    if name !in frames[f].values {
      AssignChainKeepsFrame(frames, frames[f].enclosing.value, name, v, j);
    }
  }

  /** Frame `f`'s ancestor `distance` links up exists and binds `name`. */
  ghost predicate Binds(frames: Frames, f: nat, distance: nat, name: string) {
    Ancestor(frames, f, distance).Some? && name in frames[Ancestor(frames, f, distance).value].values
  }

  /** In a well-formed arena the chain walk finds a binder exactly when some
      ancestor binds the name, and the one it finds is the closest: no frame
      fewer links up binds it. */
  lemma {:induction false} NearestIsClosestAncestor(frames: Frames, f: nat, name: string)
    requires WellFormed(frames) && f < |frames|
    ensures Nearest(frames, f, name).Some? <==> exists d: nat :: Binds(frames, f, d, name)
    ensures Nearest(frames, f, name).Some? ==>
      exists d: nat :: Binds(frames, f, d, name) && Unshadowed(frames, f, d, name) &&
                       Ancestor(frames, f, d) == Nearest(frames, f, name)
    decreases f
  {
    assert Ancestor(frames, f, 0) == Some(f);
    if name in frames[f].values {
      assert Binds(frames, f, 0, name) && Unshadowed(frames, f, 0, name);
    } else if frames[f].enclosing.None? {
      forall d: nat
        ensures !Binds(frames, f, d, name)
      {
        if d > 0 {
          assert Ancestor(frames, f, d) == None;
        }
      }
    } else {
      var p := frames[f].enclosing.value;
      assert p < f;
      NearestIsClosestAncestor(frames, p, name);
      if Nearest(frames, p, name).Some? {
        var d: nat :| Binds(frames, p, d, name) && Unshadowed(frames, p, d, name) &&
                      Ancestor(frames, p, d) == Nearest(frames, p, name);
        assert Ancestor(frames, f, d + 1) == Ancestor(frames, p, d);
        assert Binds(frames, f, d + 1, name);
        forall h | 0 <= h < d + 1
          ensures Ancestor(frames, f, h).Some? && name !in frames[Ancestor(frames, f, h).value].values
        {
          if h > 0 {
            assert Ancestor(frames, f, h) == Ancestor(frames, p, h - 1);
          }
        }
        assert Unshadowed(frames, f, d + 1, name);
      } else {
        forall d: nat
          ensures !Binds(frames, f, d, name)
        {
          if d > 0 {
            assert Ancestor(frames, f, d) == Ancestor(frames, p, d - 1);
            assert !Binds(frames, p, d - 1, name);
          }
        }
      }
    }
  }
}
