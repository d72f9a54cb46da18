# HCL evaluator in Dafny

A model of the tree-walking evaluator of the HCL scripting language: the
`Interpreter` class, which visits an already parsed and resolved syntax
tree. The model covers:

- variable reads and writes, by the distance the resolver recorded or in
  the globals when it recorded none;
- short-circuiting `and`/`or` and the overloaded `+` and `*`;
- calls: the callee first, then each argument left to right, then the
  arity check;
- property access on instances and `super` method lookup;
- blocks that always restore the current environment;
- `loop` with `break`;
- class and metaclass construction;
- the import ledger, which refuses a second import of the same module.

The model has two layers.

- **Specification functions.** `Evaluator.Eval` evaluates an expression
  over a `Runtime.State`, which is a snapshot of every interpreter field.
  `Execution.Exec` runs a statement over the same snapshot and returns an
  `Outcome`: normal completion, the `Return` and `Break` signals, or a
  raised error. The outcome stands in for the Java exceptions `Return`,
  `BreakException` and `RuntimeError`.
- **The class.** `Interpreters.Interpreter` has the Java class's fields:
  a frame arena, the current environment, the globals, the resolver's
  `locals`, the module registries, the `imported` ledger and the printed
  output. Its visitor methods update those fields in place. Each method is
  proved to leave exactly the state, and return exactly the outcome, that
  the matching specification function gives for the fields it started
  from.
- **The arena invariant.** `Invariants.ValidState` says that every link
  points to an older frame, that the current environment and the globals
  exist, and that every closure, class and instance reference stored in
  the state points into the arenas. `Invariants.ValidHost` asks the same
  of the host: the prelude and the standard modules fit the initial
  arena, and a call keeps the invariant. Under such a host every
  expression and statement keeps the invariant. It is the class's
  `Valid()`, which the constructor establishes and `Evaluate`, `Execute`
  and `Interpret` keep.

Environments are an arena of frames (`Environments.Frame`). Each frame maps
names to values and names its enclosing frame by index, so a closure can
keep a frame alive after the block that made it has ended. Class values
are immutable and carry their superclass and metaclass. Instances live in
an arena of their own.

Collaborators whose code is not part of this model are fields of
`Runtime.Host`:

- `stringify`, `repeatStr`, `/` and `Math.pow`;
- `HclCallable.call`, which runs a function body or constructs an
  instance;
- `HclUtils.importIt`, which loads a file;
- the tables that `NativeModule`, `HclStructures` and `HclMath` supply;
- the home path and the file separator.

`Environment`, `HclClass`, `HclFunction` and `HclInstance` are not part of
this model either. Where the evaluator relies on them, the model states
their behaviour as small functions with contracts: `getAt`, `assignAt`,
`get`, `assign`, `define`, `importMod`, `findMethod`, `bind`, `arity` and
`isVaArg`.

## Where the code decides

- `getAt` and `assignAt` are taken to fail with "undefined variable" when
  the frame at the distance does not bind the name. A chain shorter than
  the distance fails as a fault.
- The metaclass built by a class declaration has the user superclass
  itself as its superclass, not the superclass's metaclass. Both class and
  metaclass method tables close over the `super` frame when there is one.
  The model follows the code.
- `*` with a string passes `(int)Math.floor(n)` on to `repeatStr`
  unchecked. A negative count is left to the host: `Operators.RepeatExample`
  assumes a host that repeats faithfully for non-negative counts only.
- A native or linked standard module whose reflective instantiation throws
  is skipped silently. The import then completes normally and the ledger
  does not change.

## Model

| member | source | states |
|---|---|---|
| Operators.ApplyUnary | com/harishlangs/hcl/Interpreter.java:113-128 | `!` always succeeds and gives the negation of truthiness; `-` succeeds exactly on numbers, gives the additive inverse, and otherwise fails with "Operand must be a number." |
| Operators.ApplyPlus | com/harishlangs/hcl/Interpreter.java:323-341 | `+` succeeds exactly when both operands are numbers or strings; two numbers give their sum; every other accepted pair gives the concatenation of the operands' text, left first, a number stringified; otherwise "Operands must be two numbers or two strings." |
| Operators.ApplyStar | com/harishlangs/hcl/Interpreter.java:346-361 | `*` succeeds exactly for two numbers or one string and one number; two numbers give their product; a string and a number give `repeatStr` of the string by the 32-bit floor of the number, on either side; otherwise the `*` error message |
| Operators.ToJavaInt | com/harishlangs/hcl/Interpreter.java:352 | the `(int)` cast stays within 32 bits, keeps in-range values and saturates out-of-range ones at the nearer bound |
| Operators.ApplyBinary | com/harishlangs/hcl/Interpreter.java:306-375 | the comparison, `-`, `/` and `^` operators succeed exactly on two numbers, else "Operands must be numbers."; `>`, `>=`, `<` and `<=` give the boolean of that comparison of the two numbers, `-` the difference; `+` and `*` are `ApplyPlus` and `ApplyStar`; `==` and `!=` always succeed and give equality and inequality; every result is a number, a boolean or a string |
| Operators.ComparisonsMirror | com/harishlangs/hcl/Interpreter.java:307-318 | `a > b` equals `b < a` and `a >= b` equals `b <= a`, errors included |
| Operators.StarCommutes | com/harishlangs/hcl/Interpreter.java:346-361 | `*` gives the same result, or the same error, with its operands swapped |
| Operators.NotEqualNegatesEqual | com/harishlangs/hcl/Interpreter.java:367-368 | `!=` is the negation of `==` |
| Operators.RepeatExample | com/harishlangs/hcl/Interpreter.java:350-358 | with a faithful `repeatStr`, `"ab" * 3` and `3 * "ab"` are both `"ababab"` |
| Environments.Ancestor | com/harishlangs/hcl/Interpreter.java:135-142 | a found ancestor frame is in the arena |
| Environments.GetAt | com/harishlangs/hcl/Interpreter.java:135-142 | a resolved read succeeds exactly when the frame `distance` links up exists and binds the name, and then yields that binding; otherwise "undefined variable" |
| Environments.DefineIn | com/harishlangs/hcl/Interpreter.java:261-269 | `define` binds or rebinds the name in exactly the given frame, keeps every link and leaves every other frame alone |
| Environments.ImportInto | com/harishlangs/hcl/Interpreter.java:432-439 | `importMod` merges a table into exactly the given frame, the table winning, and leaves every other frame alone |
| Environments.AssignAt | com/harishlangs/hcl/Interpreter.java:293-294 | `assignAt` succeeds exactly when `getAt` would, with the same error otherwise, and then overwrites the name in the frame at the distance, every other frame and every link unchanged |
| Environments.Nearest | com/harishlangs/hcl/Interpreter.java:135-142 | the walk by name up the chain finds a frame at or before the start, in the arena, binding the name |
| Environments.Lookup | com/harishlangs/hcl/Interpreter.java:140 | `get` succeeds exactly when the walk finds a frame binding the name and yields that frame's binding; in a well-formed arena it otherwise fails with "undefined variable" |
| Environments.NearestIsClosestAncestor | com/harishlangs/hcl/Interpreter.java:135-142 | in a well-formed arena the walk finds a frame exactly when some ancestor binds the name, and the frame it finds is the closest such ancestor |
| Environments.AssignChain | com/harishlangs/hcl/Interpreter.java:295-297 | `assign` succeeds exactly when `get` would, with the same error otherwise, and then overwrites the name in the nearest frame that binds it, every other frame and every link unchanged |
| Environments.Push | com/harishlangs/hcl/Interpreter.java:175-178 | a new environment is appended below its parent, leaves the older frames as they were and keeps the arena well formed |
| Environments.ReadAfterAssignAt | com/harishlangs/hcl/Interpreter.java:289-300 | after an assignment at a distance, a read of that name at that distance gives the new value, and reads of other names there are unchanged |
| Environments.ResolvedLookupAgrees | com/harishlangs/hcl/Interpreter.java:135-142 | when no nearer frame binds the name, a read by the resolved distance and a walk up the chain by name find the same binding |
| Environments.LookupAfterAssignChain | com/harishlangs/hcl/Interpreter.java:295-297 | what an unresolved `assign` writes, an unresolved read from the same frame reads back |
| Environments.AssignChainKeepsFrame | com/harishlangs/hcl/Interpreter.java:295-297 | `assign` never changes a frame allocated after the frame it starts from |
| Objects.FindMethod | com/harishlangs/hcl/Interpreter.java:98-101 | a method is found exactly when some class on the superclass chain defines it, and a class's own definition wins over inherited ones |
| Objects.InheritedDispatch | com/harishlangs/hcl/Interpreter.java:98-101 | a class that does not define a method answers with its superclass's |
| Objects.Bind | com/harishlangs/hcl/Interpreter.java:103 | binding appends one frame below the method's closure in which `self` is the receiver, keeps the declaration and initializer flag, and keeps the arena well formed |
| Objects.SignatureOf | com/harishlangs/hcl/Interpreter.java:386-391 | exactly functions and classes are callable; a user function takes its parameter count; a native function its declared arity and variadic flag; a class with `_init` that method's parameter count, and a class without it no arguments |
| Objects.MethodTable | com/harishlangs/hcl/Interpreter.java:196-209 | the table's names are exactly the declared names; each entry closes over the given frame, is one of the declarations, and is flagged as initializer exactly when asked to and named `_init` |
| Objects.MethodTableSnoc | com/harishlangs/hcl/Interpreter.java:196-209 | appending a declaration puts it in the table under its name, over any earlier one |
| Objects.MethodTableLastWins | com/harishlangs/hcl/Interpreter.java:196-209 | when a name is declared twice, the table holds the last declaration |
| Evaluator.LookUpVariable | com/harishlangs/hcl/Interpreter.java:135-142 | a resolved read is `getAt` at the recorded distance from the current environment; an unresolved one is `get` from the globals and finds the nearest binding |
| Evaluator.AssignValue | com/harishlangs/hcl/Interpreter.java:289-300 | an assignment writes by distance when the resolver recorded one and through the chain from the globals otherwise; it succeeds exactly when that frame binds the name, its frames are then that one overwrite, it yields the assigned value, and it changes nothing when it fails |
| Evaluator.CallValue | com/harishlangs/hcl/Interpreter.java:386-396 | a callee that is neither a function nor a class fails with "Can only call functions and classes."; a count mismatch fails with an arity error unless the callee is variadic; otherwise the result, the frames and the instances are those the callee's own `call` returns |
| Evaluator.GetProperty | com/harishlangs/hcl/Interpreter.java:400-404 | a field of the instance wins; otherwise the class chain's method of that name, bound to the instance: the existing frames are kept and one frame binding `self` is added, linked to the method's closure frame, and the method keeps its declaration and initializer flag; otherwise "undefined property" |
| Evaluator.SetProperty | com/harishlangs/hcl/Interpreter.java:78-88 | setting a field creates or overwrites it on that instance only, yields the value, and leaves frames and other instances as they were |
| Evaluator.SuperMethod | com/harishlangs/hcl/Interpreter.java:91-105 | a `super` method is looked up from the class bound as `super` at the recorded distance and bound to the `self` found one frame nearer; a failed read of `super` fails with that error; with a class as `super` and an instance or nil as `self`, it succeeds exactly when the class chain defines the method and otherwise fails with "undefined property", changing nothing; on success the method is bound to that `self` over the existing frames, as for a property read |
| Evaluator.Eval | com/harishlangs/hcl/Interpreter.java:60-151 | evaluating an expression changes at most the frames and the instances |
| Evaluator.EvalArgs | com/harishlangs/hcl/Interpreter.java:381-384 | successful argument evaluation gives one value per argument expression |
| Evaluator.LogicalShortCircuit | com/harishlangs/hcl/Interpreter.java:65-75 | `or` with a truthy left operand and `and` with a falsy one yield it without evaluating the right; otherwise the right operand is evaluated in the state the left left behind |
| Evaluator.LogicalYieldsAnOperand | com/harishlangs/hcl/Interpreter.java:65-75 | a logical expression yields one of its operands' values, not a converted boolean |
| Evaluator.BinaryLeftToRight | com/harishlangs/hcl/Interpreter.java:303-305 | the left operand is evaluated before the right one, an error in either stops there, and only then is the operator applied |
| Evaluator.CallEvaluatesAllFirst | com/harishlangs/hcl/Interpreter.java:378-391 | the callee and every argument are evaluated before any check, so an argument's error wins over a non-callable callee |
| Evaluator.EvalArgsSnoc | com/harishlangs/hcl/Interpreter.java:381-384 | arguments are evaluated left to right, each in the state the previous ones left |
| Evaluator.EvalArgsStopsAtError | com/harishlangs/hcl/Interpreter.java:381-384 | an argument that fails stops the evaluation of those after it |
| Evaluator.AssignYieldsItsValue | com/harishlangs/hcl/Interpreter.java:289-300 | an assignment evaluates its value first and yields exactly that value |
| Evaluator.AssignThenRead | com/harishlangs/hcl/Interpreter.java:289-300 | a read resolved to the same place as an assignment reads the assigned value back |
| Evaluator.AssignUndeclaredFails | com/harishlangs/hcl/Interpreter.java:295-296 | assigning a global that is bound nowhere fails with "undefined variable" |
| Evaluator.AssignToUnboundFails | com/harishlangs/hcl/Interpreter.java:295-296 | in a well-formed arena, assigning a global that no frame on the chain from the globals binds fails with "undefined variable", and the state is as the value expression left it |
| Execution.Define | com/harishlangs/hcl/Interpreter.java:229-233 | a definition binds the name in the current frame, keeps every link and leaves every other frame as it was; when it fails, nothing changes |
| Execution.Exec | com/harishlangs/hcl/Interpreter.java:153-286 | every statement keeps the current environment, the globals, the resolver's map and the registries, and only extends the ledger and the output |
| Execution.ExecList | com/harishlangs/hcl/Interpreter.java:166-169 | a statement list keeps the same things as a single statement |
| Execution.ExecBlock | com/harishlangs/hcl/Interpreter.java:161-172 | a block restores the previous environment on every exit: normal completion, Return, Break or error |
| Execution.ExecLoop | com/harishlangs/hcl/Interpreter.java:272-281 | a loop keeps the same things as a single statement |
| Execution.LoopStep | com/harishlangs/hcl/Interpreter.java:272-281 | one iteration of the loop: a normal body goes round again, `break` ends the loop normally, and any other outcome leaves the loop |
| Execution.LeafIgnoresFuel | com/harishlangs/hcl/Interpreter.java:153-155 | a statement with no nested statement does the same with any positive fuel |
| Execution.DeclareClass | com/harishlangs/hcl/Interpreter.java:181-220 | a class declaration leaves the environment where it started, on success and on failure, and touches neither the ledger nor the output |
| Execution.ImportStd | com/harishlangs/hcl/Interpreter.java:431-461 | a standard import that fails changes nothing; one of a module whose instantiation threw completes without effect; any other that completes appends `"Std " + name` to the ledger; a native module is merged into the globals frame, a linked module is a fresh instance bound there, a library file changes no frame, and all other frames, links and fields stay as they were |
| Execution.ImportModule | com/harishlangs/hcl/Interpreter.java:412-464 | a failed evaluation of the module expression passes its error on, and a non-string module fails with "Expected a string."; a file import that completes appends the bare name and changes nothing else; a standard import that completes, other than a skipped one, appends `"Std " + name`; otherwise the ledger is left alone |
| Execution.Interpretation | com/harishlangs/hcl/Interpreter.java:39-47 | top-level execution keeps the same things as a statement list |
| Execution.ExecListAppend | com/harishlangs/hcl/Interpreter.java:166-169 | running `a + b` runs `b` from where `a` ended, and only when `a` completed normally |
| Execution.SignalSkipsRest | com/harishlangs/hcl/Interpreter.java:166-169 | once a statement returns, breaks or raises, no later statement of the list runs |
| Execution.LetInBlockIsLocal | com/harishlangs/hcl/Interpreter.java:175-178 | a `let` in a block binds in the block's fresh frame, linked to the current one, and the environment is restored afterwards |
| Execution.LoopAbsorbsBreak | com/harishlangs/hcl/Interpreter.java:272-286 | no Break ever escapes a loop |
| Execution.LoopPropagatesSignal | com/harishlangs/hcl/Interpreter.java:272-281 | a Return or an error from the body ends the loop with that same outcome |
| Execution.LoopUntil | com/harishlangs/hcl/Interpreter.java:272-286 | `loop { if (c) break; }` ends normally when `c` is truthy and starts another iteration when it is falsy |
| Execution.SuperclassMustBeClass | com/harishlangs/hcl/Interpreter.java:183-188 | a superclass that is not a class fails with "Superclass must be a class." before the name is bound |
| Execution.ClassWithoutSuperclass | com/harishlangs/hcl/Interpreter.java:181-220 | without a superclass, the name is bound in the current frame to the class whose methods close over that frame, and nothing else changes: every other frame, every link, the instances and the rest of the state are kept |
| Execution.ClassWithSuperclass | com/harishlangs/hcl/Interpreter.java:181-220 | with a superclass, a `super` frame is appended below the current one and popped again, the methods close over it, class and metaclass both have the superclass as theirs, and the name is bound in the current frame; every other frame, every link, the instances and the rest of the state are as the superclass expression left them |
| Execution.ImportDuplicateFails | com/harishlangs/hcl/Interpreter.java:418-426 | a name already in the ledger, bare or as a standard module, fails with an import error for either kind of import and changes nothing |
| Execution.ImportTwiceFails | com/harishlangs/hcl/Interpreter.java:412-464 | after a successful import, importing the same name again, by either kind of import, fails with an import error and changes nothing |
| Execution.StdImportSources | com/harishlangs/hcl/Interpreter.java:431-461 | a fresh standard import tries the native modules (merged into the globals), then the linked modules (a fresh instance, bound in the globals under their name), then the library files (only the ledger grows, or the loader's error is raised with nothing changed), and otherwise fails with "Can't import Standard Module"; only the globals frame, and for a linked module the instance arena, change |
| Execution.ImportedOnlyOnce | com/harishlangs/hcl/Interpreter.java:412-464 | an import that completed, and was not a skipped standard module, cannot be repeated by either kind of import: the repeat fails with an import error and changes nothing |
| Execution.ImportKeepsLedgerDistinct | com/harishlangs/hcl/Interpreter.java:418-456 | an import never records an entry that is already in the ledger |
| Execution.ExecKeepsLedgerDistinct | com/harishlangs/hcl/Interpreter.java:412-464 | no statement, however nested, makes the ledger record a module twice |
| Execution.ListKeepsLedgerDistinct | com/harishlangs/hcl/Interpreter.java:166-169 | the same for a statement list |
| Execution.BlockKeepsLedgerDistinct | com/harishlangs/hcl/Interpreter.java:161-172 | the same for a block |
| Execution.LoopKeepsLedgerDistinct | com/harishlangs/hcl/Interpreter.java:272-281 | the same for a loop |
| Execution.InterpretStopsAtError | com/harishlangs/hcl/Interpreter.java:39-47 | top-level execution stops at the first runtime error and reports it; later statements do not run |
| Invariants.FindMethodInArena | com/harishlangs/hcl/Interpreter.java:98-101 | a method found on a class within the arena closes over a frame of the arena |
| Invariants.PutKeepsValid | com/harishlangs/hcl/Interpreter.java:289-300 | overwriting a binding with a value within the arenas keeps the arena invariant and keeps every link |
| Invariants.PushKeepsValid | com/harishlangs/hcl/Interpreter.java:175-178 | appending a frame below an existing one, holding values within the arenas, keeps the invariant, and the older frames keep their links |
| Invariants.AllocKeepsValid | com/harishlangs/hcl/Interpreter.java:445-448 | allocating an object whose class and fields lie within the arenas keeps the invariant |
| Invariants.ImportIntoKeepsValid | com/harishlangs/hcl/Interpreter.java:432-439 | merging a table within the arenas into a frame keeps the invariant |
| Invariants.GetPropertyKeepsValid | com/harishlangs/hcl/Interpreter.java:400-404 | reading a property of an instance in the arena keeps the invariant and yields a value within the arenas |
| Invariants.SetPropertyKeepsValid | com/harishlangs/hcl/Interpreter.java:78-88 | writing a value within the arenas to a field keeps the invariant |
| Invariants.SuperMethodKeepsValid | com/harishlangs/hcl/Interpreter.java:91-105 | a `super` lookup keeps the invariant, only grows the arenas and yields a value within them |
| Invariants.CallValueKeepsValid | com/harishlangs/hcl/Interpreter.java:386-396 | under a host that keeps the invariant, a call of a value within the arenas keeps it |
| Invariants.EvalKeepsValid | com/harishlangs/hcl/Interpreter.java:60-151 | under such a host, evaluating any expression from a valid state gives a valid state that only grows the arenas, and a value within them |
| Invariants.EvalArgsKeepsValid | com/harishlangs/hcl/Interpreter.java:381-384 | the same for a list of arguments, every value within the arenas |
| Invariants.GlobalReadsNeverFault | com/harishlangs/hcl/Interpreter.java:135-142 | in a valid state an unresolved read never faults: it finds the name or fails with "undefined variable" |
| Invariants.DeclareClassKeepsValid | com/harishlangs/hcl/Interpreter.java:181-220 | a class declaration, superclass expression and method tables included, keeps the invariant and only grows the arenas |
| Invariants.ImportModuleKeepsValid | com/harishlangs/hcl/Interpreter.java:412-464 | an import of a file or a standard module keeps the invariant and only grows the arenas |
| Invariants.ExecKeepsValid | com/harishlangs/hcl/Interpreter.java:153-286 | under such a host, running any statement from a valid state gives a valid state that only grows the arenas |
| Invariants.ListKeepsValid | com/harishlangs/hcl/Interpreter.java:166-169 | the same for a statement list |
| Invariants.BlockKeepsValid | com/harishlangs/hcl/Interpreter.java:161-172 | the same for a block |
| Invariants.LoopKeepsValid | com/harishlangs/hcl/Interpreter.java:272-281 | the same for a loop |
| Interpreters.BuildMethodTable | com/harishlangs/hcl/Interpreter.java:196-209 | the table built by one put per declaration in order is `MethodTable` |
| Interpreters.Interpreter.constructor | com/harishlangs/hcl/Interpreter.java:28-37 | a fresh interpreter has one global frame, holding the prelude, which is the current environment; `structures` is the one native module and `Math` the one linked module; the ledger is empty; under a host that keeps the arena invariant, `Valid()` holds |
| Interpreters.Interpreter.Resolve | com/harishlangs/hcl/Interpreter.java:157-159 | records one distance in `locals` and changes nothing else |
| Interpreters.Interpreter.Evaluate | com/harishlangs/hcl/Interpreter.java:149-151 | evaluating in place leaves the fields and returns the value that `Eval` gives, and keeps `Valid()` |
| Interpreters.Interpreter.VisitAssign | com/harishlangs/hcl/Interpreter.java:289-300 | as `Eval` for an assignment |
| Interpreters.Interpreter.VisitLogical | com/harishlangs/hcl/Interpreter.java:65-75 | as `Eval` for `and` and `or` |
| Interpreters.Interpreter.VisitBinary | com/harishlangs/hcl/Interpreter.java:303-375 | as `Eval` for a binary operator |
| Interpreters.Interpreter.VisitCall | com/harishlangs/hcl/Interpreter.java:378-397 | the loop over the arguments followed by the checks is `Eval` of the call |
| Interpreters.Interpreter.VisitGet | com/harishlangs/hcl/Interpreter.java:400-408 | as `Eval` for a property read, including "Only instances have properties." |
| Interpreters.Interpreter.VisitSet | com/harishlangs/hcl/Interpreter.java:78-88 | as `Eval` for a property write, including "Only instances have fields." |
| Interpreters.Interpreter.Execute | com/harishlangs/hcl/Interpreter.java:153-155 | executing in place leaves the fields and returns the outcome that `Exec` gives, and keeps `Valid()` |
| Interpreters.Interpreter.Dispatch | com/harishlangs/hcl/Interpreter.java:154 | sending a statement to its visitor gives the new fields and the outcome `Exec` gives |
| Interpreters.Interpreter.VisitBlock | com/harishlangs/hcl/Interpreter.java:175-178 | a block runs in a fresh environment whose parent is the current one, as `Exec` for a block |
| Interpreters.Interpreter.VisitExpression | com/harishlangs/hcl/Interpreter.java:223-226 | an expression statement evaluates its expression and passes on an error, as `Exec` says |
| Interpreters.Interpreter.VisitFunction | com/harishlangs/hcl/Interpreter.java:229-233 | a function declaration binds a closure over the current environment, not an initializer, as `Exec` says |
| Interpreters.Interpreter.EvaluateArguments | com/harishlangs/hcl/Interpreter.java:381-384 | the argument loop evaluates left to right and stops at the first error, as `EvalArgs` says |
| Interpreters.Interpreter.ExecuteBlock | com/harishlangs/hcl/Interpreter.java:161-172 | the statement loop with the environment swapped in and restored is `ExecBlock` |
| Interpreters.Interpreter.VisitIf | com/harishlangs/hcl/Interpreter.java:236-243 | as `Exec` for `if` |
| Interpreters.Interpreter.VisitLoop | com/harishlangs/hcl/Interpreter.java:272-281 | the `while (true)` loop, ended by Break, is `ExecLoop` |
| Interpreters.Interpreter.DefineCurrent | com/harishlangs/hcl/Interpreter.java:229-233 | as `Define` on the current environment |
| Interpreters.Interpreter.VisitPrint | com/harishlangs/hcl/Interpreter.java:246-250 | as `Exec` for `print`: the stringified value is appended to the output |
| Interpreters.Interpreter.VisitLet | com/harishlangs/hcl/Interpreter.java:261-269 | as `Exec` for `let`, nil without an initializer |
| Interpreters.Interpreter.VisitReturn | com/harishlangs/hcl/Interpreter.java:253-258 | as `Exec` for `return`, nil without a value |
| Interpreters.Interpreter.VisitClass | com/harishlangs/hcl/Interpreter.java:181-220 | the in-place push and pop of the `super` frame and the two method-table loops are `DeclareClass` |
| Interpreters.Interpreter.VisitImport | com/harishlangs/hcl/Interpreter.java:412-464 | the in-place ledger and globals updates are `ImportModule` |
| Interpreters.Interpreter.Interpret | com/harishlangs/hcl/Interpreter.java:39-47 | the top-level statement loop is `Interpretation`, and keeps `Valid()` |

## Left out

- Fuel: a statement nested in a block, an `if` or a `loop`, and each
  iteration of a loop, takes one unit of fuel. Statements in sequence
  share the fuel they are given. So fuel bounds the nesting depth and the
  number of loop iterations, not the number of statements run. A run
  that needs more ends with `OutOfFuel`, because `loop` has no condition
  and may not end. The model says nothing about such runs.
- Console output is an `output` list that `print` appends to. The `stdin`
  scanner is not modelled.
- `HclUtils.importIt` is `Host.importFile`, which reports a load error or
  success. What the loaded file itself does to the interpreter is not
  modelled.
- Reflective instantiation of native and linked modules is out. The
  registries hold the resulting table, or the object a fresh linked
  module starts as (allocated as an instance at the import), or none when
  instantiation throws. A linked module is reachable through property
  reads as an `HclInstance`, with its members as fields; its own `get`
  is not part of this model. `printStackTrace` is out.
- `Hcl.runtimeError` is not modelled. Reporting is the `Reported` ending
  of `Execution.Interpretation`, and an error's token and line are not
  kept.
- `interpret(Expr)`, the single-expression entry point, is not part of
  this model.
- Numbers are `real`, not IEEE doubles. Results of `/` and `^` come from
  the host. `Math.floor` is the real floor, and NaN and infinities do not
  arise.
- Operators.ApplyBinary: does not state the values of `/` and `^`,
  because they are the host's `quotient` and `power`.
- Values.IsEqual: `==` is structural equality of values, so two closures
  over the same declaration and frame are equal, two classes built from
  the same declaration in the same frame are equal, and so are two
  natives with the same name and signature. Java compares `HclFunction`,
  `HclClass` and native function objects by identity.
- Execution.ExecKeepsLedgerDistinct: rests on `Host.importFile` leaving
  the ledger alone. In the source, `imported.add` runs only after
  `importIt` returns (Interpreter.java:429-430 and 455-456), so a loaded
  file that imports the same module again in this interpreter would record
  it twice. Nested loading is not modelled.
- Evaluator.CallValue: only the frames and instances that `call` returns
  are kept, and its effect on the ledger and the output is not modelled.
  The bodies of user functions run outside the model, in `Host.call`.
- Evaluator.GetProperty: a property read or write on a class value fails
  as it does on any non-instance, because how `HclClass` relates to
  `HclInstance` is not part of this model. The metaclass is still built,
  but its class methods cannot be reached in the model.
- Java exceptions other than `RuntimeError` all become `Fault`: a failed
  cast, a null unboxed, or a dangling link. They escape `interpret`
  unreported. Their exact kind is not modelled.
