/** The unary and binary operators of HCL, applied to operand values that
    have already been evaluated. */
module Operators {
  import opened Base
  import opened Syntax
  import opened Values
  import opened Runtime

  const NumberOperand := "Operand must be a number."
  const NumberOperands := "Operands must be numbers."
  const PlusOperands := "Operands must be two numbers or two strings."
  const StarOperands := "Operands must be two numbers or any one can be strings."

  /** Java's `(int)` cast of an integral double: clamped to 32 bits. */
  function ToJavaInt(x: int): (r: int)
    ensures -0x8000_0000 <= r <= 0x7fff_ffff
    ensures -0x8000_0000 <= x <= 0x7fff_ffff ==> r == x
    ensures x > 0x7fff_ffff ==> r == 0x7fff_ffff
    ensures x < -0x8000_0000 ==> r == -0x8000_0000
  {
    if x < -0x8000_0000 then -0x8000_0000 else if x > 0x7fff_ffff then 0x7fff_ffff else x
  }

  function ApplyUnary(op: UnaryOp, v: Value): (r: Result<Value>)
    ensures op == Bang ==> r.Ok? && r.value.Bool? && (r.value.b <==> !IsTruthy(v))
    ensures op == Negate ==> (r.Ok? <==> v.Num?)
    ensures op == Negate && r.Ok? ==> r.value.Num? && r.value.n + v.n == 0.0
    ensures r.Err? ==> r.error == TypeError(NumberOperand)
  {
    match op
    case Bang => Ok(Bool(!IsTruthy(v)))
    case Negate => if v.Num? then Ok(Num(-v.n)) else Err(TypeError(NumberOperand))
  }

  /** The text `+` uses for an operand: a string as it is, anything else
      (a number, in every accepted case) in its canonical text form. */
  function TextOf(host: Host, v: Value): string {
    if v.Str? then v.s else host.stringify(v)
  }

  predicate NumOrStr(v: Value) { v.Num? || v.Str? }

  /** `+`: accepted exactly when both operands are numbers or strings; two
      numbers add, every other accepted pair concatenates the operands' text
      left to right. */
  function ApplyPlus(host: Host, a: Value, b: Value): (r: Result<Value>)
    ensures r.Ok? <==> NumOrStr(a) && NumOrStr(b)
    ensures r.Ok? && a.Num? && b.Num? ==> r.value == Num(a.n + b.n)
    ensures r.Ok? && !(a.Num? && b.Num?) ==> r.value == Str(TextOf(host, a) + TextOf(host, b))
    ensures r.Err? ==> r.error == TypeError(PlusOperands)
  {
    if a.Num? && b.Num? then Ok(Num(a.n + b.n))
    else if a.Str? && b.Str? then Ok(Str(a.s + b.s))
    else if a.Str? && b.Num? then Ok(Str(a.s + host.stringify(b)))
    else if a.Num? && b.Str? then Ok(Str(host.stringify(a) + b.s))
    else Err(TypeError(PlusOperands))
  }

  /** `*`: accepted exactly for two numbers or one string and one number; two
      numbers multiply, a string and a number repeat the string by the
      number's floor, on whichever side each stands. */
  function ApplyStar(host: Host, a: Value, b: Value): (r: Result<Value>)
    ensures r.Ok? <==> NumOrStr(a) && NumOrStr(b) && !(a.Str? && b.Str?)
    ensures r.Ok? && a.Num? && b.Num? ==> r.value == Num(a.n * b.n)
    ensures r.Ok? && a.Str? ==> r.value == Str(host.repeatStr(a.s, ToJavaInt(b.n.Floor)))
    ensures r.Ok? && b.Str? ==> r.value == Str(host.repeatStr(b.s, ToJavaInt(a.n.Floor)))
    ensures r.Err? ==> r.error == TypeError(StarOperands)
  {
    if a.Num? && b.Num? then Ok(Num(a.n * b.n))
    else if a.Str? && b.Num? then Ok(Str(host.repeatStr(a.s, ToJavaInt(b.n.Floor))))
    else if a.Num? && b.Str? then Ok(Str(host.repeatStr(b.s, ToJavaInt(a.n.Floor))))
    else Err(TypeError(StarOperands))
  }

  /** The operators that `checkNumberOperands` guards. */
  predicate NumericOnly(op: BinaryOp) {
    op in {Greater, GreaterEqual, Less, LessEqual, Minus, Slash, Caret}
  }

  function ApplyBinary(host: Host, op: BinaryOp, a: Value, b: Value): (r: Result<Value>)
    ensures NumericOnly(op) ==> (r.Ok? <==> a.Num? && b.Num?)
    ensures NumericOnly(op) && r.Err? ==> r.error == TypeError(NumberOperands)
    ensures op == Greater && r.Ok? ==> r.value == Bool(a.n > b.n)
    ensures op == GreaterEqual && r.Ok? ==> r.value == Bool(a.n >= b.n)
    ensures op == Less && r.Ok? ==> r.value == Bool(a.n < b.n)
    ensures op == LessEqual && r.Ok? ==> r.value == Bool(a.n <= b.n)
    ensures op == Minus && r.Ok? ==> r.value == Num(a.n - b.n)
    ensures op == Plus ==> r == ApplyPlus(host, a, b)
    ensures op == Star ==> r == ApplyStar(host, a, b)
    ensures op in {EqualEqual, BangEqual} ==> r.Ok? && r.value.Bool?
    ensures op == EqualEqual ==> (r.value.b <==> a == b)
    ensures op == BangEqual ==> (r.value.b <==> a != b)
    ensures r.Ok? ==> r.value.Num? || r.value.Bool? || r.value.Str?
  {
    var nums := a.Num? && b.Num?;
    var bad := Err(TypeError(NumberOperands));
    match op
    case Greater => if nums then Ok(Bool(a.n > b.n)) else bad
    case GreaterEqual => if nums then Ok(Bool(a.n >= b.n)) else bad
    case Less => if nums then Ok(Bool(a.n < b.n)) else bad
    case LessEqual => if nums then Ok(Bool(a.n <= b.n)) else bad
    case Minus => if nums then Ok(Num(a.n - b.n)) else bad
    case Plus => ApplyPlus(host, a, b)
    case Slash => if nums then Ok(Num(host.quotient(a.n, b.n))) else bad
    case Star => ApplyStar(host, a, b)
    case Caret => if nums then Ok(Num(host.power(a.n, b.n))) else bad
    case BangEqual => Ok(Bool(!IsEqual(a, b)))
    case EqualEqual => Ok(Bool(IsEqual(a, b)))
  }

  /** `a > b` and `b < a` agree, as do `a >= b` and `b <= a`, errors included. */
  lemma ComparisonsMirror(host: Host, a: Value, b: Value)
    ensures ApplyBinary(host, Greater, a, b) == ApplyBinary(host, Less, b, a)
    ensures ApplyBinary(host, GreaterEqual, a, b) == ApplyBinary(host, LessEqual, b, a)
  {
  }

  /** `*` is symmetric in its operands: the same pairs are accepted and give
      the same value whichever side the string or each number stands on. */
  lemma StarCommutes(host: Host, a: Value, b: Value)
    ensures ApplyStar(host, a, b) == ApplyStar(host, b, a)
  {
  }

  /** `!=` is the negation of `==`. */
  lemma NotEqualNegatesEqual(host: Host, a: Value, b: Value)
    ensures ApplyBinary(host, BangEqual, a, b).value.b == !ApplyBinary(host, EqualEqual, a, b).value.b
  {
  }

  /** A reference repetition for non-negative counts. */
  function Repeat(s: string, n: nat): (r: string)
    ensures |r| == n * |s|
  {
    if n == 0 then "" else s + Repeat(s, n - 1)
  }

  /** A host whose `repeatStr` repeats for every non-negative count;
      negative counts are left to the host. */
  ghost predicate RepeatsFaithfully(host: Host) {
    forall s, n :: n >= 0 ==> host.repeatStr(s, n) == Repeat(s, n)
  }

  /** `"ab" * 3` and `3 * "ab"` are both `"ababab"`. */
  lemma RepeatExample(host: Host)
    requires RepeatsFaithfully(host)
    ensures ApplyStar(host, Str("ab"), Num(3.0)) == Ok(Str("ababab"))
    ensures ApplyStar(host, Num(3.0), Str("ab")) == Ok(Str("ababab"))
  {
    assert ToJavaInt((3.0).Floor) == 3;
    assert Repeat("ab", 3) == "ababab";
  }
}
