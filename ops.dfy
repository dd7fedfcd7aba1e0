/** The closures that the arithmetic and comparison handlers pass to
    `binary_op` and `compare_op`, one constructor per wrapper. */
module Ops {
  import opened Prims

  /** The wrappers `add`, `sub`, `mul`, `div` and `mod_op`. */
  datatype ArithOp = Add | Sub | Mul | Div | Mod

  /** The wrappers `eq`, `neq`, `gt`, `lt`, `gte` and `lte`. */
  datatype CmpOp = Eq | Neq | Gt | Lt | Gte | Lte

  predicate Divides(op: ArithOp) {
    op.Div? || op.Mod?
  }

  /** The unbounded integer value an arithmetic closure denotes. */
  function Exact(op: ArithOp, a: int, b: int): int
    requires Divides(op) ==> b != 0
  {
    match op
    case Add => a + b
    case Sub => a - b
    case Mul => a * b
    case Div => TruncDiv(a, b)
    case Mod => TruncRem(a, b)
  }

  /** Runs an arithmetic closure on two `i32` values. A zero divisor panics;
      `i32::MIN / -1` and `i32::MIN % -1` panic on every build; `+`, `-`,
      `*` panic exactly when the true result leaves the `i32` range.
      Otherwise the result is the true result. */
  function Apply(op: ArithOp, a: i32, b: i32): (r: Checked<i32>)
    ensures Divides(op) && b == 0 ==> r == Panic(DivideByZero)
    ensures Divides(op) && b != 0 ==> (r.Panic? <==> a == I32_MIN && b == -1)
    ensures Divides(op) && a == I32_MIN && b == -1 ==> r == Panic(Overflow)
    ensures !Divides(op) && r.Panic? ==> r.fault == Overflow
    ensures !Divides(op) ==> (r.Panic? <==> !InI32(Exact(op, a, b)))
    ensures r.Panic? ==> r.fault == DivideByZero || r.fault == Overflow
    ensures r.Ok? ==> r.value == Exact(op, a, b)
  {
    if Divides(op) && b == 0 then Panic(DivideByZero)
    else if Divides(op) && a == I32_MIN && b == -1 then Panic(Overflow)
    else if Divides(op) then
      DivRemRange(a, b);
      Ok(Exact(op, a, b))
    else
      var x := Exact(op, a, b);
      if InI32(x) then Ok(x) else Panic(Overflow)
  }

  /** The predicate a comparison closure computes. */
  predicate Holds(op: CmpOp, a: int, b: int) {
    match op
    case Eq => a == b
    case Neq => a != b
    case Gt => a > b
    case Lt => a < b
    case Gte => a >= b
    case Lte => a <= b
  }
}
