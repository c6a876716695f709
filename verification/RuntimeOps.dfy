/** The boxed runtime operations on integers and booleans. */
module RuntimeOps {
  datatype Val = IntV(i: int) | BoolV(b: bool)

  /** A value, or a runtime error. */
  datatype Outcome = Value(v: Val) | Fail

  const I64_MIN: int := -0x8000_0000_0000_0000
  const I64_MAX: int := 0x7FFF_FFFF_FFFF_FFFF
  const TWO64: int := 0x1_0000_0000_0000_0000

  /** Two's-complement wrap-around to 64 bits. */
  function Wrap(x: int): (w: int)
    ensures I64_MIN <= w <= I64_MAX && (I64_MIN <= x <= I64_MAX ==> w == x)
    ensures (w - x) % TWO64 == 0
  {
    (x - I64_MIN) % TWO64 + I64_MIN
  }

  /** Division rounding towards zero. */
  function TruncDiv(x: int, y: int): int
    requires y != 0
  {
    if x >= 0 then x / y else -((-x) / y)
  }

  function TruncRem(x: int, y: int): int
    requires y != 0
  {
    x - y * TruncDiv(x, y)
  }

  datatype ArithOp = Add | Sub | Mul | Div | Mod
  datatype CmpOp = Eq | Ne | Lt | Gt | Le | Ge
  datatype LogicOp = And | Or

  function Arith(op: ArithOp, a: Val, b: Val): Outcome {
    if !a.IntV? || !b.IntV? then Fail
    else
      match op
      case Add => Value(IntV(Wrap(a.i + b.i)))
      case Sub => Value(IntV(Wrap(a.i - b.i)))
      case Mul => Value(IntV(Wrap(a.i * b.i)))
      case Div =>
        if b.i == 0 then Fail
        else if a.i == I64_MIN && b.i == -1 then Fail
        else Value(IntV(TruncDiv(a.i, b.i)))
      case Mod =>
        if b.i == 0 then Fail
        else if a.i == I64_MIN && b.i == -1 then Fail
        else Value(IntV(TruncRem(a.i, b.i)))
  }

  /** Equality takes any two values; the orderings take numbers only. */
  function Compare(op: CmpOp, a: Val, b: Val): Outcome {
    match op
    case Eq => Value(BoolV(a == b))
    case Ne => Value(BoolV(a != b))
    case Lt => Ordered(a, b, (x, y) => x < y)
    case Gt => Ordered(a, b, (x, y) => x > y)
    case Le => Ordered(a, b, (x, y) => x <= y)
    case Ge => Ordered(a, b, (x, y) => x >= y)
  }

  function Ordered(a: Val, b: Val, order: (int, int) -> bool): Outcome {
    if a.IntV? && b.IntV? then Value(BoolV(order(a.i, b.i))) else Fail
  }

  /** A first operand that decides is the answer, whatever the second. */
  function Logic(op: LogicOp, a: Val, b: Val): Outcome {
    if !a.BoolV? then Fail
    else if Decides(op, a) then Value(a)
    else if !b.BoolV? then Fail
    else Value(b)
  }

  predicate Decides(op: LogicOp, a: Val) {
    a.BoolV? && a.b == (op == Or)
  }

  function LogicNot(a: Val): Outcome {
    if a.BoolV? then Value(BoolV(!a.b)) else Fail
  }

  /** How a branch reads a condition: false is the only number or boolean that is not true. */
  function Truthy(a: Val): bool {
    a.IntV? || a.b
  }

  function ArithOpOf(name: string): (op: ArithOp)
    requires IsArith(name)
  {
    if name == "+" then Add else if name == "-" then Sub else if name == "*" then Mul
    else if name == "/" then Div else Mod
  }

  function CmpOpOf(name: string): CmpOp
    requires IsCmp(name)
  {
    if name == "=" then Eq else if name == "!=" then Ne else if name == "<" then Lt
    else if name == ">" then Gt else if name == "<=" then Le else Ge
  }

  function LogicOpOf(name: string): LogicOp
    requires IsLogic(name)
  {
    if name == "and" then And else Or
  }

  predicate IsArith(name: string) {
    name == "+" || name == "-" || name == "*" || name == "/" || name == "%"
  }

  predicate IsCmp(name: string) {
    name == "=" || name == "!=" || name == "<" || name == ">" || name == "<=" || name == ">="
  }

  predicate IsLogic(name: string) {
    name == "and" || name == "or"
  }
}
