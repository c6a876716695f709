/** What each operator is, written out: the boxed operation by name, and the code lowered for a call of it. */
module Operators {
  import opened Ast
  import opened Cfg
  import opened Lowering
  import opened LoweringCorrect
  import opened RuntimeOps
  import opened Wrappers

  // ----- numbers -----

  predicate In64(n: int) {
    -0x8000_0000_0000_0000 <= n <= 0x7FFF_FFFF_FFFF_FFFF
  }

  /** The same 64 bits. */
  predicate Congruent(a: int, b: int) {
    (a - b) % 0x1_0000_0000_0000_0000 == 0
  }

  /** `q` and `r` are the quotient rounded towards zero and the remainder, which has the sign of `x`. */
  predicate Quotient(x: int, y: int, q: int, r: int) {
    && x == q * y + r
    && (if r < 0 then -r else r) < (if y < 0 then -y else y)
    && (r == 0 || (r < 0 <==> x < 0))
  }

  /** Division fails on a zero divisor and where the quotient is no 64-bit number. */
  predicate Divides(x: int, y: int) {
    y != 0 && !(x == -0x8000_0000_0000_0000 && y == -1)
  }

  lemma CongruentUnique(a: int, b: int, n: int)
    requires In64(a) && In64(b) && Congruent(a, n) && Congruent(b, n)
    ensures a == b
  {
    assert (a - b) % 0x1_0000_0000_0000_0000 == 0;
  }

  lemma QuotientUnique(x: int, y: int, q: int, r: int, q': int, r': int)
    requires y != 0 && Quotient(x, y, q, r) && Quotient(x, y, q', r')
    ensures q == q' && r == r'
  {
    var d := q - q';
    assert d * y == r' - r;
    if d > 0 {
      Larger(d, y);
    } else if d < 0 {
      Larger(-d, y);
    }
  }

  lemma Larger(d: int, y: int)
    requires d > 0
    ensures if y >= 0 then d * y >= y else d * y <= y
  {
    if y >= 0 {
      assert (d - 1) * y >= 0;
    } else {
      assert (d - 1) * y <= 0;
    }
  }

  lemma QuotientIs(x: int, y: int)
    requires y != 0
    ensures Quotient(x, y, TruncDiv(x, y), TruncRem(x, y))
  {
  }

  // ----- the boxed operations -----

  lemma Names()
    ensures CmpOpOf("=") == Eq && CmpOpOf("!=") == Ne && CmpOpOf("<") == Lt && CmpOpOf(">") == Gt
    ensures CmpOpOf("<=") == Le && CmpOpOf(">=") == Ge
    ensures ArithOpOf("+") == Add && ArithOpOf("-") == Sub && ArithOpOf("*") == Mul && ArithOpOf("/") == Div
    ensures ArithOpOf("%") == Mod
  {
  }

  /** Orders and equality of integers. */
  lemma OnIntegers(x: int, y: int)
    ensures Apply2("=", IntV(x), IntV(y)) == Value(BoolV(x == y))
    ensures Apply2("!=", IntV(x), IntV(y)) == Value(BoolV(x != y))
    ensures Apply2("<", IntV(x), IntV(y)) == Value(BoolV(x < y))
    ensures Apply2(">", IntV(x), IntV(y)) == Value(BoolV(x > y))
    ensures Apply2("<=", IntV(x), IntV(y)) == Value(BoolV(x <= y))
    ensures Apply2(">=", IntV(x), IntV(y)) == Value(BoolV(x >= y))
  {
    Names();
    hide CmpOpOf, ArithOpOf, Wrap, Arith;
  }

  lemma Sums(x: int, y: int)
    ensures exists n :: In64(n) && Congruent(n, x + y) && Apply2("+", IntV(x), IntV(y)) == Value(IntV(n))
    ensures exists n :: In64(n) && Congruent(n, x - y) && Apply2("-", IntV(x), IntV(y)) == Value(IntV(n))
    ensures exists n :: In64(n) && Congruent(n, x * y) && Apply2("*", IntV(x), IntV(y)) == Value(IntV(n))
  {
    Names();
    Wraps(x + y);
    Wraps(x - y);
    Wraps(x * y);
    hide CmpOpOf, ArithOpOf, Wrap, Congruent, In64;
  }

  lemma Wraps(n: int)
    ensures In64(Wrap(n)) && Congruent(Wrap(n), n)
  {
  }

  lemma Quotients(x: int, y: int)
    requires In64(x) && In64(y)
    ensures if Divides(x, y)
            then exists q, r :: Quotient(x, y, q, r) && Apply2("/", IntV(x), IntV(y)) == Value(IntV(q)) &&
                                Apply2("%", IntV(x), IntV(y)) == Value(IntV(r))
            else Apply2("/", IntV(x), IntV(y)) == Fail && Apply2("%", IntV(x), IntV(y)) == Fail
  {
    Names();
    if y != 0 {
      QuotientIs(x, y);
    }
    hide CmpOpOf, ArithOpOf, Wrap, Quotient, TruncDiv, TruncRem;
  }

  /** Equality and the connectives on booleans. */
  lemma OnBooleans(a: bool, b: bool, v: Val)
    ensures Apply2("=", BoolV(a), v) == Value(BoolV(v == BoolV(a))) && Apply2("=", v, BoolV(a)) == Value(BoolV(v == BoolV(a)))
    ensures Apply2("!=", BoolV(a), v) == Value(BoolV(v != BoolV(a))) && Apply2("!=", v, BoolV(a)) == Value(BoolV(v != BoolV(a)))
    ensures Apply2("and", BoolV(a), BoolV(b)) == Value(BoolV(a && b))
    ensures Apply2("or", BoolV(a), BoolV(b)) == Value(BoolV(a || b))
    ensures LogicNot(BoolV(a)) == Value(BoolV(!a))
  {
    Names();
    hide CmpOpOf, ArithOpOf, Arith;
  }

  /** Numbers only: arithmetic and the orders. */
  lemma NoBooleans(name: string, a: bool, v: Val)
    requires name in ["+", "-", "*", "/", "%", "<", ">", "<=", ">="]
    ensures Apply2(name, BoolV(a), v) == Fail && Apply2(name, v, BoolV(a)) == Fail
  {
    if name in ["<", ">", "<=", ">="] {
      Names();
    }
    hide CmpOpOf, ArithOpOf, Wrap, TruncDiv, TruncRem;
  }

  // ----- the lowered code -----

  /** The code runs to its end and leaves this number where its value should be. */
  ghost predicate Leaves(code: Code, c: Ctx, st: State, out: Lowered, n: int)
    requires st.Running?
  {
    exists end :: Reaches(code, st, end) && AtEnd(out.ctx.b, end) && out.val in end.vals && end.vals[out.val] == n
  }

  lemma ComputesLeaves(code: Code, c: Ctx, st: State, out: Lowered, v: Val)
    requires st.Running? && Computes(code, c.b, st, out, Value(v))
    ensures Leaves(code, c, st, out, if v.IntV? then v.i else if v.b then 1 else 0)
  {
    var end :| Reaches(code, st, end) && Done(c.b, st, out, v, end);
  }

  /** A call of an operator on two integer expressions, wherever the code is placed: the lowered code leaves
      the number that the operator stands for, and traps exactly where a division fails. */
  lemma LoweredOperator(e: Expr, c: Ctx, tenv: TypeEnv, env: Env, code: Code, st: State, x: int, y: int)
    requires InBlock(c) && AtEnd(c.b, st) && Agrees(c, tenv, env, st)
    requires e.FnCall? && e.callee.SymbolRef? && |e.args| == 2
    requires e.callee.name in ["=", "!=", "<", ">", "<=", ">=", "+", "-", "*", "/", "%"]
    requires TypeOf(e.args[0], tenv) == Typed(I64) && TypeOf(e.args[1], tenv) == Typed(I64)
    requires In64(x) && In64(y) && Eval(e.args[0], env) == Value(IntV(x)) && Eval(e.args[1], env) == Value(IntV(y))
    ensures LowerExpr(e, c).Ok?
    ensures var name, out := e.callee.name, LowerExpr(e, c).value;
            Region(code, c.b, out.ctx.b) ==>
              && (name == "=" ==> Leaves(code, c, st, out, if x == y then 1 else 0))
              && (name == "!=" ==> Leaves(code, c, st, out, if x != y then 1 else 0))
              && (name == "<" ==> Leaves(code, c, st, out, if x < y then 1 else 0))
              && (name == ">" ==> Leaves(code, c, st, out, if x > y then 1 else 0))
              && (name == "<=" ==> Leaves(code, c, st, out, if x <= y then 1 else 0))
              && (name == ">=" ==> Leaves(code, c, st, out, if x >= y then 1 else 0))
              && (name == "+" ==> exists n :: In64(n) && Congruent(n, x + y) && Leaves(code, c, st, out, n))
              && (name == "-" ==> exists n :: In64(n) && Congruent(n, x - y) && Leaves(code, c, st, out, n))
              && (name == "*" ==> exists n :: In64(n) && Congruent(n, x * y) && Leaves(code, c, st, out, n))
              && (name == "/" && Divides(x, y) ==> exists q, r :: Quotient(x, y, q, r) && Leaves(code, c, st, out, q))
              && (name == "%" && Divides(x, y) ==> exists q, r :: Quotient(x, y, q, r) && Leaves(code, c, st, out, r))
              && (name in ["/", "%"] && !Divides(x, y) ==> Reaches(code, st, Trapped))
  {
    hide LowerExpr, Agrees, Region, Computes, Arith, Compare, Quotient, Congruent, Leaves;
    OnIntegers(x, y);
    Sums(x, y);
    Quotients(x, y);
    assert IsArith(e.callee.name) || IsCmp(e.callee.name);
    assert TypeOf(e, tenv).Typed?;
    var o := Apply2(e.callee.name, IntV(x), IntV(y));
    assert Eval(e, env) == o;
    KnownTyped(e, c, tenv, env, st);
    var out := LowerExpr(e, c).value;
    if Region(code, c.b, out.ctx.b) {
      LoweringCorrect.LoweringCorrect(e, c, tenv, env, code, st);
      if o.Value? {
        ComputesLeaves(code, c, st, out, o.v);
      } else {
        FailTraps(code, c, st, out);
      }
    }
  }

  /** The same for two boolean expressions. */
  lemma LoweredConnective(e: Expr, c: Ctx, tenv: TypeEnv, env: Env, code: Code, st: State, x: bool, y: bool)
    requires InBlock(c) && AtEnd(c.b, st) && Agrees(c, tenv, env, st)
    requires e.FnCall? && e.callee.SymbolRef? && |e.args| == 2 && e.callee.name in ["=", "!=", "and", "or"]
    requires TypeOf(e.args[0], tenv) == Typed(I8) && TypeOf(e.args[1], tenv) == Typed(I8)
    requires Eval(e.args[0], env) == Value(BoolV(x)) && Eval(e.args[1], env) == Value(BoolV(y))
    ensures LowerExpr(e, c).Ok?
    ensures var name, out := e.callee.name, LowerExpr(e, c).value;
            Region(code, c.b, out.ctx.b) ==>
              && (name == "=" ==> Leaves(code, c, st, out, if x == y then 1 else 0))
              && (name == "!=" ==> Leaves(code, c, st, out, if x != y then 1 else 0))
              && (name == "and" ==> Leaves(code, c, st, out, if x && y then 1 else 0))
              && (name == "or" ==> Leaves(code, c, st, out, if x || y then 1 else 0))
  {
    hide LowerExpr, Agrees, Region, Computes, Logic, Compare, Leaves;
    OnBooleans(x, y, BoolV(y));
    assert IsCmp(e.callee.name) || IsLogic(e.callee.name);
    assert TypeOf(e, tenv).Typed?;
    var o := Apply2(e.callee.name, BoolV(x), BoolV(y));
    assert Eval(e, env) == o;
    KnownTyped(e, c, tenv, env, st);
    var out := LowerExpr(e, c).value;
    if Region(code, c.b, out.ctx.b) {
      LoweringCorrect.LoweringCorrect(e, c, tenv, env, code, st);
      ComputesLeaves(code, c, st, out, o.v);
    }
  }

  /** And for the negation of one. */
  lemma LoweredNot(e: Expr, c: Ctx, tenv: TypeEnv, env: Env, code: Code, st: State, x: bool)
    requires InBlock(c) && AtEnd(c.b, st) && Agrees(c, tenv, env, st)
    requires e.FnCall? && e.callee == SymbolRef("not") && |e.args| == 1
    requires TypeOf(e.args[0], tenv) == Typed(I8) && Eval(e.args[0], env) == Value(BoolV(x))
    ensures LowerExpr(e, c).Ok?
    ensures Region(code, c.b, LowerExpr(e, c).value.ctx.b) ==>
              Leaves(code, c, st, LowerExpr(e, c).value, if x then 0 else 1)
  {
    hide LowerExpr, Agrees, Region, Computes, Leaves;
    OnBooleans(x, x, BoolV(x));
    assert Eval(e, env) == Value(BoolV(!x));
    KnownTyped(e, c, tenv, env, st);
    var out := LowerExpr(e, c).value;
    if Region(code, c.b, out.ctx.b) {
      LoweringCorrect.LoweringCorrect(e, c, tenv, env, code, st);
      ComputesLeaves(code, c, st, out, BoolV(!x));
    }
  }

  lemma KnownTyped(e: Expr, c: Ctx, tenv: TypeEnv, env: Env, st: State)
    requires InBlock(c) && st.Running? && Agrees(c, tenv, env, st) && TypeOf(e, tenv).Typed?
    ensures LowerExpr(e, c).Ok?
  {
    TypedLowers(e, c, tenv);
  }

  lemma FailTraps(code: Code, c: Ctx, st: State, out: Lowered)
    requires st.Running? && Computes(code, c.b, st, out, Fail)
    ensures Reaches(code, st, Trapped)
  {
  }
}
