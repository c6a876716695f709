/** Where lowered code and evaluation part: conditions and connectives on integers. */
module LoweringExact {
  import opened RuntimeOps
  import opened Ast
  import opened Cfg
  import opened Lowering
  import opened LoweringCorrect

  // ----- a run has one end -----

  /** Nothing more can happen: a trap, or the end of the code under construction. */
  ghost predicate Halted(code: Code, st: State) {
    st.Trapped? || (st.Running? && Step(code, st) == Stuck)
  }

  lemma {:induction false} Stays(code: Code, n: nat)
    ensures Run(code, Stuck, n) == Stuck && Run(code, Trapped, n) == Trapped
  {
    if n > 0 {
      Stays(code, n - 1);
    }
  }

  lemma OneEnd(code: Code, st: State, a: State, b: State)
    requires Reaches(code, st, a) && Reaches(code, st, b) && Halted(code, a) && Halted(code, b)
    ensures a == b
  {
    var m :| Run(code, st, m) == a;
    var n :| Run(code, st, n) == b;
    if m <= n {
      EndsAt(code, st, m, n, a, b);
    } else {
      EndsAt(code, st, n, m, b, a);
    }
  }

  lemma EndsAt(code: Code, st: State, m: nat, n: nat, a: State, b: State)
    requires Run(code, st, m) == a && Run(code, st, n) == b && m <= n && Halted(code, a) && Halted(code, b)
    ensures a == b
  {
    RunAdds(code, st, m, n - m);
    if m < n {
      Stays(code, n - m);
      Stays(code, n - m - 1);
    }
  }

  lemma AtEndHalted(b: Builder, st: State)
    requires Ready(b) && AtEnd(b, st)
    ensures Halted(b.blocks, st)
  {
  }

  lemma EncInjective(v: Val, w: Val)
    requires TyOfVal(v) == TyOfVal(w) && Enc(v) == Enc(w)
    ensures v == w
  {
  }

  lemma EndOf(b: Builder, st: State, out: Lowered, o: Outcome) returns (end: State)
    requires st.Running? && InBlock(out.ctx) && Computes(out.ctx.b.blocks, b, st, out, o)
    ensures Reaches(out.ctx.b.blocks, st, end) && Halted(out.ctx.b.blocks, end)
    ensures if o.Fail? then end.Trapped? else end.Running? && out.val in end.vals && end.vals[out.val] == Enc(o.v)
  {
    end := Trapped;
    if o.Value? {
      end := Ran(out.ctx.b.blocks, b, st, out, o.v);
      AtEndHalted(out.ctx.b, end);
    }
  }

  /** Code on its own computes one outcome, among those of one type. */
  lemma OneOutcome(b: Builder, st: State, out: Lowered, o: Outcome, p: Outcome)
    requires st.Running? && InBlock(out.ctx)
    requires Computes(out.ctx.b.blocks, b, st, out, o) && Computes(out.ctx.b.blocks, b, st, out, p)
    requires o.Value? && p.Value? ==> TyOfVal(o.v) == TyOfVal(p.v)
    ensures o == p
  {
    hide Reaches, Halted, Computes;
    var a := EndOf(b, st, out, o);
    var z := EndOf(b, st, out, p);
    OneEnd(out.ctx.b.blocks, st, a, z);
    if o.Value? && p.Value? {
      EncInjective(o.v, p.v);
    }
  }

  // ----- conditions -----

  /** A condition may be an integer; the other two parts have one type. */
  predicate AnyCondition(e: Expr, tenv: TypeEnv) {
    e.If? && TypeOf(e.cond, tenv).Typed? && TypeOf(e.thn, tenv).Typed? && TypeOf(e.els, tenv) == TypeOf(e.thn, tenv)
  }

  /** Evaluation takes every integer for true, the lowered branch takes zero for false. */
  lemma ConditionsPart(e: Expr, tenv: TypeEnv, env: Env)
    requires AnyCondition(e, tenv) && Conforms(env, tenv)
    ensures var ex := Eval(e.cond, env);
            Eval(e, env) == (if ex == Value(IntV(0)) then Eval(e.thn, env) else EvalNonzero(e, env)) &&
            (ex == Value(IntV(0)) ==> EvalNonzero(e, env) == Eval(e.els, env))
    ensures Eval(e, env).Value? && EvalNonzero(e, env).Value? ==> TyOfVal(Eval(e, env).v) == TyOfVal(EvalNonzero(e, env).v)
  {
    TypeSound(e.thn, env, tenv);
    TypeSound(e.els, env, tenv);
    hide TypeOf, Conforms;
  }

  /** A conditional is lowered whatever the type of its condition. Its code computes what evaluation gives
      exactly unless the condition is the integer zero and the two sides differ. */
  lemma ConditionExact(e: Expr, c: Ctx, tenv: TypeEnv, env: Env, st: State)
    requires InBlock(c) && AnyCondition(e, tenv) && AtEnd(c.b, st) && Agrees(c, tenv, env, st)
    ensures LowerExpr(e, c).Ok?
    ensures var out := LowerExpr(e, c).value;
            && Computes(out.ctx.b.blocks, c.b, st, out, EvalNonzero(e, env))
            && (Computes(out.ctx.b.blocks, c.b, st, out, Eval(e, env)) <==>
                  (Eval(e.cond, env) == Value(IntV(0)) ==> Eval(e.thn, env) == Eval(e.els, env)))
  {
    TypedLowersIf(e, c, tenv);
    LoweredReady(e, c);
    var out := LowerExpr(e, c).value;
    assert Region(out.ctx.b.blocks, c.b, out.ctx.b);
    ConditionsPart(e, tenv, env);
    hide LowerExpr, Eval, EvalNonzero, Region, Computes, TypeOf;
    ConditionCorrect(e, c, tenv, env, out.ctx.b.blocks, st);
    if Computes(out.ctx.b.blocks, c.b, st, out, Eval(e, env)) {
      OneOutcome(c.b, st, out, Eval(e, env), EvalNonzero(e, env));
    }
  }

  // ----- bit operations on numbers -----

  lemma {:induction false} AndZero(y: int, n: nat)
    ensures Bitwise(Band, 0, y, n) == 0
    decreases n
  {
    if n > 0 {
      AndZero(y / 2, n - 1);
    }
  }

  function Pow2(n: nat): nat {
    if n == 0 then 1 else 2 * Pow2(n - 1)
  }

  lemma Multiple(d: int, k: int)
    requires d > 0
    ensures k >= 1 ==> d * k >= d
    ensures k <= -1 ==> d * k <= -d
  {
  }

  lemma Remainder(z: int, d: nat, k: int, r: int)
    requires d > 0 && z == d * k + r && 0 <= r < d
    ensures z % d == r
  {
    var q := z / d;
    assert z == d * q + z % d;
    assert d * (k - q) == z % d - r;
    Multiple(d, k - q);
  }

  lemma LowBits(z: int, p: nat)
    requires p > 0
    ensures z % (2 * p) == z % 2 + 2 * (z / 2 % p)
  {
    var q, r := z / 2, z % 2;
    var k, m := q / p, q % p;
    assert q == p * k + m;
    assert z == 2 * (p * k + m) + r == 2 * p * k + (2 * m + r);
    Remainder(z, 2 * p, k, 2 * m + r);
  }

  lemma {:induction false} Pow2Positive(n: nat)
    ensures Pow2(n) > 0
  {
    if n > 0 {
      Pow2Positive(n - 1);
    }
  }

  /** The lowest bits of a number, or with nothing. */
  lemma {:induction false} OrZero(y: int, n: nat)
    ensures Pow2(n) > 0 && Bitwise(Bor, 0, y, n) == y % Pow2(n)
    decreases n
  {
    Pow2Positive(n);
    if n > 0 {
      OrZero(y / 2, n - 1);
      LowBits(y, Pow2(n - 1));
    }
  }

  lemma Pow2Of63()
    ensures Pow2(63) == 0x8000_0000_0000_0000
  {
    assert Pow2(8) == 0x100;
    assert Pow2(16) == 0x1_0000;
    assert Pow2(24) == 0x100_0000;
    assert Pow2(32) == 0x1_0000_0000;
    assert Pow2(40) == 0x100_0000_0000;
    assert Pow2(48) == 0x1_0000_0000_0000;
    assert Pow2(56) == 0x100_0000_0000_0000;
    assert Pow2(63) == 0x8000_0000_0000_0000;
  }

  /** Wrapping yields a small number exactly for what is that number in the lowest 64 bits. */
  lemma WrapOf(x: int)
    ensures Wrap(x) == 0 <==> x % TWO64 == 0
    ensures Wrap(x) == 1 <==> x % TWO64 == 1
  {
  }

  lemma LowestBit(y: int)
    ensures Bitwise(Bor, 1, y, 64) == 1 + 2 * Bitwise(Bor, 0, y / 2, 63)
  {
    hide Wrap;
  }

  lemma UpperBits(y: int)
    ensures var m := Bitwise(Bor, 0, y / 2, 63); 0 <= m < 0x8000_0000_0000_0000 && y % TWO64 == y % 2 + 2 * m
  {
    OrZero(y / 2, 63);
    Pow2Of63();
    LowBits(y, Pow2(63));
    hide Bitwise, Pow2;
  }

  /** A one in the lowest bit is all that is left exactly of zero and of one, in 64 bits. */
  lemma OrOne(y: int)
    ensures Wrap(Bitwise(Bor, 1, y, 64)) == 1 <==> Wrap(y) == 0 || Wrap(y) == 1
  {
    LowestBit(y);
    UpperBits(y);
    hide Bitwise;
    var m := Bitwise(Bor, 0, y / 2, 63);
    WrapOf(1 + 2 * m);
    WrapOf(y);
    hide Wrap;
  }

  // ----- connectives -----

  /** Operands may be integers or booleans. */
  predicate AnyConnective(e: Expr, tenv: TypeEnv) {
    && e.FnCall? && e.callee.SymbolRef? && IsLogic(e.callee.name) && |e.args| == 2
    && TypeOf(e.args[0], tenv).Typed? && TypeOf(e.args[1], tenv).Typed?
  }

  function BitsOf(op: LogicOp): BitBinary {
    if op == And then Band else Bor
  }

  /** The values on which the instruction gives what the runtime's connective gives. */
  predicate SameBits(op: LogicOp, x: Val, y: Val) {
    || (x.BoolV? && y.BoolV?)
    || (x == BoolV(false) && op == And)
    || (x == BoolV(true) && op == Or && y.IntV? && (Wrap(y.i) == 0 || Wrap(y.i) == 1))
  }

  lemma ConnectiveValues(op: LogicOp, x: Val, y: Val)
    ensures var o := Logic(op, x, y);
            o.Value? && Wrap(Bitwise(BitsOf(op), Enc(x), Enc(y), 64)) == Enc(o.v) <==> SameBits(op, x, y)
  {
    if x.BoolV? && y.BoolV? {
      BitwiseOfBits(BitsOf(op), x.b, y.b);
    } else if x.BoolV? && y.IntV? && Decides(op, x) {
      if op == And {
        AndZero(y.i, 64);
      } else {
        OrOne(y.i);
      }
    }
    hide Bitwise, Wrap;
  }

  lemma ConnectiveLowers(e: Expr, c: Ctx, tenv: TypeEnv)
    requires InBlock(c) && AnyConnective(e, tenv) && Knows(c, tenv)
    ensures LowerExpr(e, c).Ok?
  {
    TypedLowers(e.args[0], c, tenv);
    TypedLowers(e.args[1], LowerExpr(e.args[0], c).value.ctx, tenv);
  }

  /** The operation itself never traps: it ends with the bits. */
  lemma BitwiseRuns(name: string, c: Ctx, x: nat, xty: Ty, y: nat, yty: Ty, st: State) returns (end: State)
    requires InBlock(c) && AtEnd(c.b, st) && IsLogic(name) && x in st.vals && y in st.vals
    ensures var r := Combine(name, c, x, xty, y, yty);
            && r.Ok? && Reaches(r.value.ctx.b.blocks, st, end) && AtEnd(r.value.ctx.b, end) && InBlock(r.value.ctx)
            && Keeps(c.b, st, end) && r.value.val in end.vals
            && end.vals[r.value.val] == Wrap(Bitwise(BitsOf(LogicOpOf(name)), st.vals[x], st.vals[y], 64))
  {
    var i := BitBin(c.b.nextVal, BitsOf(LogicOpOf(name)), x, y);
    var d := Define(c.b, i);
    EmitExtends(c.b, i);
    hide Reaches, Wrap, Bitwise;
    end := Exec(i, st);
    RunEmitted(d.blocks, c.b, i, d, st);
  }

  /** Code on its own that ends with a number computes the outcomes which that number stands for. */
  lemma EndDecides(b: Builder, st: State, out: Lowered, end: State, o: Outcome)
    requires st.Running? && InBlock(out.ctx) && Reaches(out.ctx.b.blocks, st, end) && AtEnd(out.ctx.b, end)
    requires Keeps(b, st, end) && out.val in end.vals
    ensures Computes(out.ctx.b.blocks, b, st, out, o) <==> o.Value? && end.vals[out.val] == Enc(o.v)
  {
    AtEndHalted(out.ctx.b, end);
    if Computes(out.ctx.b.blocks, b, st, out, o) {
      var other := EndOf(b, st, out, o);
      OneEnd(out.ctx.b.blocks, st, end, other);
    }
    if o.Value? && end.vals[out.val] == Enc(o.v) {
      assert Done(b, st, out, o.v, end);
    }
    hide Reaches, Halted, Keeps;
  }

  /** A connective is lowered whatever the types of its operands. Its code computes what evaluation gives
      exactly if an operand fails, both are booleans, or the first decides and its bits do as well: false
      before `and` always, true before `or` only in front of zero and one. */
  lemma ConnectiveExact(e: Expr, c: Ctx, tenv: TypeEnv, env: Env, st: State)
    requires InBlock(c) && AnyConnective(e, tenv) && AtEnd(c.b, st) && Agrees(c, tenv, env, st)
    ensures LowerExpr(e, c).Ok?
    ensures var out, ex, ey := LowerExpr(e, c).value, Eval(e.args[0], env), Eval(e.args[1], env);
            Computes(out.ctx.b.blocks, c.b, st, out, Eval(e, env)) <==>
              ex.Fail? || ey.Fail? || SameBits(LogicOpOf(e.callee.name), ex.v, ey.v)
  {
    ConnectiveLowers(e, c, tenv);
    LoweredReady(e, c);
    var out, name := LowerExpr(e, c).value, e.callee.name;
    var code := out.ctx.b.blocks;
    assert Region(code, c.b, out.ctx.b);
    var x, y := BinaryParts(e, c, tenv, env, code);
    var ex, ey := Eval(e.args[0], env), Eval(e.args[1], env);
    assert ex.Value? && ey.Value? ==> Eval(e, env) == Logic(LogicOpOf(name), ex.v, ey.v);
    hide LowerExpr, Eval, Region, Reaches, Keeps, Agrees, Apply2, Combine, TypeOf, Logic, SameBits, Computes;
    var s2 := OperandsCorrect(e, c, tenv, env, code, st, x, y);
    if ex.Value? && ey.Value? {
      var end := BitwiseRuns(name, y.ctx, x.val, x.ty, y.val, y.ty, s2);
      ReachesTrans(code, st, s2, end);
      KeepsTrans(c.b, st, y.ctx.b, s2, end);
      EndDecides(c.b, st, out, end, Eval(e, env));
      ConnectiveValues(LogicOpOf(name), ex.v, ey.v);
    } else {
      FailComputed(code, c.b, st, out);
    }
  }

  lemma FailComputed(code: Code, b: Builder, st: State, out: Lowered)
    requires st.Running? && Reaches(code, st, Trapped)
    ensures Computes(code, b, st, out, Fail)
  {
  }
}
