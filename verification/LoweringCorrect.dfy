/** Running lowered code computes what the boxed runtime operations compute. */
module LoweringCorrect {
  import opened Wrappers
  import opened RuntimeOps
  import opened Ast
  import opened Cfg
  import opened Lowering

  /** How the machine holds a value. */
  function Enc(v: Val): int {
    if v.IntV? then v.i else Bit(v.b)
  }

  /** The lowerer knows the variables of the typing environment. */
  ghost predicate Knows(c: Ctx, tenv: TypeEnv) {
    && c.scope.Keys == tenv.Keys
    && forall name :: name in c.scope ==> c.scope[name].ty == tenv[name] && c.scope[name].id < c.b.nextVar
  }

  /** The machine holds the environment in the lowerer's variables. */
  ghost predicate Agrees(c: Ctx, tenv: TypeEnv, env: Env, st: State)
    requires st.Running?
  {
    && Conforms(env, tenv) && Knows(c, tenv)
    && forall name :: name in c.scope ==> c.scope[name].id in st.vars && st.vars[c.scope[name].id] == Enc(env[name])
  }

  /** The code has run to its end, left the value where it should be and disturbed nothing else. */
  ghost predicate Done(b: Builder, st: State, out: Lowered, v: Val, end: State)
    requires st.Running?
  {
    && AtEnd(out.ctx.b, end)
    && out.val in end.vals && end.vals[out.val] == Enc(v)
    && Keeps(b, st, end)
  }

  /** The code computes the outcome: it ends with the value, or traps where evaluation fails. */
  ghost predicate Computes(code: Code, b: Builder, st: State, out: Lowered, o: Outcome)
    requires st.Running?
  {
    match o
    case Value(v) => exists end :: Reaches(code, st, end) && Done(b, st, out, v, end)
    case Fail => Reaches(code, st, Trapped)
  }

  // ----- typed expressions are lowered -----

  lemma {:induction false} TypedLowers(e: Expr, c: Ctx, tenv: TypeEnv)
    requires InBlock(c) && Knows(c, tenv) && TypeOf(e, tenv).Typed?
    ensures LowerExpr(e, c).Ok? && LowerExpr(e, c).value.ty == TypeOf(e, tenv).ty
    ensures LowerExpr(e, c).value.ty != F64
    ensures Knows(LowerExpr(e, c).value.ctx, tenv)
    decreases e, 1
  {
    match e
    case FnCall(_, _) => TypedLowersCall(e, c, tenv);
    case If(_, _, _) => TypedLowersIf(e, c, tenv);
    case Let(bindings, body) =>
      TypedLowersBindings(bindings, c, tenv);
      var inner := LowerBindings(bindings, c);
      TypedLowers(body, inner.value.ctx, TypeBindings(bindings, tenv).env);
      ScopeRestored(e, c);
    case Do(exprs) =>
      TypedLowersSeq(exprs, c, tenv);
    case _ =>
  }

  lemma {:induction false} TypedLowersCall(e: Expr, c: Ctx, tenv: TypeEnv)
    requires InBlock(c) && Knows(c, tenv) && e.FnCall? && TypeOf(e, tenv).Typed?
    ensures LowerExpr(e, c).Ok? && LowerExpr(e, c).value.ty == TypeOf(e, tenv).ty
    ensures LowerExpr(e, c).value.ty != F64
    ensures Knows(LowerExpr(e, c).value.ctx, tenv)
    decreases e, 0
  {
    TypedLowers(e.args[0], c, tenv);
    if |e.args| == 2 {
      TypedLowers(e.args[1], LowerExpr(e.args[0], c).value.ctx, tenv);
    }
    ScopeRestored(e, c);
  }

  lemma LoweredReady(e: Expr, c: Ctx)
    requires InBlock(c) && LowerExpr(e, c).Ok?
    ensures var out := LowerExpr(e, c).value.ctx; InBlock(out) && out.b.cur < |out.b.blocks|
  {
    hide LowerExpr;
  }

  lemma KnowsGrows(c: Ctx, d: Ctx, tenv: TypeEnv)
    requires Knows(c, tenv) && d.scope == c.scope && Extends(c.b, d.b)
    ensures Knows(d, tenv)
  {
  }

  lemma KnowsEnter(c: Ctx, cond: nat, tenv: TypeEnv)
    requires InBlock(c) && Knows(c, tenv)
    ensures Knows(With(c, EnterThen(c.b, cond)), tenv)
  {
  }

  lemma KnowsLeave(c: Ctx, merge: nat, val: nat, next: nat, tenv: TypeEnv)
    requires c.b.cur < |c.b.blocks| && Knows(c, tenv)
    ensures Knows(With(c, LeaveFor(c.b, merge, val, next)), tenv)
  {
  }

  lemma {:induction false} TypedLowersIf(e: Expr, c: Ctx, tenv: TypeEnv)
    requires InBlock(c) && Knows(c, tenv) && e.If?
    requires TypeOf(e.cond, tenv).Typed? && TypeOf(e.thn, tenv).Typed? && TypeOf(e.els, tenv).Typed?
    ensures LowerExpr(e, c).Ok? && LowerExpr(e, c).value.ty == TypeOf(e.thn, tenv).ty
    ensures LowerExpr(e, c).value.ty != F64
    ensures Knows(LowerExpr(e, c).value.ctx, tenv)
    decreases e, 0
  {
    hide Knows, EnterThen, LeaveFor, AppendParam, Ready, Extends, IfFrame;
    TypedLowers(e.cond, c, tenv);
    LoweredReady(e.cond, c);
    var x := LowerExpr(e.cond, c).value;
    EnterThenReady(x.ctx.b, x.val);
    var ct := With(x.ctx, EnterThen(x.ctx.b, x.val));
    KnowsEnter(x.ctx, x.val, tenv);
    TypedLowers(e.thn, ct, tenv);
    LoweredReady(e.thn, ct);
    var t := LowerExpr(e.thn, ct).value;
    LeaveThenReady(x.ctx.b, x.val, t.ctx.b, t.val);
    var n := |x.ctx.b.blocks|;
    var cf := With(t.ctx, LeaveFor(t.ctx.b, n + 2, t.val, n + 1));
    KnowsLeave(t.ctx, n + 2, t.val, n + 1, tenv);
    TypedLowers(e.els, cf, tenv);
    ScopeRestored(e, c);
    KnowsGrows(c, LowerExpr(e, c).value.ctx, tenv);
  }

  lemma {:induction false} TypedLowersBindings(bindings: seq<Binding>, c: Ctx, tenv: TypeEnv)
    requires InBlock(c) && Knows(c, tenv) && TypeBindings(bindings, tenv).TypedEnv?
    ensures LowerBindings(bindings, c).Ok?
    ensures Knows(LowerBindings(bindings, c).value.ctx, TypeBindings(bindings, tenv).env)
    decreases bindings, 0
  {
    if bindings != [] {
      TypedLowers(bindings[0].value, c, tenv);
      var x := LowerExpr(bindings[0].value, c).value;
      DefineExtends(x.ctx, bindings[0].name, x.val, x.ty);
      TypedLowersBindings(bindings[1..], DefineVariable(x.ctx, bindings[0].name, x.val, x.ty),
                          tenv[bindings[0].name := x.ty]);
    }
  }

  lemma {:induction false} TypedLowersSeq(exprs: seq<Expr>, c: Ctx, tenv: TypeEnv)
    requires InBlock(c) && Knows(c, tenv) && TypeSeq(exprs, tenv).Typed?
    ensures LowerSeq(exprs, c).Ok? && LowerSeq(exprs, c).value.ty == TypeSeq(exprs, tenv).ty
    ensures LowerSeq(exprs, c).value.ty != F64
    ensures Knows(LowerSeq(exprs, c).value.ctx, tenv)
    decreases exprs, 0
  {
    TypedLowers(exprs[0], c, tenv);
    if |exprs| > 1 {
      TypedLowersSeq(exprs[1..], LowerExpr(exprs[0], c).value.ctx, tenv);
    }
  }

  // ----- running straight-line code -----

  /** Runs the next emitted instruction and leaves the rest of the region. */
  lemma Advance(code: Code, b: Builder, i: Instr, next: Builder, end: Builder, st: State)
    requires Ready(b) && next.blocks == Emit(b, i).blocks && next.cur == b.cur
    requires next.nextVal >= b.nextVal && next.nextVar >= b.nextVar
    requires Extends(next, end) && Region(code, b, end) && AtEnd(b, st)
    ensures Reaches(code, st, Exec(i, st)) && Region(code, next, end)
    ensures Exec(i, st).Running? ==> AtEnd(next, Exec(i, st))
  {
    EmitExtends(b, i);
    assert Extends(b, next);
    RegionSplit(code, b, next, end);
    RunEmitted(code, b, i, next, st);
  }

  /** A single defining instruction that yields a value. */
  lemma RunOne(code: Code, c: Ctx, i: Instr, ty: Ty, st: State, v: Val)
    requires InBlock(c) && AtEnd(c.b, st) && Region(code, c.b, Define(c.b, i))
    requires Exec(i, st) == Set(st, c.b.nextVal, Enc(v))
    ensures Computes(code, c.b, st, Value1(c, i, ty), Value(v))
  {
    EmitExtends(c.b, i);
    var next := Define(c.b, i);
    Advance(code, c.b, i, next, next, st);
    assert Done(c.b, st, Value1(c, i, ty), v, Exec(i, st));
  }

  lemma ExecTrapz(x: nat, st: State)
    requires st.Running? && x in st.vals
    ensures Exec(Trapz(x), st) == if st.vals[x] == 0 then Trapped else st.(pc := st.pc + 1)
  {
  }

  lemma ExecTrapnz(x: nat, st: State)
    requires st.Running? && x in st.vals
    ensures Exec(Trapnz(x), st) == if st.vals[x] != 0 then Trapped else st.(pc := st.pc + 1)
  {
  }

  /** What is built after the guard extends each of its steps. */
  lemma GuardSteps(b: Builder, x: nat, y: nat, end: Builder)
    requires Ready(b) && Extends(GuardDivision(b, x, y, I64), end)
    ensures var b1 := Emit(b, Trapz(y));
            var b2 := Define(b1, Iconst(b1.nextVal, I64, I64_MIN));
            var b3 := Define(b2, Iconst(b2.nextVal, I64, -1));
            var b4 := Define(b3, Icmp(b3.nextVal, Eq, x, b1.nextVal));
            var b5 := Define(b4, Icmp(b4.nextVal, Eq, y, b2.nextVal));
            var b6 := Define(b5, BitBin(b5.nextVal, Band, b3.nextVal, b4.nextVal));
            && Ready(b1) && Ready(b6) && GuardDivision(b, x, y, I64) == Emit(b6, Trapnz(b5.nextVal))
            && Extends(b1, end) && Extends(b2, end) && Extends(b3, end) && Extends(b4, end) && Extends(b5, end) && Extends(b6, end)
  {
    var b1 := Emit(b, Trapz(y));
    var i1, g := Iconst(b1.nextVal, I64, I64_MIN), GuardDivision(b, x, y, I64);
    var b2 := Define(b1, i1);
    var i2 := Iconst(b2.nextVal, I64, -1);
    var b3 := Define(b2, i2);
    var i3 := Icmp(b3.nextVal, Eq, x, b1.nextVal);
    var b4 := Define(b3, i3);
    var i4 := Icmp(b4.nextVal, Eq, y, b2.nextVal);
    var b5 := Define(b4, i4);
    var i5 := BitBin(b5.nextVal, Band, b3.nextVal, b4.nextVal);
    var b6 := Define(b5, i5);
    assert g == Emit(b6, Trapnz(b5.nextVal));
    hide GuardDivision, Emit, Define;
    EmitReady(b, Trapz(y));
    DefineReady(b1, i1);
    DefineReady(b2, i2);
    DefineReady(b3, i3);
    DefineReady(b4, i4);
    DefineReady(b5, i5);
    EmitReady(b6, Trapnz(b5.nextVal));
    hide Extends, Ready;
    ExtendsTrans(b6, g, end);
    ExtendsTrans(b5, b6, end);
    ExtendsTrans(b4, b5, end);
    ExtendsTrans(b3, b4, end);
    ExtendsTrans(b2, b3, end);
    ExtendsTrans(b1, b2, end);
  }

  lemma EmitReady(b: Builder, i: Instr)
    requires Ready(b)
    ensures Extends(b, Emit(b, i)) && Ready(Emit(b, i)) && Emit(b, i).cur == b.cur
  {
    EmitExtends(b, i);
  }

  lemma DefineReady(b: Builder, i: Instr)
    requires Ready(b)
    ensures Extends(b, Define(b, i)) && Ready(Define(b, i))
  {
    EmitExtends(b, i);
  }

  /** The guard lets a division through exactly when it has a result. */
  lemma RunGuard(code: Code, b: Builder, x: nat, y: nat, end: Builder, st: State)
    requires Ready(b) && AtEnd(b, st) && Extends(GuardDivision(b, x, y, I64), end) && Region(code, b, end)
    requires x < b.nextVal && y < b.nextVal && x in st.vals && y in st.vals
    ensures st.vals[y] == 0 || (st.vals[x] == I64_MIN && st.vals[y] == -1) ==> Reaches(code, st, Trapped)
    ensures !(st.vals[y] == 0 || (st.vals[x] == I64_MIN && st.vals[y] == -1)) ==>
              exists mid :: Guarded(code, b, GuardDivision(b, x, y, I64), end, st, mid)
  {
    var b1 := Emit(b, Trapz(y));
    var b2 := Define(b1, Iconst(b1.nextVal, I64, I64_MIN));
    var b3 := Define(b2, Iconst(b2.nextVal, I64, -1));
    var b4 := Define(b3, Icmp(b3.nextVal, Eq, x, b1.nextVal));
    var b5 := Define(b4, Icmp(b4.nextVal, Eq, y, b2.nextVal));
    var b6 := Define(b5, BitBin(b5.nextVal, Band, b3.nextVal, b4.nextVal));
    var g := GuardDivision(b, x, y, I64);
    GuardSteps(b, x, y, end);
    hide Region, Reaches, Extends, GuardDivision, Exec;
    ExecTrapz(y, st);
    Advance(code, b, Trapz(y), b1, end, st);
    if st.vals[y] != 0 {
      var s1 := Exec(Trapz(y), st);
      var s6 := RunTests(code, b1, x, y, b2, b3, b4, b5, b6, end, st, s1);
      Advance(code, b6, Trapnz(b5.nextVal), g, end, s6);
      ReachesTrans(code, st, s1, s6);
      ReachesTrans(code, st, s6, Exec(Trapnz(b5.nextVal), s6));
      ExecTrapnz(b5.nextVal, s6);
      if !(st.vals[x] == I64_MIN && st.vals[y] == -1) {
        assert Guarded(code, b, g, end, st, Exec(Trapnz(b5.nextVal), s6));
      }
    }
  }

  ghost predicate Guarded(code: Code, b: Builder, g: Builder, end: Builder, st: State, mid: State)
    requires st.Running?
  {
    Reaches(code, st, mid) && AtEnd(g, mid) && Keeps(b, st, mid) && Region(code, g, end)
  }

  /** The four tests of the guard, each an instruction. */
  lemma RunCompares(code: Code, b1: Builder, x: nat, y: nat, b2: Builder, b3: Builder, b4: Builder, b5: Builder,
                    end: Builder, st: State, s1: State) returns (s5: State)
    requires Ready(b1) && AtEnd(b1, s1) && Region(code, b1, end) && st.Running? && s1.vals == st.vals && s1.vars == st.vars
    requires b2 == Define(b1, Iconst(b1.nextVal, I64, I64_MIN)) && Extends(b2, end)
    requires b3 == Define(b2, Iconst(b2.nextVal, I64, -1)) && Extends(b3, end)
    requires b4 == Define(b3, Icmp(b3.nextVal, Eq, x, b1.nextVal)) && Extends(b4, end)
    requires b5 == Define(b4, Icmp(b4.nextVal, Eq, y, b2.nextVal)) && Extends(b5, end)
    requires x < b1.nextVal && y < b1.nextVal && x in st.vals && y in st.vals
    ensures Ready(b5) && b1.nextVal <= b5.nextVal && b1.nextVar <= b5.nextVar
    ensures Reaches(code, s1, s5) && AtEnd(b5, s5) && Region(code, b5, end) && Keeps(b1, st, s5)
    ensures b3.nextVal in s5.vals && s5.vals[b3.nextVal] == Bit(st.vals[x] == I64_MIN)
    ensures b4.nextVal in s5.vals && s5.vals[b4.nextVal] == Bit(st.vals[y] == -1)
  {
    hide Region, Reaches, Wrap, Bitwise;
    var i1 := Iconst(b1.nextVal, I64, I64_MIN);
    var i2 := Iconst(b2.nextVal, I64, -1);
    var i3 := Icmp(b3.nextVal, Eq, x, b1.nextVal);
    var i4 := Icmp(b4.nextVal, Eq, y, b2.nextVal);
    var s2 := Exec(i1, s1);
    Advance(code, b1, i1, b2, end, s1);
    var s3 := Exec(i2, s2);
    Advance(code, b2, i2, b3, end, s2);
    var s4 := Exec(i3, s3);
    Advance(code, b3, i3, b4, end, s3);
    s5 := Exec(i4, s4);
    Advance(code, b4, i4, b5, end, s4);
    ReachesTrans(code, s1, s2, s3);
    ReachesTrans(code, s1, s3, s4);
    ReachesTrans(code, s1, s4, s5);
  }

  /** The conjunction of two bits. */
  lemma RunBand(code: Code, b: Builder, p: nat, q: nat, pb: bool, qb: bool, end: Builder, st: State) returns (next: State)
    requires Ready(b) && AtEnd(b, st) && Region(code, b, end) && p < b.nextVal && q < b.nextVal
    requires p in st.vals && st.vals[p] == Bit(pb) && q in st.vals && st.vals[q] == Bit(qb)
    requires Extends(Define(b, BitBin(b.nextVal, Band, p, q)), end)
    ensures var c := Define(b, BitBin(b.nextVal, Band, p, q));
            Reaches(code, st, next) && AtEnd(c, next) && Region(code, c, end) && Keeps(b, st, next)
    ensures b.nextVal in next.vals && next.vals[b.nextVal] == Bit(pb && qb)
  {
    ExecBits(b.nextVal, Band, p, q, pb, qb, st);
    hide Region, Reaches, Exec;
    var i := BitBin(b.nextVal, Band, p, q);
    next := Exec(i, st);
    Advance(code, b, i, Define(b, i), end, st);
  }

  lemma RunTests(code: Code, b1: Builder, x: nat, y: nat, b2: Builder, b3: Builder, b4: Builder, b5: Builder, b6: Builder,
                 end: Builder, st: State, s1: State) returns (s6: State)
    requires Ready(b1) && AtEnd(b1, s1) && Region(code, b1, end) && st.Running? && s1.vals == st.vals && s1.vars == st.vars
    requires b2 == Define(b1, Iconst(b1.nextVal, I64, I64_MIN)) && Extends(b2, end)
    requires b3 == Define(b2, Iconst(b2.nextVal, I64, -1)) && Extends(b3, end)
    requires b4 == Define(b3, Icmp(b3.nextVal, Eq, x, b1.nextVal)) && Extends(b4, end)
    requires b5 == Define(b4, Icmp(b4.nextVal, Eq, y, b2.nextVal)) && Extends(b5, end)
    requires b6 == Define(b5, BitBin(b5.nextVal, Band, b3.nextVal, b4.nextVal)) && Extends(b6, end)
    requires x < b1.nextVal && y < b1.nextVal && x in st.vals && y in st.vals
    ensures Reaches(code, s1, s6) && AtEnd(b6, s6) && Region(code, b6, end) && Keeps(b1, st, s6)
    ensures b5.nextVal in s6.vals && s6.vals[b5.nextVal] == Bit(st.vals[x] == I64_MIN && st.vals[y] == -1)
  {
    hide Region, Reaches, Extends, Exec;
    var s5 := RunCompares(code, b1, x, y, b2, b3, b4, b5, end, st, s1);
    s6 := RunBand(code, b5, b3.nextVal, b4.nextVal, st.vals[x] == I64_MIN, st.vals[y] == -1, end, s5);
    ReachesTrans(code, s1, s5, s6);
    KeepsTrans(b1, st, b5, s5, s6);
  }

  /** Computing after a run that kept what was there before. */
  lemma ComputesAfter(code: Code, b: Builder, st: State, b1: Builder, mid: State, out: Lowered, o: Outcome)
    requires st.Running? && mid.Running? && Reaches(code, st, mid) && Keeps(b, st, mid)
    requires b.nextVal <= b1.nextVal && b.nextVar <= b1.nextVar && Computes(code, b1, mid, out, o)
    ensures Computes(code, b, st, out, o)
  {
    match o
    case Value(v) =>
      var end :| Reaches(code, mid, end) && Done(b1, mid, out, v, end);
      ReachesTrans(code, st, mid, end);
      assert Done(b, st, out, v, end);
    case Fail =>
      ReachesTrans(code, st, mid, Trapped);
  }

  lemma DivisionCorrect(op: ArithOp, c: Ctx, x: nat, xv: Val, y: nat, yv: Val, code: Code, st: State)
    requires InBlock(c) && AtEnd(c.b, st) && (op == Div || op == Mod) && xv.IntV? && yv.IntV?
    requires x < c.b.nextVal && y < c.b.nextVal
    requires x in st.vals && y in st.vals && st.vals[x] == xv.i && st.vals[y] == yv.i
    requires var g := GuardDivision(c.b, x, y, I64);
             Region(code, c.b, Define(g, IntBin(g.nextVal, ToInt(op), x, y)))
    ensures var g := With(c, GuardDivision(c.b, x, y, I64));
            Computes(code, c.b, st, Value1(g, IntBin(g.b.nextVal, ToInt(op), x, y), I64), Arith(op, xv, yv))
  {
    var g := GuardDivision(c.b, x, y, I64);
    var i := IntBin(g.nextVal, ToInt(op), x, y);
    GuardExtends(c.b, x, y, I64);
    EmitExtends(g, i);
    RunGuard(code, c.b, x, y, Define(g, i), st);
    if Arith(op, xv, yv).Value? {
      var mid :| Guarded(code, c.b, g, Define(g, i), st, mid);
      RunOne(code, With(c, g), i, I64, mid, Arith(op, xv, yv).v);
      ComputesAfter(code, c.b, st, g, mid, Value1(With(c, g), i, I64), Arith(op, xv, yv));
    }
  }

  lemma CombineCorrect(name: string, c: Ctx, x: nat, xv: Val, y: nat, yv: Val, code: Code, st: State)
    requires InBlock(c) && AtEnd(c.b, st)
    requires x < c.b.nextVal && y < c.b.nextVal
    requires x in st.vals && y in st.vals && st.vals[x] == Enc(xv) && st.vals[y] == Enc(yv)
    requires ResultType(name, Typed(TyOfVal(xv)), Typed(TyOfVal(yv))).Typed?
    requires var r := Combine(name, c, x, TyOfVal(xv), y, TyOfVal(yv));
             r.Ok? && Region(code, c.b, r.value.ctx.b)
    ensures var r := Combine(name, c, x, TyOfVal(xv), y, TyOfVal(yv));
            Computes(code, c.b, st, r.value, Apply2(name, xv, yv))
  {
    if IsArith(name) {
      var op := ArithOpOf(name);
      if op == Div || op == Mod {
        DivisionCorrect(op, c, x, xv, y, yv, code, st);
      } else {
        RunOne(code, c, IntBin(c.b.nextVal, ToInt(op), x, y), I64, st, Arith(op, xv, yv).v);
      }
    } else if IsCmp(name) {
      var cc := CmpOpOf(name);
      RunOne(code, c, Icmp(c.b.nextVal, cc, x, y), I8, st, Compare(cc, xv, yv).v);
    } else {
      var op := LogicOpOf(name);
      ExecBits(c.b.nextVal, if op == And then Band else Bor, x, y, xv.b, yv.b, st);
      hide Exec;
      RunOne(code, c, BitBin(c.b.nextVal, if op == And then Band else Bor, x, y), I8, st, Logic(op, xv, yv).v);
    }
  }

  lemma FlipCorrect(c: Ctx, x: nat, xv: Val, code: Code, st: State)
    requires InBlock(c) && AtEnd(c.b, st) && x < c.b.nextVal && x in st.vals && xv.BoolV? && st.vals[x] == Enc(xv)
    requires Region(code, c.b, Flip(c, x).ctx.b)
    ensures Computes(code, c.b, st, Flip(c, x), LogicNot(xv))
  {
    var one := Iconst(c.b.nextVal, I8, 1);
    var b1 := Define(c.b, one);
    var flip := BitBin(b1.nextVal, Bxor, x, c.b.nextVal);
    EmitExtends(c.b, one);
    EmitExtends(b1, flip);
    Advance(code, c.b, one, b1, Define(b1, flip), st);
    var mid := Exec(one, st);
    ExecBits(b1.nextVal, Bxor, x, c.b.nextVal, xv.b, true, mid);
    hide Exec, Region, Reaches;
    RunOne(code, With(c, b1), flip, I8, mid, LogicNot(xv).v);
    ComputesAfter(code, c.b, st, b1, mid, Flip(c, x), LogicNot(xv));
  }

  // ----- every typed expression -----

  /** Lowered code, wherever it is placed and whatever is built after it, runs from the point where
      it was emitted to the value that evaluation gives, and traps exactly when evaluation fails. */
  lemma {:induction false} LoweringCorrect(e: Expr, c: Ctx, tenv: TypeEnv, env: Env, code: Code, st: State)
    requires InBlock(c) && TypeOf(e, tenv).Typed? && AtEnd(c.b, st) && Agrees(c, tenv, env, st)
    requires LowerExpr(e, c).Ok? && Region(code, c.b, LowerExpr(e, c).value.ctx.b)
    ensures Computes(code, c.b, st, LowerExpr(e, c).value, Eval(e, env))
    decreases e, 1
  {
    match e
    case IntLit(i) =>
      RunOne(code, c, Iconst(c.b.nextVal, I64, i), I64, st, IntV(i));
    case BoolLit(v) =>
      RunOne(code, c, Iconst(c.b.nextVal, I8, Bit(v)), I8, st, BoolV(v));
    case SymbolRef(name) =>
      RunOne(code, c, UseVar(c.b.nextVal, c.scope[name].id), c.scope[name].ty, st, env[name]);
    case FnCall(_, _) =>
      CallCorrect(e, c, tenv, env, code, st);
    case If(_, _, _) =>
      IfCorrect(e, c, tenv, env, code, st);
    case Let(bindings, body) =>
      LetCorrect(e, c, tenv, env, code, st);
    case Do(exprs) =>
      SeqCorrect(exprs, c, tenv, env, code, st);
    case _ =>
  }

  /** The machine still holds the environment after a lowered subexpression has run. */
  lemma AgreesAfter(e: Expr, c: Ctx, tenv: TypeEnv, env: Env, st: State, v: Val, end: State)
    requires InBlock(c) && LowerExpr(e, c).Ok? && st.Running? && Agrees(c, tenv, env, st)
    requires Done(c.b, st, LowerExpr(e, c).value, v, end)
    ensures Agrees(LowerExpr(e, c).value.ctx, tenv, env, end)
  {
    ScopeRestored(e, c);
  }

  lemma {:induction false} CallCorrect(e: Expr, c: Ctx, tenv: TypeEnv, env: Env, code: Code, st: State)
    requires InBlock(c) && TypeOf(e, tenv).Typed? && AtEnd(c.b, st) && Agrees(c, tenv, env, st) && e.FnCall?
    requires LowerExpr(e, c).Ok? && Region(code, c.b, LowerExpr(e, c).value.ctx.b)
    ensures Computes(code, c.b, st, LowerExpr(e, c).value, Eval(e, env))
    decreases e, 0
  {
    if |e.args| == 1 {
      UnaryCorrect(e, c, tenv, env, code, st);
    } else {
      BinaryCorrect(e, c, tenv, env, code, st);
    }
  }

  /** The parts of a lowered negation and how they lie in the code. */
  lemma UnaryParts(e: Expr, c: Ctx, tenv: TypeEnv, env: Env, code: Code) returns (x: Lowered)
    requires InBlock(c) && TypeOf(e, tenv).Typed? && Knows(c, tenv) && Conforms(env, tenv)
    requires e.FnCall? && |e.args| == 1
    requires LowerExpr(e, c).Ok? && Region(code, c.b, LowerExpr(e, c).value.ctx.b)
    ensures LowerExpr(e.args[0], c) == Ok(x) && TypeOf(e.args[0], tenv).Typed? && Region(code, c.b, x.ctx.b)
    ensures InBlock(x.ctx) && x.val < x.ctx.b.nextVal && LowerExpr(e, c) == Ok(Flip(x.ctx, x.val))
    ensures c.b.nextVal <= x.ctx.b.nextVal && c.b.nextVar <= x.ctx.b.nextVar
    ensures Region(code, x.ctx.b, LowerExpr(e, c).value.ctx.b)
    ensures var ex := Eval(e.args[0], env);
            (ex.Value? ==> ex.v.BoolV?) && Eval(e, env) == if ex.Fail? then Fail else LogicNot(ex.v)
  {
    x := LowerExpr(e.args[0], c).value;
    TypedLowers(e.args[0], c, tenv);
    TypeSound(e.args[0], env, tenv);
    FlipExtends(x.ctx, x.val);
    RegionSplit(code, c.b, x.ctx.b, LowerExpr(e, c).value.ctx.b);
  }

  lemma {:induction false} UnaryCorrect(e: Expr, c: Ctx, tenv: TypeEnv, env: Env, code: Code, st: State)
    requires InBlock(c) && TypeOf(e, tenv).Typed? && AtEnd(c.b, st) && Agrees(c, tenv, env, st)
    requires e.FnCall? && |e.args| == 1
    requires LowerExpr(e, c).Ok? && Region(code, c.b, LowerExpr(e, c).value.ctx.b)
    ensures Computes(code, c.b, st, LowerExpr(e, c).value, Eval(e, env))
    decreases e, 0, 0
  {
    var x := UnaryParts(e, c, tenv, env, code);
    hide LowerExpr, Eval, TypeOf, Region, Reaches, Keeps, Agrees, Flip, LogicNot;
    var ex := Eval(e.args[0], env);
    LoweringCorrect(e.args[0], c, tenv, env, code, st);
    if ex.Value? {
      var end :| Reaches(code, st, end) && Done(c.b, st, x, ex.v, end);
      FlipCorrect(x.ctx, x.val, ex.v, code, end);
      ComputesAfter(code, c.b, st, x.ctx.b, end, Flip(x.ctx, x.val), LogicNot(ex.v));
    }
  }

  /** The parts of a lowered binary operation and how they lie in the code. */
  lemma BinaryParts(e: Expr, c: Ctx, tenv: TypeEnv, env: Env, code: Code) returns (x: Lowered, y: Lowered)
    requires InBlock(c) && Knows(c, tenv) && Conforms(env, tenv) && e.FnCall? && |e.args| == 2 && e.callee.SymbolRef?
    requires TypeOf(e.args[0], tenv).Typed? && TypeOf(e.args[1], tenv).Typed?
    requires LowerExpr(e, c).Ok? && Region(code, c.b, LowerExpr(e, c).value.ctx.b)
    ensures LowerExpr(e.args[0], c) == Ok(x) && Region(code, c.b, x.ctx.b)
    ensures InBlock(x.ctx) && LowerExpr(e.args[1], x.ctx) == Ok(y) && Region(code, x.ctx.b, y.ctx.b)
    ensures c.b.nextVal <= x.ctx.b.nextVal <= y.ctx.b.nextVal && c.b.nextVar <= x.ctx.b.nextVar <= y.ctx.b.nextVar
    ensures x.val < x.ctx.b.nextVal && y.val < y.ctx.b.nextVal && InBlock(y.ctx)
    ensures Combine(e.callee.name, y.ctx, x.val, x.ty, y.val, y.ty) == LowerExpr(e, c)
    ensures Region(code, y.ctx.b, LowerExpr(e, c).value.ctx.b)
    ensures TypeOf(e.args[0], tenv) == Typed(x.ty) && TypeOf(e.args[1], tenv) == Typed(y.ty)
    ensures var ex, ey := Eval(e.args[0], env), Eval(e.args[1], env);
            && Eval(e, env) == (if ex.Fail? || ey.Fail? then Fail else Apply2(e.callee.name, ex.v, ey.v))
            && (ex.Value? ==> TyOfVal(ex.v) == x.ty) && (ey.Value? ==> TyOfVal(ey.v) == y.ty)
  {
    x := LowerExpr(e.args[0], c).value;
    y := LowerExpr(e.args[1], x.ctx).value;
    var out := LowerExpr(e, c).value;
    TypedLowers(e.args[0], c, tenv);
    TypedLowers(e.args[1], x.ctx, tenv);
    TypeSound(e.args[0], env, tenv);
    TypeSound(e.args[1], env, tenv);
    CombineExtends(e.callee.name, y.ctx, x.val, x.ty, y.val, y.ty);
    hide Region, Extends, Knows, Conforms, Combine, ResultType, Apply2;
    BinaryRegions(code, c.b, x.ctx.b, y.ctx.b, out.ctx.b);
  }

  lemma BinaryRegions(code: Code, b: Builder, c: Builder, d: Builder, end: Builder)
    requires Extends(b, c) && Extends(c, d) && Extends(d, end) && Region(code, b, end)
    ensures Region(code, b, c) && Region(code, c, d) && Region(code, d, end)
    ensures b.nextVal <= c.nextVal <= d.nextVal && b.nextVar <= c.nextVar <= d.nextVar
  {
    ExtendsTrans(c, d, end);
    RegionSplit(code, b, c, end);
    RegionSplit(code, c, d, end);
  }

  /** Runs both operands, up to the operation itself or to the first failure. */
  lemma {:induction false} OperandsCorrect(e: Expr, c: Ctx, tenv: TypeEnv, env: Env, code: Code, st: State, x: Lowered, y: Lowered)
    returns (s2: State)
    requires InBlock(c) && AtEnd(c.b, st) && Agrees(c, tenv, env, st) && e.FnCall? && |e.args| == 2
    requires TypeOf(e.args[0], tenv).Typed? && TypeOf(e.args[1], tenv).Typed?
    requires LowerExpr(e.args[0], c) == Ok(x) && InBlock(x.ctx) && LowerExpr(e.args[1], x.ctx) == Ok(y)
    requires Region(code, c.b, x.ctx.b) && Region(code, x.ctx.b, y.ctx.b) && x.val < x.ctx.b.nextVal
    requires c.b.nextVal <= x.ctx.b.nextVal && c.b.nextVar <= x.ctx.b.nextVar
    ensures var ex, ey := Eval(e.args[0], env), Eval(e.args[1], env);
            if ex.Fail? || ey.Fail? then Reaches(code, st, Trapped)
            else
              && Reaches(code, st, s2) && AtEnd(y.ctx.b, s2) && Keeps(c.b, st, s2)
              && x.val in s2.vals && s2.vals[x.val] == Enc(ex.v) && y.val in s2.vals && s2.vals[y.val] == Enc(ey.v)
    decreases e, 0, 0, 0
  {
    hide LowerExpr, Eval, TypeOf, Region, Reaches, Keeps, Agrees;
    s2 := st;
    var ex, ey := Eval(e.args[0], env), Eval(e.args[1], env);
    LoweringCorrect(e.args[0], c, tenv, env, code, st);
    if ex.Value? {
      var s1 := Ran(code, c.b, st, x, ex.v);
      AgreesAfter(e.args[0], c, tenv, env, st, ex.v, s1);
      LoweringCorrect(e.args[1], x.ctx, tenv, env, code, s1);
      if ey.Value? {
        s2 := Ran(code, x.ctx.b, s1, y, ey.v);
        StillThere(x, ex.v, s1, s2);
        ReachesTrans(code, st, s1, s2);
        KeepsTrans(c.b, st, x.ctx.b, s1, s2);
      } else {
        ReachesTrans(code, st, s1, Trapped);
      }
    }
  }

  lemma {:induction false} BinaryCorrect(e: Expr, c: Ctx, tenv: TypeEnv, env: Env, code: Code, st: State)
    requires InBlock(c) && TypeOf(e, tenv).Typed? && AtEnd(c.b, st) && Agrees(c, tenv, env, st)
    requires e.FnCall? && |e.args| == 2
    requires LowerExpr(e, c).Ok? && Region(code, c.b, LowerExpr(e, c).value.ctx.b)
    ensures Computes(code, c.b, st, LowerExpr(e, c).value, Eval(e, env))
    decreases e, 0, 0
  {
    var x, y := BinaryParts(e, c, tenv, env, code);
    hide LowerExpr, Eval, Region, Reaches, Keeps, Agrees, Combine, Apply2;
    var out := LowerExpr(e, c).value;
    var ex, ey, name := Eval(e.args[0], env), Eval(e.args[1], env), e.callee.name;
    assert ResultType(name, Typed(x.ty), Typed(y.ty)).Typed?;
    hide TypeOf, ResultType;
    var s2 := OperandsCorrect(e, c, tenv, env, code, st, x, y);
    if ex.Value? && ey.Value? {
      CombineCorrect(name, y.ctx, x.val, ex.v, y.val, ey.v, code, s2);
      ComputesAfter(code, c.b, st, y.ctx.b, s2, out, Apply2(name, ex.v, ey.v));
    }
  }

  lemma StillThere(x: Lowered, v: Val, s1: State, s2: State)
    requires s1.Running? && s2.Running? && x.val in s1.vals && s1.vals[x.val] == Enc(v)
    requires x.val < x.ctx.b.nextVal && Keeps(x.ctx.b, s1, s2)
    ensures x.val in s2.vals && s2.vals[x.val] == Enc(v)
  {
  }

  /** The parts of a lowered sequence and how they lie in the code. */
  lemma SeqParts(exprs: seq<Expr>, c: Ctx, tenv: TypeEnv, env: Env, code: Code) returns (x: Lowered)
    requires |exprs| > 1 && InBlock(c) && TypeSeq(exprs, tenv).Typed?
    requires LowerSeq(exprs, c).Ok? && Region(code, c.b, LowerSeq(exprs, c).value.ctx.b)
    ensures LowerExpr(exprs[0], c) == Ok(x) && TypeOf(exprs[0], tenv).Typed? && InBlock(x.ctx)
    ensures LowerSeq(exprs[1..], x.ctx) == LowerSeq(exprs, c) && TypeSeq(exprs[1..], tenv).Typed?
    ensures Region(code, c.b, x.ctx.b) && Region(code, x.ctx.b, LowerSeq(exprs, c).value.ctx.b)
    ensures c.b.nextVal <= x.ctx.b.nextVal && c.b.nextVar <= x.ctx.b.nextVar
    ensures var ex := Eval(exprs[0], env); EvalSeq(exprs, env) == if ex.Fail? then Fail else EvalSeq(exprs[1..], env)
  {
    x := LowerExpr(exprs[0], c).value;
    hide Region, LowerExpr, TypeOf, Eval;
    RegionSplit(code, c.b, x.ctx.b, LowerSeq(exprs, c).value.ctx.b);
  }

  lemma {:induction false} SeqCorrect(exprs: seq<Expr>, c: Ctx, tenv: TypeEnv, env: Env, code: Code, st: State)
    requires InBlock(c) && TypeSeq(exprs, tenv).Typed? && AtEnd(c.b, st) && Agrees(c, tenv, env, st)
    requires LowerSeq(exprs, c).Ok? && Region(code, c.b, LowerSeq(exprs, c).value.ctx.b)
    ensures Computes(code, c.b, st, LowerSeq(exprs, c).value, EvalSeq(exprs, env))
    decreases exprs, 0
  {
    if |exprs| == 1 {
      LoweringCorrect(exprs[0], c, tenv, env, code, st);
    } else {
      var x := SeqParts(exprs, c, tenv, env, code);
      hide Region, Reaches, Keeps, Agrees, LowerExpr, LowerSeq, TypeOf, TypeSeq, Eval, EvalSeq, Extends;
      LoweringCorrect(exprs[0], c, tenv, env, code, st);
      var ex := Eval(exprs[0], env);
      if ex.Value? {
        var s1 :| Reaches(code, st, s1) && Done(c.b, st, x, ex.v, s1);
        AgreesAfter(exprs[0], c, tenv, env, st, ex.v, s1);
        SeqCorrect(exprs[1..], x.ctx, tenv, env, code, s1);
        ComputesAfter(code, c.b, st, x.ctx.b, s1, LowerSeq(exprs, c).value, EvalSeq(exprs[1..], env));
      }
    }
  }

  /** Running the bindings leaves the machine holding the extended environment. */
  ghost predicate Bindings(code: Code, b: Builder, st: State, c: Ctx, tenv: TypeEnv, env: Env, end: State)
    requires st.Running?
  {
    Reaches(code, st, end) && AtEnd(c.b, end) && Keeps(b, st, end) && Agrees(c, tenv, env, end)
  }

  /** The parts of the first binding and how they lie in the code. */
  lemma BindingParts(bindings: seq<Binding>, c: Ctx, tenv: TypeEnv, env: Env, code: Code) returns (x: Lowered, d: Ctx)
    requires bindings != [] && InBlock(c) && TypeBindings(bindings, tenv).TypedEnv? && Knows(c, tenv)
    requires LowerBindings(bindings, c).Ok? && Region(code, c.b, LowerBindings(bindings, c).value.ctx.b)
    ensures var name, value, r := bindings[0].name, bindings[0].value, LowerBindings(bindings, c).value;
            && LowerExpr(value, c) == Ok(x) && TypeOf(value, tenv) == Typed(x.ty) && Region(code, c.b, x.ctx.b)
            && InBlock(x.ctx) && d == DefineVariable(x.ctx, name, x.val, x.ty) && InBlock(d)
            && LowerBindings(bindings[1..], d).Ok? && LowerBindings(bindings[1..], d).value.ctx == r.ctx
            && Extends(d.b, r.ctx.b) && Region(code, x.ctx.b, r.ctx.b)
            && TypeBindings(bindings[1..], tenv[name := x.ty]) == TypeBindings(bindings, tenv)
            && c.b.nextVal <= x.ctx.b.nextVal <= d.b.nextVal && c.b.nextVar <= x.ctx.b.nextVar <= d.b.nextVar
    ensures var ex := Eval(bindings[0].value, env);
            EvalBindings(bindings, env) ==
              if ex.Fail? then BindFail else EvalBindings(bindings[1..], env[bindings[0].name := ex.v])
  {
    var name, value := bindings[0].name, bindings[0].value;
    x := LowerExpr(value, c).value;
    d := DefineVariable(x.ctx, name, x.val, x.ty);
    var last := LowerBindings(bindings, c).value.ctx.b;
    TypedLowers(value, c, tenv);
    DefineExtends(x.ctx, name, x.val, x.ty);
    hide Region, Knows;
    ExtendsTrans(x.ctx.b, d.b, last);
    RegionSplit(code, c.b, x.ctx.b, last);
  }

  lemma {:induction false} BindingsCorrect(bindings: seq<Binding>, c: Ctx, tenv: TypeEnv, env: Env, code: Code, st: State)
    requires InBlock(c) && TypeBindings(bindings, tenv).TypedEnv? && AtEnd(c.b, st) && Agrees(c, tenv, env, st)
    requires LowerBindings(bindings, c).Ok? && Region(code, c.b, LowerBindings(bindings, c).value.ctx.b)
    ensures var r, o := LowerBindings(bindings, c).value, EvalBindings(bindings, env);
            if o.BindFail? then Reaches(code, st, Trapped)
            else exists end :: Bindings(code, c.b, st, r.ctx, TypeBindings(bindings, tenv).env, o.env, end)
    decreases bindings, 0
  {
    if bindings == [] {
      ReachesSelf(code, st);
      assert Bindings(code, c.b, st, c, tenv, env, st);
    } else {
      var name, value := bindings[0].name, bindings[0].value;
      var x, d := BindingParts(bindings, c, tenv, env, code);
      hide LowerExpr, LowerBindings, Eval, EvalBindings, TypeOf, TypeBindings, Region, Reaches, Agrees, Extends, DefineVariable;
      LoweringCorrect(value, c, tenv, env, code, st);
      var ex, r := Eval(value, env), LowerBindings(bindings, c).value;
      if ex.Value? {
        var s1 :| Reaches(code, st, s1) && Done(c.b, st, x, ex.v, s1);
        AgreesAfter(value, c, tenv, env, st, ex.v, s1);
        var s2 := Bind(code, c, value, name, tenv, env, r.ctx.b, s1, x, ex.v);
        BindingsCorrect(bindings[1..], d, tenv[name := x.ty], env[name := ex.v], code, s2);
        ReachesTrans(code, st, s1, s2);
        KeepsTrans(c.b, st, x.ctx.b, s1, s2);
        if EvalBindings(bindings, env).BindFail? {
          ReachesTrans(code, st, s2, Trapped);
        } else {
          BindingsAfter(code, c.b, st, d.b, s2, r.ctx, TypeBindings(bindings, tenv).env, EvalBindings(bindings, env).env);
        }
      }
    }
  }

  lemma KeepsTrans(b: Builder, st: State, c: Builder, s1: State, s2: State)
    requires st.Running? && s1.Running? && s2.Running? && Keeps(b, st, s1) && Keeps(c, s1, s2)
    requires b.nextVal <= c.nextVal && b.nextVar <= c.nextVar
    ensures Keeps(b, st, s2)
  {
  }

  lemma BindingsAfter(code: Code, b: Builder, st: State, d: Builder, mid: State, c: Ctx, tenv: TypeEnv, env: Env)
    requires st.Running? && mid.Running? && Reaches(code, st, mid) && Keeps(b, st, mid)
    requires b.nextVal <= d.nextVal && b.nextVar <= d.nextVar
    requires exists end :: Bindings(code, d, mid, c, tenv, env, end)
    ensures exists end :: Bindings(code, b, st, c, tenv, env, end)
  {
    var end :| Bindings(code, d, mid, c, tenv, env, end);
    ReachesTrans(code, st, mid, end);
    KeepsTrans(b, st, d, mid, end);
    assert Bindings(code, b, st, c, tenv, env, end);
  }

  /** Runs the definition of one variable. */
  lemma Bind(code: Code, c: Ctx, value: Expr, name: string, tenv: TypeEnv, env: Env, last: Builder, s1: State, x: Lowered, v: Val)
    returns (s2: State)
    requires InBlock(c) && TypeOf(value, tenv).Typed? && LowerExpr(value, c) == Ok(x) && Knows(c, tenv)
    requires AtEnd(x.ctx.b, s1) && Agrees(x.ctx, tenv, env, s1) && x.val in s1.vals && s1.vals[x.val] == Enc(v)
    requires Eval(value, env) == Value(v)
    requires Extends(DefineVariable(x.ctx, name, x.val, x.ty).b, last) && Region(code, x.ctx.b, last)
    ensures Reaches(code, s1, s2) && AtEnd(DefineVariable(x.ctx, name, x.val, x.ty).b, s2)
    ensures Keeps(x.ctx.b, s1, s2) && Region(code, DefineVariable(x.ctx, name, x.val, x.ty).b, last)
    ensures Agrees(DefineVariable(x.ctx, name, x.val, x.ty), tenv[name := x.ty], env[name := v], s2)
    ensures TypeOf(value, tenv) == Typed(x.ty)
  {
    var def := DefVar(x.ctx.b.nextVar, x.val);
    var d := DefineVariable(x.ctx, name, x.val, x.ty);
    TypedLowers(value, c, tenv);
    TypeSound(value, env, tenv);
    Advance(code, x.ctx.b, def, d.b, last, s1);
    s2 := Exec(def, s1);
    Defined(x.ctx, name, x.val, x.ty, tenv, env, s1, v);
    hide *;
  }

  /** After the definition the machine holds the extended environment. */
  lemma Defined(c: Ctx, name: string, val: nat, ty: Ty, tenv: TypeEnv, env: Env, st: State, v: Val)
    requires InBlock(c) && st.Running? && Agrees(c, tenv, env, st) && val in st.vals && st.vals[val] == Enc(v)
    requires TyOfVal(v) == ty
    ensures var end := Exec(DefVar(c.b.nextVar, val), st);
            && end.Running? && Keeps(c.b, st, end)
            && Agrees(DefineVariable(c, name, val, ty), tenv[name := ty], env[name := v], end)
  {
  }

  lemma {:induction false} LetCorrect(e: Expr, c: Ctx, tenv: TypeEnv, env: Env, code: Code, st: State)
    requires InBlock(c) && TypeOf(e, tenv).Typed? && AtEnd(c.b, st) && Agrees(c, tenv, env, st) && e.Let?
    requires LowerExpr(e, c).Ok? && Region(code, c.b, LowerExpr(e, c).value.ctx.b)
    ensures Computes(code, c.b, st, LowerExpr(e, c).value, Eval(e, env))
    decreases e, 0
  {
    var inner := LowerBindings(e.bindings, c).value;
    var r := LowerExpr(e.body, inner.ctx).value;
    var out := LowerExpr(e, c).value;
    RegionSplit(code, c.b, inner.ctx.b, out.ctx.b);
    BindingsCorrect(e.bindings, c, tenv, env, code, st);
    var o := EvalBindings(e.bindings, env);
    if o.Bound? {
      var t := TypeBindings(e.bindings, tenv).env;
      var mid :| Bindings(code, c.b, st, inner.ctx, t, o.env, mid);
      LoweringCorrect(e.body, inner.ctx, t, o.env, code, mid);
      ComputesAfter(code, c.b, st, inner.ctx.b, mid, r, Eval(e.body, o.env));
      assert Computes(code, c.b, st, out, Eval(e.body, o.env)) by {
        if Eval(e.body, o.env).Value? {
          var v := Eval(e.body, o.env).v;
          var end :| Reaches(code, st, end) && Done(c.b, st, r, v, end);
          assert Done(c.b, st, out, v, end);
        }
      }
    }
  }

  // ----- conditionals -----

  /** The merged builder of a conditional, as `LowerIf` makes it. */
  function Merged(b: Builder, f: Builder, fval: nat): Builder
    requires f.cur < |f.blocks| && |b.blocks| + 2 < |f.blocks|
  {
    AppendParam(LeaveFor(f, |b.blocks| + 2, fval, |b.blocks| + 2), |b.blocks| + 2)
  }

  /** Where the code has the branch, both jumps and the merge point of a conditional, and that it
      contains both branches. */
  lemma IfRegions(code: Code, b: Builder, cond: nat, t: Builder, tval: nat, f: Builder, fval: nat)
    requires Ready(b) && Extends(EnterThen(b, cond), t)
    requires Extends(LeaveFor(t, |b.blocks| + 2, tval, |b.blocks| + 1), f)
    requires |b.blocks| + 2 < |f.blocks| && Region(code, b, Merged(b, f, fval))
    ensures var n := |b.blocks|;
            && n + 2 < |code| && code[n + 2].param == Param(f.nextVal)
            && b.cur < |code| && t.cur < |code| && f.cur < |code|
            && code[b.cur] == b.blocks[b.cur].(term := Brif(cond, n, n + 1))
            && Region(code, EnterThen(b, cond), t)
            && code[t.cur] == t.blocks[t.cur].(term := Jump(n + 2, tval))
            && Region(code, LeaveFor(t, n + 2, tval, n + 1), f)
            && code[f.cur] == f.blocks[f.cur].(term := Jump(n + 2, fval))
  {
    ThenRegion(code, b, cond, t, tval, f, fval);
    var n := |b.blocks|;
    var m := Merged(b, f, fval);
    assert m.blocks[b.cur] == b.blocks[b.cur].(term := Brif(cond, n, n + 1));
    assert code[n + 2].param == m.blocks[n + 2].param;
  }

  lemma ThenRegion(code: Code, b: Builder, cond: nat, t: Builder, tval: nat, f: Builder, fval: nat)
    requires Ready(b) && Extends(EnterThen(b, cond), t)
    requires Extends(LeaveFor(t, |b.blocks| + 2, tval, |b.blocks| + 1), f)
    requires |b.blocks| + 2 < |f.blocks| && Region(code, b, Merged(b, f, fval))
    ensures var n := |b.blocks|;
            && Region(code, EnterThen(b, cond), t)
            && code[t.cur] == t.blocks[t.cur].(term := Jump(n + 2, tval))
            && Region(code, LeaveFor(t, n + 2, tval, n + 1), f)
            && code[f.cur] == f.blocks[f.cur].(term := Jump(n + 2, fval))
  {
    var n := |b.blocks|;
    var m := Merged(b, f, fval);
    var bf := LeaveFor(t, n + 2, tval, n + 1);
    assert forall i :: n <= i < |m.blocks| && i != n + 2 ==> code[i] == m.blocks[i];
    assert forall i :: n <= i < |m.blocks| && i != n + 2 && i != f.cur ==> m.blocks[i] == f.blocks[i];
    assert forall i :: 0 <= i < |bf.blocks| && i != n + 1 ==> f.blocks[i] == bf.blocks[i];
    assert bf.blocks[t.cur] == t.blocks[t.cur].(term := Jump(n + 2, tval));
  }

  /** Finishing a branch: its jump carries the value to the merge point. */
  lemma RunJump(code: Code, b: Builder, st: State, t: Lowered, v: Val, end: State, out: Lowered)
    requires InBlock(t.ctx) && st.Running? && Done(b, st, t, v, end) && out.ctx.b.cur < |code| && InBlock(out.ctx)
    requires t.ctx.b.cur < |code|
    requires code[t.ctx.b.cur] == t.ctx.b.blocks[t.ctx.b.cur].(term := Jump(out.ctx.b.cur, t.val))
    requires code[out.ctx.b.cur].param == Param(out.val) && out.ctx.b.blocks[out.ctx.b.cur].instrs == []
    requires out.val >= b.nextVal
    ensures Reaches(code, end, Step(code, end)) && Done(b, st, out, v, Step(code, end))
  {
    ReachesStep(code, end);
  }

  /** The pieces of a lowered conditional. */
  datatype IfPieces = IfPieces(x: Lowered, ct: Ctx, t: Lowered, cf: Ctx, f: Lowered)

  ghost predicate IsIf(e: Expr, c: Ctx, p: IfPieces)
    requires InBlock(c) && e.If?
  {
    && LowerExpr(e.cond, c) == Ok(p.x) && InBlock(p.x.ctx)
    && p.ct == With(p.x.ctx, EnterThen(p.x.ctx.b, p.x.val)) && InBlock(p.ct)
    && LowerExpr(e.thn, p.ct) == Ok(p.t) && InBlock(p.t.ctx)
    && p.cf == With(p.t.ctx, LeaveFor(p.t.ctx.b, |p.x.ctx.b.blocks| + 2, p.t.val, |p.x.ctx.b.blocks| + 1))
    && InBlock(p.cf) && LowerExpr(e.els, p.cf) == Ok(p.f) && InBlock(p.f.ctx)
    && |p.x.ctx.b.blocks| + 2 < |p.f.ctx.b.blocks|
    && LowerExpr(e, c).Ok?
    && LowerExpr(e, c).value.ctx.b == Merged(p.x.ctx.b, p.f.ctx.b, p.f.val)
    && LowerExpr(e, c).value.val == p.f.ctx.b.nextVal
  }

  lemma TakeApart(e: Expr, c: Ctx) returns (p: IfPieces)
    requires InBlock(c) && e.If? && LowerExpr(e, c).Ok?
    ensures IsIf(e, c, p)
  {
    hide Ready, Extends, IfFrame, EnterThen, LeaveFor, AppendParam;
    var x := LowerExpr(e.cond, c).value;
    LoweredReady(e.cond, c);
    var b, n := x.ctx.b, |x.ctx.b.blocks|;
    EnterThenReady(b, x.val);
    var ct := With(x.ctx, EnterThen(b, x.val));
    var t := LowerExpr(e.thn, ct).value;
    LoweredReady(e.thn, ct);
    LeaveThenReady(b, x.val, t.ctx.b, t.val);
    var cf := With(t.ctx, LeaveFor(t.ctx.b, n + 2, t.val, n + 1));
    var f := LowerExpr(e.els, cf).value;
    LoweredReady(e.els, cf);
    MergedFrame(b, x.val, t.ctx.b, t.val, f.ctx.b, f.val);
    p := IfPieces(x, ct, t, cf, f);
    MergedIs(b, f.ctx.b, f.val);
  }

  /** The merged builder takes its result from the next value of the second branch. */
  lemma MergedIs(b: Builder, f: Builder, fval: nat)
    requires f.cur < |f.blocks| && |b.blocks| + 2 < |f.blocks|
    ensures var m := LeaveFor(f, |b.blocks| + 2, fval, |b.blocks| + 2);
            |b.blocks| + 2 < |m.blocks| && m.nextVal == f.nextVal && Merged(b, f, fval) == AppendParam(m, |b.blocks| + 2)
  {
  }

  /** How the pieces lie in the code and which identifiers they may use. */
  ghost predicate Placed(e: Expr, c: Ctx, p: IfPieces, code: Code)
    requires InBlock(c) && e.If? && IsIf(e, c, p)
  {
    var out := LowerExpr(e, c).value;
    && Joined(code, p, |p.x.ctx.b.blocks|) && Region(code, c.b, p.x.ctx.b)
    && InOrder(c.b, p.x.ctx.b) && InOrder(p.x.ctx.b, p.ct.b) && InOrder(p.ct.b, p.cf.b) && InOrder(p.cf.b, p.f.ctx.b)
    && InBlock(out.ctx) && out.ctx.b.cur == |p.x.ctx.b.blocks| + 2 && out.ctx.b.blocks[out.ctx.b.cur].instrs == []
  }

  /** The branch at `n`, both sides and the jumps to where they meet. */
  ghost predicate Joined(code: Code, p: IfPieces, n: nat) {
    var b, t, f := p.x.ctx.b, p.t.ctx.b, p.f.ctx.b;
    && Region(code, p.ct.b, t) && Region(code, p.cf.b, f) && Extends(p.ct.b, t)
    && n + 2 < |code| && code[n + 2].param == Param(f.nextVal)
    && b.cur < |code| && t.cur < |code| && f.cur < |code|
    && b.cur < |b.blocks| && t.cur < |t.blocks| && f.cur < |f.blocks|
    && code[b.cur] == b.blocks[b.cur].(term := Brif(p.x.val, n, n + 1))
    && code[t.cur] == t.blocks[t.cur].(term := Jump(n + 2, p.t.val))
    && code[f.cur] == f.blocks[f.cur].(term := Jump(n + 2, p.f.val))
  }

  lemma MergedFrame(b: Builder, cond: nat, t: Builder, tval: nat, f: Builder, fval: nat)
    requires Ready(b) && Extends(EnterThen(b, cond), t)
    requires Extends(LeaveFor(t, |b.blocks| + 2, tval, |b.blocks| + 1), f)
    ensures |b.blocks| + 2 < |f.blocks| && f.cur < |f.blocks| && IfFrame(b, cond, Merged(b, f, fval))
  {
    IfExtends(b, cond, t, tval, f, fval);
    assert Ready(f);
    hide EnterThen, LeaveFor, AppendParam, IfFrame, Extends;
  }

  lemma JoinedAt(code: Code, c: Builder, p: IfPieces, m: Builder)
    requires var b, t, f := p.x.ctx.b, p.t.ctx.b, p.f.ctx.b;
             && Ready(b) && Extends(c, b) && p.ct.b == EnterThen(b, p.x.val) && Extends(p.ct.b, t)
             && p.cf.b == LeaveFor(t, |b.blocks| + 2, p.t.val, |b.blocks| + 1) && Extends(p.cf.b, f)
             && |b.blocks| + 2 < |f.blocks| && m == Merged(b, f, p.f.val) && Region(code, c, m)
    ensures Joined(code, p, |p.x.ctx.b.blocks|) && Region(code, c, p.x.ctx.b)
  {
    var b, t, f := p.x.ctx.b, p.t.ctx.b, p.f.ctx.b;
    assert Ready(t) && Ready(f);
    hide EnterThen, LeaveFor, AppendParam, Merged, Region, Extends, IfFrame;
    MergedFrame(b, p.x.val, t, p.t.val, f, p.f.val);
    IfFrameRegion(code, c, b, p.x.val, m);
    IfRegions(code, b, p.x.val, t, p.t.val, f, p.f.val);
  }

  lemma OrderedAt(c: Builder, p: IfPieces)
    requires var b, t, f := p.x.ctx.b, p.t.ctx.b, p.f.ctx.b;
             && Ready(b) && Extends(c, b) && p.ct.b == EnterThen(b, p.x.val) && Extends(p.ct.b, t)
             && p.cf.b == LeaveFor(t, |b.blocks| + 2, p.t.val, |b.blocks| + 1) && Extends(p.cf.b, f)
    ensures InOrder(c, p.x.ctx.b) && InOrder(p.x.ctx.b, p.ct.b) && InOrder(p.ct.b, p.cf.b) && InOrder(p.cf.b, p.f.ctx.b)
  {
    var b, t := p.x.ctx.b, p.t.ctx.b;
    EnterOrder(b, p.x.val);
    LeaveOrder(t, |b.blocks| + 2, p.t.val, |b.blocks| + 1);
    hide EnterThen, LeaveFor;
  }

  lemma PiecesPlaced(e: Expr, c: Ctx, p: IfPieces, code: Code)
    requires InBlock(c) && e.If? && IsIf(e, c, p) && Region(code, c.b, LowerExpr(e, c).value.ctx.b)
    ensures Placed(e, c, p, code)
  {
    LoweredOrder(e.cond, c);
    LoweredOrder(e.thn, p.ct);
    LoweredOrder(e.els, p.cf);
    hide LowerExpr, EnterThen, LeaveFor, AppendParam, Merged, Region, Extends, Joined, InOrder;
    var b := p.x.ctx.b;
    JoinedAt(code, c.b, p, LowerExpr(e, c).value.ctx.b);
    OrderedAt(c.b, p);
    MergedFrame(b, p.x.val, p.t.ctx.b, p.t.val, p.f.ctx.b, p.f.val);
  }

  lemma LoweredOrder(e: Expr, c: Ctx)
    requires InBlock(c) && LowerExpr(e, c).Ok?
    ensures Extends(c.b, LowerExpr(e, c).value.ctx.b) && InOrder(c.b, LowerExpr(e, c).value.ctx.b)
  {
    hide LowerExpr;
  }

  ghost predicate InOrder(b: Builder, c: Builder) {
    b.nextVal <= c.nextVal && b.nextVar <= c.nextVar
  }

  lemma EnterOrder(b: Builder, cond: nat)
    requires Ready(b)
    ensures InOrder(b, EnterThen(b, cond))
  {
  }

  lemma LeaveOrder(b: Builder, merge: nat, val: nat, next: nat)
    requires Ready(b)
    ensures InOrder(b, LeaveFor(b, merge, val, next))
  {
  }

  /** What the branch of the lowered code reads in a condition: zero is the only false value. */
  function Nonzero(v: Val): bool {
    Enc(v) != 0
  }

  /** A conditional that reads its condition this way. */
  function EvalNonzero(e: Expr, env: Env): Outcome
    requires e.If?
  {
    var ex := Eval(e.cond, env);
    if ex.Fail? then Fail else if Nonzero(ex.v) then Eval(e.thn, env) else Eval(e.els, env)
  }

  lemma IfTypes(e: Expr, tenv: TypeEnv, env: Env)
    requires e.If? && TypeOf(e, tenv).Typed? && Conforms(env, tenv)
    ensures TypeOf(e.cond, tenv).Typed? && TypeOf(e.thn, tenv).Typed? && TypeOf(e.els, tenv).Typed?
    ensures Eval(e, env) == EvalNonzero(e, env)
  {
    TypeSound(e.cond, env, tenv);
  }

  lemma {:induction false} IfCorrect(e: Expr, c: Ctx, tenv: TypeEnv, env: Env, code: Code, st: State)
    requires InBlock(c) && TypeOf(e, tenv).Typed? && AtEnd(c.b, st) && Agrees(c, tenv, env, st) && e.If?
    requires LowerExpr(e, c).Ok? && Region(code, c.b, LowerExpr(e, c).value.ctx.b)
    ensures Computes(code, c.b, st, LowerExpr(e, c).value, Eval(e, env))
    decreases e, 0
  {
    IfTypes(e, tenv, env);
    hide *;
    ConditionCorrect(e, c, tenv, env, code, st);
  }

  lemma Pieces(e: Expr, c: Ctx, code: Code) returns (p: IfPieces)
    requires InBlock(c) && e.If? && LowerExpr(e, c).Ok? && Region(code, c.b, LowerExpr(e, c).value.ctx.b)
    ensures IsIf(e, c, p) && Placed(e, c, p, code) && p.t.ctx.scope == p.x.ctx.scope
    ensures LowerExpr(e.cond, c) == Ok(p.x) && Region(code, c.b, p.x.ctx.b)
    ensures c.b.nextVal <= p.x.ctx.b.nextVal && c.b.nextVar <= p.x.ctx.b.nextVar
  {
    p := TakeApart(e, c);
    PiecesPlaced(e, c, p, code);
    ScopeRestored(e.thn, p.ct);
    hide LowerExpr, Region, Extends, Merged, EnterThen, LeaveFor, AppendParam;
  }

  /** Whatever the type of its condition, a lowered conditional takes the second branch exactly on zero. */
  lemma {:induction false} ConditionCorrect(e: Expr, c: Ctx, tenv: TypeEnv, env: Env, code: Code, st: State)
    requires InBlock(c) && AtEnd(c.b, st) && Agrees(c, tenv, env, st) && e.If?
    requires TypeOf(e.cond, tenv).Typed? && TypeOf(e.thn, tenv).Typed? && TypeOf(e.els, tenv).Typed?
    requires LowerExpr(e, c).Ok? && Region(code, c.b, LowerExpr(e, c).value.ctx.b)
    ensures Computes(code, c.b, st, LowerExpr(e, c).value, EvalNonzero(e, env))
    decreases e, 0, 0
  {
    hide LowerExpr, Eval, EvalNonzero, TypeOf, Region, Reaches, Keeps, Agrees, IsIf, Placed, Computes, Done, InOrder;
    var p := Pieces(e, c, code);
    var x, out, ex := p.x, LowerExpr(e, c).value, Eval(e.cond, env);
    NonzeroCases(e, env);
    LoweringCorrect(e.cond, c, tenv, env, code, st);
    if ex.Value? {
      var s1 := Ran(code, c.b, st, x, ex.v);
      AgreesAfter(e.cond, c, tenv, env, st, ex.v, s1);
      BranchesCorrect(e, c, tenv, env, code, s1, p, ex.v);
      ComputesAfter(code, c.b, st, x.ctx.b, s1, out, EvalNonzero(e, env));
    } else {
      FailsAlike(code, c.b, st, x, out);
    }
  }

  lemma NonzeroCases(e: Expr, env: Env)
    requires e.If?
    ensures var ex := Eval(e.cond, env);
            EvalNonzero(e, env) == if ex.Fail? then Fail else if Nonzero(ex.v) then Eval(e.thn, env) else Eval(e.els, env)
  {
    hide Eval;
  }

  lemma Ran(code: Code, b: Builder, st: State, x: Lowered, v: Val) returns (end: State)
    requires st.Running? && Computes(code, b, st, x, Value(v))
    ensures Reaches(code, st, end) && Done(b, st, x, v, end)
    ensures AtEnd(x.ctx.b, end) && Keeps(b, st, end) && x.val in end.vals && end.vals[x.val] == Enc(v)
  {
    hide Reaches;
    end :| Reaches(code, st, end) && Done(b, st, x, v, end);
    hide Keeps;
  }

  lemma FailsAlike(code: Code, b: Builder, st: State, x: Lowered, y: Lowered)
    requires st.Running? && Computes(code, b, st, x, Fail)
    ensures Computes(code, b, st, y, Fail)
  {
    hide Reaches;
  }

  /** Both sides of the branch, from the end of the condition. */
  lemma {:induction false} BranchesCorrect(e: Expr, c: Ctx, tenv: TypeEnv, env: Env, code: Code, s1: State, p: IfPieces, v: Val)
    requires InBlock(c) && e.If? && IsIf(e, c, p) && Placed(e, c, p, code) && p.t.ctx.scope == p.x.ctx.scope
    requires AtEnd(p.x.ctx.b, s1) && Agrees(p.x.ctx, tenv, env, s1) && p.x.val in s1.vals && s1.vals[p.x.val] == Enc(v)
    requires TypeOf(e.thn, tenv).Typed? && TypeOf(e.els, tenv).Typed?
    ensures Computes(code, p.x.ctx.b, s1, LowerExpr(e, c).value, if Nonzero(v) then Eval(e.thn, env) else Eval(e.els, env))
    decreases e, 0, 0, 0
  {
    hide LowerExpr, Eval, TypeOf, Region, Reaches, Keeps, Agrees, Extends, Merged, EnterThen, LeaveFor, AppendParam;
    var out := LowerExpr(e, c).value;
    var s2 := RunBranch(code, p.x.ctx, p.x.val, tenv, env, Nonzero(v), s1, p.t.ctx, p.t.val);
    if Nonzero(v) {
      BranchCorrect(e.thn, p.ct, tenv, env, code, s2, p.t, out);
      ComputesAfter(code, p.x.ctx.b, s1, p.ct.b, s2, out, Eval(e.thn, env));
    } else {
      BranchCorrect(e.els, p.cf, tenv, env, code, s2, p.f, out);
      ComputesAfter(code, p.x.ctx.b, s1, p.cf.b, s2, out, Eval(e.els, env));
    }
  }

  /** The branch leads to the block of the side that the condition selects. */
  lemma RunBranch(code: Code, c: Ctx, cond: nat, tenv: TypeEnv, env: Env, v: bool, s1: State, t: Ctx, tval: nat) returns (s2: State)
    requires InBlock(c) && AtEnd(c.b, s1) && Agrees(c, tenv, env, s1) && cond in s1.vals && (s1.vals[cond] != 0) == v
    requires c.b.cur < |code| && code[c.b.cur] == c.b.blocks[c.b.cur].(term := Brif(cond, |c.b.blocks|, |c.b.blocks| + 1))
    requires Extends(EnterThen(c.b, cond), t.b) && t.scope == c.scope
    ensures Reaches(code, s1, s2) && s2.Running? && Keeps(c.b, s1, s2)
    ensures v ==>
              AtEnd(EnterThen(c.b, cond), s2) && Agrees(With(c, EnterThen(c.b, cond)), tenv, env, s2)
    ensures !v ==>
              var cf := With(t, LeaveFor(t.b, |c.b.blocks| + 2, tval, |c.b.blocks| + 1));
              AtEnd(cf.b, s2) && Agrees(cf, tenv, env, s2)
  {
    s2 := Step(code, s1);
    ReachesStep(code, s1);
  }

  lemma {:induction false} BranchCorrect(e: Expr, c: Ctx, tenv: TypeEnv, env: Env, code: Code, st: State, t: Lowered, out: Lowered)
    requires InBlock(c) && TypeOf(e, tenv).Typed? && AtEnd(c.b, st) && Agrees(c, tenv, env, st)
    requires LowerExpr(e, c) == Ok(t) && Region(code, c.b, t.ctx.b)
    requires InBlock(out.ctx) && out.ctx.b.cur < |code| && out.val >= c.b.nextVal
    requires code[t.ctx.b.cur] == t.ctx.b.blocks[t.ctx.b.cur].(term := Jump(out.ctx.b.cur, t.val))
    requires code[out.ctx.b.cur].param == Param(out.val) && out.ctx.b.blocks[out.ctx.b.cur].instrs == []
    ensures Computes(code, c.b, st, out, Eval(e, env))
    decreases e, 2
  {
    LoweringCorrect(e, c, tenv, env, code, st);
    var o := Eval(e, env);
    if o.Value? {
      var end :| Reaches(code, st, end) && Done(c.b, st, t, o.v, end);
      RunJump(code, c.b, st, t, o.v, end, out);
      ReachesTrans(code, st, end, Step(code, end));
    }
  }

  lemma IfFrameRegion(code: Code, c: Builder, b: Builder, cond: nat, m: Builder)
    requires Extends(c, b) && IfFrame(b, cond, m) && Region(code, c, m)
    ensures Region(code, c, b) && Region(code, b, m)
  {
  }

  // ----- whole functions -----

  /** A lowered expression on its own, entered with the parameters in their variables, computes the
      expression; the lowerer then knows the same variables as before. */
  lemma LoweredFunction(e: Expr, c: Ctx, tenv: TypeEnv, env: Env, st: State)
    requires InBlock(c) && TypeOf(e, tenv).Typed? && AtEnd(c.b, st) && Agrees(c, tenv, env, st)
    ensures LowerExpr(e, c).Ok?
    ensures var out := LowerExpr(e, c).value;
            && Computes(out.ctx.b.blocks, c.b, st, out, Eval(e, env))
            && out.ctx.scope == c.scope && out.ty == TypeOf(e, tenv).ty
  {
    TypedLowers(e, c, tenv);
    ScopeRestored(e, c);
    var out := LowerExpr(e, c).value;
    LoweringCorrect(e, c, tenv, env, out.ctx.b.blocks, st);
  }
}
