/** The lowering of expressions to a control-flow graph, as a function and as the stateful lowerer. */
module Lowering {
  import opened Wrappers
  import opened RuntimeOps
  import opened Ast
  import opened Cfg

  datatype LowerError = UnsupportedExpression | UnsupportedType | UndefinedVariable

  /** A variable of the builder and its type. */
  datatype Slot = Slot(id: nat, ty: Ty)

  type Scope = map<string, Slot>

  /** The lowerer's state: what is built so far and the variables in scope. */
  datatype Ctx = Ctx(b: Builder, scope: Scope)

  datatype Lowered = Lowered(ctx: Ctx, val: nat, ty: Ty)

  datatype MaybeSlot = NoSlot | Had(slot: Slot)

  datatype Saved = Saved(name: string, shadowed: MaybeSlot)

  ghost predicate InBlock(c: Ctx) {
    Ready(c.b)
  }

  function With(c: Ctx, b: Builder): Ctx {
    c.(b := b)
  }

  /** Defines the next value by one instruction. */
  function Value1(c: Ctx, i: Instr, ty: Ty): Lowered
    requires c.b.cur < |c.b.blocks|
  {
    Lowered(With(c, Define(c.b, i)), c.b.nextVal, ty)
  }

  function DefineVariable(c: Ctx, name: string, val: nat, ty: Ty): Ctx
    requires c.b.cur < |c.b.blocks|
  {
    Ctx(Emit(c.b, DefVar(c.b.nextVar, val)).(nextVar := c.b.nextVar + 1), c.scope[name := Slot(c.b.nextVar, ty)])
  }

  function ToInt(op: ArithOp): IntBinary {
    match op
    case Add => Iadd
    case Sub => Isub
    case Mul => Imul
    case Div => Sdiv
    case Mod => Srem
  }

  function FloatOp(op: ArithOp): FloatBinary
    requires op != Mod
  {
    match op
    case Add => Fadd
    case Sub => Fsub
    case Mul => Fmul
    case Div => Fdiv
  }

  /** Division is guarded: trap on a zero divisor, then on the minimum by minus one. */
  function GuardDivision(b: Builder, x: nat, y: nat, ty: Ty): Builder
    requires b.cur < |b.blocks|
  {
    var b1 := Emit(b, Trapz(y));
    var b2 := Define(b1, Iconst(b1.nextVal, ty, I64_MIN));
    var b3 := Define(b2, Iconst(b2.nextVal, ty, -1));
    var b4 := Define(b3, Icmp(b3.nextVal, Eq, x, b1.nextVal));
    var b5 := Define(b4, Icmp(b4.nextVal, Eq, y, b2.nextVal));
    var b6 := Define(b5, BitBin(b5.nextVal, Band, b3.nextVal, b4.nextVal));
    Emit(b6, Trapnz(b5.nextVal))
  }

  /** The instructions of a binary operation on two lowered operands. */
  function Combine(name: string, c: Ctx, x: nat, xty: Ty, y: nat, yty: Ty): (r: Result<Lowered, LowerError>)
    requires c.b.cur < |c.b.blocks|
  {
    if IsArith(name) then
      var op := ArithOpOf(name);
      if xty != yty then Err(UnsupportedType)
      else if xty == F64 then
        if op == Mod then Err(UnsupportedExpression)
        else Ok(Value1(c, FloatBin(c.b.nextVal, FloatOp(op), x, y), xty))
      else if op == Div || op == Mod then
        var g := With(c, GuardDivision(c.b, x, y, xty));
        Ok(Value1(g, IntBin(g.b.nextVal, ToInt(op), x, y), xty))
      else Ok(Value1(c, IntBin(c.b.nextVal, ToInt(op), x, y), xty))
    else if IsCmp(name) then
      var cc := CmpOpOf(name);
      if xty != yty then Err(UnsupportedType)
      else if xty == F64 then Ok(Value1(c, Fcmp(c.b.nextVal, cc, x, y), I8))
      else Ok(Value1(c, Icmp(c.b.nextVal, cc, x, y), I8))
    else if IsLogic(name) then
      Ok(Value1(c, BitBin(c.b.nextVal, if LogicOpOf(name) == And then Band else Bor, x, y), I8))
    else Err(UnsupportedExpression)
  }

  /** Flipping a boolean against the constant one. */
  function Flip(c: Ctx, x: nat): Lowered
    requires c.b.cur < |c.b.blocks|
  {
    var one := Value1(c, Iconst(c.b.nextVal, I8, 1), I8);
    Value1(one.ctx, BitBin(one.ctx.b.nextVal, Bxor, x, one.val), I8)
  }

  /** After the condition: three new blocks, the branch, and the first branch block current. */
  function EnterThen(b: Builder, cond: nat): Builder
    requires b.cur < |b.blocks|
  {
    var n := |b.blocks|;
    Terminate(CreateBlock(CreateBlock(CreateBlock(b))), Brif(cond, n, n + 1)).(cur := n)
  }

  /** Leaves a branch with its value and continues in another block. */
  function LeaveFor(b: Builder, merge: nat, val: nat, next: nat): Builder
    requires b.cur < |b.blocks|
  {
    Terminate(b, Jump(merge, val)).(cur := next)
  }

  lemma FlipExtends(c: Ctx, x: nat)
    requires InBlock(c)
    ensures Extends(c.b, Flip(c, x).ctx.b) && Flip(c, x).val < Flip(c, x).ctx.b.nextVal
  {
    var one := Iconst(c.b.nextVal, I8, 1);
    EmitExtends(c.b, one);
    var b1 := Define(c.b, one);
    var flip := BitBin(b1.nextVal, Bxor, x, c.b.nextVal);
    EmitExtends(b1, flip);
    ExtendsTrans(c.b, b1, Define(b1, flip));
  }

  lemma GuardExtends(b: Builder, x: nat, y: nat, ty: Ty)
    requires Ready(b)
    ensures Extends(b, GuardDivision(b, x, y, ty))
  {
    var b1 := Emit(b, Trapz(y));
    var b2 := Define(b1, Iconst(b1.nextVal, ty, I64_MIN));
    var b3 := Define(b2, Iconst(b2.nextVal, ty, -1));
    var b4 := Define(b3, Icmp(b3.nextVal, Eq, x, b1.nextVal));
    var b5 := Define(b4, Icmp(b4.nextVal, Eq, y, b2.nextVal));
    var b6 := Define(b5, BitBin(b5.nextVal, Band, b3.nextVal, b4.nextVal));
    assert Extends(b, b3);
    assert Extends(b3, b6);
    ExtendsTrans(b, b3, b6);
    EmitExtends(b6, Trapnz(b5.nextVal));
    ExtendsTrans(b, b6, GuardDivision(b, x, y, ty));
  }

  lemma CombineExtends(name: string, c: Ctx, x: nat, xty: Ty, y: nat, yty: Ty)
    requires InBlock(c)
    ensures var r := Combine(name, c, x, xty, y, yty);
            r.Ok? ==> Extends(c.b, r.value.ctx.b) && r.value.val < r.value.ctx.b.nextVal && r.value.ctx.scope == c.scope
  {
    GuardExtends(c.b, x, y, xty);
    if IsArith(name) && (ArithOpOf(name) == Div || ArithOpOf(name) == Mod) {
      var g := GuardDivision(c.b, x, y, xty);
      var i := IntBin(g.nextVal, ToInt(ArithOpOf(name)), x, y);
      EmitExtends(g, i);
      ExtendsTrans(c.b, g, Define(g, i));
    }
  }

  lemma EnterThenReady(b: Builder, cond: nat)
    requires Ready(b)
    ensures Ready(EnterThen(b, cond))
  {
  }

  lemma LeaveThenReady(b: Builder, cond: nat, t: Builder, val: nat)
    requires Ready(b) && Extends(EnterThen(b, cond), t)
    ensures Ready(LeaveFor(t, |b.blocks| + 2, val, |b.blocks| + 1))
  {
  }

  /** The blocks of a whole conditional extend what was built before it. */
  lemma IfExtends(b: Builder, cond: nat, t: Builder, tval: nat, f: Builder, fval: nat)
    requires Ready(b) && Extends(EnterThen(b, cond), t)
    requires Extends(LeaveFor(t, |b.blocks| + 2, tval, |b.blocks| + 1), f)
    ensures |b.blocks| + 2 < |f.blocks|
    ensures IfFrame(b, cond, AppendParam(LeaveFor(f, |b.blocks| + 2, fval, |b.blocks| + 2), |b.blocks| + 2))
  {
  }

  /** Everything but the terminator of the branching block is an extension. */
  ghost predicate IfFrame(b: Builder, cond: nat, m: Builder)
    requires Ready(b)
  {
    && Ready(m) && m.cur == |b.blocks| + 2 && |b.blocks| + 2 < |m.blocks|
    && b.nextVal <= m.nextVal && b.nextVar <= m.nextVar
    && (forall i :: 0 <= i < |b.blocks| && i != b.cur ==> m.blocks[i] == b.blocks[i])
    && m.blocks[b.cur] == b.blocks[b.cur].(term := Brif(cond, |b.blocks|, |b.blocks| + 1))
    && m.blocks[m.cur].instrs == []
  }

  lemma IfFrameExtends(b: Builder, c: Builder, cond: nat, m: Builder)
    requires Extends(b, c) && IfFrame(c, cond, m)
    ensures Extends(b, m)
  {
  }

  function LowerExpr(e: Expr, c: Ctx): (r: Result<Lowered, LowerError>)
    requires InBlock(c)
    ensures r.Ok? ==> Extends(c.b, r.value.ctx.b) && r.value.val < r.value.ctx.b.nextVal
    decreases e, 1
  {
    match e
    case IntLit(i) =>
      EmitExtends(c.b, Iconst(c.b.nextVal, I64, i));
      Ok(Value1(c, Iconst(c.b.nextVal, I64, i), I64))
    case FloatLit(bits) =>
      EmitExtends(c.b, F64const(c.b.nextVal, bits));
      Ok(Value1(c, F64const(c.b.nextVal, bits), F64))
    case BoolLit(v) =>
      EmitExtends(c.b, Iconst(c.b.nextVal, I8, Bit(v)));
      Ok(Value1(c, Iconst(c.b.nextVal, I8, Bit(v)), I8))
    case SymbolRef(name) =>
      if name !in c.scope then Err(UndefinedVariable)
      else
        EmitExtends(c.b, UseVar(c.b.nextVal, c.scope[name].id));
        Ok(Value1(c, UseVar(c.b.nextVal, c.scope[name].id), c.scope[name].ty))
    case FnCall(_, _) => LowerCall(e, c)
    case If(_, _, _) => LowerIf(e, c)
    case Let(bindings, body) =>
      var inner := LowerBindings(bindings, c);
      if inner.Err? then Err(inner.error)
      else
        var r := LowerExpr(body, inner.value.ctx);
        if r.Err? then r
        else
          ExtendsTrans(c.b, inner.value.ctx.b, r.value.ctx.b);
          Ok(r.value.(ctx := r.value.ctx.(scope := Restore(r.value.ctx.scope, inner.value.saved))))
    case Do(exprs) => LowerSeq(exprs, c)
    case Unsupported => Err(UnsupportedExpression)
  }

  function LowerCall(e: Expr, c: Ctx): (r: Result<Lowered, LowerError>)
    requires InBlock(c) && e.FnCall?
    ensures r.Ok? ==> Extends(c.b, r.value.ctx.b) && r.value.val < r.value.ctx.b.nextVal
    decreases e, 0
  {
    var args := e.args;
    if !e.callee.SymbolRef? then Err(UnsupportedExpression)
    else
      var name := e.callee.name;
      if name == "not" then
        if |args| != 1 then Err(UnsupportedExpression)
        else
          var x := LowerExpr(args[0], c);
          if x.Err? then x
          else
            FlipExtends(x.value.ctx, x.value.val);
            ExtendsTrans(c.b, x.value.ctx.b, Flip(x.value.ctx, x.value.val).ctx.b);
            Ok(Flip(x.value.ctx, x.value.val))
      else if !(IsArith(name) || IsCmp(name) || IsLogic(name)) then Err(UnsupportedExpression)
      else if |args| != 2 then Err(UnsupportedExpression)
      else
        var x := LowerExpr(args[0], c);
        if x.Err? then x
        else
          var y := LowerExpr(args[1], x.value.ctx);
          if y.Err? then y
          else
            var r := Combine(name, y.value.ctx, x.value.val, x.value.ty, y.value.val, y.value.ty);
            CombineExtends(name, y.value.ctx, x.value.val, x.value.ty, y.value.val, y.value.ty);
            ExtendsTrans(c.b, x.value.ctx.b, y.value.ctx.b);
            if r.Ok? then ExtendsTrans(c.b, y.value.ctx.b, r.value.ctx.b); r else r
  }

  /** The result is the parameter of the block where the branches meet. */
  function LowerIf(e: Expr, c: Ctx): (r: Result<Lowered, LowerError>)
    requires InBlock(c) && e.If?
    ensures r.Ok? ==> Extends(c.b, r.value.ctx.b) && r.value.val < r.value.ctx.b.nextVal
    decreases e, 0
  {
    var x := LowerExpr(e.cond, c);
    if x.Err? then x
    else
      var b, cond := x.value.ctx.b, x.value.val;
      var n := |b.blocks|;
      EnterThenReady(b, cond);
      var t := LowerExpr(e.thn, With(x.value.ctx, EnterThen(b, cond)));
      if t.Err? then t
      else
        LeaveThenReady(b, cond, t.value.ctx.b, t.value.val);
        var f := LowerExpr(e.els, With(t.value.ctx, LeaveFor(t.value.ctx.b, n + 2, t.value.val, n + 1)));
        if f.Err? then f
        else
          IfExtends(b, cond, t.value.ctx.b, t.value.val, f.value.ctx.b, f.value.val);
          var m := LeaveFor(f.value.ctx.b, n + 2, f.value.val, n + 2);
          IfFrameExtends(c.b, b, cond, AppendParam(m, n + 2));
          Ok(Lowered(With(f.value.ctx, AppendParam(m, n + 2)), m.nextVal, t.value.ty))
  }

  datatype LoweredBindings = LoweredBindings(ctx: Ctx, saved: seq<Saved>)

  /** Defines each name in turn, remembering what it shadowed. */
  function LowerBindings(bindings: seq<Binding>, c: Ctx): (r: Result<LoweredBindings, LowerError>)
    requires InBlock(c)
    ensures r.Ok? ==> Extends(c.b, r.value.ctx.b)
    decreases bindings, 0
  {
    if bindings == [] then Ok(LoweredBindings(c, []))
    else
      var x := LowerExpr(bindings[0].value, c);
      if x.Err? then Err(x.error)
      else
        var c1 := x.value.ctx;
        var name := bindings[0].name;
        var shadowed := if name in c1.scope then Had(c1.scope[name]) else NoSlot;
        DefineExtends(c1, name, x.value.val, x.value.ty);
        var rest := LowerBindings(bindings[1..], DefineVariable(c1, name, x.value.val, x.value.ty));
        if rest.Err? then rest
        else
          ExtendsTrans(c.b, c1.b, DefineVariable(c1, name, x.value.val, x.value.ty).b);
          ExtendsTrans(c.b, DefineVariable(c1, name, x.value.val, x.value.ty).b, rest.value.ctx.b);
          Ok(rest.value.(saved := [Saved(name, shadowed)] + rest.value.saved))
  }

  lemma DefineExtends(c: Ctx, name: string, val: nat, ty: Ty)
    requires InBlock(c)
    ensures Extends(c.b, DefineVariable(c, name, val, ty).b)
  {
    EmitExtends(c.b, DefVar(c.b.nextVar, val));
  }

  function LowerSeq(exprs: seq<Expr>, c: Ctx): (r: Result<Lowered, LowerError>)
    requires InBlock(c)
    ensures r.Ok? ==> Extends(c.b, r.value.ctx.b) && r.value.val < r.value.ctx.b.nextVal
    decreases exprs, 0
  {
    if exprs == [] then Err(UnsupportedExpression)
    else
      var x := LowerExpr(exprs[0], c);
      if x.Err? || |exprs| == 1 then x
      else
        var r := LowerSeq(exprs[1..], x.value.ctx);
        if r.Err? then r
        else
          ExtendsTrans(c.b, x.value.ctx.b, r.value.ctx.b);
          r
  }

  /** Puts back one remembered binding. */
  function Undo(scope: Scope, s: Saved): Scope {
    if s.shadowed.Had? then scope[s.name := s.shadowed.slot] else scope - {s.name}
  }

  /** Puts back what the bindings shadowed, last binding first. */
  function Restore(scope: Scope, saved: seq<Saved>): Scope {
    if saved == [] then scope else Undo(Restore(scope, saved[1..]), saved[0])
  }

  // ----- the scope is left as it was found -----

  lemma {:induction false} ScopeRestored(e: Expr, c: Ctx)
    requires InBlock(c) && LowerExpr(e, c).Ok?
    ensures LowerExpr(e, c).value.ctx.scope == c.scope
    decreases e, 1
  {
    hide LowerCall, LowerIf;
    match e
    case FnCall(_, _) =>
      CallRestored(e, c);
    case If(_, _, _) =>
      IfRestored(e, c);
    case Let(bindings, body) =>
      var inner := LowerBindings(bindings, c);
      ScopeRestored(body, inner.value.ctx);
      BindingsRestored(bindings, c);
    case Do(exprs) =>
      SeqRestored(exprs, c);
    case _ =>
  }

  lemma {:induction false} CallRestored(e: Expr, c: Ctx)
    requires InBlock(c) && e.FnCall? && LowerCall(e, c).Ok?
    ensures LowerCall(e, c).value.ctx.scope == c.scope
    decreases e, 0
  {
    hide LowerExpr;
    var args := e.args;
    var x := LowerExpr(args[0], c);
    ScopeRestored(args[0], c);
    if |args| == 2 {
      ScopeRestored(args[1], x.value.ctx);
      var y := LowerExpr(args[1], x.value.ctx);
      CombineExtends(e.callee.name, y.value.ctx, x.value.val, x.value.ty, y.value.val, y.value.ty);
    }
  }

  lemma {:induction false} IfRestored(e: Expr, c: Ctx)
    requires InBlock(c) && e.If? && LowerIf(e, c).Ok?
    ensures LowerIf(e, c).value.ctx.scope == c.scope
    decreases e, 0
  {
    hide LowerExpr;
    var x := LowerExpr(e.cond, c);
    ScopeRestored(e.cond, c);
    EnterThenReady(x.value.ctx.b, x.value.val);
    var ct := With(x.value.ctx, EnterThen(x.value.ctx.b, x.value.val));
    ScopeRestored(e.thn, ct);
    var t := LowerExpr(e.thn, ct);
    LeaveThenReady(x.value.ctx.b, x.value.val, t.value.ctx.b, t.value.val);
    var n := |x.value.ctx.b.blocks|;
    ScopeRestored(e.els, With(t.value.ctx, LeaveFor(t.value.ctx.b, n + 2, t.value.val, n + 1)));
  }

  lemma {:induction false} BindingsRestored(bindings: seq<Binding>, c: Ctx)
    requires InBlock(c) && LowerBindings(bindings, c).Ok?
    ensures var r := LowerBindings(bindings, c).value; Restore(r.ctx.scope, r.saved) == c.scope
    decreases bindings, 0
  {
    if bindings != [] {
      var x := LowerExpr(bindings[0].value, c);
      ScopeRestored(bindings[0].value, c);
      DefineExtends(x.value.ctx, bindings[0].name, x.value.val, x.value.ty);
      var c1 := DefineVariable(x.value.ctx, bindings[0].name, x.value.val, x.value.ty);
      BindingsRestored(bindings[1..], c1);
      var rest := LowerBindings(bindings[1..], c1).value;
      assert ([Saved(bindings[0].name, NoSlot)] + rest.saved)[1..] == rest.saved;
      var r := LowerBindings(bindings, c).value;
      assert r.saved[1..] == rest.saved;
    }
  }

  /** Two variable maps that agree on a name. */
  predicate SameSlot(s: Scope, t: Scope, name: string) {
    (name in s <==> name in t) && (name in s ==> s[name] == t[name])
  }

  /** Whatever the body of a let leaves in the variable map, putting back what the bindings saved
      gives each bound name the variable it had before, or none. */
  lemma NamesRestored(bindings: seq<Binding>, c: Ctx, scope: Scope)
    requires InBlock(c) && LowerBindings(bindings, c).Ok?
    ensures forall i :: 0 <= i < |bindings| ==>
              SameSlot(Restore(scope, LowerBindings(bindings, c).value.saved), c.scope, bindings[i].name)
  {
    var r := LowerBindings(bindings, c).value;
    BindingsRestored(bindings, c);
    hide LowerBindings, Restore;
    NamesSaved(bindings, c);
    forall i | 0 <= i < |bindings|
      ensures SameSlot(Restore(scope, r.saved), c.scope, bindings[i].name)
    {
      RestoreForgets(scope, r.ctx.scope, r.saved, i);
    }
  }

  lemma {:induction false} NamesSaved(bindings: seq<Binding>, c: Ctx)
    requires InBlock(c) && LowerBindings(bindings, c).Ok?
    ensures var saved := LowerBindings(bindings, c).value.saved;
            |saved| == |bindings| && forall i :: 0 <= i < |bindings| ==> saved[i].name == bindings[i].name
    decreases |bindings|
  {
    if bindings != [] {
      var x := LowerExpr(bindings[0].value, c).value;
      DefineExtends(x.ctx, bindings[0].name, x.val, x.ty);
      NamesSaved(bindings[1..], DefineVariable(x.ctx, bindings[0].name, x.val, x.ty));
    }
  }

  /** What is put back for a saved name does not depend on the map it is put back into. */
  lemma {:induction false} RestoreForgets(s: Scope, t: Scope, saved: seq<Saved>, i: nat)
    requires i < |saved|
    ensures SameSlot(Restore(s, saved), Restore(t, saved), saved[i].name)
  {
    if i > 0 {
      RestoreForgets(s, t, saved[1..], i - 1);
    }
  }

  lemma {:induction false} SeqRestored(exprs: seq<Expr>, c: Ctx)
    requires InBlock(c) && LowerSeq(exprs, c).Ok?
    ensures LowerSeq(exprs, c).value.ctx.scope == c.scope
    decreases exprs, 0
  {
    ScopeRestored(exprs[0], c);
    if |exprs| > 1 {
      SeqRestored(exprs[1..], LowerExpr(exprs[0], c).value.ctx);
    }
  }
}
