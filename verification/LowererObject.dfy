/** The lowerer as the object that writes into the builder and edits its variable map in place. */
module LowererObject {
  import opened Wrappers
  import opened RuntimeOps
  import opened Ast
  import opened Cfg
  import opened Lowering

  class Lowerer {
    var b: Builder
    var variables: Scope

    constructor (builder: Builder)
      ensures b == builder && variables == map[]
    {
      b, variables := builder, map[];
    }

    ghost function State(): Ctx
      reads this
    {
      Ctx(b, variables)
    }

    method DefineVar(name: string, val: nat, ty: Ty)
      requires Ready(b)
      modifies this
      ensures State() == DefineVariable(old(State()), name, val, ty) && Ready(b)
    {
      var id := b.nextVar;
      b := Emit(b, DefVar(id, val)).(nextVar := id + 1);
      variables := variables[name := Slot(id, ty)];
    }

    /** Emits the code of an expression. On success the object holds exactly what the functional
        lowering builds from its previous state, so its variables are those it had before. */
    method Lower(e: Expr) returns (r: Result<(nat, Ty), LowerError>)
      requires Ready(b)
      modifies this
      ensures var o := LowerExpr(e, old(State()));
              if o.Err? then r == Err(o.error)
              else r == Ok((o.value.val, o.value.ty)) && State() == o.value.ctx && Ready(b) && variables == old(variables)
      decreases e, 1
    {
      ghost var c := State();
      match e {
      case IntLit(i) =>
        r := DefineOne(Iconst(b.nextVal, I64, i), I64);
      case FloatLit(bits) =>
        r := DefineOne(F64const(b.nextVal, bits), F64);
      case BoolLit(v) =>
        r := DefineOne(Iconst(b.nextVal, I8, Bit(v)), I8);
      case SymbolRef(name) =>
        if name !in variables {
          return Err(UndefinedVariable);
        }
        r := DefineOne(UseVar(b.nextVal, variables[name].id), variables[name].ty);
      case FnCall(_, _) =>
        r := LowerBuiltin(e);
      case If(_, _, _) =>
        r := LowerIfExpr(e);
      case Let(bindings, body) =>
        r := LowerLet(bindings, body);
      case Do(exprs) =>
        r := LowerDo(exprs);
      case Unsupported =>
        return Err(UnsupportedExpression);
      }
      if LowerExpr(e, c).Ok? {
        ScopeRestored(e, c);
      }
    }

    method DefineOne(i: Instr, ty: Ty) returns (r: Result<(nat, Ty), LowerError>)
      requires Ready(b)
      modifies this`b
      ensures r == Ok((old(b.nextVal), ty)) && b == Define(old(b), i)
    {
      r := Ok((b.nextVal, ty));
      b := Define(b, i);
    }

    method LowerBuiltin(e: Expr) returns (r: Result<(nat, Ty), LowerError>)
      requires Ready(b) && e.FnCall?
      modifies this
      ensures var o := LowerExpr(e, old(State()));
              if o.Err? then r == Err(o.error)
              else r == Ok((o.value.val, o.value.ty)) && State() == o.value.ctx
      decreases e, 0
    {
      if !e.callee.SymbolRef? {
        return Err(UnsupportedExpression);
      }
      var name, args := e.callee.name, e.args;
      if name == "not" {
        if |args| != 1 {
          return Err(UnsupportedExpression);
        }
        var x := Lower(args[0]);
        if x.Err? {
          return Err(x.error);
        }
        var one := Iconst(b.nextVal, I8, 1);
        b := Define(b, one);
        r := DefineOne(BitBin(b.nextVal, Bxor, x.value.0, one.dst), I8);
      } else if !(IsArith(name) || IsCmp(name) || IsLogic(name)) {
        return Err(UnsupportedExpression);
      } else {
        if |args| != 2 {
          return Err(UnsupportedExpression);
        }
        var x := Lower(args[0]);
        if x.Err? {
          return Err(x.error);
        }
        var y := Lower(args[1]);
        if y.Err? {
          return Err(y.error);
        }
        r := EmitBinary(name, x.value.0, x.value.1, y.value.0, y.value.1);
      }
    }

    /** The last step of arithmetic, comparisons and connectives. */
    method EmitBinary(name: string, x: nat, xty: Ty, y: nat, yty: Ty) returns (r: Result<(nat, Ty), LowerError>)
      requires Ready(b) && (IsArith(name) || IsCmp(name) || IsLogic(name))
      modifies this`b
      ensures var o := Combine(name, old(State()), x, xty, y, yty);
              if o.Err? then r == Err(o.error)
              else r == Ok((o.value.val, o.value.ty)) && State() == o.value.ctx
    {
      if IsLogic(name) {
        r := DefineOne(BitBin(b.nextVal, if LogicOpOf(name) == And then Band else Bor, x, y), I8);
        return;
      }
      if xty != yty {
        return Err(UnsupportedType);
      }
      if IsCmp(name) {
        var cc := CmpOpOf(name);
        r := DefineOne(if xty == F64 then Fcmp(b.nextVal, cc, x, y) else Icmp(b.nextVal, cc, x, y), I8);
        return;
      }
      var op := ArithOpOf(name);
      if xty == F64 {
        if op == Mod {
          return Err(UnsupportedExpression);
        }
        r := DefineOne(FloatBin(b.nextVal, FloatOp(op), x, y), xty);
      } else {
        if op == Div || op == Mod {
          EmitGuard(x, y, xty);
        }
        r := DefineOne(IntBin(b.nextVal, ToInt(op), x, y), xty);
      }
    }

    method EmitGuard(x: nat, y: nat, ty: Ty)
      requires Ready(b)
      modifies this`b
      ensures b == GuardDivision(old(b), x, y, ty) && Ready(b)
    {
      GuardExtends(b, x, y, ty);
      b := Emit(b, Trapz(y));
      var minVal := b.nextVal;
      b := Define(b, Iconst(minVal, ty, I64_MIN));
      var negOne := b.nextVal;
      b := Define(b, Iconst(negOne, ty, -1));
      var isMin := b.nextVal;
      b := Define(b, Icmp(isMin, Eq, x, minVal));
      var isNegOne := b.nextVal;
      b := Define(b, Icmp(isNegOne, Eq, y, negOne));
      var isOverflow := b.nextVal;
      b := Define(b, BitBin(isOverflow, Band, isMin, isNegOne));
      b := Emit(b, Trapnz(isOverflow));
    }

    method LowerIfExpr(e: Expr) returns (r: Result<(nat, Ty), LowerError>)
      requires Ready(b) && e.If?
      modifies this
      ensures var o := LowerExpr(e, old(State()));
              if o.Err? then r == Err(o.error)
              else r == Ok((o.value.val, o.value.ty)) && State() == o.value.ctx
      decreases e, 0
    {
      hide Extends, IfFrame;
      var x := Lower(e.cond);
      if x.Err? {
        return Err(x.error);
      }
      ghost var start, cond := b, x.value.0;
      EnterThenReady(b, cond);
      var thenBlock := |b.blocks|;
      b := CreateBlock(CreateBlock(CreateBlock(b)));
      var elseBlock, mergeBlock := thenBlock + 1, thenBlock + 2;
      b := Terminate(b, Brif(x.value.0, thenBlock, elseBlock)).(cur := thenBlock);
      var t := Lower(e.thn);
      if t.Err? {
        return Err(t.error);
      }
      LeaveThenReady(start, cond, b, t.value.0);
      ghost var mid := b;
      b := Terminate(b, Jump(mergeBlock, t.value.0)).(cur := elseBlock);
      var f := Lower(e.els);
      if f.Err? {
        return Err(f.error);
      }
      IfExtends(start, cond, mid, t.value.0, b, f.value.0);
      b := Terminate(b, Jump(mergeBlock, f.value.0)).(cur := mergeBlock);
      var result := b.nextVal;
      b := AppendParam(b, mergeBlock);
      return Ok((result, t.value.1));
    }

    /** Also when the body fails, each name that the bindings define gets back the variable it had. */
    method LowerLet(bindings: seq<Binding>, body: Expr) returns (r: Result<(nat, Ty), LowerError>)
      requires Ready(b)
      modifies this
      ensures var o := LowerExpr(Let(bindings, body), old(State()));
              if o.Err? then r == Err(o.error)
              else r == Ok((o.value.val, o.value.ty)) && State() == o.value.ctx
      ensures LowerBindings(bindings, old(State())).Ok? ==>
                forall i :: 0 <= i < |bindings| ==> SameSlot(variables, old(variables), bindings[i].name)
      decreases Let(bindings, body), 0
    {
      ghost var c := State();
      var saved := DefineBindings(bindings);
      if saved.Err? {
        return Err(saved.error);
      }
      r := Lower(body);
      NamesRestored(bindings, c, variables);
      PutBack(saved.value);
    }

    /** Defines the names in order, saving what each one shadows. */
    method DefineBindings(bindings: seq<Binding>) returns (r: Result<seq<Saved>, LowerError>)
      requires Ready(b)
      modifies this
      ensures var o := LowerBindings(bindings, old(State()));
              if o.Err? then r == Err(o.error) else r == Ok(o.value.saved) && State() == o.value.ctx && Ready(b)
      decreases bindings, 0
    {
      var saved: seq<Saved> := [];
      assert bindings[0..] == bindings;
      ResumeNone(LowerBindings(bindings, State()));
      for i := 0 to |bindings|
        invariant Ready(b)
        invariant LowerBindings(bindings, old(State())) == Resume(saved, LowerBindings(bindings[i..], State()))
      {
        assert bindings[i..][0] == bindings[i] && bindings[i..][1..] == bindings[i + 1..];
        var one := DefineNext(bindings[i]);
        if one.Err? {
          return Err(one.error);
        }
        ResumeOne(saved, one.value, LowerBindings(bindings[i + 1..], State()));
        saved := saved + [one.value];
      }
      assert bindings[|bindings|..] == [] && saved + [] == saved;
      return Ok(saved);
    }

    method DefineNext(binding: Binding) returns (r: Result<Saved, LowerError>)
      requires Ready(b)
      modifies this
      ensures var x := LowerExpr(binding.value, old(State()));
              if x.Err? then r == Err(x.error)
              else
                && State() == DefineVariable(x.value.ctx, binding.name, x.value.val, x.value.ty) && Ready(b)
                && r == Ok(Saved(binding.name,
                     if binding.name in old(variables) then Had(old(variables)[binding.name]) else NoSlot))
                && x.value.ctx.scope == old(variables)
      decreases binding, 2
    {
      ghost var c := State();
      var x := Lower(binding.value);
      if x.Err? {
        return Err(x.error);
      }
      var name := binding.name;
      var shadowed := if name in variables then Had(variables[name]) else NoSlot;
      variables := variables - {name};
      DefineExtends(Ctx(b, c.scope), name, x.value.0, x.value.1);
      DefineVar(name, x.value.0, x.value.1);
      assert variables == c.scope[name := variables[name]];
      return Ok(Saved(name, shadowed));
    }

    /** Puts back what was shadowed, in reverse, so that repeated names are restored to what they
        were at the start. */
    method PutBack(saved: seq<Saved>)
      modifies this`variables
      ensures variables == Restore(old(variables), saved)
    {
      for i := |saved| downto 0
        invariant variables == Restore(old(variables), saved[i..])
      {
        assert saved[i..][1..] == saved[i + 1..] && saved[i..][0] == saved[i];
        var s := saved[i];
        if s.shadowed.Had? {
          variables := variables[s.name := s.shadowed.slot];
        } else {
          variables := variables - {s.name};
        }
      }
      assert saved[0..] == saved;
    }

    method LowerDo(exprs: seq<Expr>) returns (r: Result<(nat, Ty), LowerError>)
      requires Ready(b)
      modifies this
      ensures var o := LowerSeq(exprs, old(State()));
              if o.Err? then r == Err(o.error)
              else r == Ok((o.value.val, o.value.ty)) && State() == o.value.ctx
      decreases exprs, 0
    {
      if exprs == [] {
        return Err(UnsupportedExpression);
      }
      var i := 0;
      r := Err(UnsupportedExpression);
      while i < |exprs|
        invariant 0 <= i <= |exprs| && Ready(b)
        invariant i < |exprs| ==> LowerSeq(exprs, old(State())) == LowerSeq(exprs[i..], State())
        invariant i == |exprs| ==>
                    var o := LowerSeq(exprs, old(State()));
                    o.Ok? && r == Ok((o.value.val, o.value.ty)) && State() == o.value.ctx
      {
        assert exprs[i..][0] == exprs[i] && exprs[i..][1..] == exprs[i + 1..];
        r := Lower(exprs[i]);
        if r.Err? {
          return;
        }
        i := i + 1;
      }
    }
  }

  /** Lowering the remaining bindings after some were saved. */
  ghost function Resume(saved: seq<Saved>, rest: Result<LoweredBindings, LowerError>): Result<LoweredBindings, LowerError> {
    if rest.Err? then rest else Ok(rest.value.(saved := saved + rest.value.saved))
  }

  lemma ResumeNone(rest: Result<LoweredBindings, LowerError>)
    ensures Resume([], rest) == rest
  {
    if rest.Ok? {
      assert [] + rest.value.saved == rest.value.saved;
    }
  }

  lemma ResumeOne(saved: seq<Saved>, s: Saved, rest: Result<LoweredBindings, LowerError>)
    ensures rest.Ok? ==>
              Resume(saved, Ok(rest.value.(saved := [s] + rest.value.saved))) == Resume(saved + [s], rest)
  {
    if rest.Ok? {
      assert saved + ([s] + rest.value.saved) == saved + [s] + rest.value.saved;
    }
  }
}
