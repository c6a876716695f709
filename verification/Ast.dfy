/** The expressions that the native compiler lowers, their types and their meaning. */
module Ast {
  import opened RuntimeOps

  datatype Binding = Binding(name: string, value: Expr)

  datatype Expr =
    | IntLit(i: int)
    | FloatLit(bits: int)
    | BoolLit(b: bool)
    | SymbolRef(name: string)
    | FnCall(callee: Expr, args: seq<Expr>)
    | If(cond: Expr, thn: Expr, els: Expr)
    | Let(bindings: seq<Binding>, body: Expr)
    | Do(exprs: seq<Expr>)
    | Unsupported

  type Env = map<string, Val>

  /** Evaluation through the boxed operations: arguments left to right, both operands of `and` and
      `or` always. */
  function Eval(e: Expr, env: Env): Outcome
    decreases e, 1
  {
    match e
    case IntLit(i) => Value(IntV(i))
    case BoolLit(b) => Value(BoolV(b))
    case SymbolRef(name) => if name in env then Value(env[name]) else Fail
    case FnCall(callee, args) =>
      if !callee.SymbolRef? then Fail
      else if |args| == 2 then
        var x, y := Eval(args[0], env), Eval(args[1], env);
        if x.Fail? || y.Fail? then Fail else Apply2(callee.name, x.v, y.v)
      else if |args| == 1 && callee.name == "not" then
        var x := Eval(args[0], env);
        if x.Fail? then Fail else LogicNot(x.v)
      else Fail
    case If(cond, thn, els) =>
      var c := Eval(cond, env);
      if c.Fail? then Fail else if Truthy(c.v) then Eval(thn, env) else Eval(els, env)
    case Let(bindings, body) =>
      var inner := EvalBindings(bindings, env);
      if inner.BindFail? then Fail else Eval(body, inner.env)
    case Do(exprs) => EvalSeq(exprs, env)
    case _ => Fail
  }

  function Apply2(name: string, x: Val, y: Val): Outcome {
    if IsArith(name) then Arith(ArithOpOf(name), x, y)
    else if IsCmp(name) then Compare(CmpOpOf(name), x, y)
    else if IsLogic(name) then Logic(LogicOpOf(name), x, y)
    else Fail
  }

  /** The environment after evaluating the bindings in order, or nothing if one fails. */
  function EvalBindings(bindings: seq<Binding>, env: Env): Bound
    decreases bindings, 0
  {
    if bindings == [] then Bound(env)
    else
      var x := Eval(bindings[0].value, env);
      if x.Fail? then BindFail else EvalBindings(bindings[1..], env[bindings[0].name := x.v])
  }

  datatype Bound = Bound(env: Env) | BindFail

  function EvalSeq(exprs: seq<Expr>, env: Env): Outcome
    decreases exprs, 0
  {
    if exprs == [] then Fail
    else if |exprs| == 1 then Eval(exprs[0], env)
    else
      var x := Eval(exprs[0], env);
      if x.Fail? then Fail else EvalSeq(exprs[1..], env)
  }

  // ----- typing -----

  datatype Ty = I64 | I8 | F64

  type TypeEnv = map<string, Ty>

  datatype MaybeTy = Typed(ty: Ty) | Untyped

  datatype TypedEnv = TypedEnv(env: TypeEnv) | UntypedEnv

  /** The integer and boolean expressions: operands of one type, orderings and arithmetic on
      integers, connectives and conditions on booleans. */
  function TypeOf(e: Expr, tenv: TypeEnv): MaybeTy
    decreases e, 1
  {
    match e
    case IntLit(_) => Typed(I64)
    case BoolLit(_) => Typed(I8)
    case SymbolRef(name) => if name in tenv && tenv[name] != F64 then Typed(tenv[name]) else Untyped
    case FnCall(callee, args) =>
      if !callee.SymbolRef? then Untyped
      else if |args| == 2 then ResultType(callee.name, TypeOf(args[0], tenv), TypeOf(args[1], tenv))
      else if |args| == 1 && callee.name == "not" && TypeOf(args[0], tenv) == Typed(I8) then Typed(I8)
      else Untyped
    case If(cond, thn, els) =>
      if TypeOf(cond, tenv) == Typed(I8) && TypeOf(thn, tenv) == TypeOf(els, tenv) then TypeOf(thn, tenv) else Untyped
    case Let(bindings, body) =>
      var inner := TypeBindings(bindings, tenv);
      if inner.UntypedEnv? then Untyped else TypeOf(body, inner.env)
    case Do(exprs) => TypeSeq(exprs, tenv)
    case _ => Untyped
  }

  function ResultType(name: string, s: MaybeTy, t: MaybeTy): MaybeTy {
    if s.Untyped? || s != t then Untyped
    else if IsArith(name) then if s.ty == I64 then Typed(I64) else Untyped
    else if IsCmp(name) then if s.ty == I64 || name == "=" || name == "!=" then Typed(I8) else Untyped
    else if IsLogic(name) then if s.ty == I8 then Typed(I8) else Untyped
    else Untyped
  }

  function TypeBindings(bindings: seq<Binding>, tenv: TypeEnv): TypedEnv
    decreases bindings, 0
  {
    if bindings == [] then TypedEnv(tenv)
    else
      var t := TypeOf(bindings[0].value, tenv);
      if t.Untyped? then UntypedEnv else TypeBindings(bindings[1..], tenv[bindings[0].name := t.ty])
  }

  function TypeSeq(exprs: seq<Expr>, tenv: TypeEnv): MaybeTy
    decreases exprs, 0
  {
    if exprs == [] then Untyped
    else
      var t := TypeOf(exprs[0], tenv);
      if t.Untyped? || |exprs| == 1 then t else TypeSeq(exprs[1..], tenv)
  }

  function TyOfVal(v: Val): Ty {
    if v.IntV? then I64 else I8
  }

  /** Values of the declared types. */
  predicate Conforms(env: Env, tenv: TypeEnv) {
    env.Keys == tenv.Keys && forall name :: name in env ==> TyOfVal(env[name]) == tenv[name]
  }

  /** A typed expression yields a value of its type, or a division error. */
  lemma {:induction false} TypeSound(e: Expr, env: Env, tenv: TypeEnv)
    requires Conforms(env, tenv) && TypeOf(e, tenv).Typed?
    ensures Eval(e, env).Value? ==> TyOfVal(Eval(e, env).v) == TypeOf(e, tenv).ty
    decreases e, 1
  {
    match e
    case FnCall(callee, args) =>
      if |args| == 2 {
        TypeSound(args[0], env, tenv);
        TypeSound(args[1], env, tenv);
      }
    case If(cond, thn, els) =>
      TypeSound(thn, env, tenv);
      TypeSound(els, env, tenv);
    case Let(bindings, body) =>
      TypeSoundBindings(bindings, env, tenv);
      var inner := EvalBindings(bindings, env);
      if inner.Bound? {
        TypeSound(body, inner.env, TypeBindings(bindings, tenv).env);
      }
    case Do(exprs) =>
      TypeSoundSeq(exprs, env, tenv);
    case _ =>
  }

  lemma {:induction false} TypeSoundBindings(bindings: seq<Binding>, env: Env, tenv: TypeEnv)
    requires Conforms(env, tenv) && TypeBindings(bindings, tenv).TypedEnv?
    ensures EvalBindings(bindings, env).Bound? ==>
              Conforms(EvalBindings(bindings, env).env, TypeBindings(bindings, tenv).env)
    decreases bindings, 0
  {
    if bindings != [] {
      TypeSound(bindings[0].value, env, tenv);
      var x := Eval(bindings[0].value, env);
      if x.Value? {
        TypeSoundBindings(bindings[1..], env[bindings[0].name := x.v],
                          tenv[bindings[0].name := TypeOf(bindings[0].value, tenv).ty]);
      }
    }
  }

  lemma {:induction false} TypeSoundSeq(exprs: seq<Expr>, env: Env, tenv: TypeEnv)
    requires Conforms(env, tenv) && TypeSeq(exprs, tenv).Typed?
    ensures EvalSeq(exprs, env).Value? ==> TyOfVal(EvalSeq(exprs, env).v) == TypeSeq(exprs, tenv).ty
    decreases exprs, 0
  {
    TypeSound(exprs[0], env, tenv);
    if |exprs| > 1 {
      TypeSoundSeq(exprs[1..], env, tenv);
    }
  }
}
