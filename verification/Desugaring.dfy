/** Expressions with bounded quantifiers, their meaning, and their translation to folds over ranges. */
module Desugaring {
  import opened Ir
  import opened IrValues
  import opened Wrappers

  datatype LetBinding = LetBinding(name: string, value: Expr)

  datatype Field = Field(name: string, value: Expr)

  datatype MatchArm = MatchArm(pattern: Pattern, body: Expr)

  datatype Expr =
    | Literal(lit: IrValues.Literal)
    | SymbolRef(name: string)
    | Cond(cond: Expr, thn: Expr, els: Expr)
    | LetIn(bindings: seq<LetBinding>, body: Expr)
    | Block(exprs: seq<Expr>)
    | FnCall(name: string, args: seq<Expr>)
    | CallOf(callee: Expr, args: seq<Expr>)
    | Fn(params: seq<string>, body: Expr)
    | MatchOn(scrutinee: Expr, arms: seq<MatchArm>)
    | ListLit(items: seq<Expr>)
    | VariantCtor(tag: string, args: seq<Expr>)
    | StructLit(name: string, fields: seq<Field>)
    | Keyword(word: string)
    | TryOf(inner: Expr)
    | Quantified(isForall: bool, param: string, where: Option<Expr>, body: Expr)

  type SV = Value<Expr>
  type SEnv = Scope<Expr>

  datatype Defn = Defn(params: seq<string>, body: Expr)

  /** The functions of the program, and the names that can be held as references to functions. */
  datatype Program = Program(defns: map<string, Defn>, refs: set<string>)

  const DEFAULT_BOUND := 10000

  // ----- the meaning of the source -----

  /** `(< param e)` or `(<= param e)`. */
  predicate IsUpperBound(w: Expr, param: string) {
    w.FnCall? && (w.name == "<" || w.name == "<=") && |w.args| == 2 && w.args[0] == SymbolRef(param)
  }

  function Eval(e: Expr, env: SEnv, prog: Program, fuel: nat): Res<SV>
    decreases fuel, 2, e, 1
  {
    match e
    case Literal(lit) => Got(VLit(lit))
    case SymbolRef(name) =>
      var local := Lookup(env, name);
      Got(if local.Some? then local.value else FunctionRef(name, prog.refs))
    case Cond(cond, thn, els) =>
      var c :- Eval(cond, env, prog, fuel);
      if Truth(c) then Eval(thn, env, prog, fuel) else Eval(els, env, prog, fuel)
    case LetIn(bindings, body) =>
      var inner :- EvalBindings(bindings, env, prog, fuel);
      Eval(body, inner, prog, fuel)
    case Block(exprs) =>
      var vs :- EvalAll(exprs, env, prog, fuel);
      if vs == [] then Got(VLit(LNil)) else Got(vs[|vs| - 1])
    case FnCall(name, args) =>
      var vs :- EvalAll(args, env, prog, fuel);
      var local := Lookup(env, name);
      if IsDirect(name, |vs|) then Direct(name, vs)
      else if local.Some? then Apply(local.value, vs, prog, fuel)
      else CallGlobal(name, vs, prog, fuel)
    case CallOf(callee, args) =>
      var f :- Eval(callee, env, prog, fuel);
      var vs :- EvalAll(args, env, prog, fuel);
      Apply(f, vs, prog, fuel)
    case Fn(params, body) => Got(VClosure(params, body, env, false))
    case MatchOn(scrutinee, arms) =>
      var v :- Eval(scrutinee, env, prog, fuel);
      EvalArms(arms, v, env, prog, fuel)
    case ListLit(items) =>
      var vs :- EvalAll(items, env, prog, fuel);
      Got(VList(vs))
    case VariantCtor(tag, args) =>
      var vs :- EvalAll(args, env, prog, fuel);
      Got(VVariant(tag, vs))
    case StructLit(name, fields) =>
      var vs :- EvalFields(fields, env, prog, fuel);
      Got(VVariant(name, [VList(vs)]))
    case Keyword(word) => Got(VLit(LStr(":" + word)))
    case TryOf(inner) =>
      var v :- Eval(inner, env, prog, fuel);
      if v.VVariant? && v.tag == "Ok" && |v.args| == 1 then Got(v.args[0]) else Res<SV>.Fail
    case Quantified(isForall, param, where, body) =>
      var bound :- EvalBound(e, env, prog, fuel);
      if fuel == 0 then Res<SV>.Deeper
      else
        var items :- Range(VLit(LInt(0)), bound, fuel - 1);
        Scan(isForall, param, body, items, env, prog, fuel - 1)
  }

  function EvalAll(es: seq<Expr>, env: SEnv, prog: Program, fuel: nat): (r: Res<seq<SV>>)
    ensures r.Got? ==> |r.value| == |es|
    decreases fuel, 2, es, 0
  {
    if es == [] then Got([])
    else
      var v :- Eval(es[0], env, prog, fuel);
      var vs :- EvalAll(es[1..], env, prog, fuel);
      Got([v] + vs)
  }

  /** A structure is a list of pairs of field names and values. */
  function EvalFields(fields: seq<Field>, env: SEnv, prog: Program, fuel: nat): Res<seq<SV>>
    decreases fuel, 2, fields, 0
  {
    if fields == [] then Got([])
    else
      var v :- Eval(fields[0].value, env, prog, fuel);
      var vs :- EvalFields(fields[1..], env, prog, fuel);
      Got([VList([VLit(LStr(fields[0].name)), v])] + vs)
  }

  function EvalBindings(bs: seq<LetBinding>, env: SEnv, prog: Program, fuel: nat): Res<SEnv>
    decreases fuel, 2, bs, 0
  {
    if bs == [] then Got(env)
    else
      var v :- Eval(bs[0].value, env, prog, fuel);
      EvalBindings(bs[1..], Bind(bs[0].name, v, env), prog, fuel)
  }

  function EvalArms(arms: seq<MatchArm>, v: SV, env: SEnv, prog: Program, fuel: nat): Res<SV>
    decreases fuel, 2, arms, 0
  {
    if arms == [] then Res<SV>.Fail
    else
      var m := Matches(arms[0].pattern, v, env);
      if m.Some? then EvalArm(arms[0], m.value, prog, fuel) else EvalArms(arms[1..], v, env, prog, fuel)
  }

  function EvalArm(arm: MatchArm, env: SEnv, prog: Program, fuel: nat): Res<SV>
    decreases fuel, 2, arm, 0
  {
    Eval(arm.body, env, prog, fuel)
  }

  /** The first number that is too large, from the `where` clause; evaluated outside the quantifier. */
  function EvalBound(e: Expr, env: SEnv, prog: Program, fuel: nat): Res<SV>
    requires e.Quantified?
    decreases fuel, 2, e, 0
  {
    if e.where.None? then Got(VLit(LInt(DEFAULT_BOUND)))
    else if IsUpperBound(e.where.value, e.param) then
      var v :- Eval(e.where.value.args[1], env, prog, fuel);
      if e.where.value.name == "<" then Got(v) else Direct("+", [v, VLit(LInt(1))])
    else Eval(e.where.value, env, prog, fuel)
  }

  /** The body at each item in turn, up to the first value that decides; each in a call of its own. */
  function Scan(isForall: bool, param: string, body: Expr, items: seq<SV>, env: SEnv, prog: Program, fuel: nat): Res<SV>
    decreases fuel, 3, |items|
  {
    if items == [] then Got(VLit(LBool(isForall)))
    else if fuel == 0 then Res<SV>.Deeper
    else
      var v :- Eval(body, Bind(param, items[0], env), prog, fuel - 1);
      if |items| == 1 then Got(v)
      else if isForall && !(v.VLit? && v.lit.LBool?) then Res<SV>.Fail
      else if Truth(v) == isForall then Scan(isForall, param, body, items[1..], env, prog, fuel)
      else Got(VLit(LBool(!isForall)))
  }

  function Apply(f: SV, args: seq<SV>, prog: Program, fuel: nat): Res<SV>
    decreases fuel, 1
  {
    match f
    case VClosure(params, body, env, _) =>
      if |params| != |args| then Res<SV>.Fail
      else if fuel == 0 then Res<SV>.Deeper
      else Eval(body, BindAll(params, args, env), prog, fuel - 1)
    case VFunction(name) => CallGlobal(name, args, prog, fuel)
    case _ => Res<SV>.Fail
  }

  function CallGlobal(name: string, args: seq<SV>, prog: Program, fuel: nat): Res<SV>
    decreases fuel, 0
  {
    if IsBuiltin(name) then Builtin(name, args)
    else if name in prog.defns then
      var d := prog.defns[name];
      if |d.params| != |args| then Res<SV>.Fail
      else if fuel == 0 then Res<SV>.Deeper
      else Eval(d.body, BindAll(d.params, args, Empty), prog, fuel - 1)
    else if name == "range" && |args| == 2 then
      if fuel == 0 then Res<SV>.Deeper
      else
        var items :- Range(args[0], args[1], fuel - 1);
        Got(VList(items))
    else if name == "fold" && |args| == 3 && args[2].VList? then
      if fuel == 0 then Res<SV>.Deeper else Fold(args[0], args[1], args[2].items, prog, fuel - 1)
    else Res<SV>.Fail
  }

  function Fold(f: SV, acc: SV, items: seq<SV>, prog: Program, fuel: nat): Res<SV>
    decreases fuel, 3, |items|
  {
    if items == [] then Got(acc)
    else
      var next :- Apply(f, [acc, items[0]], prog, fuel);
      Fold(f, next, items[1..], prog, fuel)
  }

  // ----- translation -----

  const ACC := "__quant_acc"

  function Compile(e: Expr): Node
    decreases e, 1
  {
    match e
    case Literal(lit) => Lit(lit)
    case SymbolRef(name) => Load(name)
    case Cond(cond, thn, els) => If(Compile(cond), Compile(thn), Compile(els))
    case LetIn(bindings, body) => Let(CompileBindings(bindings), Compile(body))
    case Block(exprs) => Do(CompileAll(exprs))
    case FnCall(name, args) => Call(name, CompileAll(args))
    case CallOf(callee, args) => CallExpr(Compile(callee), CompileAll(args))
    case Fn(params, body) => Lambda(params, Compile(body))
    case MatchOn(scrutinee, arms) => Match(Compile(scrutinee), CompileArms(arms))
    case ListLit(items) => ListOf(CompileAll(items))
    case VariantCtor(tag, args) => Variant(tag, CompileAll(args))
    case StructLit(name, fields) => Variant(name, [ListOf(CompileFields(fields))])
    case Keyword(word) => Lit(LStr(":" + word))
    case TryOf(inner) => Try(Compile(inner))
    case Quantified(isForall, param, where, body) =>
      var upper :=
        if where.None? then Lit(LInt(DEFAULT_BOUND))
        else
          var extracted := ExtractUpperBound(where.value, param);
          if extracted.Some? then extracted.value else Compile(where.value);
      Call("fold", [Lambda([ACC, param], FoldBody(isForall, Compile(body))), Lit(LBool(isForall)),
                    Call("range", [Lit(LInt(0)), upper])])
  }

  function CompileAll(es: seq<Expr>): (r: seq<Node>)
    ensures |r| == |es|
    decreases es, 0
  {
    if es == [] then [] else [Compile(es[0])] + CompileAll(es[1..])
  }

  function CompileFields(fields: seq<Field>): (r: seq<Node>)
    ensures |r| == |fields|
    decreases fields, 0
  {
    if fields == [] then []
    else [ListOf([Lit(LStr(fields[0].name)), Compile(fields[0].value)])] + CompileFields(fields[1..])
  }

  function CompileBindings(bs: seq<LetBinding>): (r: seq<IrBinding>)
    ensures |r| == |bs|
    decreases bs, 0
  {
    if bs == [] then [] else [IrBinding(bs[0].name, Compile(bs[0].value))] + CompileBindings(bs[1..])
  }

  function CompileArms(arms: seq<MatchArm>): (r: seq<Arm>)
    ensures |r| == |arms|
    decreases arms, 0
  {
    if arms == [] then [] else [CompileArm(arms[0])] + CompileArms(arms[1..])
  }

  function CompileArm(arm: MatchArm): Arm
    decreases arm, 0
  {
    Arm(arm.pattern, Compile(arm.body))
  }

  function ExtractUpperBound(w: Expr, param: string): Option<Node>
    decreases w, 0
  {
    if w.FnCall? && |w.args| == 2 && w.args[0].SymbolRef? && w.args[0].name == param then
      if w.name == "<" then Some(Compile(w.args[1]))
      else if w.name == "<=" then Some(Call("+", [Compile(w.args[1]), Lit(LInt(1))]))
      else None
    else None
  }

  function FoldBody(isForall: bool, body: Node): Node {
    if isForall then If(Call("not", [Load(ACC)]), Lit(LBool(false)), body)
    else If(Load(ACC), Lit(LBool(true)), body)
  }

  function CompileProgram(prog: Program): Ctx {
    Ctx(map name | name in prog.defns :: Fun(prog.defns[name].params, Compile(prog.defns[name].body), false), prog.refs,
        (s: string) => s)
  }
}
