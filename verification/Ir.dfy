/** The intermediate representation and what running it means. */
module Ir {
  import opened IrValues

  datatype IrBinding = IrBinding(name: string, expr: Node)

  datatype Arm = Arm(pattern: Pattern, body: Node)

  datatype Node =
    | Lit(lit: Literal)
    | Load(name: string)
    | If(cond: Node, thn: Node, els: Node)
    | Do(nodes: seq<Node>)
    | Let(bindings: seq<IrBinding>, body: Node)
    | Func(name: string, params: seq<string>, body: Node)
    | Lambda(params: seq<string>, body: Node)
    | Call(name: string, args: seq<Node>)
    | CallExpr(callee: Node, args: seq<Node>)
    | ListOf(items: seq<Node>)
    | Variant(tag: string, args: seq<Node>)
    | Match(scrutinee: Node, arms: seq<Arm>)
    | Try(inner: Node)

  type V = Value<Node>
  type Env = Scope<Node>

  /** A function of the program; library code never carries qualified names. */
  datatype Fun = Fun(params: seq<string>, body: Node, qualified: bool)

  /** All functions by name, the names that can be held as references (those of compiled functions in
      native code, none in the bytecode machine), and what the names in qualified code stand for. */
  datatype Ctx = Ctx(globals: map<string, Fun>, refs: set<string>, resolve: string -> string)

  // ----- evaluation -----

  /** Evaluates in at most `fuel` nested frames. `q` tells whether the code carries qualified names: a
      name that is no local is then resolved first. */
  function Eval(node: Node, env: Env, q: bool, ctx: Ctx, fuel: nat): Res<V>
    decreases fuel, 2, node, 1
  {
    match node
    case Lit(lit) => Got(VLit(lit))
    case Load(name) =>
      var local := Lookup(env, name);
      Got(if local.Some? then local.value else FunctionRef(if q then ctx.resolve(name) else name, ctx.refs))
    case If(cond, thn, els) =>
      var c :- Eval(cond, env, q, ctx, fuel);
      if Truth(c) then Eval(thn, env, q, ctx, fuel) else Eval(els, env, q, ctx, fuel)
    case Do(nodes) =>
      var vs :- EvalAll(nodes, env, q, ctx, fuel);
      if vs == [] then Got(VLit(LNil)) else Got(vs[|vs| - 1])
    case Let(bindings, body) =>
      var inner :- EvalBindings(bindings, env, q, ctx, fuel);
      Eval(body, inner, q, ctx, fuel)
    case Func(_, _, _) => Got(VLit(LNil))
    case Lambda(params, body) => Got(VClosure(params, body, env, q))
    case Call(name, args) =>
      var vs :- EvalAll(args, env, q, ctx, fuel);
      var local := Lookup(env, name);
      var r := if q && local.None? then ctx.resolve(name) else name;
      if IsDirect(r, |vs|) then Direct(r, vs)
      else if local.Some? then Apply(local.value, vs, ctx, fuel)
      else CallGlobal(r, vs, ctx, fuel)
    case CallExpr(callee, args) =>
      var f :- Eval(callee, env, q, ctx, fuel);
      var vs :- EvalAll(args, env, q, ctx, fuel);
      Apply(f, vs, ctx, fuel)
    case ListOf(items) =>
      var vs :- EvalAll(items, env, q, ctx, fuel);
      Got(VList(vs))
    case Variant(tag, args) =>
      var vs :- EvalAll(args, env, q, ctx, fuel);
      Got(VVariant(tag, vs))
    case Match(scrutinee, arms) =>
      var v :- Eval(scrutinee, env, q, ctx, fuel);
      EvalArms(arms, v, env, q, ctx, fuel)
    case Try(inner) =>
      var v :- Eval(inner, env, q, ctx, fuel);
      if v.VVariant? && v.tag == "Ok" && |v.args| == 1 then Got(v.args[0]) else Res<V>.Fail
  }

  function EvalAll(nodes: seq<Node>, env: Env, q: bool, ctx: Ctx, fuel: nat): (r: Res<seq<V>>)
    ensures r.Got? ==> |r.value| == |nodes|
    decreases fuel, 2, nodes, 0
  {
    if nodes == [] then Got([])
    else
      var v :- Eval(nodes[0], env, q, ctx, fuel);
      var vs :- EvalAll(nodes[1..], env, q, ctx, fuel);
      Got([v] + vs)
  }

  function EvalBindings(bindings: seq<IrBinding>, env: Env, q: bool, ctx: Ctx, fuel: nat): Res<Env>
    decreases fuel, 2, bindings, 0
  {
    if bindings == [] then Got(env)
    else
      var v :- Eval(bindings[0].expr, env, q, ctx, fuel);
      EvalBindings(bindings[1..], Bind(bindings[0].name, v, env), q, ctx, fuel)
  }

  function EvalArms(arms: seq<Arm>, v: V, env: Env, q: bool, ctx: Ctx, fuel: nat): Res<V>
    decreases fuel, 2, arms, 0
  {
    if arms == [] then Res<V>.Fail
    else
      var m := Matches(arms[0].pattern, v, env);
      if m.Some? then EvalBody(arms[0], m.value, q, ctx, fuel) else EvalArms(arms[1..], v, env, q, ctx, fuel)
  }

  function EvalBody(arm: Arm, env: Env, q: bool, ctx: Ctx, fuel: nat): Res<V>
    decreases fuel, 2, arm, 0
  {
    Eval(arm.body, env, q, ctx, fuel)
  }

  function Apply(f: V, args: seq<V>, ctx: Ctx, fuel: nat): Res<V>
    decreases fuel, 1
  {
    match f
    case VClosure(params, body, env, q) =>
      if |params| != |args| then Res<V>.Fail
      else if fuel == 0 then Res<V>.Deeper
      else Eval(body, BindAll(params, args, env), q, ctx, fuel - 1)
    case VFunction(name) => CallGlobal(name, args, ctx, fuel)
    case _ => Res<V>.Fail
  }

  /** The runtime's functions first, which need no frame, then the program's, then the prelude's `range`
      and `fold`. */
  function CallGlobal(name: string, args: seq<V>, ctx: Ctx, fuel: nat): Res<V>
    decreases fuel, 0
  {
    if IsBuiltin(name) then Builtin(name, args)
    else if name in ctx.globals then
      var fun := ctx.globals[name];
      if |fun.params| != |args| then Res<V>.Fail
      else if fuel == 0 then Res<V>.Deeper
      else Eval(fun.body, BindAll(fun.params, args, Empty), fun.qualified, ctx, fuel - 1)
    else if name == "range" && |args| == 2 then
      if fuel == 0 then Res<V>.Deeper
      else
        var items :- Range(args[0], args[1], fuel - 1);
        Got(VList(items))
    else if name == "fold" && |args| == 3 && args[2].VList? then
      if fuel == 0 then Res<V>.Deeper else Fold(args[0], args[1], args[2].items, ctx, fuel - 1)
    else Res<V>.Fail
  }

  /** The prelude's `fold`, a tail call and so a loop: the function takes the accumulator, then the item. */
  function Fold(f: V, acc: V, items: seq<V>, ctx: Ctx, fuel: nat): Res<V>
    decreases fuel, 3, |items|
  {
    if items == [] then Got(acc)
    else
      var next :- Apply(f, [acc, items[0]], ctx, fuel);
      Fold(f, next, items[1..], ctx, fuel)
  }
}
