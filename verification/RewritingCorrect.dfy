/** Running rewritten code is running the original with its names looked up as imports. */
module RewritingCorrect {
  import opened Wrappers
  import opened Ir
  import opened IrValues
  import opened Rewriting

  type Renaming = string -> string

  // ----- no local binder is confused with an imported name -----

  /** As a local name, `b` neither stands for an import nor is what an import is renamed to. */
  ghost predicate Plain(f: Renaming, b: string) {
    f(b) == b && forall n :: f(n) == b ==> n == b
  }

  ghost function IsPlain(f: Renaming): string -> bool {
    (b: string) => Plain(f, b)
  }

  ghost predicate PlainAll(f: Renaming, names: seq<string>) {
    Names(names, IsPlain(f))
  }

  /** Every binder in the node is plain. */
  ghost predicate Untangled(n: Node, f: Renaming) {
    Binders(n, IsPlain(f))
  }

  /** The same for the code and the environments inside values. */
  ghost predicate Safe(v: V, f: Renaming)
    decreases v, 1
  {
    match v
    case VList(items) => SafeAll(items, f)
    case VVariant(_, args) => SafeAll(args, f)
    case VClosure(params, body, env, q) =>
      SafeEnv(env, q, f) && (q ==> PlainAll(f, params) && Untangled(body, f))
    case _ => true
  }

  ghost predicate SafeAll(vs: seq<V>, f: Renaming)
    decreases vs, 0
  {
    vs == [] || (Safe(vs[0], f) && SafeAll(vs[1..], f))
  }

  ghost predicate SafeEnv(env: Env, q: bool, f: Renaming)
    decreases env, 0
  {
    match env
    case Empty => true
    case Bind(name, v, rest) => (q ==> Plain(f, name)) && Safe(v, f) && SafeEnv(rest, q, f)
  }

  ghost predicate SafeCtx(ctx: Ctx, f: Renaming) {
    && (forall n :: ctx.resolve(n) == f(n))
    && forall n :: n in ctx.globals && ctx.globals[n].qualified ==>
         PlainAll(f, ctx.globals[n].params) && Untangled(ctx.globals[n].body, f)
  }

  // ----- rewriting values, environments and programs -----

  function Code(n: Node, q: bool, f: Renaming): Node {
    if q then Rename(n, f) else n
  }

  function Rewritten(v: V, f: Renaming): V
    decreases v, 1
  {
    match v
    case VList(items) => VList(RewrittenAll(items, f))
    case VVariant(tag, args) => VVariant(tag, RewrittenAll(args, f))
    case VClosure(params, body, env, q) => VClosure(params, Code(body, q, f), RewrittenEnv(env, f), false)
    case _ => v
  }

  function RewrittenAll(vs: seq<V>, f: Renaming): (r: seq<V>)
    ensures |r| == |vs| && forall i :: 0 <= i < |vs| ==> r[i] == Rewritten(vs[i], f)
    decreases vs, 0
  {
    if vs == [] then [] else [Rewritten(vs[0], f)] + RewrittenAll(vs[1..], f)
  }

  function RewrittenEnv(env: Env, f: Renaming): Env
    decreases env, 0
  {
    match env
    case Empty => Empty
    case Bind(name, v, rest) => Bind(name, Rewritten(v, f), RewrittenEnv(rest, f))
  }

  function RewrittenFun(fun: Fun, f: Renaming): Fun {
    Fun(fun.params, Code(fun.body, fun.qualified, f), false)
  }

  function RewrittenCtx(ctx: Ctx, f: Renaming): Ctx {
    Ctx(map n | n in ctx.globals :: RewrittenFun(ctx.globals[n], f), ctx.refs, ctx.resolve)
  }

  function RewrittenRes(r: Res<V>, f: Renaming): Res<V> {
    if r.Got? then Got(Rewritten(r.value, f)) else r
  }

  ghost predicate SafeRes(r: Res<V>, f: Renaming) {
    r.Got? ==> Safe(r.value, f)
  }

  // ----- lemmas about values -----

  lemma {:induction false} LookupRewritten(env: Env, q: bool, f: Renaming, name: string)
    requires SafeEnv(env, q, f)
    ensures var l := Lookup(env, name);
            && Lookup(RewrittenEnv(env, f), name) == (if l.Some? then Some(Rewritten(l.value, f)) else None)
            && (l.Some? ==> Safe(l.value, f) && (q ==> Plain(f, name)))
  {
    match env
    case Empty =>
    case Bind(n, v, rest) =>
      if n != name {
        LookupRewritten(rest, q, f, name);
      }
  }

  /** A name and what it is renamed to are found alike among the locals. */
  lemma LocalsAgree(env: Env, f: Renaming, name: string)
    requires SafeEnv(env, true, f)
    ensures Lookup(env, name).Some? ==> f(name) == name
    ensures Lookup(env, name).None? ==> Lookup(env, f(name)).None?
  {
    LookupRewritten(env, true, f, name);
    LookupRewritten(env, true, f, f(name));
  }

  lemma {:induction false} SafeIndex(vs: seq<V>, f: Renaming, i: nat)
    requires SafeAll(vs, f) && i < |vs|
    ensures Safe(vs[i], f)
  {
    if i > 0 {
      SafeIndex(vs[1..], f, i - 1);
    }
  }

  lemma {:induction false} SameRewritten(v: V, w: V, f: Renaming)
    ensures Same(Rewritten(v, f), Rewritten(w, f)) <==> Same(v, w)
    decreases v
  {
    match (v, w)
    case (VList(xs), VList(ys)) =>
      if |xs| == |ys| {
        forall i | 0 <= i < |xs|
          ensures Same(Rewritten(xs[i], f), Rewritten(ys[i], f)) <==> Same(xs[i], ys[i])
        {
          SameRewritten(xs[i], ys[i], f);
        }
      }
    case (VVariant(_, xs), VVariant(_, ys)) =>
      if |xs| == |ys| {
        forall i | 0 <= i < |xs|
          ensures Same(Rewritten(xs[i], f), Rewritten(ys[i], f)) <==> Same(xs[i], ys[i])
        {
          SameRewritten(xs[i], ys[i], f);
        }
      }
    case _ =>
  }

  /** All other direct operations see literals only, and give such. */
  lemma DirectOnLiterals(name: string, args: seq<V>, args': seq<V>)
    requires IsDirect(name, |args|) && |args'| == |args| && name != "=" && name != "!="
    requires LitOf(args[0]) == LitOf(args'[0]) && (|args| == 2 ==> LitOf(args[1]) == LitOf(args'[1]))
    ensures Direct(name, args') == Direct(name, args)
    ensures Direct(name, args).Got? ==> Direct(name, args).value.VLit?
  {
    hide OrderLit, ArithLit, NotLit;
  }

  lemma EqualityRewritten(name: string, args: seq<V>, f: Renaming)
    requires |args| == 2 && (name == "=" || name == "!=")
    ensures Direct(name, RewrittenAll(args, f)) == RewrittenRes(Direct(name, args), f)
    ensures SafeRes(Direct(name, args), f)
  {
    SameRewritten(args[0], args[1], f);
    hide Same;
  }

  lemma DirectRewritten(name: string, args: seq<V>, f: Renaming)
    requires IsDirect(name, |args|)
    ensures Direct(name, RewrittenAll(args, f)) == RewrittenRes(Direct(name, args), f)
    ensures SafeRes(Direct(name, args), f)
  {
    if name == "=" || name == "!=" {
      EqualityRewritten(name, args, f);
    } else {
      LiteralRewritten(args[0], f);
      if |args| == 2 {
        LiteralRewritten(args[1], f);
      }
      DirectOnLiterals(name, args, RewrittenAll(args, f));
      hide Direct;
    }
  }

  lemma LiteralRewritten(v: V, f: Renaming)
    ensures LitOf(Rewritten(v, f)) == LitOf(v)
  {
  }

  lemma ConsRewritten(x: V, items: seq<V>, f: Renaming)
    requires Safe(x, f) && SafeAll(items, f)
    ensures RewrittenAll([x] + items, f) == [Rewritten(x, f)] + RewrittenAll(items, f)
    ensures SafeAll([x] + items, f)
  {
    assert ([x] + items)[1..] == items;
  }

  lemma TailRewritten(items: seq<V>, f: Renaming)
    requires SafeAll(items, f) && items != []
    ensures RewrittenAll(items, f)[1..] == RewrittenAll(items[1..], f)
    ensures Rewritten(items[0], f) == RewrittenAll(items, f)[0]
    ensures Safe(items[0], f) && SafeAll(items[1..], f)
  {
  }

  /** The items of a range are literals. */
  lemma {:induction false} RangeRewritten(start: V, end: V, f: Renaming, fuel: nat)
    ensures Range(Rewritten(start, f), Rewritten(end, f), fuel) == Range(start, end, fuel)
    ensures Range(start, end, fuel).Got? ==>
              SafeAll(Range(start, end, fuel).value, f) &&
              RewrittenAll(Range(start, end, fuel).value, f) == Range(start, end, fuel).value
    decreases fuel
  {
    SameRewritten(start, end, f);
    if !Same(start, end) && fuel > 0 {
      var args: seq<V> := [start, VLit(LInt(1))];
      PlusOneRewritten(start, f);
      var next := Direct("+", args);
      if next.Got? {
        RangeRewritten(next.value, end, f, fuel - 1);
        var rest := Range(next.value, end, fuel - 1);
        if rest.Got? {
          ConsRewritten(start, rest.value, f);
        }
      }
    } else if !Same(start, end) {
      PlusOneRewritten(start, f);
    }
  }

  /** What can be counted up is a literal, and the next is one too. */
  lemma PlusOneRewritten(start: V, f: Renaming)
    ensures var args: seq<V>, args': seq<V> := [start, VLit(LInt(1))], [Rewritten(start, f), VLit(LInt(1))];
            && Direct("+", args') == Direct("+", args)
            && (Direct("+", args).Got? ==>
                  start.VLit? && Rewritten(start, f) == start && Safe(start, f) &&
                  Direct("+", args).value.VLit? && Rewritten(Direct("+", args).value, f) == Direct("+", args).value)
  {
    LiteralRewritten(start, f);
  }

  lemma LogicRewritten(name: string, args: seq<V>, f: Renaming)
    requires name == "and" || name == "or"
    ensures Builtin(name, RewrittenAll(args, f)) == RewrittenRes(Builtin(name, args), f)
    ensures SafeRes(Builtin(name, args), f)
  {
    if |args| == 2 {
      LiteralRewritten(args[0], f);
      LiteralRewritten(args[1], f);
      hide LogicLit;
    }
  }

  lemma EmptyRewritten(args: seq<V>, f: Renaming)
    ensures Builtin("empty?", RewrittenAll(args, f)) == RewrittenRes(Builtin("empty?", args), f)
    ensures SafeRes(Builtin("empty?", args), f)
  {
  }

  lemma StrictRewritten(name: string, args: seq<V>, f: Renaming)
    requires IsDirect(name, |args|)
    ensures Builtin(name, RewrittenAll(args, f)) == RewrittenRes(Builtin(name, args), f)
    ensures SafeRes(Builtin(name, args), f)
  {
    hide Direct, OrderLit, Rewritten, RewrittenAll, Safe;
    DirectRewritten(name, args, f);
    LiteralRewritten(args[0], f);
    if |args| == 2 {
      LiteralRewritten(args[1], f);
    }
  }

  lemma BuiltinRewritten(name: string, args: seq<V>, f: Renaming)
    requires SafeAll(args, f)
    ensures Builtin(name, RewrittenAll(args, f)) == RewrittenRes(Builtin(name, args), f)
    ensures SafeRes(Builtin(name, args), f)
  {
    if IsDirect(name, |args|) {
      StrictRewritten(name, args, f);
    } else if name == "and" || name == "or" {
      LogicRewritten(name, args, f);
    } else if name == "empty?" {
      EmptyRewritten(args, f);
    } else if |args| > 0 {
      SafeIndex(args, f, 0);
      var x := args[0];
      if name == "cons" && |args| == 2 && args[1].VList? {
        SafeIndex(args, f, 1);
        ConsRewritten(x, args[1].items, f);
      } else if (name == "head" || name == "tail") && x.VList? && x.items != [] {
        TailRewritten(x.items, f);
      }
    }
  }

  lemma {:induction false} MatchesRewritten(p: Pattern, v: V, env: Env, q: bool, f: Renaming)
    requires Safe(v, f) && SafeEnv(env, q, f) && (q ==> BindersPattern(p, IsPlain(f)))
    ensures var m := Matches(p, v, env);
            && Matches(p, Rewritten(v, f), RewrittenEnv(env, f)) ==
                 (if m.Some? then Some(RewrittenEnv(m.value, f)) else None)
            && (m.Some? ==> SafeEnv(m.value, q, f))
    decreases p, 1
  {
    match p
    case PVariant(tag, subs) =>
      if v.VVariant? && v.tag == tag && |v.args| == |subs| {
        MatchesAllRewritten(subs, v.args, env, q, f);
      }
    case _ =>
  }

  lemma {:induction false} MatchesAllRewritten(ps: seq<Pattern>, vs: seq<V>, env: Env, q: bool, f: Renaming)
    requires |ps| == |vs| && SafeAll(vs, f) && SafeEnv(env, q, f) && (q ==> BindersPatterns(ps, IsPlain(f)))
    ensures var m := MatchesAll(ps, vs, env);
            && MatchesAll(ps, RewrittenAll(vs, f), RewrittenEnv(env, f)) ==
                 (if m.Some? then Some(RewrittenEnv(m.value, f)) else None)
            && (m.Some? ==> SafeEnv(m.value, q, f))
    decreases ps, 0
  {
    if ps != [] {
      MatchesRewritten(ps[0], vs[0], env, q, f);
      var first := Matches(ps[0], vs[0], env);
      assert RewrittenAll(vs, f)[1..] == RewrittenAll(vs[1..], f);
      if first.Some? {
        MatchesAllRewritten(ps[1..], vs[1..], first.value, q, f);
      }
    }
  }

  lemma PlainTail(f: Renaming, names: seq<string>)
    requires PlainAll(f, names) && names != []
    ensures Plain(f, names[0]) && PlainAll(f, names[1..])
  {
    hide Plain;
    assert IsPlain(f)(names[0]);
    forall i | 0 <= i < |names[1..]| ensures IsPlain(f)(names[1..][i]) {
      assert names[1..][i] == names[i + 1];
    }
  }

  lemma {:induction false} BindAllRewritten(params: seq<string>, vs: seq<V>, env: Env, q: bool, f: Renaming)
    requires |params| == |vs| && SafeAll(vs, f) && SafeEnv(env, q, f) && (q ==> PlainAll(f, params))
    ensures BindAll(params, RewrittenAll(vs, f), RewrittenEnv(env, f)) == RewrittenEnv(BindAll(params, vs, env), f)
    ensures SafeEnv(BindAll(params, vs, env), q, f)
    decreases |params|
  {
    if params != [] {
      assert RewrittenAll(vs, f)[1..] == RewrittenAll(vs[1..], f);
      if q {
        PlainTail(f, params);
      }
      BindAllRewritten(params[1..], vs[1..], Bind(params[0], vs[0], env), q, f);
    }
  }

  // ----- the simulation -----

  /** At any call depth, the rewritten node in the rewritten program gives the rewritten result. */
  lemma {:induction false} EvalRewritten(n: Node, env: Env, q: bool, ctx: Ctx, f: Renaming, fuel: nat)
    requires SafeCtx(ctx, f) && SafeEnv(env, q, f) && (q ==> Untangled(n, f))
    ensures Eval(Code(n, q, f), RewrittenEnv(env, f), false, RewrittenCtx(ctx, f), fuel) ==
              RewrittenRes(Eval(n, env, q, ctx, fuel), f)
    ensures SafeRes(Eval(n, env, q, ctx, fuel), f)
    decreases fuel, 2, n, 1
  {
    match n
    case Load(_) => LoadRewritten(n, env, q, ctx, f, fuel);
    case Call(_, _) => CallRewritten(n, env, q, ctx, f, fuel);
    case CallExpr(_, _) => CallExprRewritten(n, env, q, ctx, f, fuel);
    case If(_, _, _) => IfRewritten(n, env, q, ctx, f, fuel);
    case Do(_) => DoRewritten(n, env, q, ctx, f, fuel);
    case ListOf(_) => ListRewritten(n, env, q, ctx, f, fuel);
    case Variant(_, _) => ListRewritten(n, env, q, ctx, f, fuel);
    case Let(_, _) => LetRewritten(n, env, q, ctx, f, fuel);
    case Match(_, _) => MatchRewritten(n, env, q, ctx, f, fuel);
    case Try(_) => TryRewritten(n, env, q, ctx, f, fuel);
    case _ =>
  }

  lemma {:induction false} LoadRewritten(n: Node, env: Env, q: bool, ctx: Ctx, f: Renaming, fuel: nat)
    requires SafeCtx(ctx, f) && SafeEnv(env, q, f) && (q ==> Untangled(n, f)) && n.Load?
    ensures Eval(Code(n, q, f), RewrittenEnv(env, f), false, RewrittenCtx(ctx, f), fuel) ==
              RewrittenRes(Eval(n, env, q, ctx, fuel), f)
    ensures SafeRes(Eval(n, env, q, ctx, fuel), f)
    decreases fuel, 2, n, 0
  {
    LookupRewritten(env, q, f, n.name);
    if q {
      LocalsAgree(env, f, n.name);
      LookupRewritten(env, q, f, f(n.name));
    }
  }

  lemma {:induction false} CallExprRewritten(n: Node, env: Env, q: bool, ctx: Ctx, f: Renaming, fuel: nat)
    requires SafeCtx(ctx, f) && SafeEnv(env, q, f) && (q ==> Untangled(n, f)) && n.CallExpr?
    ensures Eval(Code(n, q, f), RewrittenEnv(env, f), false, RewrittenCtx(ctx, f), fuel) ==
              RewrittenRes(Eval(n, env, q, ctx, fuel), f)
    ensures SafeRes(Eval(n, env, q, ctx, fuel), f)
    decreases fuel, 2, n, 0
  {
    EvalRewritten(n.callee, env, q, ctx, f, fuel);
    EvalAllRewritten(n.args, env, q, ctx, f, fuel);
    var g, vs := Eval(n.callee, env, q, ctx, fuel), EvalAll(n.args, env, q, ctx, fuel);
    if g.Got? && vs.Got? {
      ApplyRewritten(g.value, vs.value, ctx, f, fuel);
    }
    hide Apply, SafeAll, Safe, SafeEnv, SafeCtx, RewrittenAll, RewrittenEnv, EvalAll, Untangled;
  }

  lemma {:induction false} IfRewritten(n: Node, env: Env, q: bool, ctx: Ctx, f: Renaming, fuel: nat)
    requires SafeCtx(ctx, f) && SafeEnv(env, q, f) && (q ==> Untangled(n, f)) && n.If?
    ensures Eval(Code(n, q, f), RewrittenEnv(env, f), false, RewrittenCtx(ctx, f), fuel) ==
              RewrittenRes(Eval(n, env, q, ctx, fuel), f)
    ensures SafeRes(Eval(n, env, q, ctx, fuel), f)
    decreases fuel, 2, n, 0
  {
    EvalRewritten(n.cond, env, q, ctx, f, fuel);
    EvalRewritten(n.thn, env, q, ctx, f, fuel);
    EvalRewritten(n.els, env, q, ctx, f, fuel);
  }

  lemma LastRewritten(vs: seq<V>, f: Renaming)
    requires SafeAll(vs, f)
    ensures |RewrittenAll(vs, f)| == |vs|
    ensures vs != [] ==> RewrittenAll(vs, f)[|vs| - 1] == Rewritten(vs[|vs| - 1], f) && Safe(vs[|vs| - 1], f)
    ensures Safe(VLit(LNil), f) && Rewritten(VLit(LNil), f) == VLit(LNil)
  {
    if vs != [] {
      SafeIndex(vs, f, |vs| - 1);
    }
  }

  /** What a block makes of the results of its parts. */
  function LastOf(vs: Res<seq<V>>): Res<V> {
    if !vs.Got? then vs.PropagateFailure()
    else Got(if vs.value == [] then VLit(LNil) else vs.value[|vs.value| - 1])
  }

  lemma LastOfRewritten(vs: Res<seq<V>>, f: Renaming)
    requires vs.Got? ==> SafeAll(vs.value, f)
    ensures LastOf(if vs.Got? then Got(RewrittenAll(vs.value, f)) else vs) == RewrittenRes(LastOf(vs), f)
    ensures SafeRes(LastOf(vs), f)
  {
    if vs.Got? {
      LastRewritten(vs.value, f);
      hide SafeAll, RewrittenAll, Safe, Rewritten;
    }
  }

  lemma DoEval(nodes: seq<Node>, env: Env, q: bool, ctx: Ctx, fuel: nat)
    ensures Eval(Do(nodes), env, q, ctx, fuel) == LastOf(EvalAll(nodes, env, q, ctx, fuel))
  {
    hide EvalAll;
  }

  lemma DoCode(n: Node, q: bool, f: Renaming)
    requires n.Do? && (q ==> Untangled(n, f))
    ensures Code(n, q, f) == Do(if q then RenameAll(n.nodes, f) else n.nodes)
    ensures q ==> BindersAll(n.nodes, IsPlain(f))
  {
  }

  lemma {:induction false} DoRewritten(n: Node, env: Env, q: bool, ctx: Ctx, f: Renaming, fuel: nat)
    requires SafeCtx(ctx, f) && SafeEnv(env, q, f) && (q ==> Untangled(n, f)) && n.Do?
    ensures Eval(Code(n, q, f), RewrittenEnv(env, f), false, RewrittenCtx(ctx, f), fuel) ==
              RewrittenRes(Eval(n, env, q, ctx, fuel), f)
    ensures SafeRes(Eval(n, env, q, ctx, fuel), f)
    decreases fuel, 2, n, 0
  {
    DoCode(n, q, f);
    var nodes := if q then RenameAll(n.nodes, f) else n.nodes;
    hide *;
    EvalAllRewritten(n.nodes, env, q, ctx, f, fuel);
    DoEval(n.nodes, env, q, ctx, fuel);
    DoEval(nodes, RewrittenEnv(env, f), false, RewrittenCtx(ctx, f), fuel);
    LastOfRewritten(EvalAll(n.nodes, env, q, ctx, fuel), f);
  }

  lemma {:induction false} ListRewritten(n: Node, env: Env, q: bool, ctx: Ctx, f: Renaming, fuel: nat)
    requires SafeCtx(ctx, f) && SafeEnv(env, q, f) && (q ==> Untangled(n, f)) && (n.ListOf? || n.Variant?)
    ensures Eval(Code(n, q, f), RewrittenEnv(env, f), false, RewrittenCtx(ctx, f), fuel) ==
              RewrittenRes(Eval(n, env, q, ctx, fuel), f)
    ensures SafeRes(Eval(n, env, q, ctx, fuel), f)
    decreases fuel, 2, n, 0
  {
    hide SafeCtx, SafeEnv, RewrittenEnv, RewrittenCtx, Plain, PlainAll;
    EvalAllRewritten(if n.ListOf? then n.items else n.args, env, q, ctx, f, fuel);
    hide SafeAll, RewrittenAll, EvalAll;
  }

  lemma {:induction false} LetRewritten(n: Node, env: Env, q: bool, ctx: Ctx, f: Renaming, fuel: nat)
    requires SafeCtx(ctx, f) && SafeEnv(env, q, f) && (q ==> Untangled(n, f)) && n.Let?
    ensures Eval(Code(n, q, f), RewrittenEnv(env, f), false, RewrittenCtx(ctx, f), fuel) ==
              RewrittenRes(Eval(n, env, q, ctx, fuel), f)
    ensures SafeRes(Eval(n, env, q, ctx, fuel), f)
    decreases fuel, 2, n, 0
  {
    EvalBindingsRewritten(n.bindings, env, q, ctx, f, fuel);
    var inner := EvalBindings(n.bindings, env, q, ctx, fuel);
    if inner.Got? {
      EvalRewritten(n.body, inner.value, q, ctx, f, fuel);
    }
  }

  lemma {:induction false} MatchRewritten(n: Node, env: Env, q: bool, ctx: Ctx, f: Renaming, fuel: nat)
    requires SafeCtx(ctx, f) && SafeEnv(env, q, f) && (q ==> Untangled(n, f)) && n.Match?
    ensures Eval(Code(n, q, f), RewrittenEnv(env, f), false, RewrittenCtx(ctx, f), fuel) ==
              RewrittenRes(Eval(n, env, q, ctx, fuel), f)
    ensures SafeRes(Eval(n, env, q, ctx, fuel), f)
    decreases fuel, 2, n, 0
  {
    EvalRewritten(n.scrutinee, env, q, ctx, f, fuel);
    var v := Eval(n.scrutinee, env, q, ctx, fuel);
    if v.Got? {
      EvalArmsRewritten(n.arms, v.value, env, q, ctx, f, fuel);
    }
  }

  lemma {:induction false} TryRewritten(n: Node, env: Env, q: bool, ctx: Ctx, f: Renaming, fuel: nat)
    requires SafeCtx(ctx, f) && SafeEnv(env, q, f) && (q ==> Untangled(n, f)) && n.Try?
    ensures Eval(Code(n, q, f), RewrittenEnv(env, f), false, RewrittenCtx(ctx, f), fuel) ==
              RewrittenRes(Eval(n, env, q, ctx, fuel), f)
    ensures SafeRes(Eval(n, env, q, ctx, fuel), f)
    decreases fuel, 2, n, 0
  {
    EvalRewritten(n.inner, env, q, ctx, f, fuel);
    var v := Eval(n.inner, env, q, ctx, fuel);
    if v.Got? && v.value.VVariant? && |v.value.args| == 1 {
      SafeIndex(v.value.args, f, 0);
    }
  }

  /** A call with its arguments evaluated. */
  lemma CallEval(name: string, args: seq<Node>, env: Env, q: bool, ctx: Ctx, fuel: nat)
    ensures var vs, local := EvalAll(args, env, q, ctx, fuel), Lookup(env, name);
            var r := if q && local.None? then ctx.resolve(name) else name;
            Eval(Call(name, args), env, q, ctx, fuel) ==
              if !vs.Got? then vs.PropagateFailure()
              else if IsDirect(r, |vs.value|) then Direct(r, vs.value)
              else if local.Some? then Apply(local.value, vs.value, ctx, fuel)
              else CallGlobal(r, vs.value, ctx, fuel)
  {
    hide EvalAll, Direct, Apply, CallGlobal, Lookup;
  }

  /** A callee is the same local, or the same function, before and after. */
  lemma CalleesAgree(name: string, env: Env, q: bool, ctx: Ctx, f: Renaming)
    requires SafeCtx(ctx, f) && SafeEnv(env, q, f)
    ensures var local, after := Lookup(env, name), if q then f(name) else name;
            var r := if q && local.None? then ctx.resolve(name) else name;
            && r == after
            && Lookup(RewrittenEnv(env, f), after) == (if local.Some? then Some(Rewritten(local.value, f)) else None)
            && (local.Some? ==> Safe(local.value, f))
  {
    LookupRewritten(env, q, f, name);
    if q {
      LocalsAgree(env, f, name);
      LookupRewritten(env, q, f, f(name));
    }
    hide SafeEnv, RewrittenEnv, Plain, Rewritten, Safe, Lookup;
  }

  lemma {:induction false} CallRewritten(n: Node, env: Env, q: bool, ctx: Ctx, f: Renaming, fuel: nat)
    requires SafeCtx(ctx, f) && SafeEnv(env, q, f) && (q ==> Untangled(n, f)) && n.Call?
    ensures Eval(Code(n, q, f), RewrittenEnv(env, f), false, RewrittenCtx(ctx, f), fuel) ==
              RewrittenRes(Eval(n, env, q, ctx, fuel), f)
    ensures SafeRes(Eval(n, env, q, ctx, fuel), f)
    decreases fuel, 2, n, 0
  {
    EvalAllRewritten(n.args, env, q, ctx, f, fuel);
    var name, args := if q then f(n.name) else n.name, if q then RenameAll(n.args, f) else n.args;
    assert Code(n, q, f) == Call(name, args);
    CalleesAgree(n.name, env, q, ctx, f);
    hide Eval, EvalAll, Direct, Apply, CallGlobal, Lookup, Code, SafeCtx, SafeEnv, SafeAll, Safe, RewrittenEnv, RewrittenCtx,
         RewrittenAll, Rewritten, Untangled;
    CallEval(n.name, n.args, env, q, ctx, fuel);
    CallEval(name, args, RewrittenEnv(env, f), false, RewrittenCtx(ctx, f), fuel);
    var vs := EvalAll(n.args, env, q, ctx, fuel);
    if vs.Got? {
      var local := Lookup(env, n.name);
      if IsDirect(name, |vs.value|) {
        DirectRewritten(name, vs.value, f);
      } else if local.Some? {
        ApplyRewritten(local.value, vs.value, ctx, f, fuel);
      } else {
        CallGlobalRewritten(name, vs.value, ctx, f, fuel);
      }
    }
  }

  lemma {:induction false} EvalAllRewritten(ns: seq<Node>, env: Env, q: bool, ctx: Ctx, f: Renaming, fuel: nat)
    requires SafeCtx(ctx, f) && SafeEnv(env, q, f) && (q ==> BindersAll(ns, IsPlain(f)))
    ensures var r := EvalAll(ns, env, q, ctx, fuel);
            && EvalAll(if q then RenameAll(ns, f) else ns, RewrittenEnv(env, f), false, RewrittenCtx(ctx, f), fuel) ==
                 (if r.Got? then Got(RewrittenAll(r.value, f)) else r)
            && (r.Got? ==> SafeAll(r.value, f))
    decreases fuel, 2, ns, 0
  {
    if ns != [] {
      EvalRewritten(ns[0], env, q, ctx, f, fuel);
      EvalAllRewritten(ns[1..], env, q, ctx, f, fuel);
      assert q ==> RenameAll(ns, f)[1..] == RenameAll(ns[1..], f);
      var v, vs := Eval(ns[0], env, q, ctx, fuel), EvalAll(ns[1..], env, q, ctx, fuel);
      if v.Got? && vs.Got? {
        assert ([v.value] + vs.value)[1..] == vs.value;
      }
    }
  }

  lemma {:induction false} EvalBindingsRewritten(bs: seq<IrBinding>, env: Env, q: bool, ctx: Ctx, f: Renaming, fuel: nat)
    requires SafeCtx(ctx, f) && SafeEnv(env, q, f) && (q ==> BindersLet(bs, IsPlain(f)))
    ensures var r := EvalBindings(bs, env, q, ctx, fuel);
            && EvalBindings(if q then RenameBindings(bs, f) else bs, RewrittenEnv(env, f), false, RewrittenCtx(ctx, f), fuel) ==
                 (if r.Got? then Got(RewrittenEnv(r.value, f)) else r)
            && (r.Got? ==> SafeEnv(r.value, q, f))
    decreases fuel, 2, bs, 0
  {
    if bs != [] {
      EvalRewritten(bs[0].expr, env, q, ctx, f, fuel);
      assert q ==> RenameBindings(bs, f)[1..] == RenameBindings(bs[1..], f);
      var v := Eval(bs[0].expr, env, q, ctx, fuel);
      if v.Got? {
        EvalBindingsRewritten(bs[1..], Bind(bs[0].name, v.value, env), q, ctx, f, fuel);
      }
    }
  }

  lemma {:induction false} EvalArmsRewritten(arms: seq<Arm>, v: V, env: Env, q: bool, ctx: Ctx, f: Renaming, fuel: nat)
    requires SafeCtx(ctx, f) && SafeEnv(env, q, f) && Safe(v, f) && (q ==> BindersArms(arms, IsPlain(f)))
    ensures EvalArms(if q then RenameArms(arms, f) else arms, Rewritten(v, f), RewrittenEnv(env, f), false, RewrittenCtx(ctx, f), fuel) ==
              RewrittenRes(EvalArms(arms, v, env, q, ctx, fuel), f)
    ensures SafeRes(EvalArms(arms, v, env, q, ctx, fuel), f)
    decreases fuel, 2, arms, 0
  {
    if arms != [] {
      MatchesRewritten(arms[0].pattern, v, env, q, f);
      assert q ==> RenameArms(arms, f)[1..] == RenameArms(arms[1..], f);
      var m := Matches(arms[0].pattern, v, env);
      if m.Some? {
        EvalBodyRewritten(arms[0], m.value, q, ctx, f, fuel);
      } else {
        EvalArmsRewritten(arms[1..], v, env, q, ctx, f, fuel);
      }
    }
  }

  lemma {:induction false} EvalBodyRewritten(arm: Arm, env: Env, q: bool, ctx: Ctx, f: Renaming, fuel: nat)
    requires SafeCtx(ctx, f) && SafeEnv(env, q, f) && (q ==> BindersArm(arm, IsPlain(f)))
    ensures EvalBody(if q then RenameArm(arm, f) else arm, RewrittenEnv(env, f), false, RewrittenCtx(ctx, f), fuel) ==
              RewrittenRes(EvalBody(arm, env, q, ctx, fuel), f)
    ensures SafeRes(EvalBody(arm, env, q, ctx, fuel), f)
    decreases fuel, 2, arm, 0
  {
    EvalRewritten(arm.body, env, q, ctx, f, fuel);
  }

  lemma {:induction false} ApplyRewritten(g: V, args: seq<V>, ctx: Ctx, f: Renaming, fuel: nat)
    requires SafeCtx(ctx, f) && Safe(g, f) && SafeAll(args, f)
    ensures Apply(Rewritten(g, f), RewrittenAll(args, f), RewrittenCtx(ctx, f), fuel) ==
              RewrittenRes(Apply(g, args, ctx, fuel), f)
    ensures SafeRes(Apply(g, args, ctx, fuel), f)
    decreases fuel, 1
  {
    match g
    case VClosure(params, body, env, q) =>
      if |params| == |args| && fuel > 0 {
        BindAllRewritten(params, args, env, q, f);
        EvalRewritten(body, BindAll(params, args, env), q, ctx, f, fuel - 1);
      }
    case VFunction(name) => CallGlobalRewritten(name, args, ctx, f, fuel);
    case _ =>
  }

  lemma {:induction false} CallGlobalRewritten(name: string, args: seq<V>, ctx: Ctx, f: Renaming, fuel: nat)
    requires SafeCtx(ctx, f) && SafeAll(args, f)
    ensures CallGlobal(name, RewrittenAll(args, f), RewrittenCtx(ctx, f), fuel) ==
              RewrittenRes(CallGlobal(name, args, ctx, fuel), f)
    ensures SafeRes(CallGlobal(name, args, ctx, fuel), f)
    decreases fuel, 0
  {
    if IsBuiltin(name) {
      BuiltinRewritten(name, args, f);
    } else if name in ctx.globals {
      FunctionRewritten(name, args, ctx, f, fuel);
    } else if name == "range" && |args| == 2 {
      if fuel > 0 {
        RangeRewritten(args[0], args[1], f, fuel - 1);
      }
    } else if name == "fold" && |args| == 3 && args[2].VList? {
      SafeIndex(args, f, 0);
      SafeIndex(args, f, 1);
      SafeIndex(args, f, 2);
      if fuel > 0 {
        FoldRewritten(args[0], args[1], args[2].items, ctx, f, fuel - 1);
      }
    }
  }

  lemma {:induction false} FunctionRewritten(name: string, args: seq<V>, ctx: Ctx, f: Renaming, fuel: nat)
    requires SafeCtx(ctx, f) && SafeAll(args, f) && !IsBuiltin(name) && name in ctx.globals
    ensures CallGlobal(name, RewrittenAll(args, f), RewrittenCtx(ctx, f), fuel) ==
              RewrittenRes(CallGlobal(name, args, ctx, fuel), f)
    ensures SafeRes(CallGlobal(name, args, ctx, fuel), f)
    decreases fuel, 0, 0
  {
    var fun := ctx.globals[name];
    if |fun.params| == |args| && fuel > 0 {
      BindAllRewritten(fun.params, args, Empty, fun.qualified, f);
      EvalRewritten(fun.body, BindAll(fun.params, args, Empty), fun.qualified, ctx, f, fuel - 1);
    }
  }

  lemma {:induction false} FoldRewritten(g: V, acc: V, items: seq<V>, ctx: Ctx, f: Renaming, fuel: nat)
    requires SafeCtx(ctx, f) && Safe(g, f) && Safe(acc, f) && SafeAll(items, f)
    ensures Fold(Rewritten(g, f), Rewritten(acc, f), RewrittenAll(items, f), RewrittenCtx(ctx, f), fuel) ==
              RewrittenRes(Fold(g, acc, items, ctx, fuel), f)
    ensures SafeRes(Fold(g, acc, items, ctx, fuel), f)
    decreases fuel, 3, |items|
  {
    if items != [] {
      var args := [acc, items[0]];
      assert args[1..] == [items[0]] && args[1..][1..] == [];
      assert RewrittenAll(args, f) == [Rewritten(acc, f), Rewritten(items[0], f)];
      ApplyRewritten(g, args, ctx, f, fuel);
      assert RewrittenAll(items, f)[1..] == RewrittenAll(items[1..], f);
      var next := Apply(g, args, ctx, fuel);
      if next.Got? {
        FoldRewritten(g, next.value, items[1..], ctx, f, fuel);
      }
    }
  }

  // ----- whole programs -----

  /** When rewriting the main program and its functions succeeds and no local name is confused with
      an imported one, the rewritten program gives what the original gives with its names looked up
      through the imports: the same data, the same error, the same need for a deeper call stack. */
  lemma RewritingPreservesEvaluation(main: Node, ctx: Ctx, ds: seq<Directive>, publics: Publics, fuel: nat)
    requires RewriteNode(main, ds, publics).Ok?
    requires var f := Target(ds, publics); ctx.resolve == f && SafeCtx(ctx, f) && Untangled(main, f)
    ensures var f := Target(ds, publics);
            && Eval(RewriteNode(main, ds, publics).value, Empty, false, RewrittenCtx(ctx, f), fuel) ==
                 RewrittenRes(Eval(main, Empty, true, ctx, fuel), f)
            && forall n :: n in ctx.globals && ctx.globals[n].qualified && RewriteNode(ctx.globals[n].body, ds, publics).Ok? ==>
                 RewrittenCtx(ctx, f).globals[n] ==
                   Fun(ctx.globals[n].params, RewriteNode(ctx.globals[n].body, ds, publics).value, false)
  {
    var f := Target(ds, publics);
    RewriteIsRename(main, ds, publics);
    EvalRewritten(main, Empty, true, ctx, f, fuel);
    forall n | n in ctx.globals && ctx.globals[n].qualified && RewriteNode(ctx.globals[n].body, ds, publics).Ok?
      ensures RewrittenCtx(ctx, f).globals[n] ==
                Fun(ctx.globals[n].params, RewriteNode(ctx.globals[n].body, ds, publics).value, false)
    {
      RewriteIsRename(ctx.globals[n].body, ds, publics);
    }
  }
}
