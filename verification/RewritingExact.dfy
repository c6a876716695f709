/** Exactly which local names import rewriting respects. */
module RewritingExact {
  import opened Ir
  import opened IrValues
  import opened Rewriting
  import opened RewritingCorrect
  import opened Strings
  import opened Wrappers

  // ----- a local name that a caller can check -----

  predicate BecomesName(n: string, ds: seq<Directive>, publics: Publics, b: string) {
    RewriteName(n, ds, publics) == Ok(Some(b))
  }

  /** Some import is renamed to `b`: `b` is `module_symbol` for a symbol that is imported. */
  predicate IsImported(ds: seq<Directive>, publics: Publics, b: string) {
    exists i :: 0 <= i < |ds| && ImportedFrom(ds, publics, b, i)
  }

  predicate ImportedFrom(ds: seq<Directive>, publics: Publics, b: string, i: nat)
    requires i < |ds|
  {
    var start := ds[i].moduleName + "_";
    && start <= b
    && var symbol := b[|start|..];
       BecomesName(ds[i].prefix + "." + symbol, ds, publics, b) || BecomesName(symbol, ds, publics, b)
  }

  /** `b` stands for no import and no import is renamed to it. */
  predicate IsLocalName(ds: seq<Directive>, publics: Publics, b: string) {
    var r := RewriteName(b, ds, publics);
    (r.Err? || r.value.None?) && !IsImported(ds, publics, b)
  }

  /** No name is rewritten to itself. */
  lemma NeverItself(n: string, ds: seq<Directive>, publics: Publics)
    ensures !BecomesName(n, ds, publics, n)
  {
    var dot := IndexOf(n, '.');
    if dot < |n| {
      var p := FindPrefix(ds, n[..dot]);
      if p < |ds| {
        var m := ds[p].moduleName;
        var symbol := n[dot + 1..];
        var renamed := m + "_" + symbol;
        assert renamed[|m|] == '_' && |renamed| == |m| + 1 + |symbol| && |n| == dot + 1 + |symbol| && n[dot] == '.';
      }
    }
  }

  lemma WhatBecomes(n: string, ds: seq<Directive>, publics: Publics, b: string)
    requires BecomesName(n, ds, publics, b)
    ensures IsImported(ds, publics, b)
  {
    var dot := IndexOf(n, '.');
    var p := if dot < |n| then FindPrefix(ds, n[..dot]) else |ds|;
    if p < |ds| {
      var symbol := n[dot + 1..];
      assert n == ds[p].prefix + "." + symbol;
      assert b == ds[p].moduleName + "_" + symbol;
      SymbolOf(ds[p].moduleName, symbol);
      assert ImportedFrom(ds, publics, b, p);
    } else {
      var o := FindOnly(ds, n);
      assert b == ds[o].moduleName + "_" + n;
      SymbolOf(ds[o].moduleName, n);
      assert ImportedFrom(ds, publics, b, o);
    }
  }

  lemma SymbolOf(m: string, symbol: string)
    ensures var start := m + "_"; start <= m + "_" + symbol && (m + "_" + symbol)[|start|..] == symbol
  {
  }

  /** Nothing is rewritten to a name exactly if it is that of no import. */
  lemma ImportedIff(ds: seq<Directive>, publics: Publics, b: string)
    ensures IsImported(ds, publics, b) <==> exists n :: BecomesName(n, ds, publics, b)
  {
    if IsImported(ds, publics, b) {
      var i :| 0 <= i < |ds| && ImportedFrom(ds, publics, b, i);
      ImportOf(ds, publics, b, i);
    } else if n :| BecomesName(n, ds, publics, b) {
      WhatBecomes(n, ds, publics, b);
    }
  }

  lemma ImportOf(ds: seq<Directive>, publics: Publics, b: string, i: nat)
    requires i < |ds| && ImportedFrom(ds, publics, b, i)
    ensures exists n :: BecomesName(n, ds, publics, b)
  {
    hide BecomesName;
  }

  lemma TargetOf(n: string, ds: seq<Directive>, publics: Publics, b: string)
    ensures Target(ds, publics)(n) == b <==>
              BecomesName(n, ds, publics, b) || (n == b && (RewriteName(n, ds, publics).Err? || RewriteName(n, ds, publics).value.None?))
  {
    hide RewriteName;
    NeverItself(n, ds, publics);
  }

  /** The check decides plainness. */
  lemma LocalNameIffPlain(ds: seq<Directive>, publics: Publics, b: string)
    ensures IsLocalName(ds, publics, b) <==> Plain(Target(ds, publics), b)
  {
    var f := Target(ds, publics);
    ImportedIff(ds, publics, b);
    NeverItself(b, ds, publics);
    forall n
      ensures f(n) == b <==> BecomesName(n, ds, publics, b) || (n == b && f(b) == b)
      ensures n != b ==> (f(n) == b <==> BecomesName(n, ds, publics, b))
    {
      TargetOf(n, ds, publics, b);
      TargetOf(b, ds, publics, b);
    }
    TargetOf(b, ds, publics, b);
    hide RewriteName, IsImported, Target, BecomesName;
    if n :| BecomesName(n, ds, publics, b) {
      assert f(n) == b;
      assert n != b;
    }
  }

  // ----- what depends on it -----

  /** The functions that carry qualified names bind `b` only. */
  ghost predicate CtxBinds(ctx: Ctx, b: string) {
    forall n :: n in ctx.globals && ctx.globals[n].qualified ==>
      Names(ctx.globals[n].params, Is(b)) && Binders(ctx.globals[n].body, Is(b))
  }

  /** Rewriting keeps the meaning of the program. */
  ghost predicate Kept(main: Node, ctx: Ctx, ds: seq<Directive>, publics: Publics, fuel: nat)
    requires RewriteNode(main, ds, publics).Ok?
  {
    Eval(RewriteNode(main, ds, publics).value, Empty, false, RewrittenCtx(ctx, Target(ds, publics)), fuel) ==
      RewrittenRes(Eval(main, Empty, true, ctx, fuel), Target(ds, publics))
  }

  /** Rewriting keeps the meaning of every program whose only local name is `b`. */
  ghost predicate KeptAround(b: string, ds: seq<Directive>, publics: Publics) {
    forall main: Node, ctx: Ctx, fuel: nat ::
      RewriteNode(main, ds, publics).Ok? && ctx.resolve == Target(ds, publics) && Binders(main, Is(b)) && CtxBinds(ctx, b) ==>
        Kept(main, ctx, ds, publics, fuel)
  }

  lemma {:induction false} BindersImply(n: Node, p: string -> bool, q: string -> bool)
    requires Binders(n, p) && forall b :: p(b) ==> q(b)
    ensures Binders(n, q)
    decreases n, 1
  {
    match n
    case Lit(_) =>
    case Load(_) =>
    case Call(_, args) => BindersImplyAll(args, p, q);
    case CallExpr(callee, args) =>
      BindersImply(callee, p, q);
      BindersImplyAll(args, p, q);
    case If(cond, thn, els) =>
      BindersImply(cond, p, q);
      BindersImply(thn, p, q);
      BindersImply(els, p, q);
    case Do(nodes) => BindersImplyAll(nodes, p, q);
    case Let(bindings, body) =>
      BindersImplyLet(bindings, p, q);
      BindersImply(body, p, q);
    case Func(_, _, body) => BindersImply(body, p, q);
    case Lambda(_, body) => BindersImply(body, p, q);
    case ListOf(items) => BindersImplyAll(items, p, q);
    case Variant(_, args) => BindersImplyAll(args, p, q);
    case Match(scrutinee, arms) =>
      BindersImply(scrutinee, p, q);
      BindersImplyArms(arms, p, q);
    case Try(inner) => BindersImply(inner, p, q);
  }

  lemma {:induction false} BindersImplyAll(ns: seq<Node>, p: string -> bool, q: string -> bool)
    requires BindersAll(ns, p) && forall b :: p(b) ==> q(b)
    ensures BindersAll(ns, q)
    decreases ns, 0
  {
    if ns != [] {
      BindersImply(ns[0], p, q);
      BindersImplyAll(ns[1..], p, q);
    }
  }

  lemma {:induction false} BindersImplyLet(bs: seq<IrBinding>, p: string -> bool, q: string -> bool)
    requires BindersLet(bs, p) && forall b :: p(b) ==> q(b)
    ensures BindersLet(bs, q)
    decreases bs, 0
  {
    if bs != [] {
      BindersImply(bs[0].expr, p, q);
      BindersImplyLet(bs[1..], p, q);
    }
  }

  lemma {:induction false} BindersImplyArms(arms: seq<Arm>, p: string -> bool, q: string -> bool)
    requires BindersArms(arms, p) && forall b :: p(b) ==> q(b)
    ensures BindersArms(arms, q)
    decreases arms, 0
  {
    if arms != [] {
      BindersImplyArm(arms[0], p, q);
      BindersImplyArms(arms[1..], p, q);
    }
  }

  lemma {:induction false} BindersImplyArm(arm: Arm, p: string -> bool, q: string -> bool)
    requires BindersArm(arm, p) && forall b :: p(b) ==> q(b)
    ensures BindersArm(arm, q)
    decreases arm, 0
  {
    BindersPatternImply(arm.pattern, p, q);
    BindersImply(arm.body, p, q);
  }

  /** A local `b` with the value 5 around one use of the name `n`. */
  function Around(b: string, n: string): Node {
    Let([IrBinding(b, Lit(LInt(5)))], Load(n))
  }

  lemma AroundEval(b: string, n: string, q: bool, ctx: Ctx)
    ensures Eval(Around(b, n), Empty, q, ctx, 0) ==
              if n == b then Got(VLit(LInt(5))) else Got(FunctionRef(if q then ctx.resolve(n) else n, ctx.refs))
  {
    var bs := [IrBinding(b, Lit(LInt(5)))];
    var env: Env := Bind(b, VLit(LInt(5)), Empty);
    assert bs[1..] == [];
    assert Eval(bs[0].expr, Empty, q, ctx, 0) == Got(VLit(LInt(5)));
    assert EvalBindings(bs[1..], env, q, ctx, 0) == Got(env);
    assert n != b ==> Lookup(env, n) == Lookup<Node>(Empty, n) == None;
  }

  lemma AroundRewritten(b: string, n: string, ds: seq<Directive>, publics: Publics)
    requires RewriteName(n, ds, publics).Ok?
    ensures RewriteNode(Around(b, n), ds, publics) == Ok(Around(b, Target(ds, publics)(n)))
  {
    var bs := [IrBinding(b, Lit(LInt(5)))];
    assert bs[1..] == [] && [IrBinding(b, Lit(LInt(5)))] + [] == bs;
    assert RewriteBindings(bs[1..], ds, publics) == Ok([]);
    assert RewriteNode(bs[0].expr, ds, publics) == Ok(Lit(LInt(5)));
    assert RewriteBindings(bs, ds, publics) == Ok(bs);
  }

  /** One use of `n` under a local `b` shows the capture, whichever way it goes. */
  lemma CaptureShows(b: string, n: string, ds: seq<Directive>, publics: Publics)
    requires var f := Target(ds, publics); f(n) != n && (n == b || f(n) == b)
    ensures var ctx := Ctx(map[], {}, Target(ds, publics));
            && RewriteNode(Around(b, n), ds, publics).Ok?
            && Binders(Around(b, n), Is(b))
            && !Kept(Around(b, n), ctx, ds, publics, 0)
  {
    var f := Target(ds, publics);
    var ctx := Ctx(map[], {}, f);
    AroundRewritten(b, n, ds, publics);
    AroundEval(b, n, true, ctx);
    AroundEval(b, f(n), false, RewrittenCtx(ctx, f));
    var bs := [IrBinding(b, Lit(LInt(5)))];
    assert bs[1..] == [] && Binders(bs[0].expr, Is(b)) && BindersLet(bs[1..], Is(b));
  }

  /** Rewriting keeps the meaning of every program whose only local name is `b` exactly when `b` stands
      for no import and is the name of none. */
  lemma LocalNameIffKept(b: string, ds: seq<Directive>, publics: Publics)
    ensures IsLocalName(ds, publics, b) <==> KeptAround(b, ds, publics)
  {
    var f := Target(ds, publics);
    LocalNameIffPlain(ds, publics, b);
    if Plain(f, b) {
      forall main: Node, ctx: Ctx, fuel: nat |
        RewriteNode(main, ds, publics).Ok? && ctx.resolve == f && Binders(main, Is(b)) && CtxBinds(ctx, b)
        ensures Kept(main, ctx, ds, publics, fuel)
      {
        PlainPrograms(main, ctx, b, f);
        RewritingPreservesEvaluation(main, ctx, ds, publics, fuel);
      }
    } else {
      var n :| f(n) != n && (n == b || f(n) == b);
      CaptureShows(b, n, ds, publics);
      assert CtxBinds(Ctx(map[], {}, f), b);
    }
  }

  lemma PlainPrograms(main: Node, ctx: Ctx, b: string, f: Renaming)
    requires Plain(f, b) && ctx.resolve == f && Binders(main, Is(b)) && CtxBinds(ctx, b)
    ensures Untangled(main, f) && SafeCtx(ctx, f)
  {
    assert forall n :: Is(b)(n) ==> IsPlain(f)(n);
    hide Plain;
    BindersImply(main, Is(b), IsPlain(f));
    forall n | n in ctx.globals && ctx.globals[n].qualified
      ensures PlainAll(f, ctx.globals[n].params) && Untangled(ctx.globals[n].body, f)
    {
      BindersImply(ctx.globals[n].body, Is(b), IsPlain(f));
    }
  }

  // ----- every program counts -----

  function Any(): string -> bool {
    (name: string) => true
  }

  /** The restriction on binders is one on names only: where every name may be bound, every program may be. */
  lemma {:induction false} AllBinders(n: Node)
    ensures Binders(n, Any())
    decreases n, 1
  {
    match n
    case Lit(_) =>
    case Load(_) =>
    case Call(_, args) => AllBindersOf(args);
    case CallExpr(callee, args) =>
      AllBinders(callee);
      AllBindersOf(args);
    case If(cond, thn, els) =>
      AllBinders(cond);
      AllBinders(thn);
      AllBinders(els);
    case Do(nodes) => AllBindersOf(nodes);
    case Let(bindings, body) =>
      AllBindersLet(bindings);
      AllBinders(body);
    case Func(_, _, body) => AllBinders(body);
    case Lambda(_, body) => AllBinders(body);
    case ListOf(items) => AllBindersOf(items);
    case Variant(_, args) => AllBindersOf(args);
    case Match(scrutinee, arms) =>
      AllBinders(scrutinee);
      AllBindersArms(arms);
    case Try(inner) => AllBinders(inner);
  }

  lemma {:induction false} AllBindersOf(ns: seq<Node>)
    ensures BindersAll(ns, Any())
    decreases ns, 0
  {
    if ns != [] {
      AllBinders(ns[0]);
      AllBindersOf(ns[1..]);
    }
  }

  lemma {:induction false} AllBindersLet(bs: seq<IrBinding>)
    ensures BindersLet(bs, Any())
    decreases bs, 0
  {
    if bs != [] {
      AllBinders(bs[0].expr);
      AllBindersLet(bs[1..]);
    }
  }

  lemma {:induction false} AllBindersArms(arms: seq<Arm>)
    ensures BindersArms(arms, Any())
    decreases arms, 0
  {
    if arms != [] {
      AllBindersArm(arms[0]);
      AllBindersArms(arms[1..]);
    }
  }

  lemma {:induction false} AllBindersArm(arm: Arm)
    ensures BindersArm(arm, Any())
    decreases arm, 0
  {
    AllBinders(arm.body);
    AnyPattern(arm.pattern, Any());
  }
}
