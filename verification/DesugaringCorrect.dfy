/** The translation of quantifiers to folds keeps the meaning of every program. */
module DesugaringCorrect {
  import opened Desugaring
  import opened Ir
  import opened IrValues
  import opened Wrappers
  import Source = Desugaring

  // ----- names the translation relies on -----

  /** A binder that captures none of the names that the translation introduces. */
  predicate Free(name: string) {
    name != "__quant_acc" && name != "fold" && name != "range"
  }

  predicate FreeAll(names: seq<string>) {
    forall i :: 0 <= i < |names| ==> Free(names[i])
  }

  /** What a program may do: which names it binds, and where it may mention the accumulator. */
  datatype Rules = Rules(binder: string -> bool, here: bool, inside: bool)

  /** In the body of a quantifier. */
  function Within(r: Rules): Rules {
    r.(here := r.inside)
  }

  predicate Clear(e: Expr, r: Rules)
    decreases e, 1
  {
    match e
    case Literal(_) => true
    case Keyword(_) => true
    case SymbolRef(name) => r.here || name != ACC
    case Cond(cond, thn, els) => Clear(cond, r) && Clear(thn, r) && Clear(els, r)
    case LetIn(bindings, body) => ClearBindings(bindings, r) && Clear(body, r)
    case Block(exprs) => ClearAll(exprs, r)
    case FnCall(name, args) => (r.here || name != ACC) && ClearAll(args, r)
    case CallOf(callee, args) => Clear(callee, r) && ClearAll(args, r)
    case Fn(params, body) => (forall i :: 0 <= i < |params| ==> r.binder(params[i])) && Clear(body, r)
    case MatchOn(scrutinee, arms) => Clear(scrutinee, r) && ClearArms(arms, r)
    case ListLit(items) => ClearAll(items, r)
    case VariantCtor(_, args) => ClearAll(args, r)
    case StructLit(_, fields) => ClearFields(fields, r)
    case TryOf(inner) => Clear(inner, r)
    case Quantified(_, param, where, body) =>
      r.binder(param) && (where.Some? ==> Clear(where.value, r)) && Clear(body, Within(r))
  }

  predicate ClearAll(es: seq<Expr>, r: Rules)
    decreases es, 0
  {
    es == [] || (Clear(es[0], r) && ClearAll(es[1..], r))
  }

  predicate ClearFields(fields: seq<Field>, r: Rules)
    decreases fields, 0
  {
    fields == [] || (Clear(fields[0].value, r) && ClearFields(fields[1..], r))
  }

  predicate ClearBindings(bs: seq<LetBinding>, r: Rules)
    decreases bs, 0
  {
    bs == [] || (r.binder(bs[0].name) && Clear(bs[0].value, r) && ClearBindings(bs[1..], r))
  }

  predicate ClearArms(arms: seq<MatchArm>, r: Rules)
    decreases arms, 0
  {
    arms == [] || (ClearArm(arms[0], r) && ClearArms(arms[1..], r))
  }

  predicate ClearArm(arm: MatchArm, r: Rules)
    decreases arm, 0
  {
    BindersPattern(arm.pattern, r.binder) && Clear(arm.body, r)
  }

  /** No binder captures an introduced name, and no body of a quantifier mentions the accumulator. */
  const CLEAN := Rules(Free, true, false)

  /** The rules for code that runs in the translation's environment `low`: where there is an
      accumulator, it must not be mentioned. */
  function At(low: Env): Rules {
    Rules(Free, Lookup(low, ACC).None?, false)
  }

  predicate Clean(e: Expr, low: Env) {
    Clear(e, At(low))
  }

  ghost predicate CleanProgram(prog: Program) {
    && "fold" !in prog.defns && "range" !in prog.defns
    && forall name :: name in prog.defns ==> FreeAll(prog.defns[name].params) && Clear(prog.defns[name].body, CLEAN)
  }

  // ----- values of the source and of its translation -----

  /** The same data; closures with translated code, over environments that differ in accumulators only. */
  ghost predicate Rel(v: SV, w: V)
    decreases w, 1
  {
    match w
    case VLit(lit) => v == VLit(lit)
    case VList(items) => v.VList? && RelAll(v.items, items)
    case VVariant(tag, args) => v.VVariant? && v.tag == tag && RelAll(v.args, args)
    case VClosure(params, body, low, q) =>
      v.VClosure? && v.params == params && body == Compile(v.body) && Clean(v.body, low) && FreeAll(params) && !q && Sees(v.env, low)
    case VFunction(name) => v == VFunction(name)
  }

  ghost predicate RelAll(vs: seq<SV>, ws: seq<V>)
    decreases ws, 0
  {
    if ws == [] then vs == [] else vs != [] && Rel(vs[0], ws[0]) && RelAll(vs[1..], ws[1..])
  }

  /** `env` runs the source, `low` the translation. */
  ghost predicate Sees(env: SEnv, low: Env)
    decreases low, 0
  {
    match low
    case Empty => env.Empty?
    case Bind(name, w, rest) =>
      if name == ACC then Sees(env, rest)
      else env.Bind? && env.name == name && Free(name) && Rel(env.val, w) && Sees(env.rest, rest)
  }

  ghost predicate RelRes(r: Res<SV>, s: Res<V>) {
    if r.Got? then s.Got? && Rel(r.value, s.value) else if r.Fail? then s.Fail? else s.Deeper?
  }

  ghost predicate RelResAll(r: Res<seq<SV>>, s: Res<seq<V>>) {
    if r.Got? then s.Got? && RelAll(r.value, s.value) else if r.Fail? then s.Fail? else s.Deeper?
  }

  lemma {:induction false} LookupSees(env: SEnv, low: Env, name: string)
    requires Sees(env, low)
    ensures Lookup(env, ACC).None?
    ensures name != ACC || Lookup(low, ACC).None? ==>
              (Lookup(env, name).Some? <==> Lookup(low, name).Some?) &&
              (Lookup(env, name).Some? ==> Rel(Lookup(env, name).value, Lookup(low, name).value))
    ensures !Free(name) && name != ACC ==> Lookup(low, name).None?
    decreases low
  {
    match low
    case Empty =>
    case Bind(n, w, rest) =>
      LookupSees(if n == ACC then env else env.rest, rest, name);
  }

  lemma {:induction false} RelIndex(vs: seq<SV>, ws: seq<V>, i: nat)
    requires RelAll(vs, ws) && i < |ws|
    ensures |vs| == |ws| && Rel(vs[i], ws[i])
    decreases |ws|
  {
    if i > 0 {
      RelIndex(vs[1..], ws[1..], i - 1);
    } else {
      RelLength(vs, ws);
    }
  }

  lemma {:induction false} RelLength(vs: seq<SV>, ws: seq<V>)
    requires RelAll(vs, ws)
    ensures |vs| == |ws|
    decreases |ws|
  {
    if ws != [] {
      RelLength(vs[1..], ws[1..]);
    }
  }

  lemma RelCons(v: SV, w: V, vs: seq<SV>, ws: seq<V>)
    requires Rel(v, w) && RelAll(vs, ws)
    ensures RelAll([v] + vs, [w] + ws)
  {
    assert ([v] + vs)[1..] == vs && ([w] + ws)[1..] == ws;
  }

  lemma RelPair(v: SV, w: V, v': SV, w': V)
    requires Rel(v, w) && Rel(v', w')
    ensures RelAll([v, v'], [w, w'])
  {
    assert [v, v'][1..] == [v'] && [w, w'][1..] == [w'];
    assert [v'][1..] == [] && [w'][1..] == [];
  }

  lemma {:induction false} SameRel(v: SV, v': SV, w: V, w': V)
    requires Rel(v, w) && Rel(v', w')
    ensures Same(v, v') <==> Same(w, w')
    decreases w
  {
    match (w, w')
    case (VList(xs), VList(ys)) => SameItems(v.items, v'.items, xs, ys, w);
    case (VVariant(_, xs), VVariant(_, ys)) => SameItems(v.args, v'.args, xs, ys, w);
    case _ =>
  }

  lemma {:induction false} SameItems(vs: seq<SV>, vs': seq<SV>, ws: seq<V>, ws': seq<V>, outer: V)
    requires RelAll(vs, ws) && RelAll(vs', ws') && forall i :: 0 <= i < |ws| ==> ws[i] < outer
    ensures |vs| == |ws| && |vs'| == |ws'|
    ensures |ws| == |ws'| ==> forall i :: 0 <= i < |ws| ==> (Same(vs[i], vs'[i]) <==> Same(ws[i], ws'[i]))
    decreases outer, 0
  {
    RelLength(vs, ws);
    RelLength(vs', ws');
    if |ws| == |ws'| {
      forall i | 0 <= i < |ws|
        ensures Same(vs[i], vs'[i]) <==> Same(ws[i], ws'[i])
      {
        RelIndex(vs, ws, i);
        RelIndex(vs', ws', i);
        SameRel(vs[i], vs'[i], ws[i], ws'[i]);
      }
    }
  }

  lemma RelLit(v: SV, w: V)
    requires Rel(v, w)
    ensures LitOf(v) == LitOf(w) && Truth(v) == Truth(w)
  {
  }

  lemma DirectRel(name: string, vs: seq<SV>, ws: seq<V>)
    requires RelAll(vs, ws) && IsDirect(name, |ws|)
    ensures |vs| == |ws| && RelRes(Direct(name, vs), Direct(name, ws))
  {
    RelIndex(vs, ws, 0);
    RelLit(vs[0], ws[0]);
    if |ws| == 2 {
      RelIndex(vs, ws, 1);
      RelLit(vs[1], ws[1]);
      SameRel(vs[0], vs[1], ws[0], ws[1]);
    }
    hide Same, OrderLit, ArithLit, NotLit, RelAll;
  }

  lemma {:induction false} RangeRel(start: SV, end: SV, low: V, lowEnd: V, fuel: nat)
    requires Rel(start, low) && Rel(end, lowEnd)
    ensures RelResAll(Range(start, end, fuel), Range(low, lowEnd, fuel))
    decreases fuel
  {
    SameRel(start, end, low, lowEnd);
    if !Same(start, end) {
      var one: SV, lowOne: V := VLit(LInt(1)), VLit(LInt(1));
      var vs, ws := [start, one], [low, lowOne];
      RelPair(start, low, one, lowOne);
      DirectRel("+", vs, ws);
      var next, lowNext := Direct("+", vs), Direct("+", ws);
      if next.Got? && fuel > 0 {
        RangeRel(next.value, end, lowNext.value, lowEnd, fuel - 1);
        var rest, lowRest := Range(next.value, end, fuel - 1), Range(lowNext.value, lowEnd, fuel - 1);
        if rest.Got? {
          RelCons(start, low, rest.value, lowRest.value);
        }
      }
    }
  }

  lemma BuiltinRel(name: string, vs: seq<SV>, ws: seq<V>)
    requires RelAll(vs, ws)
    ensures RelRes(Builtin(name, vs), Builtin(name, ws))
  {
    RelLength(vs, ws);
    if |ws| > 0 {
      RelIndex(vs, ws, 0);
      RelLit(vs[0], ws[0]);
    }
    if |ws| == 2 {
      RelIndex(vs, ws, 1);
      RelLit(vs[1], ws[1]);
    }
    if IsDirect(name, |ws|) {
      DirectRel(name, vs, ws);
      hide Direct, OrderLit;
    } else if |ws| > 0 {
      ListsRel(name, vs, ws);
    }
  }

  lemma ListsRel(name: string, vs: seq<SV>, ws: seq<V>)
    requires |vs| == |ws| > 0 && !IsDirect(name, |ws|) && Rel(vs[0], ws[0])
    requires |ws| == 2 ==> Rel(vs[1], ws[1])
    ensures RelRes(Builtin(name, vs), Builtin(name, ws))
  {
    RelLit(vs[0], ws[0]);
    if |ws| == 2 {
      RelLit(vs[1], ws[1]);
    }
    if name == "cons" && |ws| == 2 && ws[1].VList? {
      RelCons(vs[0], ws[0], vs[1].items, ws[1].items);
    } else if ws[0].VList? {
      RelLength(vs[0].items, ws[0].items);
    }
  }

  // ----- binding -----

  lemma {:induction false} MatchesRel(p: Pattern, v: SV, w: V, env: SEnv, low: Env)
    requires Rel(v, w) && Sees(env, low) && BindersPattern(p, Free)
    ensures var m, n := Matches(p, v, env), Matches(p, w, low);
            (m.Some? <==> n.Some?) && (m.Some? ==> Sees(m.value, n.value) && At(n.value) == At(low))
    decreases p, 1
  {
    match p
    case PVariant(tag, subs) =>
      if w.VVariant? {
        RelLength(v.args, w.args);
        if w.tag == tag && |w.args| == |subs| {
          MatchesAllRel(subs, v.args, w.args, env, low);
        }
      }
    case _ =>
  }

  lemma {:induction false} MatchesAllRel(ps: seq<Pattern>, vs: seq<SV>, ws: seq<V>, env: SEnv, low: Env)
    requires |ps| == |vs| == |ws| && RelAll(vs, ws) && Sees(env, low) && BindersPatterns(ps, Free)
    ensures var m, n := MatchesAll(ps, vs, env), MatchesAll(ps, ws, low);
            (m.Some? <==> n.Some?) && (m.Some? ==> Sees(m.value, n.value) && At(n.value) == At(low))
    decreases ps, 0
  {
    if ps != [] {
      MatchesRel(ps[0], vs[0], ws[0], env, low);
      var m, n := Matches(ps[0], vs[0], env), Matches(ps[0], ws[0], low);
      if m.Some? {
        MatchesAllRel(ps[1..], vs[1..], ws[1..], m.value, n.value);
      }
    }
  }

  lemma {:induction false} SeesAll(params: seq<string>, vs: seq<SV>, ws: seq<V>, env: SEnv, low: Env)
    requires |params| == |vs| == |ws| && Sees(env, low) && FreeAll(params) && RelAll(vs, ws)
    ensures Sees(BindAll(params, vs, env), BindAll(params, ws, low))
    ensures At(BindAll(params, ws, low)) == At(low)
    decreases |params|
  {
    if params != [] {
      assert Free(params[0]);
      assert forall i :: 0 <= i < |params[1..]| ==> params[1..][i] == params[i + 1];
      SeesAll(params[1..], vs[1..], ws[1..], Bind(params[0], vs[0], env), Bind(params[0], ws[0], low));
    }
  }

  // ----- the fold is the scan -----

  function Callback(e: Expr, low: Env): V
    requires e.Quantified?
  {
    VClosure([ACC, e.param], FoldBody(e.isForall, Compile(e.body)), low, false)
  }

  function Inner(e: Expr, low: Env, acc: V, item: V): Env
    requires e.Quantified?
  {
    Bind(e.param, item, Bind(ACC, acc, low))
  }

  /** Whether an accumulator leaves the quantifier open. */
  predicate Open(isForall: bool, acc: V) {
    if isForall then acc == VLit(LBool(true)) else !Truth(acc)
  }

  /** One call of the callback: the body while open, and no change once decided. */
  lemma CallbackStep(e: Expr, low: Env, acc: V, item: V, ctx: Ctx, fuel: nat)
    requires e.Quantified? && Free(e.param) && fuel > 0
    ensures var r := Ir.Apply(Callback(e, low), [acc, item], ctx, fuel);
            && (Open(e.isForall, acc) ==> r == Ir.Eval(Compile(e.body), Inner(e, low, acc, item), false, ctx, fuel - 1))
            && (e.isForall && acc == VLit(LBool(false)) ==> r == Got(VLit(LBool(false))))
            && (e.isForall && !(acc.VLit? && acc.lit.LBool?) ==> r == Res<V>.Fail)
            && (!e.isForall && Truth(acc) ==> r == Got(VLit(LBool(true))))
  {
    var params, args := [ACC, e.param], [acc, item];
    assert params[1..] == [e.param] && args[1..] == [item];
    assert BindAll(params[1..], args[1..], Bind(ACC, acc, low)) == Inner(e, low, acc, item);
    var env := Inner(e, low, acc, item);
    AccumulatorRead(e, low, acc, item, ctx, fuel - 1);
    assert Ir.Eval(Lit(LBool(false)), env, false, ctx, fuel - 1) == Got(VLit(LBool(false)));
    assert Ir.Eval(Lit(LBool(true)), env, false, ctx, fuel - 1) == Got(VLit(LBool(true)));
  }

  lemma AccumulatorRead(e: Expr, low: Env, acc: V, item: V, ctx: Ctx, fuel: nat)
    requires e.Quantified? && Free(e.param)
    ensures var env := Inner(e, low, acc, item);
            && Ir.Eval(Load(ACC), env, false, ctx, fuel) == Got(acc)
            && Ir.Eval(Call("not", [Load(ACC)]), env, false, ctx, fuel) ==
                 (if acc.VLit? && acc.lit.LBool? then Got(VLit(LBool(!acc.lit.b))) else Res<V>.Fail)
  {
    var env := Inner(e, low, acc, item);
    assert Lookup(Bind(ACC, acc, low), ACC) == Some(acc);
    assert Ir.Eval(Load(ACC), env, false, ctx, fuel) == Got(acc);
    var args := [Load(ACC)];
    assert Ir.EvalAll(args[1..], env, false, ctx, fuel) == Got([]);
    assert Ir.EvalAll(args, env, false, ctx, fuel) == Got([acc] + []);
    assert [acc] + [] == [acc];
  }

  lemma {:induction false} DecidedStays(e: Expr, low: Env, items: seq<V>, ctx: Ctx, fuel: nat)
    requires e.Quantified? && Free(e.param) && fuel > 0
    ensures Ir.Fold(Callback(e, low), VLit(LBool(!e.isForall)), items, ctx, fuel) == Got(VLit(LBool(!e.isForall)))
    decreases |items|
  {
    if items != [] {
      CallbackStep(e, low, VLit(LBool(!e.isForall)), items[0], ctx, fuel);
      DecidedStays(e, low, items[1..], ctx, fuel);
    }
  }

  // ----- the simulation -----

  /** At any call depth the translation gives the translated value, the same error, or the same need for a
      deeper call stack. */
  lemma {:induction false} EvalCompiled(e: Expr, env: SEnv, low: Env, prog: Program, fuel: nat)
    requires CleanProgram(prog) && Clean(e, low) && Sees(env, low)
    ensures RelRes(Source.Eval(e, env, prog, fuel), Ir.Eval(Compile(e), low, false, CompileProgram(prog), fuel))
    decreases fuel, 2, e, 3
  {
    match e
    case Literal(_) =>
    case Keyword(_) =>
    case SymbolRef(name) => LookupSees(env, low, name);
    case Fn(_, _) =>
    case Cond(_, _, _) => CondCompiled(e, env, low, prog, fuel);
    case LetIn(_, _) => LetCompiled(e, env, low, prog, fuel);
    case Block(_) => BlockCompiled(e, env, low, prog, fuel);
    case ListLit(_) => ItemsCompiled(e, env, low, prog, fuel);
    case VariantCtor(_, _) => ItemsCompiled(e, env, low, prog, fuel);
    case StructLit(_, _) => StructCompiled(e, env, low, prog, fuel);
    case MatchOn(_, _) => MatchCompiled(e, env, low, prog, fuel);
    case TryOf(_) => TryCompiled(e, env, low, prog, fuel);
    case FnCall(_, _) => CallCompiled(e, env, low, prog, fuel);
    case CallOf(_, _) => CallOfCompiled(e, env, low, prog, fuel);
    case Quantified(_, _, _, _) => QuantifierCompiled(e, env, low, prog, fuel);
  }

  lemma {:induction false} CondCompiled(e: Expr, env: SEnv, low: Env, prog: Program, fuel: nat)
    requires CleanProgram(prog) && Clean(e, low) && Sees(env, low) && e.Cond?
    ensures RelRes(Source.Eval(e, env, prog, fuel), Ir.Eval(Compile(e), low, false, CompileProgram(prog), fuel))
    decreases fuel, 2, e, 2
  {
    EvalCompiled(e.cond, env, low, prog, fuel);
    EvalCompiled(e.thn, env, low, prog, fuel);
    EvalCompiled(e.els, env, low, prog, fuel);
    var v := Source.Eval(e.cond, env, prog, fuel);
    if v.Got? {
      RelLit(v.value, Ir.Eval(Compile(e.cond), low, false, CompileProgram(prog), fuel).value);
    }
  }

  lemma {:induction false} LetCompiled(e: Expr, env: SEnv, low: Env, prog: Program, fuel: nat)
    requires CleanProgram(prog) && Clean(e, low) && Sees(env, low) && e.LetIn?
    ensures RelRes(Source.Eval(e, env, prog, fuel), Ir.Eval(Compile(e), low, false, CompileProgram(prog), fuel))
    decreases fuel, 2, e, 2
  {
    BindingsCompiled(e.bindings, env, low, prog, fuel);
    var r := Source.EvalBindings(e.bindings, env, prog, fuel);
    if r.Got? {
      var l := Ir.EvalBindings(CompileBindings(e.bindings), low, false, CompileProgram(prog), fuel);
      EvalCompiled(e.body, r.value, l.value, prog, fuel);
    }
  }

  lemma {:induction false} BlockCompiled(e: Expr, env: SEnv, low: Env, prog: Program, fuel: nat)
    requires CleanProgram(prog) && Clean(e, low) && Sees(env, low) && e.Block?
    ensures RelRes(Source.Eval(e, env, prog, fuel), Ir.Eval(Compile(e), low, false, CompileProgram(prog), fuel))
    decreases fuel, 2, e, 2
  {
    AllCompiled(e.exprs, env, low, prog, fuel);
    var vs := Source.EvalAll(e.exprs, env, prog, fuel);
    if vs.Got? {
      var ws := Ir.EvalAll(CompileAll(e.exprs), low, false, CompileProgram(prog), fuel).value;
      RelLength(vs.value, ws);
      if ws != [] {
        RelIndex(vs.value, ws, |ws| - 1);
      }
    }
    hide Sees, RelAll, CleanProgram, Source.EvalAll, Ir.EvalAll;
  }

  lemma {:induction false} ItemsCompiled(e: Expr, env: SEnv, low: Env, prog: Program, fuel: nat)
    requires CleanProgram(prog) && Clean(e, low) && Sees(env, low) && (e.ListLit? || e.VariantCtor?)
    ensures RelRes(Source.Eval(e, env, prog, fuel), Ir.Eval(Compile(e), low, false, CompileProgram(prog), fuel))
    decreases fuel, 2, e, 2
  {
    AllCompiled(if e.ListLit? then e.items else e.args, env, low, prog, fuel);
    hide Sees, RelAll, CleanProgram, Source.EvalAll, Ir.EvalAll;
  }

  lemma {:induction false} StructCompiled(e: Expr, env: SEnv, low: Env, prog: Program, fuel: nat)
    requires CleanProgram(prog) && Clean(e, low) && Sees(env, low) && e.StructLit?
    ensures RelRes(Source.Eval(e, env, prog, fuel), Ir.Eval(Compile(e), low, false, CompileProgram(prog), fuel))
    decreases fuel, 2, e, 2
  {
    FieldsCompiled(e.fields, env, low, prog, fuel);
    var nodes, ctx := CompileFields(e.fields), CompileProgram(prog);
    OneItem(ListOf(nodes), low, ctx, fuel);
    var vs, ws := Source.EvalFields(e.fields, env, prog, fuel), Ir.EvalAll(nodes, low, false, ctx, fuel);
    if vs.Got? {
      RelOne(VList(vs.value), VList(ws.value));
    }
    hide Sees, RelAll, CleanProgram, Source.EvalFields, Ir.EvalAll;
  }

  lemma RelOne(v: SV, w: V)
    requires Rel(v, w)
    ensures RelAll([v], [w])
  {
    assert [v][1..] == [] && [w][1..] == [];
  }

  lemma OneItem(n: Node, low: Env, ctx: Ctx, fuel: nat)
    ensures var w := Ir.Eval(n, low, false, ctx, fuel);
            Ir.EvalAll([n], low, false, ctx, fuel) == if w.Got? then Got([w.value]) else w.PropagateFailure()
  {
    assert [n][1..] == [] && Ir.EvalAll([n][1..], low, false, ctx, fuel) == Got([]);
    var w := Ir.Eval(n, low, false, ctx, fuel);
    assert w.Got? ==> [w.value] + [] == [w.value];
  }

  lemma {:induction false} FieldsCompiled(fields: seq<Field>, env: SEnv, low: Env, prog: Program, fuel: nat)
    requires CleanProgram(prog) && ClearFields(fields, At(low)) && Sees(env, low)
    ensures RelResAll(Source.EvalFields(fields, env, prog, fuel),
                      Ir.EvalAll(CompileFields(fields), low, false, CompileProgram(prog), fuel))
    decreases fuel, 2, fields, 0
  {
    if fields != [] {
      EvalCompiled(fields[0].value, env, low, prog, fuel);
      FieldsCompiled(fields[1..], env, low, prog, fuel);
      var nodes, ctx, key := CompileFields(fields), CompileProgram(prog), fields[0].name;
      assert nodes[0] == ListOf([Lit(LStr(key)), Compile(fields[0].value)]) && nodes[1..] == CompileFields(fields[1..]);
      EvalPair(Lit(LStr(key)), Compile(fields[0].value), low, ctx, fuel);
      assert Ir.Eval(Lit(LStr(key)), low, false, ctx, fuel) == Got(VLit(LStr(key)));
      var v, vs := Source.Eval(fields[0].value, env, prog, fuel), Source.EvalFields(fields[1..], env, prog, fuel);
      if v.Got? && vs.Got? {
        var w := Ir.Eval(Compile(fields[0].value), low, false, ctx, fuel);
        var ws := Ir.EvalAll(nodes[1..], low, false, ctx, fuel);
        RelPair(VLit(LStr(key)), VLit(LStr(key)), v.value, w.value);
        RelCons(VList([VLit(LStr(key)), v.value]), VList([VLit(LStr(key)), w.value]), vs.value, ws.value);
      }
    }
  }

  lemma {:induction false} MatchCompiled(e: Expr, env: SEnv, low: Env, prog: Program, fuel: nat)
    requires CleanProgram(prog) && Clean(e, low) && Sees(env, low) && e.MatchOn?
    ensures RelRes(Source.Eval(e, env, prog, fuel), Ir.Eval(Compile(e), low, false, CompileProgram(prog), fuel))
    decreases fuel, 2, e, 2
  {
    EvalCompiled(e.scrutinee, env, low, prog, fuel);
    var v := Source.Eval(e.scrutinee, env, prog, fuel);
    if v.Got? {
      var w := Ir.Eval(Compile(e.scrutinee), low, false, CompileProgram(prog), fuel);
      ArmsCompiled(e.arms, v.value, w.value, env, low, prog, fuel);
    }
  }

  lemma {:induction false} ArmsCompiled(arms: seq<MatchArm>, v: SV, w: V, env: SEnv, low: Env, prog: Program, fuel: nat)
    requires CleanProgram(prog) && ClearArms(arms, At(low)) && Rel(v, w) && Sees(env, low)
    ensures RelRes(Source.EvalArms(arms, v, env, prog, fuel),
                   Ir.EvalArms(CompileArms(arms), w, low, false, CompileProgram(prog), fuel))
    decreases fuel, 2, arms, 0
  {
    if arms != [] {
      assert CompileArms(arms)[0] == CompileArm(arms[0]) && CompileArms(arms)[1..] == CompileArms(arms[1..]);
      MatchesRel(arms[0].pattern, v, w, env, low);
      var m, n := Matches(arms[0].pattern, v, env), Matches(arms[0].pattern, w, low);
      if m.Some? {
        ArmCompiled(arms[0], m.value, n.value, prog, fuel);
      } else {
        ArmsCompiled(arms[1..], v, w, env, low, prog, fuel);
      }
    }
  }

  lemma {:induction false} ArmCompiled(arm: MatchArm, env: SEnv, low: Env, prog: Program, fuel: nat)
    requires CleanProgram(prog) && ClearArm(arm, At(low)) && Sees(env, low)
    ensures RelRes(Source.EvalArm(arm, env, prog, fuel),
                   Ir.EvalBody(CompileArm(arm), low, false, CompileProgram(prog), fuel))
    decreases fuel, 2, arm, 0
  {
    EvalCompiled(arm.body, env, low, prog, fuel);
  }

  lemma {:induction false} TryCompiled(e: Expr, env: SEnv, low: Env, prog: Program, fuel: nat)
    requires CleanProgram(prog) && Clean(e, low) && Sees(env, low) && e.TryOf?
    ensures RelRes(Source.Eval(e, env, prog, fuel), Ir.Eval(Compile(e), low, false, CompileProgram(prog), fuel))
    decreases fuel, 2, e, 2
  {
    EvalCompiled(e.inner, env, low, prog, fuel);
    var v := Source.Eval(e.inner, env, prog, fuel);
    if v.Got? && v.value.VVariant? {
      var w := Ir.Eval(Compile(e.inner), low, false, CompileProgram(prog), fuel);
      RelLength(v.value.args, w.value.args);
    }
  }

  lemma {:induction false} AllCompiled(es: seq<Expr>, env: SEnv, low: Env, prog: Program, fuel: nat)
    requires CleanProgram(prog) && ClearAll(es, At(low)) && Sees(env, low)
    ensures RelResAll(Source.EvalAll(es, env, prog, fuel),
                      Ir.EvalAll(CompileAll(es), low, false, CompileProgram(prog), fuel))
    decreases fuel, 2, es, 0
  {
    if es != [] {
      EvalCompiled(es[0], env, low, prog, fuel);
      AllCompiled(es[1..], env, low, prog, fuel);
      var nodes, ctx := CompileAll(es), CompileProgram(prog);
      assert nodes[0] == Compile(es[0]) && nodes[1..] == CompileAll(es[1..]);
      var v, vs := Source.Eval(es[0], env, prog, fuel), Source.EvalAll(es[1..], env, prog, fuel);
      if v.Got? && vs.Got? {
        var w, ws := Ir.Eval(nodes[0], low, false, ctx, fuel), Ir.EvalAll(nodes[1..], low, false, ctx, fuel);
        RelCons(v.value, w.value, vs.value, ws.value);
      }
    }
  }

  lemma {:induction false} BindingsCompiled(bs: seq<LetBinding>, env: SEnv, low: Env, prog: Program, fuel: nat)
    requires CleanProgram(prog) && ClearBindings(bs, At(low)) && Sees(env, low)
    ensures var r := Source.EvalBindings(bs, env, prog, fuel);
            var l := Ir.EvalBindings(CompileBindings(bs), low, false, CompileProgram(prog), fuel);
            if r.Got? then l.Got? && Sees(r.value, l.value) && At(l.value) == At(low) else if r.Fail? then l.Fail? else l.Deeper?
    decreases fuel, 2, bs, 0
  {
    if bs != [] {
      EvalCompiled(bs[0].value, env, low, prog, fuel);
      assert CompileBindings(bs)[1..] == CompileBindings(bs[1..]);
      var v := Source.Eval(bs[0].value, env, prog, fuel);
      if v.Got? {
        var w := Ir.Eval(Compile(bs[0].value), low, false, CompileProgram(prog), fuel);
        BindingsCompiled(bs[1..], Bind(bs[0].name, v.value, env), Bind(bs[0].name, w.value, low), prog, fuel);
      }
    }
  }

  lemma {:induction false} CallCompiled(e: Expr, env: SEnv, low: Env, prog: Program, fuel: nat)
    requires CleanProgram(prog) && Clean(e, low) && Sees(env, low) && e.FnCall?
    ensures RelRes(Source.Eval(e, env, prog, fuel), Ir.Eval(Compile(e), low, false, CompileProgram(prog), fuel))
    decreases fuel, 2, e, 2
  {
    AllCompiled(e.args, env, low, prog, fuel);
    var vs := Source.EvalAll(e.args, env, prog, fuel);
    if vs.Got? {
      var ws := Ir.EvalAll(CompileAll(e.args), low, false, CompileProgram(prog), fuel).value;
      RelLength(vs.value, ws);
      if IsDirect(e.name, |ws|) {
        DirectRel(e.name, vs.value, ws);
      } else {
        LookupSees(env, low, e.name);
        var local := Lookup(env, e.name);
        if local.Some? {
          ApplyCompiled(local.value, Lookup(low, e.name).value, vs.value, ws, prog, fuel);
        } else {
          GlobalCompiled(e.name, vs.value, ws, prog, fuel);
        }
      }
    }
    hide Direct, RelAll, Rel, Sees, Free, FreeAll, Source.Apply, Source.CallGlobal, Ir.Apply, Ir.CallGlobal;
  }

  lemma {:induction false} CallOfCompiled(e: Expr, env: SEnv, low: Env, prog: Program, fuel: nat)
    requires CleanProgram(prog) && Clean(e, low) && Sees(env, low) && e.CallOf?
    ensures RelRes(Source.Eval(e, env, prog, fuel), Ir.Eval(Compile(e), low, false, CompileProgram(prog), fuel))
    decreases fuel, 2, e, 2
  {
    EvalCompiled(e.callee, env, low, prog, fuel);
    AllCompiled(e.args, env, low, prog, fuel);
    var g, vs := Source.Eval(e.callee, env, prog, fuel), Source.EvalAll(e.args, env, prog, fuel);
    if g.Got? && vs.Got? {
      var ctx := CompileProgram(prog);
      var h, ws := Ir.Eval(Compile(e.callee), low, false, ctx, fuel), Ir.EvalAll(CompileAll(e.args), low, false, ctx, fuel);
      ApplyCompiled(g.value, h.value, vs.value, ws.value, prog, fuel);
    }
    hide RelAll, Rel, Sees, Free, FreeAll, Source.Apply, Ir.Apply;
  }

  lemma {:induction false} ApplyCompiled(g: SV, h: V, vs: seq<SV>, ws: seq<V>, prog: Program, fuel: nat)
    requires CleanProgram(prog) && Rel(g, h) && RelAll(vs, ws)
    ensures RelRes(Source.Apply(g, vs, prog, fuel), Ir.Apply(h, ws, CompileProgram(prog), fuel))
    decreases fuel, 1
  {
    RelLength(vs, ws);
    match h
    case VClosure(params, _, low, _) =>
      if |params| == |ws| && fuel > 0 {
        SeesAll(params, vs, ws, g.env, low);
        EvalCompiled(g.body, BindAll(params, vs, g.env), BindAll(params, ws, low), prog, fuel - 1);
      }
    case VFunction(name) => GlobalCompiled(name, vs, ws, prog, fuel);
    case _ =>
  }

  lemma {:induction false} GlobalCompiled(name: string, vs: seq<SV>, ws: seq<V>, prog: Program, fuel: nat)
    requires CleanProgram(prog) && RelAll(vs, ws)
    ensures RelRes(Source.CallGlobal(name, vs, prog, fuel), Ir.CallGlobal(name, ws, CompileProgram(prog), fuel))
    decreases fuel, 0
  {
    RelLength(vs, ws);
    if IsBuiltin(name) {
      BuiltinRel(name, vs, ws);
      hide Builtin;
    } else if name in prog.defns {
      FunctionCompiled(name, vs, ws, prog, fuel);
      hide Builtin;
    } else if name == "range" && |ws| == 2 {
      RelIndex(vs, ws, 0);
      RelIndex(vs, ws, 1);
      if fuel > 0 {
        RangeRel(vs[0], vs[1], ws[0], ws[1], fuel - 1);
      }
      hide Range, Builtin;
    } else if name == "fold" && |ws| == 3 {
      RelIndex(vs, ws, 0);
      RelIndex(vs, ws, 1);
      RelIndex(vs, ws, 2);
      if ws[2].VList? && fuel > 0 {
        FoldCompiled(vs[0], ws[0], vs[1], ws[1], vs[2].items, ws[2].items, prog, fuel - 1);
        hide Source.Fold, Ir.Fold, Builtin;
      }
    }
  }

  lemma {:induction false} FunctionCompiled(name: string, vs: seq<SV>, ws: seq<V>, prog: Program, fuel: nat)
    requires CleanProgram(prog) && RelAll(vs, ws) && !IsBuiltin(name) && name in prog.defns
    ensures RelRes(Source.CallGlobal(name, vs, prog, fuel), Ir.CallGlobal(name, ws, CompileProgram(prog), fuel))
    decreases fuel, 0, 0
  {
    RelLength(vs, ws);
    var d := prog.defns[name];
    if |d.params| == |ws| && fuel > 0 {
      var env: SEnv, low: Env := Empty, Empty;
      SeesAll(d.params, vs, ws, env, low);
      EvalCompiled(d.body, BindAll(d.params, vs, env), BindAll(d.params, ws, low), prog, fuel - 1);
    }
    hide Builtin, IsBuiltin, Rel, RelAll;
  }

  lemma {:induction false} FoldCompiled(g: SV, h: V, acc: SV, lowAcc: V, vs: seq<SV>, ws: seq<V>, prog: Program, fuel: nat)
    requires CleanProgram(prog) && Rel(g, h) && Rel(acc, lowAcc) && RelAll(vs, ws)
    ensures RelRes(Source.Fold(g, acc, vs, prog, fuel), Ir.Fold(h, lowAcc, ws, CompileProgram(prog), fuel))
    decreases fuel, 3, |ws|
  {
    if ws != [] {
      RelPair(acc, lowAcc, vs[0], ws[0]);
      ApplyCompiled(g, h, [acc, vs[0]], [lowAcc, ws[0]], prog, fuel);
      var next := Source.Apply(g, [acc, vs[0]], prog, fuel);
      if next.Got? {
        var lowNext := Ir.Apply(h, [lowAcc, ws[0]], CompileProgram(prog), fuel);
        FoldCompiled(g, h, next.value, lowNext.value, vs[1..], ws[1..], prog, fuel);
      }
    }
    hide Source.Apply, Ir.Apply;
  }

  // ----- quantifiers -----

  /** One step of the fold. */
  lemma FoldFirst(h: V, acc: V, ws: seq<V>, ctx: Ctx, fuel: nat)
    requires ws != []
    ensures var next := Ir.Apply(h, [acc, ws[0]], ctx, fuel);
            Ir.Fold(h, acc, ws, ctx, fuel) ==
              if !next.Got? || |ws| == 1 then next else Ir.Fold(h, next.value, ws[1..], ctx, fuel)
  {
    hide Ir.Apply;
  }

  /** The item and the accumulator come into scope together. */
  lemma InnerSees(e: Expr, env: SEnv, low: Env, acc: V, v: SV, w: V)
    requires e.Quantified? && Free(e.param) && Sees(env, low) && Rel(v, w)
    ensures Sees(Bind(e.param, v, env), Inner(e, low, acc, w)) && At(Inner(e, low, acc, w)) == Within(At(low))
  {
    assert Sees(env, Bind(ACC, acc, low));
    assert Lookup(Bind(ACC, acc, low), ACC) == Some(acc);
  }

  /** While open, a call of the callback is the body at the item. */
  lemma {:induction false} StepCompiled(e: Expr, acc: V, v: SV, w: V, env: SEnv, low: Env, prog: Program, fuel: nat)
    requires CleanProgram(prog) && Clean(e, low) && Sees(env, low) && e.Quantified? && Open(e.isForall, acc) && Rel(v, w)
    requires fuel > 0
    ensures RelRes(Source.Eval(e.body, Bind(e.param, v, env), prog, fuel - 1),
                   Ir.Apply(Callback(e, low), [acc, w], CompileProgram(prog), fuel))
    decreases fuel, 1
  {
    CallbackStep(e, low, acc, w, CompileProgram(prog), fuel);
    InnerSees(e, env, low, acc, v, w);
    EvalCompiled(e.body, Bind(e.param, v, env), Inner(e, low, acc, w), prog, fuel - 1);
    hide Source.Eval, Ir.Eval, Ir.Apply, Callback, Rel, Sees, Inner;
  }

  /** From any accumulator that leaves it open, the fold over the items is the scan of them. */
  lemma {:induction false} ScanCompiled(e: Expr, acc: V, vs: seq<SV>, ws: seq<V>, env: SEnv, low: Env, prog: Program, fuel: nat)
    requires CleanProgram(prog) && Clean(e, low) && Sees(env, low) && e.Quantified? && Open(e.isForall, acc)
    requires ws != [] && RelAll(vs, ws)
    ensures RelRes(Scan(e.isForall, e.param, e.body, vs, env, prog, fuel),
                   Ir.Fold(Callback(e, low), acc, ws, CompileProgram(prog), fuel))
    decreases fuel, 3, |ws|, 0
  {
    RelLength(vs, ws);
    if fuel > 0 {
      hide Source.Eval, Ir.Apply, Ir.Fold, Callback, Sees, Clean, CleanProgram, CompileProgram, Rel;
      var ctx := CompileProgram(prog);
      FoldFirst(Callback(e, low), acc, ws, ctx, fuel);
      StepCompiled(e, acc, vs[0], ws[0], env, low, prog, fuel);
      var v := Source.Eval(e.body, Bind(e.param, vs[0], env), prog, fuel - 1);
      if v.Got? {
        var w := Ir.Apply(Callback(e, low), [acc, ws[0]], ctx, fuel);
        RelLit(v.value, w.value);
        if |ws| > 1 {
          ScanRest(e, v.value, w.value, vs[1..], ws[1..], env, low, prog, fuel);
        }
      }
      hide RelAll, Open;
    }
  }

  /** After the body gave `v` with more items to come: on with the scan, or decided. */
  lemma {:induction false} ScanRest(e: Expr, v: SV, w: V, vs: seq<SV>, ws: seq<V>, env: SEnv, low: Env, prog: Program, fuel: nat)
    requires CleanProgram(prog) && Clean(e, low) && Sees(env, low) && e.Quantified? && fuel > 0
    requires ws != [] && RelAll(vs, ws) && Rel(v, w)
    ensures var r := if e.isForall && !(v.VLit? && v.lit.LBool?) then Res<SV>.Fail
                     else if Truth(v) == e.isForall then Scan(e.isForall, e.param, e.body, vs, env, prog, fuel)
                     else Got(VLit(LBool(!e.isForall)));
            RelRes(r, Ir.Fold(Callback(e, low), w, ws, CompileProgram(prog), fuel))
    decreases fuel, 3, |ws|, 1
  {
    RelLit(v, w);
    if Open(e.isForall, w) {
      ScanCompiled(e, w, vs, ws, env, low, prog, fuel);
    } else {
      var ctx := CompileProgram(prog);
      CallbackStep(e, low, w, ws[0], ctx, fuel);
      DecidedStays(e, low, ws[1..], ctx, fuel);
    }
    hide Callback, Rel, Sees, Source.Eval, Ir.Eval, Ir.Apply, Scan;
  }

  lemma {:induction false} BoundCompiled(e: Expr, env: SEnv, low: Env, prog: Program, fuel: nat) returns (upper: Node)
    requires CleanProgram(prog) && Clean(e, low) && Sees(env, low) && e.Quantified?
    ensures Compile(e) == Call("fold", [Lambda([ACC, e.param], FoldBody(e.isForall, Compile(e.body))), Lit(LBool(e.isForall)),
                                        Call("range", [Lit(LInt(0)), upper])])
    ensures RelRes(EvalBound(e, env, prog, fuel), Ir.Eval(upper, low, false, CompileProgram(prog), fuel))
    decreases fuel, 2, e, 0
  {
    var ctx := CompileProgram(prog);
    if e.where.None? {
      upper := Lit(LInt(DEFAULT_BOUND));
    } else {
      var w := e.where.value;
      assert Clear(w, At(low));
      if IsUpperBound(w, e.param) {
        assert ClearAll(w.args, At(low)) && ClearAll(w.args[1..], At(low)) && Clean(w.args[1], low);
        EvalCompiled(w.args[1], env, low, prog, fuel);
        upper := ExtractUpperBound(w, e.param).value;
        if w.name == "<=" {
          PlusOne(Compile(w.args[1]), low, ctx, fuel);
          var r, s := Source.Eval(w.args[1], env, prog, fuel), Ir.Eval(Compile(w.args[1]), low, false, ctx, fuel);
          if r.Got? {
            RelPair(r.value, s.value, VLit(LInt(1)), VLit(LInt(1)));
            DirectRel("+", [r.value, VLit(LInt(1))], [s.value, VLit(LInt(1))]);
          }
        }
      } else {
        EvalCompiled(w, env, low, prog, fuel);
        upper := Compile(w);
      }
    }
    hide Direct, Rel, RelAll, Sees;
  }

  lemma PlusOne(n: Node, low: Env, ctx: Ctx, fuel: nat)
    ensures var r := Ir.Eval(n, low, false, ctx, fuel);
            Ir.Eval(Call("+", [n, Lit(LInt(1))]), low, false, ctx, fuel) ==
              if r.Got? then Direct("+", [r.value, VLit(LInt(1))]) else r
  {
    EvalPair(n, Lit(LInt(1)), low, ctx, fuel);
    hide Direct;
  }

  lemma EvalPair(x: Node, y: Node, low: Env, ctx: Ctx, fuel: nat)
    ensures var r, s := Ir.Eval(x, low, false, ctx, fuel), Ir.Eval(y, low, false, ctx, fuel);
            Ir.EvalAll([x, y], low, false, ctx, fuel) ==
              if !r.Got? then r.PropagateFailure() else if !s.Got? then s.PropagateFailure() else Got([r.value, s.value])
  {
    var args := [x, y];
    assert args[1..] == [y] && args[1..][1..] == [];
    assert Ir.EvalAll(args[1..][1..], low, false, ctx, fuel) == Got([]);
    var s := Ir.Eval(y, low, false, ctx, fuel);
    if s.Got? {
      assert [s.value] + [] == [s.value];
      assert Ir.EvalAll(args[1..], low, false, ctx, fuel) == Got([s.value]);
      var r := Ir.Eval(x, low, false, ctx, fuel);
      assert r.Got? ==> [r.value] + [s.value] == [r.value, s.value];
    }
  }

  /** The arguments of the fold: the callback, the start, and the range up to the bound. */
  lemma FoldArguments(e: Expr, upper: Node, low: Env, ctx: Ctx, fuel: nat)
    requires e.Quantified? && Lookup(low, "range").None? && "range" !in ctx.globals
    ensures var nodes := [Lambda([ACC, e.param], FoldBody(e.isForall, Compile(e.body))), Lit(LBool(e.isForall)),
                          Call("range", [Lit(LInt(0)), upper])];
            var bound := Ir.Eval(upper, low, false, ctx, fuel);
            Ir.EvalAll(nodes, low, false, ctx, fuel) ==
              if !bound.Got? then bound.PropagateFailure()
              else if fuel == 0 then Res<seq<V>>.Deeper
              else
                var r := Range(VLit(LInt(0)), bound.value, fuel - 1);
                if !r.Got? then r else Got([Callback(e, low), VLit(LBool(e.isForall)), VList(r.value)])
  {
    hide Range, Builtin;
    var cb := Lambda([ACC, e.param], FoldBody(e.isForall, Compile(e.body)));
    var range := Call("range", [Lit(LInt(0)), upper]);
    EvalPair(Lit(LInt(0)), upper, low, ctx, fuel);
    EvalPair(Lit(LBool(e.isForall)), range, low, ctx, fuel);
    var nodes := [cb, Lit(LBool(e.isForall)), range];
    assert nodes[1..] == [Lit(LBool(e.isForall)), range];
    assert Ir.Eval(cb, low, false, ctx, fuel) == Got(Callback(e, low));
    var rest := Ir.EvalAll(nodes[1..], low, false, ctx, fuel);
    if rest.Got? {
      assert [Callback(e, low)] + rest.value == [Callback(e, low), VLit(LBool(e.isForall)), rest.value[1]];
    }
  }

  /** A call of the prelude's `fold` where the name is not taken. */
  lemma FoldCalled(nodes: seq<Node>, low: Env, ctx: Ctx, fuel: nat)
    requires |nodes| == 3 && Lookup(low, "fold").None? && "fold" !in ctx.globals
    ensures var args := Ir.EvalAll(nodes, low, false, ctx, fuel);
            Ir.Eval(Call("fold", nodes), low, false, ctx, fuel) ==
              if !args.Got? then args.PropagateFailure()
              else if !args.value[2].VList? then Res<V>.Fail
              else if fuel == 0 then Res<V>.Deeper
              else Ir.Fold(args.value[0], args.value[1], args.value[2].items, ctx, fuel - 1)
  {
    hide Ir.EvalAll, Ir.Fold, Builtin, Direct;
  }

  /** The translated quantifier, its fold unfolded. */
  lemma CompiledFold(e: Expr, upper: Node, low: Env, ctx: Ctx, fuel: nat)
    requires e.Quantified? && Lookup(low, "range").None? && "range" !in ctx.globals
    requires Lookup(low, "fold").None? && "fold" !in ctx.globals
    requires Compile(e) == Call("fold", [Lambda([ACC, e.param], FoldBody(e.isForall, Compile(e.body))), Lit(LBool(e.isForall)),
                                         Call("range", [Lit(LInt(0)), upper])])
    ensures var bound := Ir.Eval(upper, low, false, ctx, fuel);
            Ir.Eval(Compile(e), low, false, ctx, fuel) ==
              if !bound.Got? then bound
              else if fuel == 0 then Res<V>.Deeper
              else
                var r := Range(VLit(LInt(0)), bound.value, fuel - 1);
                if r.Got? then Ir.Fold(Callback(e, low), VLit(LBool(e.isForall)), r.value, ctx, fuel - 1)
                else r.PropagateFailure()
  {
    hide Range, Ir.Eval, Ir.EvalAll, Ir.Fold, Callback, FoldBody, Lookup;
    FoldArguments(e, upper, low, ctx, fuel);
    var nodes := [Lambda([ACC, e.param], FoldBody(e.isForall, Compile(e.body))), Lit(LBool(e.isForall)),
                  Call("range", [Lit(LInt(0)), upper])];
    FoldCalled(nodes, low, ctx, fuel);
  }

  /** The quantifier of the source with its bound given. */
  lemma QuantifierUnfolded(e: Expr, env: SEnv, prog: Program, fuel: nat)
    requires e.Quantified?
    ensures var bound := EvalBound(e, env, prog, fuel);
            Source.Eval(e, env, prog, fuel) ==
              if !bound.Got? then bound
              else if fuel == 0 then Res<SV>.Deeper
              else
                var items := Range(VLit(LInt(0)), bound.value, fuel - 1);
                if items.Got? then Scan(e.isForall, e.param, e.body, items.value, env, prog, fuel - 1)
                else items.PropagateFailure()
  {
    hide EvalBound, Range, Scan;
  }

  lemma {:induction false} QuantifierCompiled(e: Expr, env: SEnv, low: Env, prog: Program, fuel: nat)
    requires CleanProgram(prog) && Clean(e, low) && Sees(env, low) && e.Quantified?
    ensures RelRes(Source.Eval(e, env, prog, fuel), Ir.Eval(Compile(e), low, false, CompileProgram(prog), fuel))
    decreases fuel, 2, e, 1
  {
    hide Source.Eval, Ir.Eval, EvalBound, Compile, Sees, Clean, Range, Lookup, Callback, Ir.Fold;
    var ctx := CompileProgram(prog);
    var upper := BoundCompiled(e, env, low, prog, fuel);
    LookupSees(env, low, "range");
    LookupSees(env, low, "fold");
    CompiledFold(e, upper, low, ctx, fuel);
    QuantifierUnfolded(e, env, prog, fuel);
    var bound := EvalBound(e, env, prog, fuel);
    if bound.Got? && fuel > 0 {
      var lowBound := Ir.Eval(upper, low, false, ctx, fuel);
      RangeRel(VLit(LInt(0)), bound.value, VLit(LInt(0)), lowBound.value, fuel - 1);
      var items := Range(VLit(LInt(0)), bound.value, fuel - 1);
      if items.Got? {
        var lowItems := Range(VLit(LInt(0)), lowBound.value, fuel - 1);
        ScanAllCompiled(e, items.value, lowItems.value, env, low, prog, fuel - 1);
      }
    }
    hide RelAll, Rel, Scan;
  }

  /** From the start: no items at all, or the scan of them. */
  lemma {:induction false} ScanAllCompiled(e: Expr, vs: seq<SV>, ws: seq<V>, env: SEnv, low: Env, prog: Program, fuel: nat)
    requires CleanProgram(prog) && Clean(e, low) && Sees(env, low) && e.Quantified? && RelAll(vs, ws)
    ensures RelRes(Scan(e.isForall, e.param, e.body, vs, env, prog, fuel),
                   Ir.Fold(Callback(e, low), VLit(LBool(e.isForall)), ws, CompileProgram(prog), fuel))
    decreases fuel, 3, |ws|, 2
  {
    if ws != [] {
      ScanCompiled(e, VLit(LBool(e.isForall)), vs, ws, env, low, prog, fuel);
    }
  }
}
