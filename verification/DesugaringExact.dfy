/** Exactly which names the translation of quantifiers respects. */
module DesugaringExact {
  import opened Desugaring
  import opened DesugaringCorrect
  import opened Ir
  import opened IrValues
  import opened Wrappers
  import Source = Desugaring

  /** Programs that bind `b` only, and mention the accumulator's name in bodies of quantifiers only if
      `inside` allows it. */
  function Around(b: string, inside: bool): Rules {
    Rules(Is(b), true, inside)
  }

  ghost predicate ProgramAround(prog: Program, r: Rules) {
    && "fold" !in prog.defns && "range" !in prog.defns
    && forall name :: name in prog.defns ==>
         (forall i :: 0 <= i < |prog.defns[name].params| ==> r.binder(prog.defns[name].params[i])) &&
         Clear(prog.defns[name].body, r)
  }

  /** What a caller can see of two results: how they end, and literals. */
  predicate Agree(r: Res<SV>, s: Res<V>) {
    && (r.Got? <==> s.Got?) && (r.Fail? <==> s.Fail?)
    && (r.Got? ==> LitOf(r.value) == LitOf(s.value))
  }

  predicate Kept(e: Expr, prog: Program, fuel: nat) {
    Agree(Source.Eval(e, Empty, prog, fuel), Ir.Eval(Compile(e), Empty, false, CompileProgram(prog), fuel))
  }

  /** Translation keeps the meaning of every such program. */
  ghost predicate KeptAround(b: string, inside: bool) {
    forall e: Expr, prog: Program, fuel: nat ::
      Clear(e, Around(b, inside)) && ProgramAround(prog, Around(b, inside)) ==> Kept(e, prog, fuel)
  }

  /** Translation keeps the meaning of every clean program whose only function is `g`. */
  ghost predicate KeptBeside(g: string) {
    forall e: Expr, d: Defn, refs: set<string>, fuel: nat ::
      Clear(e, CLEAN) && FreeAll(d.params) && Clear(d.body, CLEAN) ==> Kept(e, Program(map[g := d], refs), fuel)
  }

  // ----- looser rules -----

  ghost predicate Looser(r: Rules, t: Rules) {
    (forall b :: r.binder(b) ==> t.binder(b)) && (r.here ==> t.here) && (r.inside ==> t.inside)
  }

  lemma {:induction false} ClearImply(e: Expr, r: Rules, t: Rules)
    requires Clear(e, r) && Looser(r, t)
    ensures Clear(e, t)
    decreases e, 1
  {
    match e
    case Literal(_) =>
    case SymbolRef(_) =>
    case Keyword(_) =>
    case Cond(cond, thn, els) =>
      ClearImply(cond, r, t);
      ClearImply(thn, r, t);
      ClearImply(els, r, t);
    case LetIn(bindings, body) =>
      ClearImplyBindings(bindings, r, t);
      ClearImply(body, r, t);
    case Block(exprs) => ClearImplyAll(exprs, r, t);
    case FnCall(_, args) => ClearImplyAll(args, r, t);
    case CallOf(callee, args) =>
      ClearImply(callee, r, t);
      ClearImplyAll(args, r, t);
    case Fn(_, body) => ClearImply(body, r, t);
    case MatchOn(scrutinee, arms) =>
      ClearImply(scrutinee, r, t);
      ClearImplyArms(arms, r, t);
    case ListLit(items) => ClearImplyAll(items, r, t);
    case VariantCtor(_, args) => ClearImplyAll(args, r, t);
    case StructLit(_, fields) => ClearImplyFields(fields, r, t);
    case TryOf(inner) => ClearImply(inner, r, t);
    case Quantified(_, _, where, body) =>
      if where.Some? {
        ClearImply(where.value, r, t);
      }
      ClearImply(body, Within(r), Within(t));
  }

  lemma {:induction false} ClearImplyAll(es: seq<Expr>, r: Rules, t: Rules)
    requires ClearAll(es, r) && Looser(r, t)
    ensures ClearAll(es, t)
    decreases es, 0
  {
    if es != [] {
      ClearImply(es[0], r, t);
      ClearImplyAll(es[1..], r, t);
    }
  }

  lemma {:induction false} ClearImplyFields(fields: seq<Field>, r: Rules, t: Rules)
    requires ClearFields(fields, r) && Looser(r, t)
    ensures ClearFields(fields, t)
    decreases fields, 0
  {
    if fields != [] {
      ClearImply(fields[0].value, r, t);
      ClearImplyFields(fields[1..], r, t);
    }
  }

  lemma {:induction false} ClearImplyBindings(bs: seq<LetBinding>, r: Rules, t: Rules)
    requires ClearBindings(bs, r) && Looser(r, t)
    ensures ClearBindings(bs, t)
    decreases bs, 0
  {
    if bs != [] {
      ClearImply(bs[0].value, r, t);
      ClearImplyBindings(bs[1..], r, t);
    }
  }

  lemma {:induction false} ClearImplyArms(arms: seq<MatchArm>, r: Rules, t: Rules)
    requires ClearArms(arms, r) && Looser(r, t)
    ensures ClearArms(arms, t)
    decreases arms, 0
  {
    if arms != [] {
      ClearImplyArm(arms[0], r, t);
      ClearImplyArms(arms[1..], r, t);
    }
  }

  lemma {:induction false} ClearImplyArm(arm: MatchArm, r: Rules, t: Rules)
    requires ClearArm(arm, r) && Looser(r, t)
    ensures ClearArm(arm, t)
    decreases arm, 0
  {
    BindersPatternImply(arm.pattern, r.binder, t.binder);
    ClearImply(arm.body, r, t);
  }

  lemma RelAgrees(r: Res<SV>, s: Res<V>)
    requires RelRes(r, s)
    ensures Agree(r, s)
  {
    if r.Got? {
      RelLit(r.value, s.value);
    }
  }

  lemma CleanKept(e: Expr, prog: Program, fuel: nat)
    requires Clear(e, CLEAN) && CleanProgram(prog)
    ensures Kept(e, prog, fuel)
  {
    var env: SEnv, low: Env := Empty, Empty;
    assert At(low) == CLEAN;
    EvalCompiled(e, env, low, prog, fuel);
    RelAgrees(Source.Eval(e, env, prog, fuel), Ir.Eval(Compile(e), low, false, CompileProgram(prog), fuel));
  }

  lemma FreeKept(b: string, e: Expr, prog: Program, fuel: nat)
    requires Free(b) && Clear(e, Around(b, false)) && ProgramAround(prog, Around(b, false))
    ensures Kept(e, prog, fuel)
  {
    var r := Around(b, false);
    assert Looser(r, CLEAN);
    ClearImply(e, r, CLEAN);
    forall name | name in prog.defns
      ensures FreeAll(prog.defns[name].params) && Clear(prog.defns[name].body, CLEAN)
    {
      ClearImply(prog.defns[name].body, r, CLEAN);
    }
    CleanKept(e, prog, fuel);
  }

  // ----- a quantifier over nothing -----

  const NO_FUNCTIONS := Program(map[], {})

  /** `(forall i (where (< i 0)) true)`. */
  function Nothing(i: string): Expr {
    Quantified(true, i, Some(FnCall("<", [SymbolRef(i), Literal(LInt(0))])), Literal(LBool(true)))
  }

  lemma NothingHolds(i: string, env: SEnv, prog: Program)
    ensures Source.Eval(Nothing(i), env, prog, 1) == Got(VLit(LBool(true)))
  {
    var e := Nothing(i);
    QuantifierUnfolded(e, env, prog, 1);
    assert EvalBound(e, env, prog, 1) == Got(VLit(LInt(0)));
    assert Range<Expr>(VLit(LInt(0)), VLit(LInt(0)), 0) == Got([]);
  }

  lemma NothingClear(i: string, r: Rules)
    requires r.binder(i) && r.here
    ensures Clear(Nothing(i), r)
  {
    var args := [SymbolRef(i), Literal(LInt(0))];
    assert args[1..] == [Literal(LInt(0))] && args[1..][1..] == [];
    assert ClearAll(args[1..][1..], r) && ClearAll(args[1..], r) && ClearAll(args, r);
    assert Clear(Nothing(i).where.value, r);
  }

  /** The translation of it: no items, unless the names mean something else. */
  function NothingCompiled(i: string): Node {
    Call("fold", NothingArgs(i))
  }

  function NothingArgs(i: string): seq<Node> {
    [Lambda([ACC, i], FoldBody(true, Lit(LBool(true)))), Lit(LBool(true)), Call("range", [Lit(LInt(0)), Lit(LInt(0))])]
  }

  lemma NothingCompiles(i: string)
    ensures Compile(Nothing(i)) == NothingCompiled(i)
  {
    var w := FnCall("<", [SymbolRef(i), Literal(LInt(0))]);
    assert ExtractUpperBound(w, i) == Some(Lit(LInt(0)));
    assert Compile(Literal(LBool(true))) == Lit(LBool(true));
  }

  /** A call goes wrong where the name is that of a number or of a function with other parameters. */
  predicate Taken(name: string, low: Env, ctx: Ctx) {
    var local := Lookup(low, name);
    if local.Some? then local.value.VLit? else name in ctx.globals && ctx.globals[name].params == []
  }

  lemma TakenRange(i: string, low: Env, ctx: Ctx)
    requires Taken("range", low, ctx)
    ensures Ir.Eval(NothingCompiled(i), low, false, ctx, 1).Fail?
  {
    var nodes := NothingArgs(i);
    var zeros := [Lit(LInt(0)), Lit(LInt(0))];
    EvalPair(Lit(LInt(0)), Lit(LInt(0)), low, ctx, 1);
    assert Ir.Eval(Call("range", zeros), low, false, ctx, 1).Fail?;
    EvalPair(nodes[1], nodes[2], low, ctx, 1);
    assert nodes[1..] == [nodes[1], nodes[2]];
    assert Ir.EvalAll(nodes, low, false, ctx, 1).Fail?;
  }

  lemma TakenFold(i: string, low: Env, ctx: Ctx)
    requires Taken("fold", low, ctx) && Lookup(low, "range").None? && "range" !in ctx.globals
    ensures Ir.Eval(NothingCompiled(i), low, false, ctx, 1).Fail?
  {
    NothingCompiles(i);
    FoldArguments(Nothing(i), Lit(LInt(0)), low, ctx, 1);
    var nodes := NothingArgs(i);
    assert Range<Node>(VLit(LInt(0)), VLit(LInt(0)), 0) == Got([]);
    assert Ir.EvalAll(nodes, low, false, ctx, 1).Got?;
  }

  // ----- local names -----

  /** A local of that name with the value 5 around a quantifier over nothing. */
  function Shadowed(b: string): Expr {
    LetIn([LetBinding(b, Literal(LInt(5)))], Nothing(b))
  }

  lemma ShadowedSource(b: string)
    ensures Source.Eval(Shadowed(b), Empty, NO_FUNCTIONS, 1) == Got(VLit(LBool(true)))
  {
    var bs := [LetBinding(b, Literal(LInt(5)))];
    assert bs[1..] == [];
    var env: SEnv := Bind(b, VLit(LInt(5)), Empty);
    assert Source.EvalBindings(bs[1..], env, NO_FUNCTIONS, 1) == Got(env);
    assert Source.EvalBindings(bs, Empty, NO_FUNCTIONS, 1) == Got(env);
    NothingHolds(b, env, NO_FUNCTIONS);
    hide Nothing;
  }

  lemma ShadowedCompiled(b: string, ctx: Ctx)
    ensures var low: Env := Bind(b, VLit(LInt(5)), Empty);
            Ir.Eval(Compile(Shadowed(b)), Empty, false, ctx, 1) == Ir.Eval(NothingCompiled(b), low, false, ctx, 1)
  {
    NothingCompiles(b);
    hide Nothing, NothingCompiled;
    var bs, nodes := [LetBinding(b, Literal(LInt(5)))], [IrBinding(b, Lit(LInt(5)))];
    var low: Env := Bind(b, VLit(LInt(5)), Empty);
    assert Compile(bs[0].value) == Lit(LInt(5)) && bs[1..] == [] && CompileBindings(bs[1..]) == [];
    assert CompileBindings(bs) == nodes;
    assert Compile(Shadowed(b)) == Let(nodes, NothingCompiled(b));
    assert Ir.Eval(nodes[0].expr, Empty, false, ctx, 1) == Got(VLit(LInt(5)));
    assert nodes[1..] == [] && Ir.EvalBindings(nodes[1..], low, false, ctx, 1) == Got(low);
    assert Ir.EvalBindings(nodes, Empty, false, ctx, 1) == Got(low);
  }

  lemma ShadowedClear(b: string, inside: bool)
    ensures Clear(Shadowed(b), Around(b, inside))
  {
    var r := Around(b, inside);
    NothingClear(b, r);
    hide Nothing;
    var bs := [LetBinding(b, Literal(LInt(5)))];
    assert bs[1..] == [] && ClearBindings(bs[1..], r) && ClearBindings(bs, r);
  }

  /** With a local named `fold` or `range` the source is true and the translation an error. */
  lemma ShadowedShows(b: string)
    requires b == "fold" || b == "range"
    ensures Source.Eval(Shadowed(b), Empty, NO_FUNCTIONS, 1) == Got(VLit(LBool(true)))
    ensures Ir.Eval(Compile(Shadowed(b)), Empty, false, CompileProgram(NO_FUNCTIONS), 1) == Res<V>.Fail
  {
    var low: Env := Bind(b, VLit(LInt(5)), Empty);
    var ctx := CompileProgram(NO_FUNCTIONS);
    ShadowedSource(b);
    ShadowedCompiled(b, ctx);
    hide Source.Eval, Ir.Eval, Compile, Shadowed, NothingCompiled;
    if b == "range" {
      TakenRange(b, low, ctx);
    } else {
      TakenFold(b, low, ctx);
    }
  }

  /** A quantifier over the accumulator's own name: `(exists __quant_acc (where 1) false)`. */
  function OverAccumulator(): Expr {
    Quantified(false, ACC, Some(Literal(LInt(1))), Literal(LBool(false)))
  }

  lemma OverAccumulatorSource()
    ensures Source.Eval(OverAccumulator(), Empty, NO_FUNCTIONS, 2) == Got(VLit(LBool(false)))
  {
    var e := OverAccumulator();
    var env: SEnv := Empty;
    QuantifierUnfolded(e, env, NO_FUNCTIONS, 2);
    RangeOfInts<Expr>(0, 1, 1);
    var zero: SV := VLit(LInt(0));
    assert Ints<Expr>(0, 1) == [zero];
    assert Source.Eval(e.body, Bind(ACC, zero, env), NO_FUNCTIONS, 0) == Got(VLit(LBool(false)));
  }

  /** The callback reads the item where the accumulator is meant. */
  lemma OverAccumulatorStep(item: V, acc: V, ctx: Ctx)
    requires Truth(item)
    ensures Ir.Apply(Callback(OverAccumulator(), Empty), [acc, item], ctx, 1) == Got(VLit(LBool(true)))
  {
    var params, args := [ACC, ACC], [acc, item];
    assert params[1..] == [ACC] && args[1..] == [item] && params[1..][1..] == [] && args[1..][1..] == [];
    var inner: Env := Bind(ACC, item, Bind(ACC, acc, Empty));
    assert BindAll(params[1..], args[1..], Bind(ACC, acc, Empty)) == inner;
    assert Ir.Eval(Load(ACC), inner, false, ctx, 0) == Got(item);
    assert Ir.Eval(Lit(LBool(true)), inner, false, ctx, 0) == Got(VLit(LBool(true)));
  }

  lemma OverAccumulatorCompiled(ctx: Ctx)
    requires "fold" !in ctx.globals && "range" !in ctx.globals
    ensures Ir.Eval(Compile(OverAccumulator()), Empty, false, ctx, 2) == Got(VLit(LBool(true)))
  {
    hide Callback, Ir.Apply, Ir.Fold, Range;
    var e := OverAccumulator();
    var low: Env := Empty;
    var item: V := VLit(LInt(0));
    assert Compile(Literal(LInt(1))) == Lit(LInt(1));
    CompiledFold(e, Lit(LInt(1)), low, ctx, 2);
    assert Ir.Eval(Lit(LInt(1)), low, false, ctx, 2) == Got(VLit(LInt(1)));
    RangeOfInts<Node>(0, 1, 1);
    assert Ints<Node>(0, 1) == [item];
    FoldFirst(Callback(e, low), VLit(LBool(false)), [item], ctx, 1);
    OverAccumulatorStep(item, VLit(LBool(false)), ctx);
  }

  /** The source is false; the translation takes the item for the accumulator and is true. */
  lemma OverAccumulatorShows()
    ensures Source.Eval(OverAccumulator(), Empty, NO_FUNCTIONS, 2) == Got(VLit(LBool(false)))
    ensures Ir.Eval(Compile(OverAccumulator()), Empty, false, CompileProgram(NO_FUNCTIONS), 2) == Got(VLit(LBool(true)))
  {
    hide Source.Eval, Ir.Eval, Compile;
    OverAccumulatorSource();
    OverAccumulatorCompiled(CompileProgram(NO_FUNCTIONS));
  }

  /** A mention of the accumulator's name that is no local: `(exists i (where 1) __quant_acc)`. */
  function Mentioning(i: string): Expr {
    Quantified(false, i, Some(Literal(LInt(1))), SymbolRef(ACC))
  }

  lemma MentionStep(i: string, item: V, ctx: Ctx)
    requires Free(i)
    ensures Ir.Apply(Callback(Mentioning(i), Empty), [VLit(LBool(false)), item], ctx, 1) == Got(VLit(LBool(false)))
  {
    var e, low: Env, acc: V := Mentioning(i), Empty, VLit(LBool(false));
    CallbackStep(e, low, acc, item, ctx, 1);
    AccumulatorRead(e, low, acc, item, ctx, 0);
    hide Ir.Apply, Ir.Eval, Callback, Inner;
    assert Compile(e.body) == Load(ACC);
  }

  lemma MentionCompiled(i: string, ctx: Ctx)
    requires Free(i) && "fold" !in ctx.globals && "range" !in ctx.globals
    ensures Ir.Eval(Compile(Mentioning(i)), Empty, false, ctx, 2) == Got(VLit(LBool(false)))
  {
    hide Callback, Ir.Apply, Ir.Fold, Range;
    var e := Mentioning(i);
    var low: Env := Empty;
    var item: V := VLit(LInt(0));
    assert Compile(Literal(LInt(1))) == Lit(LInt(1));
    CompiledFold(e, Lit(LInt(1)), low, ctx, 2);
    assert Ir.Eval(Lit(LInt(1)), low, false, ctx, 2) == Got(VLit(LInt(1)));
    RangeOfInts<Node>(0, 1, 1);
    assert Ints<Node>(0, 1) == [item];
    FoldFirst(Callback(e, low), VLit(LBool(false)), [item], ctx, 1);
    MentionStep(i, item, ctx);
  }

  lemma MentionSource(i: string, env: SEnv)
    requires env.Empty? && Free(i)
    ensures Source.Eval(Mentioning(i), env, NO_FUNCTIONS, 2) == Got(VLit(LNil))
  {
    var e := Mentioning(i);
    QuantifierUnfolded(e, env, NO_FUNCTIONS, 2);
    RangeOfInts<Expr>(0, 1, 1);
    var zero: SV := VLit(LInt(0));
    assert Ints<Expr>(0, 1) == [zero];
    assert Lookup(Bind(i, zero, env), ACC) == Lookup(env, ACC) == None;
    assert Source.Eval(e.body, Bind(i, zero, env), NO_FUNCTIONS, 0) == Got(VLit(LNil));
  }

  /** The source gives nothing, the translation the accumulator. */
  lemma MentionShows(i: string)
    requires Free(i)
    ensures Source.Eval(Mentioning(i), Empty, NO_FUNCTIONS, 2) == Got(VLit(LNil))
    ensures Ir.Eval(Compile(Mentioning(i)), Empty, false, CompileProgram(NO_FUNCTIONS), 2) == Got(VLit(LBool(false)))
  {
    hide Source.Eval, Ir.Eval, Compile;
    MentionSource(i, Empty);
    MentionCompiled(i, CompileProgram(NO_FUNCTIONS));
  }

  /** The translation keeps the meaning of every program whose only local name is `b` exactly when `b` is
      none of the three names that it introduces and no body of a quantifier may mention the
      accumulator. Outside such bodies a mention does no harm. */
  lemma FreeIffKept(b: string, inside: bool)
    ensures Free(b) && !inside <==> KeptAround(b, inside)
  {
    if Free(b) && !inside {
      forall e: Expr, prog: Program, fuel: nat | Clear(e, Around(b, inside)) && ProgramAround(prog, Around(b, inside))
        ensures Kept(e, prog, fuel)
      {
        FreeKept(b, e, prog, fuel);
      }
    } else {
      var e, fuel := NotKept(b, inside);
      assert ProgramAround(NO_FUNCTIONS, Around(b, inside));
      hide Clear, Kept;
    }
  }

  lemma NotKept(b: string, inside: bool) returns (e: Expr, fuel: nat)
    requires !Free(b) || inside
    ensures Clear(e, Around(b, inside)) && !Kept(e, NO_FUNCTIONS, fuel)
  {
    if b == ACC {
      e, fuel := OverAccumulator(), 2;
      OverAccumulatorShows();
    } else if Free(b) {
      e, fuel := Mentioning(b), 2;
      MentionShows(b);
    } else {
      e, fuel := Shadowed(b), 1;
      ShadowedClear(b, inside);
      ShadowedShows(b);
    }
    hide Source.Eval, Ir.Eval, Compile;
  }

  // ----- functions -----

  /** The same for the names of functions: a program may define any but `fold` and `range`. */
  lemma FunctionIffKept(g: string)
    ensures g != "fold" && g != "range" <==> KeptBeside(g)
  {
    if g != "fold" && g != "range" {
      forall e: Expr, d: Defn, refs: set<string>, fuel: nat | Clear(e, CLEAN) && FreeAll(d.params) && Clear(d.body, CLEAN)
        ensures Kept(e, Program(map[g := d], refs), fuel)
      {
        CleanKept(e, Program(map[g := d], refs), fuel);
      }
    } else {
      var e, d := Nothing("i"), Defn([], Literal(LNil));
      RedefinedShows(g);
      assert !Kept(e, Program(map[g := d], {}), 1);
      NothingClear("i", CLEAN);
      assert !KeptBeside(g);
    }
  }

  /** With a function `fold` or `range` of its own, a program's quantifiers are errors. */
  lemma RedefinedShows(g: string)
    requires g == "fold" || g == "range"
    ensures var prog := Program(map[g := Defn([], Literal(LNil))], {});
            && Source.Eval(Nothing("i"), Empty, prog, 1) == Got(VLit(LBool(true)))
            && Ir.Eval(Compile(Nothing("i")), Empty, false, CompileProgram(prog), 1) == Res<V>.Fail
  {
    var prog := Program(map[g := Defn([], Literal(LNil))], {});
    var ctx := CompileProgram(prog);
    NothingHolds("i", Empty, prog);
    NothingCompiles("i");
    assert g in ctx.globals && ctx.globals[g].params == [];
    if g == "range" {
      TakenRange("i", Empty, ctx);
    } else {
      TakenFold("i", Empty, ctx);
    }
  }

  // ----- every program counts -----

  const ANY := Rules((name: string) => true, true, true)

  /** The rules are about names only: where every name may be bound and mentioned, every program is allowed. */
  lemma {:induction false} AllClear(e: Expr)
    ensures Clear(e, ANY)
    decreases e, 1
  {
    match e
    case Literal(_) =>
    case SymbolRef(_) =>
    case Keyword(_) =>
    case Cond(cond, thn, els) =>
      AllClear(cond);
      AllClear(thn);
      AllClear(els);
    case LetIn(bindings, body) =>
      AllClearBindings(bindings);
      AllClear(body);
    case Block(exprs) => AllClearOf(exprs);
    case FnCall(_, args) => AllClearOf(args);
    case CallOf(callee, args) =>
      AllClear(callee);
      AllClearOf(args);
    case Fn(_, body) => AllClear(body);
    case MatchOn(scrutinee, arms) =>
      AllClear(scrutinee);
      AllClearArms(arms);
    case ListLit(items) => AllClearOf(items);
    case VariantCtor(_, args) => AllClearOf(args);
    case StructLit(_, fields) => AllClearFields(fields);
    case TryOf(inner) => AllClear(inner);
    case Quantified(_, _, where, body) =>
      if where.Some? {
        AllClear(where.value);
      }
      AllClear(body);
  }

  lemma {:induction false} AllClearOf(es: seq<Expr>)
    ensures ClearAll(es, ANY)
    decreases es, 0
  {
    if es != [] {
      AllClear(es[0]);
      AllClearOf(es[1..]);
    }
  }

  lemma {:induction false} AllClearFields(fields: seq<Field>)
    ensures ClearFields(fields, ANY)
    decreases fields, 0
  {
    if fields != [] {
      AllClear(fields[0].value);
      AllClearFields(fields[1..]);
    }
  }

  lemma {:induction false} AllClearBindings(bs: seq<LetBinding>)
    ensures ClearBindings(bs, ANY)
    decreases bs, 0
  {
    if bs != [] {
      AllClear(bs[0].value);
      AllClearBindings(bs[1..]);
    }
  }

  lemma {:induction false} AllClearArms(arms: seq<MatchArm>)
    ensures ClearArms(arms, ANY)
    decreases arms, 0
  {
    if arms != [] {
      AllClearArm(arms[0]);
      AllClearArms(arms[1..]);
    }
  }

  lemma {:induction false} AllClearArm(arm: MatchArm)
    ensures ClearArm(arm, ANY)
    decreases arm, 0
  {
    AnyPattern(arm.pattern, ANY.binder);
    AllClear(arm.body);
  }
}
