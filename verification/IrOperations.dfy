/** What the operations on values of the language give, written out, and when a pattern matches. */
module IrOperations {
  import Ast
  import opened IrValues
  import opened Operators
  import opened RuntimeOps
  import opened Strings
  import opened Wrappers

  function Num<Code>(x: int): Value<Code> { VLit(LInt(x)) }

  function Text<Code>(s: string): Value<Code> { VLit(LStr(s)) }

  function Truths<Code>(b: bool): Value<Code> { VLit(LBool(b)) }

  // ----- operators -----

  lemma Comparisons<Code>(x: int, y: int)
    ensures Direct<Code>("=", [Num(x), Num(y)]) == Got(Truths(x == y))
    ensures Direct<Code>("!=", [Num(x), Num(y)]) == Got(Truths(x != y))
    ensures Direct<Code>("<", [Num(x), Num(y)]) == Got(Truths(x < y))
    ensures Direct<Code>(">", [Num(x), Num(y)]) == Got(Truths(x > y))
    ensures Direct<Code>("<=", [Num(x), Num(y)]) == Got(Truths(x <= y))
    ensures Direct<Code>(">=", [Num(x), Num(y)]) == Got(Truths(x >= y))
  {
    Names();
    hide CmpOpOf, ArithLit;
  }

  /** Strings are compared at their first difference, and joined. */
  lemma OnStrings<Code>(s: string, t: string)
    ensures Direct<Code>("=", [Text(s), Text(t)]) == Got(Truths(s == t))
    ensures Direct<Code>("!=", [Text(s), Text(t)]) == Got(Truths(s != t))
    ensures Direct<Code>("<", [Text(s), Text(t)]) == Got(Truths(Precedes(s, t)))
    ensures Direct<Code>(">", [Text(s), Text(t)]) == Got(Truths(Precedes(t, s)))
    ensures Direct<Code>("<=", [Text(s), Text(t)]) == Got(Truths(s == t || Precedes(s, t)))
    ensures Direct<Code>(">=", [Text(s), Text(t)]) == Got(Truths(s == t || Precedes(t, s)))
    ensures Direct<Code>("+", [Text(s), Text(t)]) == Got(Text(s + t))
  {
    Names();
    PrecedesOrder(s, t, s);
    LexLessIsPrecedes(s, t);
    LexLessIsPrecedes(t, s);
    hide CmpOpOf, LexLess, Precedes;
  }

  lemma Arithmetic<Code>(x: int, y: int)
    requires In64(x) && In64(y)
    ensures exists n :: In64(n) && Congruent(n, x + y) && Direct<Code>("+", [Num(x), Num(y)]) == Got(Num(n))
    ensures exists n :: In64(n) && Congruent(n, x - y) && Direct<Code>("-", [Num(x), Num(y)]) == Got(Num(n))
    ensures exists n :: In64(n) && Congruent(n, x * y) && Direct<Code>("*", [Num(x), Num(y)]) == Got(Num(n))
    ensures if Divides(x, y)
            then exists q, r :: Quotient(x, y, q, r) && Direct<Code>("/", [Num(x), Num(y)]) == Got(Num(q)) &&
                                Direct<Code>("%", [Num(x), Num(y)]) == Got(Num(r))
            else Direct<Code>("/", [Num(x), Num(y)]).Fail? && Direct<Code>("%", [Num(x), Num(y)]).Fail?
  {
    Sums(x, y);
    Quotients(x, y);
    ArithmeticIs<Code>("+", x, y);
    ArithmeticIs<Code>("-", x, y);
    ArithmeticIs<Code>("*", x, y);
    ArithmeticIs<Code>("/", x, y);
    ArithmeticIs<Code>("%", x, y);
    hide Direct, Quotient, Congruent, Arith;
  }

  lemma ArithmeticIs<Code>(name: string, x: int, y: int)
    requires IsArith(name)
    ensures var o, r := Ast.Apply2(name, IntV(x), IntV(y)), Direct<Code>(name, [Num(x), Num(y)]);
            if o.Fail? then r.Fail? else o.v.IntV? && r == Got(Num(o.v.i))
  {
    hide Wrap, TruncDiv, TruncRem, ArithOpOf;
  }

  /** The functions of the runtime that are modelled. */
  lemma Builtins(name: string)
    ensures IsBuiltin(name) <==> name in ["+", "-", "*", "/", "%", "=", "!=", "<", ">", "<=", ">=", "not", "and", "or",
                                          "head", "tail", "empty?", "cons"]
  {
  }

  /** What is neither two integers nor two strings: the instruction for an order says false, the function of
      that name fails, and there is no arithmetic. */
  lemma Unordered<Code>(name: string, v: Value<Code>, w: Value<Code>)
    requires !(v.VLit? && w.VLit? && ((v.lit.LInt? && w.lit.LInt?) || (v.lit.LStr? && w.lit.LStr?)))
    ensures name in ["<", ">", "<=", ">="] ==> Direct(name, [v, w]) == Got(Truths(false)) && Builtin(name, [v, w]).Fail?
    ensures name in ["+", "-", "*", "/", "%"] ==> Direct(name, [v, w]).Fail? && Builtin(name, [v, w]).Fail?
  {
    hide Same, CmpOpOf, ArithOpOf, LexLess;
    if name in ["<", ">", "<=", ">="] {
      Names();
    }
  }

  lemma Connectives<Code>(a: bool, v: Value<Code>)
    ensures Builtin("and", [Truths(a), v]) == if !a then Got(Truths(false)) else if IsTruth(v) then Got(v) else Res<Value<Code>>.Fail
    ensures Builtin("or", [Truths(a), v]) == if a then Got(Truths(true)) else if IsTruth(v) then Got(v) else Res<Value<Code>>.Fail
    ensures !IsTruth(v) ==> Builtin("and", [v, Truths(a)]).Fail? && Builtin("or", [v, Truths(a)]).Fail?
    ensures Truth(v) <==> v != Truths(false)
    ensures Direct<Code>("not", [Truths(a)]) == Got(Truths(!a)) && (!IsTruth(v) ==> Direct("not", [v]).Fail?)
  {
    hide Same, CmpOpOf, ArithOpOf;
  }

  predicate IsTruth<Code>(v: Value<Code>) {
    v.VLit? && v.lit.LBool?
  }

  lemma OnLists<Code>(v: Value<Code>, items: seq<Value<Code>>)
    ensures Builtin("cons", [v, VList(items)]) == Got(VList([v] + items))
    ensures Builtin("head", [VList([v] + items)]) == Got(v) && Builtin("tail", [VList([v] + items)]) == Got(VList(items))
    ensures Builtin<Code>("empty?", [VList([])]) == Got(Truths(true)) && Builtin("empty?", [VList([v] + items)]) == Got(Truths(false))
    ensures Builtin<Code>("head", [VList([])]).Fail? && Builtin<Code>("tail", [VList([])]).Fail?
  {
    assert ([v] + items)[1..] == items;
  }

  /** Functions equal nothing, not even themselves. */
  predicate FunctionFree<Code>(v: Value<Code>) {
    match v
    case VLit(_) => true
    case VList(items) => forall i :: 0 <= i < |items| ==> FunctionFree(items[i])
    case VVariant(_, args) => forall i :: 0 <= i < |args| ==> FunctionFree(args[i])
    case _ => false
  }

  /** `=` is equality of values without functions in them. */
  lemma {:induction false} SameIsEqual<Code>(v: Value<Code>, w: Value<Code>)
    ensures Same(v, w) <==> v == w && FunctionFree(v)
    decreases v, 1
  {
    match (v, w)
    case (VList(xs), VList(ys)) => AllSame(v, w, xs, ys);
    case (VVariant(_, xs), VVariant(_, ys)) => AllSame(v, w, xs, ys);
    case _ =>
  }

  lemma {:induction false} AllSame<Code>(v: Value<Code>, w: Value<Code>, xs: seq<Value<Code>>, ys: seq<Value<Code>>)
    requires (v.VList? && v.items == xs) || (v.VVariant? && v.args == xs)
    ensures (|xs| == |ys| && forall i :: 0 <= i < |xs| ==> Same(xs[i], ys[i])) <==>
              xs == ys && forall i :: 0 <= i < |xs| ==> FunctionFree(xs[i])
    decreases v, 0
  {
    if |xs| == |ys| {
      forall i | 0 <= i < |xs|
        ensures Same(xs[i], ys[i]) <==> xs[i] == ys[i] && FunctionFree(xs[i])
      {
        SameIsEqual(xs[i], ys[i]);
      }
    }
  }

  // ----- patterns -----

  /** The places of a pattern that take any value, in order: named or not. */
  function Holes(p: Pattern): seq<Option<string>>
    decreases p, 1
  {
    match p
    case Wild => [None]
    case PBind(name) => [Some(name)]
    case PLit(_) => []
    case PVariant(_, subs) => HolesOfAll(subs)
  }

  function HolesOfAll(ps: seq<Pattern>): seq<Option<string>>
    decreases ps, 0
  {
    if ps == [] then [] else Holes(ps[0]) + HolesOfAll(ps[1..])
  }

  /** The pattern with values in its holes. */
  function Fill<Code>(p: Pattern, vs: seq<Value<Code>>): Value<Code>
    requires |vs| == |Holes(p)|
    decreases p, 1
  {
    match p
    case Wild => vs[0]
    case PBind(_) => vs[0]
    case PLit(lit) => VLit(lit)
    case PVariant(tag, subs) => VVariant(tag, FillAll(subs, vs))
  }

  function FillAll<Code>(ps: seq<Pattern>, vs: seq<Value<Code>>): (ws: seq<Value<Code>>)
    requires |vs| == |HolesOfAll(ps)|
    ensures |ws| == |ps|
    decreases ps, 0
  {
    if ps == [] then []
    else
      var n := |Holes(ps[0])|;
      [Fill(ps[0], vs[..n])] + FillAll(ps[1..], vs[n..])
  }

  /** The named holes as bindings, the last innermost. */
  function Named<Code>(holes: seq<Option<string>>, vs: seq<Value<Code>>, env: Scope<Code>): Scope<Code>
    requires |vs| == |holes|
  {
    if holes == [] then env
    else Named(holes[1..], vs[1..], if holes[0].Some? then Bind(holes[0].value, vs[0], env) else env)
  }

  lemma {:induction false} NamedConcat<Code>(g: seq<Option<string>>, h: seq<Option<string>>, vs: seq<Value<Code>>, env: Scope<Code>)
    requires |vs| == |g| + |h|
    ensures Named(g + h, vs, env) == Named(h, vs[|g|..], Named(g, vs[..|g|], env))
    decreases |g|
  {
    if g == [] {
      assert g + h == h && vs[0..] == vs;
    } else {
      NamedConcat(g[1..], h, vs[1..], if g[0].Some? then Bind(g[0].value, vs[0], env) else env);
      assert (g + h)[1..] == g[1..] + h;
      assert vs[1..][|g| - 1..] == vs[|g|..] && vs[1..][..|g| - 1] == vs[..|g|][1..];
    }
  }

  /** A value that is the pattern with something in its holes matches and binds just that. */
  lemma {:induction false} FilledMatches<Code>(p: Pattern, vs: seq<Value<Code>>, env: Scope<Code>)
    requires |vs| == |Holes(p)|
    ensures Matches(p, Fill(p, vs), env) == Some(Named(Holes(p), vs, env))
    decreases p, 1
  {
    match p
    case PBind(_) =>
      assert vs[1..] == [] && Holes(p)[1..] == [];
    case Wild =>
      assert vs[1..] == [] && Holes(p)[1..] == [];
    case PLit(_) =>
    case PVariant(_, subs) =>
      FilledMatchesAll(subs, vs, env);
  }

  lemma {:induction false} FilledMatchesAll<Code>(ps: seq<Pattern>, vs: seq<Value<Code>>, env: Scope<Code>)
    requires |vs| == |HolesOfAll(ps)|
    ensures MatchesAll(ps, FillAll(ps, vs), env) == Some(Named(HolesOfAll(ps), vs, env))
    decreases ps, 0
  {
    if ps != [] {
      var n := |Holes(ps[0])|;
      FilledMatches(ps[0], vs[..n], env);
      FilledMatchesAll(ps[1..], vs[n..], Named(Holes(ps[0]), vs[..n], env));
      NamedConcat(Holes(ps[0]), HolesOfAll(ps[1..]), vs, env);
      assert FillAll(ps, vs)[1..] == FillAll(ps[1..], vs[n..]);
    }
  }

  /** What matches is the pattern with something in its holes. */
  lemma {:induction false} MatchIsFilled<Code>(p: Pattern, v: Value<Code>, env: Scope<Code>) returns (vs: seq<Value<Code>>)
    requires Matches(p, v, env).Some?
    ensures |vs| == |Holes(p)| && Fill(p, vs) == v
    decreases p, 1
  {
    match p
    case PVariant(_, subs) => vs := MatchAllFilled(subs, v.args, env);
    case PLit(_) => vs := [];
    case _ => vs := [v];
  }

  lemma {:induction false} MatchAllFilled<Code>(ps: seq<Pattern>, ws: seq<Value<Code>>, env: Scope<Code>)
    returns (vs: seq<Value<Code>>)
    requires |ps| == |ws| && MatchesAll(ps, ws, env).Some?
    ensures |vs| == |HolesOfAll(ps)| && FillAll(ps, vs) == ws
    decreases ps, 0
  {
    if ps == [] {
      vs := [];
    } else {
      var first := MatchIsFilled(ps[0], ws[0], env);
      var rest := MatchAllFilled(ps[1..], ws[1..], Matches(ps[0], ws[0], env).value);
      vs := first + rest;
      assert vs[..|first|] == first && vs[|first|..] == rest;
      assert ws == [ws[0]] + ws[1..];
    }
  }

  /** A pattern matches exactly the values that it becomes when its holes are filled, and binds the names of
      its holes to what fills them. */
  lemma MatchMeaning<Code>(p: Pattern, v: Value<Code>, env: Scope<Code>)
    ensures Matches(p, v, env).Some? <==> exists vs: seq<Value<Code>> :: |vs| == |Holes(p)| && Fill(p, vs) == v
    ensures forall vs: seq<Value<Code>> :: |vs| == |Holes(p)| && Fill(p, vs) == v ==>
              Matches(p, v, env) == Some(Named(Holes(p), vs, env))
  {
    forall vs: seq<Value<Code>> | |vs| == |Holes(p)| && Fill(p, vs) == v
      ensures Matches(p, v, env) == Some(Named(Holes(p), vs, env))
    {
      FilledMatches(p, vs, env);
    }
    if Matches(p, v, env).Some? {
      var vs := MatchIsFilled(p, v, env);
    }
  }

  /** The names that a pattern binds are those of its holes. */
  lemma {:induction false} BindersAreHoles(pattern: Pattern, p: string -> bool)
    ensures BindersPattern(pattern, p) <==> forall h :: h in Holes(pattern) && h.Some? ==> p(h.value)
    decreases pattern, 1
  {
    match pattern
    case PBind(name) => assert Some(name) in Holes(pattern);
    case PVariant(_, subs) => BindersAreHolesOfAll(subs, p);
    case _ =>
  }

  lemma {:induction false} BindersAreHolesOfAll(ps: seq<Pattern>, p: string -> bool)
    ensures BindersPatterns(ps, p) <==> forall h :: h in HolesOfAll(ps) && h.Some? ==> p(h.value)
    decreases ps, 0
  {
    if ps != [] {
      BindersAreHoles(ps[0], p);
      BindersAreHolesOfAll(ps[1..], p);
      assert forall h :: h in HolesOfAll(ps) <==> h in Holes(ps[0]) || h in HolesOfAll(ps[1..]);
    }
  }
}
