/** Values, environments and the operations that run no code, for any kind of code in closures. */
module IrValues {
  import opened RuntimeOps
  import opened Strings
  import opened Wrappers

  datatype Literal = LInt(i: int) | LStr(s: string) | LBool(b: bool) | LNil

  datatype Pattern = Wild | PBind(name: string) | PLit(lit: Literal) | PVariant(tag: string, subs: seq<Pattern>)

  /** A closure remembers whether its code still carries qualified names. */
  datatype Value<Code> =
    | VLit(lit: Literal)
    | VList(items: seq<Value<Code>>)
    | VVariant(tag: string, args: seq<Value<Code>>)
    | VClosure(params: seq<string>, body: Code, env: Scope<Code>, qualified: bool)
    | VFunction(name: string)

  /** Local bindings, innermost first. */
  datatype Scope<Code> = Empty | Bind(name: string, val: Value<Code>, rest: Scope<Code>)

  /** A value, a runtime error, or no answer within the call depth. */
  datatype Res<+T> = Got(value: T) | Fail | Deeper {
    predicate IsFailure() { !Got? }
    function PropagateFailure<U>(): Res<U>
      requires !Got?
    {
      if Fail? then Res<U>.Fail else Res<U>.Deeper
    }
    function Extract(): T
      requires Got?
    {
      value
    }
  }

  function Lookup<Code>(env: Scope<Code>, name: string): Option<Value<Code>> {
    match env
    case Empty => None
    case Bind(n, v, rest) => if n == name then Some(v) else Lookup(rest, name)
  }

  // ----- operations on literals -----

  predicate IsDirect(name: string, n: nat) {
    if n == 2 then IsArith(name) || IsCmp(name) else n == 1 && name == "not"
  }

  function LitOf<Code>(v: Value<Code>): Option<Literal> {
    if v.VLit? then Some(v.lit) else None
  }

  /** Integers and strings have an order each; nothing else is ordered. */
  function OrderLit(op: CmpOp, a: Option<Literal>, b: Option<Literal>): Option<bool>
    requires op != Eq && op != Ne
  {
    if a.None? || b.None? then None
    else
      match (a.value, b.value)
      case (LInt(x), LInt(y)) => Some(Compare(op, IntV(x), IntV(y)).v.b)
      case (LStr(s), LStr(t)) =>
        Some(if op == Lt then LexLess(s, t) else if op == Gt then LexLess(t, s)
             else if op == Le then !LexLess(t, s) else !LexLess(s, t))
      case _ => None
  }

  function ArithLit(name: string, a: Option<Literal>, b: Option<Literal>): Res<Literal>
    requires IsArith(name)
  {
    if a.None? || b.None? then Res<Literal>.Fail
    else
      match (a.value, b.value)
      case (LInt(x), LInt(y)) =>
        var r := Arith(ArithOpOf(name), IntV(x), IntV(y));
        if r.Value? then Got(LInt(r.v.i)) else Res<Literal>.Fail
      case (LStr(s), LStr(t)) => if name == "+" then Got(LStr(s + t)) else Res<Literal>.Fail
      case _ => Res<Literal>.Fail
  }

  function NotLit(a: Option<Literal>): Res<Literal> {
    if a.Some? && a.value.LBool? then Got(LBool(!a.value.b)) else Res<Literal>.Fail
  }

  /** A first operand that decides is the answer, whatever the second. */
  function LogicLit(name: string, a: Option<Literal>, b: Option<Literal>): Res<Literal>
    requires IsLogic(name)
  {
    if a.None? || !a.value.LBool? then Res<Literal>.Fail
    else if Decides(LogicOpOf(name), BoolV(a.value.b)) then Got(a.value)
    else if b.None? || !b.value.LBool? then Res<Literal>.Fail
    else Got(b.value)
  }

  function OfLit<Code>(r: Res<Literal>): Res<Value<Code>> {
    if r.Got? then Got(VLit(r.value)) else if r.Fail? then Res<Value<Code>>.Fail else Res<Value<Code>>.Deeper
  }

  /** Structural equality; functions equal nothing. */
  predicate Same<Code>(v: Value<Code>, w: Value<Code>) {
    match (v, w)
    case (VLit(a), VLit(b)) => a == b
    case (VList(xs), VList(ys)) => |xs| == |ys| && forall i :: 0 <= i < |xs| ==> Same(xs[i], ys[i])
    case (VVariant(a, xs), VVariant(b, ys)) => a == b && |xs| == |ys| && forall i :: 0 <= i < |xs| ==> Same(xs[i], ys[i])
    case _ => false
  }

  /** An operation with an instruction of its own. Where nothing is ordered, the answer is false. */
  function Direct<Code>(name: string, args: seq<Value<Code>>): Res<Value<Code>>
    requires IsDirect(name, |args|)
  {
    if name == "=" then Got(VLit(LBool(Same(args[0], args[1]))))
    else if name == "!=" then Got(VLit(LBool(!Same(args[0], args[1]))))
    else if |args| == 1 then OfLit(NotLit(LitOf(args[0])))
    else if IsArith(name) then OfLit(ArithLit(name, LitOf(args[0]), LitOf(args[1])))
    else
      var o := OrderLit(CmpOpOf(name), LitOf(args[0]), LitOf(args[1]));
      Got(VLit(LBool(o.Some? && o.value)))
  }

  /** How a branch reads a condition. */
  predicate Truth<Code>(v: Value<Code>) {
    !(v.VLit? && v.lit == LBool(false))
  }

  // ----- functions of the runtime -----

  predicate IsBuiltin(name: string) {
    || IsArith(name) || IsCmp(name) || name == "not" || name == "and" || name == "or"
    || name == "head" || name == "tail" || name == "empty?" || name == "cons"
  }

  /** The functions of the runtime by name. Called this way, an order on unordered values is an error. */
  function Builtin<Code>(name: string, args: seq<Value<Code>>): Res<Value<Code>> {
    if IsDirect(name, |args|) then
      if IsCmp(name) && name != "=" && name != "!=" && OrderLit(CmpOpOf(name), LitOf(args[0]), LitOf(args[1])).None? then
        Res<Value<Code>>.Fail
      else Direct(name, args)
    else if (name == "and" || name == "or") && |args| == 2 then
      OfLit(LogicLit(name, LitOf(args[0]), LitOf(args[1])))
    else if name == "head" && |args| == 1 && args[0].VList? && args[0].items != [] then Got(args[0].items[0])
    else if name == "tail" && |args| == 1 && args[0].VList? && args[0].items != [] then Got(VList(args[0].items[1..]))
    else if name == "empty?" && |args| == 1 && args[0].VList? then Got(VLit(LBool(args[0].items == [])))
    else if name == "cons" && |args| == 2 && args[1].VList? then Got(VList([args[0]] + args[1].items))
    else Res<Value<Code>>.Fail
  }

  /** The prelude's `range`, a recursion that is no tail call: the items of `start` up to `end`. */
  function Range<Code>(start: Value<Code>, end: Value<Code>, fuel: nat): Res<seq<Value<Code>>>
    decreases fuel
  {
    if Same(start, end) then Got([])
    else
      var next :- Direct("+", [start, VLit(LInt(1))]);
      if fuel == 0 then Res<seq<Value<Code>>>.Deeper
      else
        var rest :- Range(next, end, fuel - 1);
        Got([start] + rest)
  }

  function Ints<Code>(lo: int, n: nat): (vs: seq<Value<Code>>)
    ensures |vs| == n && forall i :: 0 <= i < n ==> vs[i] == VLit(LInt(lo + i))
  {
    seq(n, i => VLit(LInt(lo + i)))
  }

  /** From zero up to an integer: all of it within the depth, and no answer otherwise. A negative end is
      met only after all positive integers, far beyond any depth. */
  lemma {:induction false} RangeOfInts<Code>(lo: nat, hi: int, fuel: nat)
    requires lo <= I64_MAX && I64_MIN <= hi <= I64_MAX && lo + fuel <= I64_MAX
    ensures Range<Code>(VLit(LInt(lo)), VLit(LInt(hi)), fuel) ==
              if lo <= hi <= lo + fuel then Got(Ints<Code>(lo, hi - lo)) else Res<seq<Value<Code>>>.Deeper
    decreases fuel
  {
    if lo != hi && fuel > 0 {
      RangeOfInts<Code>(lo + 1, hi, fuel - 1);
      if lo < hi <= lo + fuel {
        assert [VLit(LInt(lo))] + Ints<Code>(lo + 1, hi - (lo + 1)) == Ints<Code>(lo, hi - lo);
      }
    } else if lo == hi {
      assert Ints<Code>(lo, 0) == [];
    }
  }

  /** What is no integer is never met. */
  lemma {:induction false} RangeOfOther<Code>(lo: int, end: Value<Code>, fuel: nat)
    requires !(end.VLit? && end.lit.LInt?)
    ensures Range<Code>(VLit(LInt(lo)), end, fuel).Deeper?
    decreases fuel
  {
    if fuel > 0 {
      RangeOfOther<Code>(Wrap(lo + 1), end, fuel - 1);
    }
  }

  // ----- binding -----

  /** What a name that is no local holds: a reference to a function, or nothing. */
  function FunctionRef<Code>(name: string, refs: set<string>): Value<Code> {
    if name in refs then VFunction(name) else VLit(LNil)
  }

  /** The bindings of a pattern that matches, put in front of an environment. */
  function Matches<Code>(p: Pattern, v: Value<Code>, env: Scope<Code>): Option<Scope<Code>>
    decreases p, 1
  {
    match p
    case Wild => Some(env)
    case PBind(name) => Some(Bind(name, v, env))
    case PLit(lit) => if v.VLit? && v.lit == lit then Some(env) else None
    case PVariant(tag, subs) =>
      if v.VVariant? && v.tag == tag && |v.args| == |subs| then MatchesAll(subs, v.args, env) else None
  }

  function MatchesAll<Code>(ps: seq<Pattern>, vs: seq<Value<Code>>, env: Scope<Code>): Option<Scope<Code>>
    requires |ps| == |vs|
    decreases ps, 0
  {
    if ps == [] then Some(env)
    else
      var first := Matches(ps[0], vs[0], env);
      if first.None? then None else MatchesAll(ps[1..], vs[1..], first.value)
  }

  function BindAll<Code>(params: seq<string>, vs: seq<Value<Code>>, env: Scope<Code>): Scope<Code>
    requires |params| == |vs|
    decreases |params|
  {
    if params == [] then env else BindAll(params[1..], vs[1..], Bind(params[0], vs[0], env))
  }

  /** Every name that the pattern binds satisfies `p`. */
  predicate BindersPattern(pattern: Pattern, p: string -> bool)
    decreases pattern, 1
  {
    match pattern
    case PBind(name) => p(name)
    case PVariant(_, subs) => BindersPatterns(subs, p)
    case _ => true
  }

  predicate BindersPatterns(ps: seq<Pattern>, p: string -> bool)
    decreases ps, 0
  {
    ps == [] || (BindersPattern(ps[0], p) && BindersPatterns(ps[1..], p))
  }

  /** The only name. */
  function Is(b: string): string -> bool {
    (n: string) => n == b
  }

  /** Where every name may be bound, every pattern is allowed. */
  lemma {:induction false} AnyPattern(pattern: Pattern, p: string -> bool)
    requires forall b :: p(b)
    ensures BindersPattern(pattern, p)
    decreases pattern, 1
  {
    if pattern.PVariant? {
      AnyPatterns(pattern.subs, p);
    }
  }

  lemma {:induction false} AnyPatterns(ps: seq<Pattern>, p: string -> bool)
    requires forall b :: p(b)
    ensures BindersPatterns(ps, p)
    decreases ps, 0
  {
    if ps != [] {
      AnyPattern(ps[0], p);
      AnyPatterns(ps[1..], p);
    }
  }

  lemma {:induction false} BindersPatternImply(pattern: Pattern, p: string -> bool, q: string -> bool)
    requires BindersPattern(pattern, p) && forall b :: p(b) ==> q(b)
    ensures BindersPattern(pattern, q)
    decreases pattern, 1
  {
    if pattern.PVariant? {
      BindersPatternsImply(pattern.subs, p, q);
    }
  }

  lemma {:induction false} BindersPatternsImply(ps: seq<Pattern>, p: string -> bool, q: string -> bool)
    requires BindersPatterns(ps, p) && forall b :: p(b) ==> q(b)
    ensures BindersPatterns(ps, q)
    decreases ps, 0
  {
    if ps != [] {
      BindersPatternImply(ps[0], p, q);
      BindersPatternsImply(ps[1..], p, q);
    }
  }
}
