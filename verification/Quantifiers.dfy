/** When a quantifier means what it says: the documented meaning, and the exact condition. */
module Quantifiers {
  import opened Desugaring
  import opened IrValues
  import opened RuntimeOps
  import opened Wrappers

  function BodyAt(e: Expr, i: nat, env: SEnv, prog: Program, fuel: nat): Res<SV>
    requires e.Quantified?
  {
    Eval(e.body, Bind(e.param, VLit(LInt(i)), env), prog, fuel)
  }

  predicate IsBool(r: Res<SV>) {
    r.Got? && r.value.VLit? && r.value.lit.LBool?
  }

  predicate IsTrue(r: Res<SV>) {
    r == Got(VLit(LBool(true)))
  }

  /** The numbers that the quantifier is documented to range over, given the value of the right-hand side
      of its `where` clause: below 10000 without a clause. */
  predicate Admits(e: Expr, i: nat, bound: int)
    requires e.Quantified? && (e.where.Some? ==> e.where.value.FnCall?)
  {
    if e.where.None? then i < 10_000
    else (e.where.value.name == "<" && i < bound) || (e.where.value.name == "<=" && i <= bound)
  }

  /** A quantifier without a clause, or whose clause is an upper bound with the integer `bound`. */
  predicate HasBound(e: Expr, env: SEnv, prog: Program, fuel: nat, bound: int) {
    && e.Quantified?
    && (e.where.Some? ==>
          IsUpperBound(e.where.value, e.param) && Eval(e.where.value.args[1], env, prog, fuel) == Got(VLit(LInt(bound))))
  }

  /** The bounded quantifier over the admitted numbers. */
  ghost predicate Holds(e: Expr, env: SEnv, prog: Program, fuel: nat, bound: int)
    requires e.Quantified? && (e.where.Some? ==> e.where.value.FnCall?)
  {
    if e.isForall then forall i: nat :: Admits(e, i, bound) ==> IsTrue(BodyAt(e, i, env, prog, fuel))
    else exists i: nat :: Admits(e, i, bound) && IsTrue(BodyAt(e, i, env, prog, fuel))
  }

  /** The first number that is too large, as the translation computes it: it wraps around. */
  function Limit(e: Expr, bound: int): int
    requires e.Quantified? && (e.where.Some? ==> e.where.value.FnCall?)
  {
    if e.where.None? then DEFAULT_BOUND else if e.where.value.name == "<" then bound else Wrap(bound + 1)
  }

  lemma {:induction false} ScanMeaning(e: Expr, lo: nat, n: nat, env: SEnv, prog: Program, depth: nat)
    requires e.Quantified? && lo <= n
    requires forall k: nat :: lo <= k < n ==> IsBool(BodyAt(e, k, env, prog, depth))
    ensures var r := Scan(e.isForall, e.param, e.body, Ints(lo, n - lo), env, prog, depth + 1);
            && IsBool(r)
            && (IsTrue(r) <==>
                  if e.isForall then forall k: nat :: lo <= k < n ==> IsTrue(BodyAt(e, k, env, prog, depth))
                  else exists k: nat :: lo <= k < n && IsTrue(BodyAt(e, k, env, prog, depth)))
    decreases n - lo
  {
    if lo < n {
      var items: seq<SV> := Ints(lo, n - lo);
      assert items[1..] == Ints(lo + 1, n - (lo + 1));
      var v := BodyAt(e, lo, env, prog, depth);
      assert IsBool(v);
      assert IsTrue(v) <==> Truth(v.value);
      if lo + 1 < n && v.value.lit.b == e.isForall {
        ScanMeaning(e, lo + 1, n, env, prog, depth);
      }
    }
  }

  /** The quantifier is the scan up to the limit if the calls that count it may nest that deep, and has
      no answer otherwise. */
  lemma Unfolded(e: Expr, env: SEnv, prog: Program, depth: nat, bound: int)
    requires HasBound(e, env, prog, depth + 2, bound) && depth < 0x7FFF_FFFF_FFFF_FFFF
    requires -0x8000_0000_0000_0000 <= bound <= 0x7FFF_FFFF_FFFF_FFFF
    ensures var limit := Limit(e, bound);
            Eval(e, env, prog, depth + 2) ==
              if 0 <= limit <= depth + 1 then Scan(e.isForall, e.param, e.body, Ints(0, limit), env, prog, depth + 1)
              else Res<SV>.Deeper
  {
    BoundIsLimit(e, env, prog, depth + 2, bound);
    RangeOfInts<Expr>(0, Limit(e, bound), depth + 1);
    hide EvalBound, Limit, HasBound, Scan, Range;
  }

  lemma BoundIsLimit(e: Expr, env: SEnv, prog: Program, fuel: nat, bound: int)
    requires HasBound(e, env, prog, fuel, bound) && I64_MIN <= bound <= I64_MAX
    ensures EvalBound(e, env, prog, fuel) == Got(VLit(LInt(Limit(e, bound))))
    ensures I64_MIN <= Limit(e, bound) <= I64_MAX
  {
    hide Eval;
  }

  lemma AdmittedBelow(e: Expr, bound: int, i: nat)
    requires e.Quantified? && I64_MIN <= bound <= I64_MAX && (e.where.Some? ==> IsUpperBound(e.where.value, e.param))
    requires Limit(e, bound) >= 0
    ensures Admits(e, i, bound) <==> i < Limit(e, bound)
  {
  }

  /** With a boolean body on the admitted numbers, the quantifier has its documented meaning exactly when
      its limit is not negative and the calls that count up to it fit in the call depth; otherwise it
      overflows the stack. So `(<= i N)` fails for the largest integer, a negative bound fails instead of
      admitting nothing, and so does every bound, the default included, beyond the depth. */
  lemma QuantifierExact(e: Expr, env: SEnv, prog: Program, depth: nat, bound: int)
    requires HasBound(e, env, prog, depth + 2, bound) && depth < 0x7FFF_FFFF_FFFF_FFFF
    requires -0x8000_0000_0000_0000 <= bound <= 0x7FFF_FFFF_FFFF_FFFF
    requires forall i: nat :: Admits(e, i, bound) && i <= depth ==> IsBool(BodyAt(e, i, env, prog, depth))
    ensures var r := Eval(e, env, prog, depth + 2);
            var fits := 0 <= Limit(e, bound) <= depth + 1;
            && (fits <==> IsBool(r) && (IsTrue(r) <==> Holds(e, env, prog, depth, bound)))
            && (!fits ==> r == Res<SV>.Deeper)
  {
    Unfolded(e, env, prog, depth, bound);
    var limit := Limit(e, bound);
    if 0 <= limit <= depth + 1 {
      forall i: nat
        ensures Admits(e, i, bound) <==> i < limit
      {
        AdmittedBelow(e, bound, i);
      }
      hide Admits, Limit, HasBound;
      forall k: nat | 0 <= k < limit
        ensures IsBool(BodyAt(e, k, env, prog, depth))
      {
        assert Admits(e, k, bound);
      }
      ScanMeaning(e, 0, limit, env, prog, depth);
      HoldsBelow(e, env, prog, depth, bound, limit);
    }
  }

  lemma HoldsBelow(e: Expr, env: SEnv, prog: Program, depth: nat, bound: int, limit: nat)
    requires e.Quantified? && (e.where.Some? ==> e.where.value.FnCall?)
    requires forall i: nat :: Admits(e, i, bound) <==> i < limit
    ensures Holds(e, env, prog, depth, bound) <==>
              if e.isForall then forall k: nat :: 0 <= k < limit ==> IsTrue(BodyAt(e, k, env, prog, depth))
              else exists k: nat :: 0 <= k < limit && IsTrue(BodyAt(e, k, env, prog, depth))
  {
    hide Admits;
  }

  /** A `where` clause of any other form is itself taken as the bound, where its variable is not bound. An
      integer is a limit like any other; anything else is never reached. */
  lemma OtherGuard(e: Expr, env: SEnv, prog: Program, depth: nat)
    requires e.Quantified? && e.where.Some? && !IsUpperBound(e.where.value, e.param) && depth + 1 <= I64_MAX
    requires Eval(e.where.value, env, prog, depth + 2).Got?
    ensures var w := Eval(e.where.value, env, prog, depth + 2).value;
            var isInt := w.VLit? && w.lit.LInt? && I64_MIN <= w.lit.i <= I64_MAX;
            var r := Eval(e, env, prog, depth + 2);
            && (!(w.VLit? && w.lit.LInt?) ==> r == Res<SV>.Deeper)
            && (isInt && 0 <= w.lit.i <= depth + 1 ==>
                  r == Scan(e.isForall, e.param, e.body, Ints(0, w.lit.i), env, prog, depth + 1))
            && (isInt && !(0 <= w.lit.i <= depth + 1) ==> r == Res<SV>.Deeper)
  {
    var w := Eval(e.where.value, env, prog, depth + 2).value;
    if w.VLit? && w.lit.LInt? {
      if I64_MIN <= w.lit.i <= I64_MAX {
        RangeOfInts<Expr>(0, w.lit.i, depth + 1);
      }
    } else {
      RangeOfOther<Expr>(0, w, depth + 1);
    }
  }

  /** The common case: any comparison but an upper bound, as in `(> i 5)`. It is a boolean, so the
      quantifier overflows the stack at every depth, unless an operand fails before; it never has a value. */
  lemma OtherComparison(e: Expr, env: SEnv, prog: Program, fuel: nat, op: string, args: seq<Expr>)
    requires e.Quantified? && IsCmp(op) && |args| == 2
    requires e.where == Some(FnCall(op, args)) && !IsUpperBound(e.where.value, e.param)
    ensures !Eval(e, env, prog, fuel).Got?
    ensures EvalAll(args, env, prog, fuel).Got? ==> Eval(e, env, prog, fuel) == Res<SV>.Deeper
  {
    var vs := EvalAll(args, env, prog, fuel);
    if vs.Got? {
      ComparisonIsBool(op, vs.value);
      var w := Direct(op, vs.value).value;
      assert Eval(e.where.value, env, prog, fuel) == Got(w);
      if fuel > 0 {
        RangeOfOther<Expr>(0, w, fuel - 1);
      }
    } else {
      assert !Eval(e.where.value, env, prog, fuel).Got?;
      assert !EvalBound(e, env, prog, fuel).Got?;
    }
    hide Direct, Range, Scan, EvalAll;
  }

  lemma ComparisonIsBool(op: string, vs: seq<SV>)
    requires IsCmp(op) && |vs| == 2
    ensures var r := Direct(op, vs); r.Got? && r.value.VLit? && r.value.lit.LBool?
  {
    hide Same, OrderLit;
  }

  /** Without a clause the count alone needs more than the 10000 frames that the machine lets nest unless told
      otherwise. */
  lemma DefaultOverflows(e: Expr, env: SEnv, prog: Program, fuel: nat)
    requires e.Quantified? && e.where.None? && fuel <= 10_000
    ensures Eval(e, env, prog, fuel) == Res<SV>.Deeper
  {
    if fuel >= 2 {
      Unfolded(e, env, prog, fuel - 2, 0);
    } else if fuel == 1 {
      RangeOfInts<Expr>(0, DEFAULT_BOUND, 0);
    }
  }
}
