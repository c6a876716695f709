/** Structural equality over the heap, decided pointer by pointer. */
module Comparison {
  import opened RtValues
  import opened Denotation

  /** `rt_values_equal`: maps, closures and partial applications never compare equal, not even to
      themselves. */
  ghost predicate ValuesEqual(s: Store, rank: map<Ptr, nat>, a: Ptr, b: Ptr)
    requires Shape(s) && Ranked(s, rank) && a in s && b in s
    decreases rank[a], 1
  {
    match (s[a].data, s[b].data)
    case (Nil, Nil) => true
    case (Unit, Unit) => true
    case (Int(x), Int(y)) => x == y
    case (Float(x), Float(y)) => x == y
    case (Bool(x), Bool(y)) => x == y
    case (Str(x), Str(y)) => x == y
    case (List(_, _, _), List(_, _, _)) =>
      ItemsBelow(s, rank, a);
      ItemsBelow(s, rank, b);
      var xs, ys := Items(s, s[a].data), Items(s, s[b].data);
      |xs| == |ys| && AllEqual(s, rank, xs, ys, rank[a], rank[b])
    case (Variant(tx, x), Variant(ty, y)) =>
      OthersBelow(s, rank, a);
      OthersBelow(s, rank, b);
      tx == ty && AllEqual(s, rank, [x], [y], rank[a], rank[b])
    case (Bytes(x), Bytes(y)) => x == y
    case _ => false
  }

  ghost predicate AllEqual(s: Store, rank: map<Ptr, nat>, xs: seq<Ptr>, ys: seq<Ptr>, ba: nat, bb: nat)
    requires Shape(s) && Ranked(s, rank) && |xs| == |ys| && Below(rank, s, xs, ba) && Below(rank, s, ys, bb)
    decreases ba, 0
  {
    forall i | 0 <= i < |xs| :: ValuesEqual(s, rank, xs[i], ys[i])
  }

  /** No map, closure or partial application anywhere inside. */
  ghost predicate Comparable(v: Value) {
    match v
    case VList(elems) => forall i :: 0 <= i < |elems| ==> Comparable(elems[i])
    case VVariant(_, inner) => Comparable(inner)
    case VMap(_) => false
    case VClosure(_, _) => false
    case VPartial(_, _, _) => false
    case _ => true
  }

  /** Equality on the heap is equality of denotations among comparable values, through views and
      whatever cells are shared. */
  lemma {:induction false} EqualIffSameMeaning(s: Store, rank: map<Ptr, nat>, a: Ptr, b: Ptr)
    requires Shape(s) && Ranked(s, rank) && a in s && b in s
    ensures ValuesEqual(s, rank, a, b) <==> Den(s, rank, a) == Den(s, rank, b) && Comparable(Den(s, rank, a))
    decreases rank[a], 1
  {
    match (s[a].data, s[b].data)
    case (List(_, _, _), List(_, _, _)) =>
      ItemsBelow(s, rank, a);
      ItemsBelow(s, rank, b);
      var xs, ys := Items(s, s[a].data), Items(s, s[b].data);
      if |xs| == |ys| {
        AllEqualIffSame(s, rank, xs, ys, rank[a], rank[b]);
      }
    case (Variant(_, x), Variant(_, y)) =>
      OthersBelow(s, rank, a);
      OthersBelow(s, rank, b);
      AllEqualIffSame(s, rank, [x], [y], rank[a], rank[b]);
    case _ =>
  }

  lemma {:induction false} AllEqualIffSame(s: Store, rank: map<Ptr, nat>, xs: seq<Ptr>, ys: seq<Ptr>, ba: nat, bb: nat)
    requires Shape(s) && Ranked(s, rank) && |xs| == |ys| && Below(rank, s, xs, ba) && Below(rank, s, ys, bb)
    ensures AllEqual(s, rank, xs, ys, ba, bb) <==>
              && DenAll(s, rank, xs, ba) == DenAll(s, rank, ys, bb)
              && forall i :: 0 <= i < |xs| ==> Comparable(DenAll(s, rank, xs, ba)[i])
    decreases ba, 0
  {
    forall i | 0 <= i < |xs|
      ensures ValuesEqual(s, rank, xs[i], ys[i]) <==>
                Den(s, rank, xs[i]) == Den(s, rank, ys[i]) && Comparable(Den(s, rank, xs[i]))
    {
      EqualIffSameMeaning(s, rank, xs[i], ys[i]);
    }
    var us, vs := DenAll(s, rank, xs, ba), DenAll(s, rank, ys, bb);
    if us == vs {
      assert forall i :: 0 <= i < |xs| ==> us[i] == vs[i];
    }
    if AllEqual(s, rank, xs, ys, ba, bb) {
      assert forall i :: 0 <= i < |xs| ==> us[i] == vs[i];
    }
  }

  /** On every heap, whatever the values are, equality is symmetric and transitive, and reflexive
      exactly on comparable values. */
  lemma EqualityLaws(s: Store, rank: map<Ptr, nat>, a: Ptr, b: Ptr, c: Ptr)
    requires Shape(s) && Ranked(s, rank) && a in s && b in s && c in s
    ensures ValuesEqual(s, rank, a, b) ==> ValuesEqual(s, rank, b, a)
    ensures ValuesEqual(s, rank, a, b) && ValuesEqual(s, rank, b, c) ==> ValuesEqual(s, rank, a, c)
    ensures ValuesEqual(s, rank, a, a) <==> Comparable(Den(s, rank, a))
  {
    EqualIffSameMeaning(s, rank, a, b);
    EqualIffSameMeaning(s, rank, b, a);
    EqualIffSameMeaning(s, rank, b, c);
    EqualIffSameMeaning(s, rank, a, c);
    EqualIffSameMeaning(s, rank, a, a);
  }
}
