/** Constructors and the shallow clone. */
module Values {
  import opened RtValues
  import opened RefCounts
  import opened Denotation
  import opened RtHeap
  import opened Lists
  import opened Strings

  /** A payload without references and what it denotes. */
  predicate Flat(d: Data) {
    !d.List? && !d.Map? && !d.Variant? && !d.Closure? && !d.PartialApp?
  }

  ghost function FlatMeaning(d: Data): Value
    requires Flat(d)
  {
    match d
    case Nil => VNil
    case Unit => VUnit
    case Int(i) => VInt(i)
    case Float(bits) => VFloat(bits)
    case Bool(b) => VBool(b)
    case Str(s) => VStr(s)
    case Bytes(bytes) => VBytes(bytes)
  }

  lemma MeaningOfFlat(s: Store, p: Ptr)
    requires Shape(s) && Acyclic(s) && p in s && Flat(s[p].data)
    ensures Meaning(s, p) == FlatMeaning(s[p].data)
  {
    var rank :| Ranked(s, rank);
    MeaningIs(s, rank, p);
  }

  /** `rt_nil`, `rt_unit`, `rt_bool`, `rt_int`, `rt_float`, `rt_str` and `rt_bytes`: pooled payloads
      share one immortal cell, others get a cell of their own; equal poolable payloads always yield
      the same pointer. */
  method MakeFlat(h: Heap, d: Data) returns (p: Ptr)
    requires h.Valid() && Flat(d)
    modifies h
    ensures h.Valid() && h.handles == old(h.handles) + multiset{p} && Grows(old(h.cells), h.cells)
    ensures h.crowded == old(h.crowded) && p in h.cells && h.cells[p].data == d
    ensures d.Nil? || d.Unit? || d.Bool? || (d.Int? && -256 <= d.i <= 255) ==> d in old(h.pool)
    ensures d in old(h.pool) ==> p == old(h.pool)[d] && h.pool == old(h.pool)
    ensures d.Str? && ByteLength(d.s) <= 64 ==> d in h.pool && p == h.pool[d]
    ensures d.Float? || d.Bytes? || (d.Int? && !(-256 <= d.i <= 255)) || (d.Str? && ByteLength(d.s) > 64) ==>
              p !in old(h.cells) && h.cells == old(h.cells)[p := Cell(1, d)] && h.pool == old(h.pool)
    ensures d in h.pool ==> h.cells[p].rc == 0xFFFF_FFFF
    ensures forall e :: e in old(h.pool) ==> e in h.pool && h.pool[e] == old(h.pool)[e]
    ensures old(Acyclic(h.cells)) ==>
              Acyclic(h.cells) && Yields(old(h.cells), h.cells, {}, p, FlatMeaning(d))
  {
    hide Counts, Settled, Shape, Refines, Acyclic, Meaning, Slots, Marked;
    if Poolable(d) {
      if d in h.pool {
        p := h.pool[d];
        NothingDone(h.cells, h.handles);
      } else {
        p := h.Pin(d);
      }
      PinnedHandle(h.cells, h.handles, p);
      h.handles := h.handles + multiset{p};
    } else {
      FlatSlots(h.cells, h.handles, d);
      p := h.Alloc(d);
    }
    if Acyclic(h.cells) {
      MeaningOfFlat(h.cells, p);
    }
  }

  lemma PinnedHandle(s: Store, handles: multiset<Ptr>, p: Ptr)
    requires Sound(s, handles) && p in s && s[p].rc == IMMORTAL
    ensures Sound(s, handles + multiset{p})
  {
    Recount(s, handles, s, handles + multiset{p}, p);
  }

  lemma FlatSlots(s: Store, handles: multiset<Ptr>, d: Data)
    requires Flat(d)
    ensures Slots(d) == multiset{} && ListShape(s, d) && handles - Slots(d) == handles
  {
  }
}
