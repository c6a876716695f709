/** Variants, closures and the shallow clone of any value. */
module Captures {
  import opened Wrappers
  import opened RtValues
  import opened RefCounts
  import opened Denotation
  import opened Reachability
  import opened RtHeap
  import opened Lists
  import opened Values
  import opened Maps

  /** A payload that owns one reference to each of `refs` and nothing else. */
  ghost predicate Holds(d: Data, refs: seq<Ptr>) {
    !d.List? && !d.Map? && Slots(d) == multiset(refs)
  }

  /** Takes a reference to everything a payload refers to and makes it a cell. */
  method Wrap(h: Heap, d: Data, refs: seq<Ptr>) returns (p: Ptr)
    requires h.Valid() && Live(h.cells, refs) && Holds(d, refs)
    modifies h`cells, h`handles, h`crowded
    ensures h.Valid() && h.handles == old(h.handles) + multiset{p}
    ensures p !in old(h.cells) && p in h.cells && h.cells[p].data == d && Grows(old(h.cells), h.cells)
    ensures old(Acyclic(h.cells)) ==> Acyclic(h.cells) && Refines(old(h.cells), h.cells, {})
  {
    hide Sound, Counts, Slots, Settled, Shape, PoolCells, PoolFull, Marked, Refines, SameCells, Grows, Acyclic, Bump;
    var copy := h.RetainAll(refs);
    ghost var t, ht := h.cells, h.handles;
    Fits(old(h.handles), multiset(refs));
    NotListShape(t, d);
    p := h.Alloc(d);
    WrapRefines(old(h.cells), old(h.handles), t, ht, h.cells, p);
  }

  lemma NotListShape(s: Store, d: Data)
    requires !d.List?
    ensures ListShape(s, d)
  {
  }

  lemma WrapRefines(s: Store, hs: multiset<Ptr>, t: Store, ht: multiset<Ptr>, u: Store, p: Ptr)
    requires Sound(s, hs) && Sound(t, ht) && SameCells(s, t) && Grows(t, u) && p !in t
    ensures Grows(s, u) && p !in s
    ensures Acyclic(s) && Refines(s, t, {}) && Acyclic(t) && Refines(t, u, {}) ==> Refines(s, u, {})
  {
    hide Meaning, Acyclic;
  }

  method MakeVariant(h: Heap, tag: Ptr, inner: Ptr) returns (r: Result<Ptr, string>)
    requires h.Valid() && tag in h.cells && inner in h.cells
    modifies h`cells, h`handles, h`crowded
    ensures h.Valid() && (r.Ok? <==> old(h.cells[tag]).data.Str?)
    ensures r.Err? ==> h.cells == old(h.cells) && h.handles == old(h.handles)
    ensures r.Ok? ==> h.handles == old(h.handles) + multiset{r.value} && r.value !in old(h.cells)
    ensures r.Ok? && old(Acyclic(h.cells)) ==>
              Acyclic(h.cells) && Yields(old(h.cells), h.cells, {}, r.value,
                VVariant(old(h.cells[tag]).data.s, old(Meaning(h.cells, inner))))
    ensures r.Err? ==> r.error == "expected Str"
  {
    if !h.cells[tag].data.Str? {
      return Err("expected Str");
    }
    var p := Wrap(h, Variant(h.cells[tag].data.s, inner), [inner]);
    if Acyclic(h.cells) {
      MeaningOfVariant(h.cells, p);
    }
    return Ok(p);
  }

  /** The payload of a variant with the expected tag, or null. */
  method MatchTag(h: Heap, val: Ptr, tag: Ptr) returns (r: Result<Ptr, string>)
    requires h.Valid() && tag in h.cells && val in h.cells
    modifies h`cells, h`handles, h`crowded
    ensures h.Valid() && (r.Ok? <==> old(h.cells[tag]).data.Str? && old(h.cells[val]).data.Variant?)
    ensures r.Err? || r == Ok(NULL) ==> h.cells == old(h.cells) && h.handles == old(h.handles)
    ensures r.Ok? ==> (r.value == NULL <==> old(h.cells[val]).data.tag != old(h.cells[tag]).data.s)
    ensures r.Ok? && r.value != NULL ==>
              h.handles == old(h.handles) + multiset{r.value} && SameCells(old(h.cells), h.cells)
    ensures r.Ok? && r.value != NULL && old(Acyclic(h.cells)) ==>
              && Acyclic(h.cells) && Refines(old(h.cells), h.cells, {}) && r.value in h.cells
              && old(Meaning(h.cells, val)) == VVariant(old(h.cells[tag]).data.s, Meaning(h.cells, r.value))
    ensures r.Err? ==> r.error == if old(h.cells)[tag].data.Str? then "airl_match_tag: not a Variant" else "expected Str"
  {
    if !h.cells[tag].data.Str? {
      return Err("expected Str");
    }
    match h.cells[val].data
    case Variant(name, inner) =>
      if name != h.cells[tag].data.s {
        return Ok(NULL);
      }
      EdgesInside(h.cells, h.handles);
      assert Edge(h.cells, val, inner);
      if Acyclic(h.cells) {
        MeaningOfVariant(h.cells, val);
      }
      Share(h, inner);
      return Ok(inner);
    case _ =>
      return Err("airl_match_tag: not a Variant");
  }

  method MakeClosure(h: Heap, func: int, captures: seq<Ptr>) returns (p: Ptr)
    requires h.Valid() && Live(h.cells, captures)
    modifies h`cells, h`handles, h`crowded
    ensures h.Valid() && h.handles == old(h.handles) + multiset{p} && p !in old(h.cells)
    ensures old(Acyclic(h.cells)) ==>
              Acyclic(h.cells) && Yields(old(h.cells), h.cells, {}, p, VClosure(func, old(Meanings(h.cells, captures))))
  {
    ghost var s := h.cells;
    assert Shape(s);
    p := Wrap(h, Closure(func, captures), captures);
    assert Shape(h.cells);
    ClosureMeaning(s, h.cells, func, captures, p);
  }

  lemma ClosureMeaning(s: Store, t: Store, func: int, captures: seq<Ptr>, p: Ptr)
    requires Shape(s) && Shape(t) && Grows(s, t) && Live(s, captures) && p in t && t[p].data == Closure(func, captures)
    ensures Acyclic(s) && Acyclic(t) && Refines(s, t, {}) ==> Yields(s, t, {}, p, VClosure(func, Meanings(s, captures)))
  {
    hide Shape, Acyclic;
    if Acyclic(s) && Acyclic(t) && Refines(s, t, {}) {
      MeaningOfClosure(t, p);
      assert Meanings(t, captures) == Meanings(s, captures);
    }
  }

  /** The clone denotes the same value. It is a pooled cell or a new one, and a list clone is never a
      view. */
  method Clone(h: Heap, p: Ptr) returns (r: Ptr)
    requires p == NULL || (h.Valid() && p in h.cells)
    modifies h
    ensures p == NULL ==> r == NULL && h.cells == old(h.cells) && h.handles == old(h.handles)
    ensures p != NULL ==>
              && h.Valid() && h.handles == old(h.handles) + multiset{r} && r in h.cells
              && (r !in old(h.cells) || h.cells[r].rc == IMMORTAL)
              && (h.cells[r].data.List? ==> h.cells[r].data.parent.None?)
    ensures p != NULL && old(Acyclic(h.cells)) ==>
              Acyclic(h.cells) && Yields(old(h.cells), h.cells, {}, r, old(Meaning(h.cells, p)))
  {
    hide Sound, Counts, Settled, Shape, PoolCells, PoolFull, Marked, Refines, Grows, Yields, Acyclic;
    if p == NULL {
      return NULL;
    }
    match h.cells[p].data
    case List(_, _, _) =>
      r := CloneList(h, p);
    case Map(_) =>
      r := CloneMap(h, p);
    case Variant(_, inner) =>
      r := CloneHolder(h, p, [inner]);
    case Closure(_, captures) =>
      r := CloneHolder(h, p, captures);
    case PartialApp(_, captured, _) =>
      r := CloneHolder(h, p, captured);
    case _ =>
      r := CloneFlat(h, p);
  }

  /** Resolves a view through its root, so the clone is itself a root. */
  method CloneList(h: Heap, p: Ptr) returns (r: Ptr)
    requires h.Valid() && p in h.cells && h.cells[p].data.List?
    modifies h`cells, h`handles, h`crowded
    ensures h.Valid() && h.handles == old(h.handles) + multiset{r} && r !in old(h.cells) && r in h.cells
    ensures h.cells[r].data == List(old(Items(h.cells, h.cells[p].data)), 0, None)
    ensures old(Acyclic(h.cells)) ==>
              Acyclic(h.cells) && Yields(old(h.cells), h.cells, {}, r, old(Meaning(h.cells, p)))
  {
    ListFacts(h.cells, h.handles, p);
    hide Sound, Counts, Settled, Shape, PoolCells, PoolFull, Marked, Refines, Grows, Yields, Acyclic, Live, Meanings;
    r := NewList(h, Items(h.cells, h.cells[p].data));
  }

  method CloneMap(h: Heap, p: Ptr) returns (r: Ptr)
    requires h.Valid() && p in h.cells && h.cells[p].data.Map?
    modifies h`cells, h`handles, h`crowded
    ensures h.Valid() && h.handles == old(h.handles) + multiset{r} && r !in old(h.cells) && r in h.cells
    ensures h.cells[r].data == old(h.cells[p].data)
    ensures old(Acyclic(h.cells)) ==>
              Acyclic(h.cells) && Yields(old(h.cells), h.cells, {}, r, old(Meaning(h.cells, p)))
  {
    EntriesLive(h.cells, h.handles, p);
    r := CloneEntries(h, h.cells[p].data.entries, None);
    if old(Acyclic(h.cells)) {
      ghost var all := old(EntryMeanings(h.cells, h.cells[p].data.entries));
      assert all - {} == all;
    }
  }

  method CloneFlat(h: Heap, p: Ptr) returns (r: Ptr)
    requires h.Valid() && p in h.cells && Flat(h.cells[p].data)
    modifies h
    ensures h.Valid() && h.handles == old(h.handles) + multiset{r} && r in h.cells
    ensures h.cells[r].data == old(h.cells[p].data) && (r !in old(h.cells) || h.cells[r].rc == IMMORTAL)
    ensures old(Acyclic(h.cells)) ==>
              Acyclic(h.cells) && Yields(old(h.cells), h.cells, {}, r, old(Meaning(h.cells, p)))
  {
    if Acyclic(h.cells) {
      MeaningOfFlat(h.cells, p);
    }
    r := MakeFlat(h, h.cells[p].data);
  }

  /** Clones a cell that holds `refs` by sharing them. */
  method CloneHolder(h: Heap, p: Ptr, refs: seq<Ptr>) returns (r: Ptr)
    requires h.Valid() && p in h.cells && Holds(h.cells[p].data, refs)
    modifies h`cells, h`handles, h`crowded
    ensures h.Valid() && h.handles == old(h.handles) + multiset{r}
    ensures r !in old(h.cells) && r in h.cells && !h.cells[r].data.List?
    ensures old(Acyclic(h.cells)) ==>
              Acyclic(h.cells) && Yields(old(h.cells), h.cells, {}, r, old(Meaning(h.cells, p)))
  {
    HolderLive(h.cells, h.handles, p, refs);
    ghost var s := h.cells;
    r := Wrap(h, h.cells[p].data, refs);
    if Acyclic(s) {
      SameHolder(s, h.cells, p, r);
    }
  }

  lemma HolderLive(s: Store, handles: multiset<Ptr>, p: Ptr, refs: seq<Ptr>)
    requires Sound(s, handles) && p in s && Holds(s[p].data, refs)
    ensures Live(s, refs)
  {
    EdgesInside(s, handles);
    forall i | 0 <= i < |refs|
      ensures refs[i] in s
    {
      assert Edge(s, p, refs[i]);
    }
  }

  /** Two cells with the same payload denote the same value. */
  lemma SameHolder(s: Store, u: Store, p: Ptr, r: Ptr)
    requires Shape(s) && Acyclic(s) && Shape(u) && Acyclic(u) && Refines(s, u, {}) && Grows(s, u)
    requires p in s && r in u && u[r].data == s[p].data
    ensures Meaning(u, r) == Meaning(s, p)
  {
    var rank :| Ranked(u, rank);
    MeaningIs(u, rank, p);
    MeaningIs(u, rank, r);
    SameDen(u, rank, p, r);
  }

  lemma SameDen(s: Store, rank: map<Ptr, nat>, p: Ptr, r: Ptr)
    requires Shape(s) && Ranked(s, rank) && p in s && r in s && s[r].data == s[p].data
    ensures Den(s, rank, p) == Den(s, rank, r)
  {
    match s[p].data
    case List(_, _, _) =>
      ItemsBelow(s, rank, p);
      ItemsBelow(s, rank, r);
      assert DenAll(s, rank, Items(s, s[p].data), rank[p]) == DenAll(s, rank, Items(s, s[r].data), rank[r]);
    case Map(entries) =>
      EntriesBelow(s, rank, p);
      EntriesBelow(s, rank, r);
      assert Den(s, rank, p).entries == Den(s, rank, r).entries;
    case Variant(_, inner) =>
      OthersBelow(s, rank, p);
      OthersBelow(s, rank, r);
      assert DenAll(s, rank, [inner], rank[p]) == DenAll(s, rank, [inner], rank[r]);
    case Closure(_, captures) =>
      OthersBelow(s, rank, p);
      OthersBelow(s, rank, r);
      assert DenAll(s, rank, captures, rank[p]) == DenAll(s, rank, captures, rank[r]);
    case PartialApp(_, captured, _) =>
      OthersBelow(s, rank, p);
      OthersBelow(s, rank, r);
      assert DenAll(s, rank, captured, rank[p]) == DenAll(s, rank, captured, rank[r]);
    case _ =>
  }
}
