/** The runtime heap as an object: counting, recursive freeing and the copy-on-write operations. */
module RtHeap {
  import opened Strings
  import opened Wrappers
  import opened RtValues
  import opened RefCounts
  import opened Denotation
  import opened Reachability

  /** Cells that exist once and for all: nil, unit, the booleans, small integers, short strings. */
  predicate Poolable(d: Data) {
    match d
    case Nil => true
    case Unit => true
    case Bool(_) => true
    case Int(i) => SMALL_INT_MIN <= i <= SMALL_INT_MAX
    case Str(s) => ByteLength(s) <= MAX_INTERN_LEN
    case _ => false
  }

  const SMALL_INT_MIN := -256
  const SMALL_INT_MAX := 255

  /** A pooled payload has an immortal cell of its own. */
  ghost predicate PoolCells(s: Store, pool: map<Data, Ptr>) {
    forall d :: d in pool ==> Poolable(d) && pool[d] in s && s[pool[d]] == Cell(IMMORTAL, d)
  }

  /** Everything poolable but strings, which are interned when first seen, has its cell. */
  ghost predicate PoolFull(pool: map<Data, Ptr>) {
    forall d :: Poolable(d) && !d.Str? ==> d in pool
  }

  /** Immortal are the pooled cells and those that have once been `crowded`, and no others. */
  ghost predicate Marked(s: Store, pool: map<Data, Ptr>, crowded: set<Ptr>) {
    && crowded <= s.Keys
    && forall p :: p in s ==> (s[p].rc == IMMORTAL <==> p in pool.Values || p in crowded)
  }

  /** What `Counts` and the shape of views amount to between two operations. */
  ghost predicate Sound(s: Store, handles: multiset<Ptr>) {
    Counts(s, handles) && Settled(s) && Shape(s)
  }

  /** `t` is `s` with more cells and more references. */
  ghost predicate Grows(s: Store, t: Store) {
    forall p :: p in s ==>
      p in t && t[p].data == s[p].data && s[p].rc <= t[p].rc && (s[p].rc == IMMORTAL ==> t[p].rc == IMMORTAL)
  }

  ghost predicate SameCells(s: Store, t: Store) {
    t.Keys == s.Keys && Grows(s, t)
  }

  /** `t` gives every cell of `s` that it still has, outside `touched`, the denotation it had. */
  ghost predicate Refines(s: Store, t: Store, touched: set<Ptr>)
    requires Shape(s) && Acyclic(s)
  {
    && Shape(t) && Acyclic(t)
    && forall q :: q in s && q in t && q !in touched ==> Meaning(t, q) == Meaning(s, q)
  }

  lemma EmptyHeap()
    ensures Sound(map[], multiset{}) && PoolCells(map[], map[]) && Acyclic(map[]) && Marked(map[], map[], {})
  {
    assert Ranked(map[], map[]);
  }

  lemma PinCounts(s: Store, handles: multiset<Ptr>, p: Ptr, d: Data)
    requires Counts(s, handles) && p !in s && p != NULL && Poolable(d)
    ensures Counts(s[p := Cell(IMMORTAL, d)], handles)
  {
    RefsAdd(s, p, Cell(IMMORTAL, d));
    assert Refs(s[p := Cell(IMMORTAL, d)]) == Refs(s);
  }

  lemma PinSound(s: Store, handles: multiset<Ptr>, p: Ptr, d: Data)
    requires Sound(s, handles) && p !in s && p != NULL && Poolable(d)
    ensures Sound(s[p := Cell(IMMORTAL, d)], handles)
    ensures Acyclic(s) ==> Acyclic(s[p := Cell(IMMORTAL, d)]) && Refines(s, s[p := Cell(IMMORTAL, d)], {})
  {
    var t := s[p := Cell(IMMORTAL, d)];
    PinCounts(s, handles, p, d);
    hide Counts, Shape, Acyclic, Edge, Meaning;
    FreshUnstored(s, handles, p);
    SetShape(s, p, Cell(IMMORTAL, d));
    if Acyclic(s) {
      SetCell(s, p, Cell(IMMORTAL, d));
    }
  }

  lemma PinPool(s: Store, pool: map<Data, Ptr>, p: Ptr, d: Data)
    requires PoolCells(s, pool) && p !in s && Poolable(d)
    ensures PoolCells(s[p := Cell(IMMORTAL, d)], pool[d := p])
  {
  }

  lemma NothingDone(s: Store, handles: multiset<Ptr>)
    ensures SameCells(s, s)
    ensures Sound(s, handles) && Acyclic(s) ==> Refines(s, s, {})
  {
  }

  lemma PinMarked(s: Store, pool: map<Data, Ptr>, crowded: set<Ptr>, p: Ptr, d: Data)
    requires Marked(s, pool, crowded) && p !in s && d !in pool
    ensures Marked(s[p := Cell(IMMORTAL, d)], pool[d := p], crowded)
  {
    var grown := pool[d := p];
    assert forall e :: e in pool ==> grown[e] == pool[e];
    assert grown[d] == p;
    assert forall q :: q in grown.Values <==> q in pool.Values || q == p;
  }

  /** A cell is marked by the retain that gives it its reference number 0xFFFF_FFFF. */
  lemma RetainMarked(s: Store, pool: map<Data, Ptr>, crowded: set<Ptr>, handles: multiset<Ptr>, p: Ptr)
    requires Counts(s, handles) && Marked(s, pool, crowded) && p in s && s[p].rc > 0
    ensures Marked(s[p := Bump(s[p])], pool, crowded + if (Refs(s) + handles)[p] + 1 >= 0xFFFF_FFFF then {p} else {})
  {
    hide Refs;
  }

  lemma ShrinkMarked(s: Store, t: Store, pool: map<Data, Ptr>, crowded: set<Ptr>, before: multiset<Ptr>,
                     after: multiset<Ptr>)
    requires Counts(s, before) && Counts(t, after) && Shrinks(s, t)
    ensures Marked(s, pool, crowded) ==> Marked(t, pool, crowded)
  {
    hide Keeps, Refs;
  }

  lemma BumpCounts(s: Store, handles: multiset<Ptr>, p: Ptr)
    requires Counts(s, handles) && p in s
    ensures var c := Bump(s[p]);
            c.data == s[p].data && c.rc == if s[p].rc < 0xFFFF_FFFE then s[p].rc + 1 else 0xFFFF_FFFF
  {
  }

  lemma CountBound(s: Store, handles: multiset<Ptr>, p: Ptr)
    requires Sound(s, handles) && p in s
    ensures 0 < s[p].rc <= 0xFFFF_FFFF
  {
  }

  lemma SetMarked(s: Store, pool: map<Data, Ptr>, crowded: set<Ptr>, p: Ptr, c: Cell)
    requires Marked(s, pool, crowded) && c.rc != IMMORTAL
    requires if p in s then s[p].rc == c.rc else PoolCells(s, pool)
    ensures Marked(s[p := c], pool, crowded)
  {
  }

  /** With every handle given back and no cell ever crowded, the pool's cells are all that is left exactly
      when the heap is acyclic. */
  lemma OnlyPoolIffAcyclic(s: Store, pool: map<Data, Ptr>)
    requires Sound(s, multiset{}) && PoolCells(s, pool) && Marked(s, pool, {})
    ensures s.Keys == pool.Values <==> Acyclic(s)
  {
    forall q | q in s && s[q].rc == IMMORTAL
      ensures Slots(s[q].data) == multiset{}
    {
      var d :| d in pool && pool[d] == q;
    }
    LeaksIffCyclic(s);
    hide Acyclic, Slots;
    assert forall q :: q in pool.Values ==> q in s;
  }

  lemma RetainSound(s: Store, pool: map<Data, Ptr>, handles: multiset<Ptr>, p: Ptr)
    requires Counts(s, handles) && p in s && s[p].rc > 0
    ensures var t := s[p := Bump(s[p])];
            Sound(s, handles) && PoolCells(s, pool) ==>
              && Sound(t, handles + multiset{p}) && PoolCells(t, pool) && SameCells(s, t)
              && (Acyclic(s) ==> Acyclic(t) && Refines(s, t, {}))
  {
    var t := s[p := Bump(s[p])];
    if Sound(s, handles) && PoolCells(s, pool) {
      RetainStep(s, handles, p);
      SameData(s, t, handles + multiset{p});
    }
  }

  lemma ShrinkSound(s: Store, t: Store, pool: map<Data, Ptr>, before: multiset<Ptr>, after: multiset<Ptr>)
    requires Counts(t, after) && Shrinks(s, t)
    ensures Sound(s, before) && PoolCells(s, pool) ==>
              && Sound(t, after) && PoolCells(t, pool)
              && (Acyclic(s) ==> Acyclic(t) && Refines(s, t, {}))
  {
    if Sound(s, before) && PoolCells(s, pool) {
      SameData(s, t, after);
    }
  }

  lemma SlotsLive(s: Store, handles: multiset<Ptr>, d: Data)
    requires Counts(s, handles) && Slots(d) <= handles
    ensures forall q :: q in Slots(d) ==> q in s
  {
    forall q | q in Slots(d)
      ensures q in s
    {
      NotNull(s, handles, q);
    }
  }

  lemma ShapeParent(s: Store, d: Data)
    requires ListShape(s, d)
    ensures d.List? && d.parent.Some? ==> d.parent.value in s
  {
  }

  /** Allocating a payload whose references were already held. */
  lemma AllocSound(s: Store, pool: map<Data, Ptr>, handles: multiset<Ptr>, p: Ptr, d: Data)
    requires Sound(s, handles) && PoolCells(s, pool) && p !in s && p != NULL
    requires Slots(d) <= handles && ListShape(s, d)
    ensures var t := s[p := Cell(1, d)];
            && Sound(t, handles - Slots(d) + multiset{p}) && PoolCells(t, pool) && Grows(s, t)
            && (Acyclic(s) ==> Acyclic(t) && Refines(s, t, {}))
  {
    hide Counts, Slots, Shape, ListShape, Acyclic, Edge, Meaning;
    var t := s[p := Cell(1, d)];
    AllocStep(s, handles, p, d);
    FreshUnstored(s, handles, p);
    SlotsLive(s, handles, d);
    ShapeParent(s, d);
    SetShape(s, p, Cell(1, d));
    if Acyclic(s) {
      SetCell(s, p, Cell(1, d));
    }
  }

  lemma RefinesChain(s: Store, t: Store, u: Store, a: set<Ptr>, b: set<Ptr>)
    requires Shape(s) && Acyclic(s) && Refines(s, t, a) && Refines(t, u, b)
    requires forall q :: q in s && q in u ==> q in t
    ensures Refines(s, u, a + b)
  {
  }

  /** Rewriting the payload of a list cell that only handles refer to. The heap becomes cyclic
      exactly when the new items include the list itself. */
  lemma InPlaceSound(s: Store, pool: map<Data, Ptr>, handles: multiset<Ptr>, list: Ptr, items: seq<Ptr>)
    requires Sound(s, handles) && PoolCells(s, pool) && list in s && list !in Refs(s)
    requires s[list].data.List? && s[list].rc != IMMORTAL
    requires multiset(items) <= handles + Slots(s[list].data)
    ensures var t := s[list := s[list].(data := List(items, 0, None))];
            && Sound(t, handles + Slots(s[list].data) - multiset(items)) && PoolCells(t, pool)
            && (Acyclic(s) ==> (Acyclic(t) <==> list !in items))
            && (Acyclic(s) && list !in items ==> Refines(s, t, {list}))
  {
    var d := List(items, 0, None);
    var c := s[list].(data := d);
    NotStored(s, list);
    SetShape(s, list, c);
    assert Slots(d) == multiset(items) by {
      SlotsOf(d);
    }
    MutateStep(s, handles, list, d);
    forall q | q in Slots(d)
      ensures q in s
    {
      if q in handles {
        NotNull(s, handles, q);
      } else {
        assert Edge(s, list, q);
        EdgeTargets(s, handles, list, q);
      }
    }
    if Acyclic(s) {
      SetAcyclic(s, list, c);
      if list !in items {
        SetCell(s, list, c);
      }
    }
  }

  lemma SameCellsUse(s: Store, t: Store, p: Ptr)
    requires SameCells(s, t) && p in s
    ensures p in t
  {
  }

  lemma SoundCounts(s: Store, handles: multiset<Ptr>)
    requires Sound(s, handles)
    ensures Counts(s, handles)
  {
  }

  lemma CanRetain(s: Store, handles: multiset<Ptr>, p: Ptr)
    requires Sound(s, handles) && p in s
    ensures p != NULL && Counts(s, handles) && s[p].rc > 0
  {
  }

  lemma Chained(s: Store, hs: multiset<Ptr>, t: Store, ht: multiset<Ptr>, u: Store)
    requires SameCells(s, t) && SameCells(t, u) && Sound(s, hs) && Sound(t, ht)
    ensures SameCells(s, u)
    ensures Acyclic(s) && Refines(s, t, {}) && Acyclic(t) && Refines(t, u, {}) ==> Refines(s, u, {})
  {
  }

  lemma FreshUnstored(s: Store, handles: multiset<Ptr>, p: Ptr)
    requires Counts(s, handles) && Settled(s) && p !in s
    ensures forall q :: q in s ==> !Edge(s, q, p)
  {
    EdgesInside(s, handles);
  }

  class Heap {
    var cells: Store
    var pool: map<Data, Ptr>
    ghost var handles: multiset<Ptr>
    /** The cells to which there were once 0xFFFF_FFFF references or more; only `Retain` adds to them. */
    ghost var crowded: set<Ptr>

    ghost predicate Valid()
      reads this
    {
      Sound(cells, handles) && PoolCells(cells, pool) && PoolFull(pool) && Marked(cells, pool, crowded)
    }

    /** The heap of a fresh process: only the singletons. */
    constructor ()
      ensures Valid() && Acyclic(cells) && handles == multiset{} && crowded == {}
    {
      cells, pool, handles, crowded := map[], map[], multiset{}, {};
      new;
      EmptyHeap();
      hide Sound, PoolCells, Acyclic, Refines, Marked;
      var nil := Pin(Nil);
      var unit := Pin(Unit);
      var no := Pin(Bool(false));
      var yes := Pin(Bool(true));
      for i := SMALL_INT_MIN to SMALL_INT_MAX + 1
        invariant Sound(cells, handles) && PoolCells(cells, pool) && Acyclic(cells) && handles == multiset{}
        invariant Marked(cells, pool, crowded) && crowded == {}
        invariant Nil in pool && Unit in pool && Bool(false) in pool && Bool(true) in pool
        invariant forall j :: Int(j) in pool <==> SMALL_INT_MIN <= j < i
      {
        var small := Pin(Int(i));
      }
    }

    /** Makes the immortal cell of a payload that owns nothing. */
    method Pin(d: Data) returns (p: Ptr)
      requires Sound(cells, handles) && PoolCells(cells, pool) && Marked(cells, pool, crowded) && Poolable(d) && d !in pool
      modifies `cells, `pool
      ensures p !in old(cells) && cells == old(cells)[p := Cell(IMMORTAL, d)] && pool == old(pool)[d := p]
      ensures Sound(cells, handles) && PoolCells(cells, pool) && Marked(cells, pool, crowded)
      ensures old(Acyclic(cells)) ==> Acyclic(cells) && Refines(old(cells), cells, {})
    {
      hide *;
      FreshPtr(cells);
      p :| p != NULL && p !in cells;
      PinSound(cells, handles, p, d);
      PinPool(cells, pool, p, d);
      PinMarked(cells, pool, crowded, p, d);
      cells := cells[p := Cell(IMMORTAL, d)];
      pool := pool[d := p];
    }

    /** One more reference. The count goes up by one and stays for ever at 0xFFFF_FFFF once it gets there.
        Null pointers are passed over. */
    method Retain(p: Ptr)
      requires p == NULL || (Counts(cells, handles) && p in cells && cells[p].rc > 0)
      modifies `cells, `handles, `crowded
      ensures p == NULL ==> cells == old(cells) && handles == old(handles) && crowded == old(crowded)
      ensures p != NULL ==> Counts(cells, handles) && handles == old(handles) + multiset{p}
      ensures p != NULL ==>
                && p in old(cells) && cells == old(cells)[p := cells[p]] && cells[p].data == old(cells)[p].data
                && cells[p].rc == (if old(cells)[p].rc < 0xFFFF_FFFE then old(cells)[p].rc + 1 else 0xFFFF_FFFF)
                && crowded == old(crowded) + if old((Refs(cells) + handles)[p]) + 1 >= 0xFFFF_FFFF then {p} else {}
      ensures p != NULL ==> cells == old(cells)[p := Bump(old(cells[p]))]
      ensures old(Valid()) ==> Valid() && SameCells(old(cells), cells)
      ensures old(Valid() && Acyclic(cells)) ==> Acyclic(cells) && Refines(old(cells), cells, {})
    {
      hide Counts, Sound, Settled, Shape, PoolCells, PoolFull, Marked, Refines, SameCells, Bump, Acyclic, Refs;
      if p == NULL {
        NothingDone(cells, handles);
        return;
      }
      RetainStep(cells, handles, p);
      RetainSound(cells, pool, handles, p);
      BumpCounts(cells, handles, p);
      if Marked(cells, pool, crowded) {
        RetainMarked(cells, pool, crowded, handles, p);
      }
      if (Refs(cells) + handles)[p] + 1 >= 0xFFFF_FFFF {
        crowded := crowded + {p};
      }
      cells := cells[p := Bump(cells[p])];
      handles := handles + multiset{p};
    }

    /** Gives back one handle. A count that would go below zero cannot occur. */
    method Release(p: Ptr)
      requires p == NULL || (Counts(cells, handles) && p in handles)
      modifies `cells, `handles
      ensures p == NULL ==> cells == old(cells) && handles == old(handles)
      ensures p != NULL ==> Counts(cells, handles) && handles == old(handles) - multiset{p}
      ensures Shrinks(old(cells), cells)
      ensures p != NULL ==> p in old(cells)
      ensures p != NULL && old(cells)[p].rc == 0xFFFF_FFFF ==> cells == old(cells)
      ensures p != NULL && old(cells)[p].rc == 1 ==> p !in cells
      ensures p != NULL && 1 < old(cells)[p].rc < 0xFFFF_FFFF ==>
                cells == old(cells)[p := Cell(old(cells)[p].rc - 1, old(cells)[p].data)]
      ensures old(Valid()) ==> Valid()
      ensures old(Valid() && Acyclic(cells)) ==> Acyclic(cells) && Refines(old(cells), cells, {})
      decreases Counted(cells), 0
    {
      hide Sound, Counts, Slots, Settled, Shape, PoolCells, PoolFull, Marked, Refines, Shrinks, Counted, Acyclic;
      if p == NULL {
        ShrinksReflexive(cells);
        NothingDone(cells, handles);
        return;
      }
      NotNull(cells, handles, p);
      PositiveCount(cells, handles, p);
      var current := cells[p].rc;
      if current == IMMORTAL {
        ImmortalStep(cells, handles, p);
        ShrinksReflexive(cells);
        ShrinkSound(cells, cells, pool, handles, handles - multiset{p});
        handles := handles - multiset{p};
        return;
      }
      if current == 1 {
        ReleaseLastStep(cells, handles, p);
        SoleHandle(cells, handles, p);
        ghost var slots := Slots(cells[p].data);
        ghost var rest := handles - multiset{p};
        cells := cells[p := cells[p].(rc := 0)];
        handles := rest + slots;
        CountedDrops(old(cells), p);
        FreeValue(p);
        LastShrinks(old(cells), p, cells);
        ShrinkSound(old(cells), cells, pool, old(handles), handles);
        ShrinkMarked(old(cells), cells, pool, crowded, old(handles), handles);
      } else if current == 0 {
        assert false; // double release
      } else {
        SharedShrinks(cells, p);
        ReleaseSharedStep(cells, handles, p);
        cells := cells[p := cells[p].(rc := current - 1)];
        handles := handles - multiset{p};
        ShrinkSound(old(cells), cells, pool, old(handles), handles);
        ShrinkMarked(old(cells), cells, pool, crowded, old(handles), handles);
      }
    }

    /** A reference that is taken and given back: the heap is as before, unless it was the one that made the
        cell immortal. */
    method Borrow(p: Ptr)
      requires Valid() && p in cells
      modifies `cells, `handles, `crowded
      ensures Valid() && handles == old(handles)
      ensures cells == old(cells) <==> old(cells)[p].rc != 0xFFFF_FFFE
    {
      hide Sound, Counts, Settled, Shape, PoolCells, PoolFull, Marked, Refines, Shrinks, SameCells, Bump, Acyclic;
      CanRetain(cells, handles, p);
      ghost var c := cells[p];
      CountBound(cells, handles, p);
      Retain(p);
      assert cells == old(cells) <==> cells[p].rc == c.rc;
      Release(p);
      assert old(cells)[p := c] == old(cells);
      assert handles == old(handles);
    }

    /** Gives back everything a dead cell owns, then the cell itself. */
    method FreeValue(p: Ptr)
      requires Counts(cells, handles) && p in cells && cells[p].rc == 0
      requires Slots(cells[p].data) <= handles
      modifies `cells, `handles
      ensures Counts(cells, handles) && handles == old(handles - Slots(cells[p].data))
      ensures p !in cells && Shrinks(old(cells) - {p}, cells)
      decreases Counted(cells), 2
    {
      hide *;
      var data := cells[p].data;
      SlotsOf(data);
      ghost var before, held := cells, handles;
      ShrinksReflexive(before);
      match data {
      case List(items, offset, parent) =>
        if parent.Some? {
          NotNull(cells, handles, parent.value);
          Release(parent.value);
        } else {
          ReleaseAll(From(items, offset));
        }
      case Map(entries) =>
        ReleaseValues(entries);
      case Variant(_, inner) =>
        NotNull(cells, handles, inner);
        Release(inner);
      case Closure(_, captures) =>
        ReleaseAll(captures);
      case PartialApp(_, captured, _) =>
        ReleaseAll(captured);
      case _ =>
        assert held - Slots(data) == held;
      }
      assert handles == held - Slots(data) && Shrinks(before, cells);
      StillDying(before, cells, p);
      DropStep(cells, handles, p);
      cells := cells - {p};
    }

    /** Takes one reference to every item; the loops of the clone paths. */
    method RetainAll(items: seq<Ptr>) returns (copy: seq<Ptr>)
      requires Valid() && Live(cells, items)
      modifies `cells, `handles, `crowded
      ensures copy == items
      ensures Valid() && handles == old(handles) + multiset(items) && SameCells(old(cells), cells)
      ensures old(Acyclic(cells)) ==> Acyclic(cells) && Refines(old(cells), cells, {})
    {
      hide Sound, Counts, Settled, Shape, PoolCells, PoolFull, Marked, Refines, SameCells, Bump, Acyclic;
      copy := [];
      NothingDone(cells, handles);
      for i := 0 to |items|
        invariant copy == items[..i]
        invariant Valid() && handles == old(handles) + multiset(items[..i]) && SameCells(old(cells), cells)
        invariant old(Acyclic(cells)) ==> Acyclic(cells) && Refines(old(cells), cells, {})
      {
        ghost var before, held := cells, handles;
        SameCellsUse(old(cells), cells, items[i]);
        CanRetain(cells, handles, items[i]);
        Retain(items[i]);
        Chained(old(cells), old(handles), before, held, cells);
        assert items[..i + 1] == items[..i] + [items[i]];
        copy := copy + [items[i]];
      }
      assert items[..|items|] == items;
    }

    /** A new cell with one reference; the references in its payload pass from the handles to it. */
    method Alloc(d: Data) returns (p: Ptr)
      requires Valid() && Slots(d) <= handles && ListShape(cells, d)
      modifies `cells, `handles
      ensures p != NULL && p !in old(cells) && cells == old(cells)[p := Cell(1, d)]
      ensures Valid() && handles == old(handles) - Slots(d) + multiset{p} && Grows(old(cells), cells)
      ensures old(Acyclic(cells)) ==> Acyclic(cells) && Refines(old(cells), cells, {})
    {
      hide Sound, Counts, Slots, Settled, Shape, PoolCells, PoolFull, Marked, Refines, Grows, Acyclic, ListShape;
      FreshPtr(cells);
      p :| p != NULL && p !in cells;
      AllocSound(cells, pool, handles, p, d);
      SetMarked(cells, pool, crowded, p, Cell(1, d));
      cells := cells[p := Cell(1, d)];
      handles := handles - Slots(d) + multiset{p};
    }

    method ReleaseAll(items: seq<Ptr>)
      requires Counts(cells, handles) && multiset(items) <= handles
      modifies `cells, `handles
      ensures Counts(cells, handles) && handles == old(handles) - multiset(items)
      ensures Shrinks(old(cells), cells)
      decreases Counted(cells), 1
    {
      hide *;
      ShrinksReflexive(cells);
      TakeEnds(handles, items);
      for i := 0 to |items|
        invariant Counts(cells, handles) && handles == Without(old(handles), items, i)
        invariant Shrinks(old(cells), cells)
      {
        ghost var before, held := cells, handles;
        TakeOne(old(handles), items, i);
        CountedShrinks(old(cells), before);
        NotNull(before, held, items[i]);
        Release(items[i]);
        ShrinksTransitive(old(cells), before, cells);
      }
    }

    method ReleaseValues(entries: map<string, Ptr>)
      requires Counts(cells, handles) && Sum(Singles(entries)) <= handles
      modifies `cells, `handles
      ensures Counts(cells, handles) && handles == old(handles) - Sum(Singles(entries))
      ensures Shrinks(old(cells), cells)
      decreases Counted(cells), 1
    {
      hide *;
      ShrinksReflexive(cells);
      var rest := entries;
      while rest.Keys != {}
        invariant Counts(cells, handles)
        invariant Sum(Singles(rest)) <= handles
        invariant handles - Sum(Singles(rest)) == old(handles) - Sum(Singles(entries))
        invariant Shrinks(old(cells), cells)
        decreases rest.Keys
      {
        var k :| k in rest.Keys;
        SlotsOfMap(rest, k);
        CountedShrinks(old(cells), cells);
        NotNull(cells, handles, rest[k]);
        ghost var before, held := cells, handles;
        Release(rest[k]);
        ShrinksTransitive(old(cells), before, cells);
        TakeValue(held, Sum(Singles(rest - {k})), rest[k]);
        rest := rest - {k};
      }
      assert rest == map[];
      NoSingles();
    }
  }
}
