/** The list operations: copy-on-write in place when the caller's handle is the only reference,
    cloning otherwise, and constant-time tail views. */
module Lists {
  import opened Wrappers
  import opened RtValues
  import opened RefCounts
  import opened Denotation
  import opened Reachability
  import opened RtHeap

  /** The guard of the in-place paths. */
  predicate Exclusive(c: Cell) {
    c.rc == 1 && c.data.List? && c.data.parent.None? && c.data.offset == 0
  }

  /** What a cell holds after an operation that returned it: one more reference and the result. */
  ghost predicate Yields(s: Store, t: Store, touched: set<Ptr>, r: Ptr, v: Value)
    requires Shape(s) && Acyclic(s)
  {
    Refines(s, t, touched) && r in t && Meaning(t, r) == v
  }

  method Head(h: Heap, list: Ptr) returns (r: Result<Ptr, string>)
    requires h.Valid() && list in h.cells
    modifies h`cells, h`handles, h`crowded
    ensures h.Valid()
    ensures r.Err? ==> h.cells == old(h.cells) && h.handles == old(h.handles)
    ensures r.Ok? ==> h.handles == old(h.handles) + multiset{r.value} && SameCells(old(h.cells), h.cells)
    ensures old(Acyclic(h.cells)) ==>
              var elems := ElemsOf(old(Meaning(h.cells, list)));
              if elems == [] then r.Err? else r.Ok? && Yields(old(h.cells), h.cells, {}, r.value, elems[0])
    ensures r.Err? ==> r.error == if old(h.cells)[list].data.List? then "airl_head: empty list" else "not a List"
  {
    if Acyclic(h.cells) {
      MeaningShape(h.cells, list);
    }
    var data := h.cells[list].data;
    if !data.List? {
      return Err("not a List");
    }
    var slice := Items(h.cells, data);
    if slice == [] {
      return Err("airl_head: empty list");
    }
    ItemsLive(h.cells, h.handles, list);
    h.Retain(slice[0]);
    return Ok(slice[0]);
  }

  /** A non-list denotes no list, a list the meanings of what it shows. */
  lemma MeaningShape(s: Store, p: Ptr)
    requires Shape(s) && Acyclic(s) && p in s
    ensures s[p].data.List? ==>
              && Live(s, Items(s, s[p].data))
              && Meaning(s, p) == VList(Meanings(s, Items(s, s[p].data)))
    ensures !s[p].data.List? ==> !Meaning(s, p).VList?
  {
    if s[p].data.List? {
      MeaningOfList(s, p);
    } else {
      var rank :| Ranked(s, rank);
      MeaningIs(s, rank, p);
    }
  }

  lemma ItemsLive(s: Store, handles: multiset<Ptr>, list: Ptr)
    requires Sound(s, handles) && list in s && s[list].data.List?
    ensures Live(s, Items(s, s[list].data))
    ensures s[list].data.parent.Some? ==> s[list].data.parent.value in s
  {
    EdgesInside(s, handles);
    var root := if s[list].data.parent.Some? then s[list].data.parent.value else list;
    forall q | q in Items(s, s[list].data)
      ensures q in s
    {
      assert q in s[root].data.items;
      assert Edge(s, root, q);
    }
  }

  /** A view of the root from one item further on; nothing is copied. */
  method Tail(h: Heap, list: Ptr) returns (r: Result<Ptr, string>)
    requires h.Valid() && list in h.cells
    modifies h`cells, h`handles, h`crowded
    ensures h.Valid()
    ensures r.Err? ==> h.cells == old(h.cells) && h.handles == old(h.handles)
    ensures r.Ok? ==>
              var data := old(h.cells[list].data);
              && data.List? && r.value !in old(h.cells) && r.value in h.cells
              && h.handles == old(h.handles) + multiset{r.value} && Grows(old(h.cells), h.cells)
              && h.cells[r.value].data ==
                 List([], data.offset + 1, Some(if data.parent.Some? then data.parent.value else list))
    ensures old(Acyclic(h.cells)) ==>
              var elems := ElemsOf(old(Meaning(h.cells, list)));
              if elems == [] then r.Err? else r.Ok? && Yields(old(h.cells), h.cells, {}, r.value, VList(elems[1..]))
    ensures r.Err? ==> r.error == if old(h.cells)[list].data.List? then "airl_tail: empty list" else "not a List"
  {
    hide Sound, Counts, Slots, Settled, Shape, PoolCells, PoolFull, Marked, Refines, SameCells, Grows, Yields, Acyclic, Live, Meanings, Bump;
    ListFacts(h.cells, h.handles, list);
    var data := h.cells[list].data;
    if !data.List? {
      return Err("not a List");
    }
    var slice := Items(h.cells, data);
    if slice == [] {
      return Err("airl_tail: empty list");
    }
    var root := if data.parent.Some? then data.parent.value else list;
    CanRetain(h.cells, h.handles, root);
    h.Retain(root);
    ghost var s := h.cells;
    ViewShape(old(h.cells), s, old(h.handles), list, root);
    var view := h.Alloc(List([], data.offset + 1, Some(root)));
    TailMeaning(old(h.cells), old(h.handles), s, old(h.handles) + multiset{root}, h.cells, h.handles, list, view);
    return Ok(view);
  }

  /** All there is to know about a list cell before an operation on it. */
  lemma ListFacts(s: Store, handles: multiset<Ptr>, list: Ptr)
    requires Sound(s, handles) && list in s
    ensures ListShape(s, s[list].data)
    ensures s[list].data.List? ==> Live(s, Items(s, s[list].data))
    ensures s[list].data.List? && s[list].data.parent.Some? ==> s[list].data.parent.value in s
    ensures Acyclic(s) ==>
              var elems := ElemsOf(Meaning(s, list));
              if s[list].data.List? then
                && Meaning(s, list) == VList(Meanings(s, Items(s, s[list].data)))
                && elems == Meanings(s, Items(s, s[list].data))
                && |elems| == |Items(s, s[list].data)|
              else elems == []
  {
    if s[list].data.List? {
      ItemsLive(s, handles, list);
    }
    if Acyclic(s) {
      MeaningShape(s, list);
    }
  }

  lemma ViewShape(s: Store, t: Store, handles: multiset<Ptr>, list: Ptr, root: Ptr)
    requires Sound(s, handles) && SameCells(s, t) && list in s && s[list].data.List? && Items(s, s[list].data) != []
    requires root == if s[list].data.parent.Some? then s[list].data.parent.value else list
    ensures var d := List([], s[list].data.offset + 1, Some(root));
            && ListShape(t, d) && Slots(d) <= handles + multiset{root}
            && handles + multiset{root} - Slots(d) == handles
  {
  }

  /** A view from one item further on, of the list or of the root that it shows. */
  function TailData(list: Ptr, d: Data): Data
    requires d.List?
  {
    List([], d.offset + 1, Some(if d.parent.Some? then d.parent.value else list))
  }

  lemma TailItems(s: Store, t: Store, u: Store, list: Ptr, view: Ptr)
    requires Shape(s) && Shape(u) && SameCells(s, t) && Grows(t, u)
    requires list in s && s[list].data.List? && Items(s, s[list].data) != []
    requires view in u && u[view].data == TailData(list, s[list].data)
    ensures Items(u, u[view].data) == Items(s, s[list].data)[1..] && Grows(s, u)
    ensures forall q :: q in s ==> q in t && q in u
  {
    hide Slots;
  }

  /** Where denotations agree, so do those of the last items. */
  lemma MeaningsTail(s: Store, u: Store, items: seq<Ptr>)
    requires Shape(s) && Acyclic(s) && Shape(u) && Acyclic(u) && items != []
    requires Live(s, items) && Live(u, items[1..]) && forall q :: q in s && q in u ==> Meaning(u, q) == Meaning(s, q)
    ensures Meanings(u, items[1..]) == Meanings(s, items)[1..]
  {
    hide Shape, Acyclic, Meaning;
    forall i | 0 <= i < |items[1..]|
      ensures Meaning(u, items[1..][i]) == Meaning(s, items[i + 1])
    {
      assert items[1..][i] == items[i + 1] && items[i + 1] in s;
    }
  }

  lemma TailMeaning(s: Store, before: multiset<Ptr>, t: Store, mid: multiset<Ptr>, u: Store, after: multiset<Ptr>,
                    list: Ptr, view: Ptr)
    requires Sound(s, before) && Sound(t, mid) && Sound(u, after) && SameCells(s, t) && Grows(t, u)
    requires list in s && s[list].data.List? && Items(s, s[list].data) != [] && view in u
    requires u[view].data == TailData(list, s[list].data)
    ensures Grows(s, u)
    ensures Acyclic(s) && Acyclic(t) && Refines(s, t, {}) && Acyclic(u) && Refines(t, u, {}) ==>
              Yields(s, u, {}, view, VList(ElemsOf(Meaning(s, list))[1..]))
  {
    TailItems(s, t, u, list, view);
    if Acyclic(s) && Acyclic(t) && Refines(s, t, {}) && Acyclic(u) && Refines(t, u, {}) {
      assert Shape(s) && Shape(t) && Shape(u);
      hide Sound, Counts, Settled, Shape, SameCells, Grows, Acyclic, Meaning, Items, Live;
      RefinesChain(s, t, u, {}, {});
      MeaningShape(s, list);
      MeaningOfList(u, view);
      MeaningsTail(s, u, Items(s, s[list].data));
    }
  }

  // ----- the two ways to build a list -----

  /** The cell of a list that owns these items. */
  ghost predicate Shows(s: Store, p: Ptr, items: seq<Ptr>) {
    p in s && s[p].data == List(items, 0, None)
  }

  /** A fresh root that takes one more reference to each of its items. */
  method NewList(h: Heap, items: seq<Ptr>) returns (p: Ptr)
    requires h.Valid() && Live(h.cells, items)
    modifies h`cells, h`handles, h`crowded
    ensures h.Valid() && h.handles == old(h.handles) + multiset{p}
    ensures p !in old(h.cells) && p in h.cells && Grows(old(h.cells), h.cells)
    ensures h.cells[p].data == List(items, 0, None)
    ensures old(Acyclic(h.cells)) ==>
              Acyclic(h.cells) && Yields(old(h.cells), h.cells, {}, p, VList(old(Meanings(h.cells, items))))
  {
    hide Sound, Counts, Slots, Settled, Shape, PoolCells, PoolFull, Marked, Refines, SameCells, Grows, Yields, Acyclic, Live, Meanings;
    var copy := h.RetainAll(items);
    ghost var s := h.cells;
    SlotsOf(List(copy, 0, None));
    RootShape(s, copy);
    Fits(old(h.handles), multiset(items));
    p := h.Alloc(List(copy, 0, None));
    NewListMeaning(old(h.cells), old(h.handles), s, old(h.handles) + multiset(items), h.cells, h.handles, p, items);
  }

  lemma Fits(handles: multiset<Ptr>, more: multiset<Ptr>)
    ensures more <= handles + more && handles + more - more == handles
  {
  }

  lemma RootShape(s: Store, items: seq<Ptr>)
    ensures ListShape(s, List(items, 0, None))
  {
  }

  lemma NewListMeaning(s: Store, before: multiset<Ptr>, t: Store, mid: multiset<Ptr>, u: Store, after: multiset<Ptr>,
                       p: Ptr, items: seq<Ptr>)
    requires Sound(s, before) && Sound(t, mid) && Sound(u, after) && SameCells(s, t) && Grows(t, u) && Live(s, items)
    requires p !in t && p in u && u[p].data == List(items, 0, None)
    ensures Grows(s, u) && p !in s
    ensures Acyclic(s) && Acyclic(t) && Refines(s, t, {}) && Acyclic(u) && Refines(t, u, {}) ==>
              Yields(s, u, {}, p, VList(Meanings(s, items)))
  {
    if Acyclic(s) && Acyclic(t) && Refines(s, t, {}) && Acyclic(u) && Refines(t, u, {}) {
      RefinesChain(s, t, u, {}, {});
      ListMeansItems(s, u, {}, p, items);
    }
  }

  /** A list cell of the new heap whose items are untouched old cells denotes what they denoted. */
  lemma ListMeansItems(s: Store, u: Store, touched: set<Ptr>, p: Ptr, items: seq<Ptr>)
    requires Shape(s) && Acyclic(s) && Live(s, items) && Refines(s, u, touched)
    requires p in u && u[p].data == List(items, 0, None) && forall q :: q in items ==> q !in touched
    ensures Yields(s, u, touched, p, VList(Meanings(s, items)))
  {
    MeaningOfList(u, p);
    forall i | 0 <= i < |items|
      ensures Meaning(u, items[i]) == Meaning(s, items[i])
    {
      assert items[i] in items;
    }
    assert Meanings(u, items) == Meanings(s, items);
  }

  ghost function Owed(dropped: Option<Ptr>): multiset<Ptr> {
    if dropped.Some? then multiset{dropped.value} else multiset{}
  }

  lemma ShrinksData(s: Store, t: Store, p: Ptr)
    requires Shrinks(s, t) && p in t
    ensures p in s && t[p].data == s[p].data
  {
  }

  lemma BumpData(c: Cell)
    ensures Bump(c).data == c.data
  {
  }

  /** The in-place path: the caller's list takes the new items and gives up `dropped`. */
  method Replace(h: Heap, list: Ptr, elem: Ptr, items: seq<Ptr>, dropped: Option<Ptr>)
    requires h.Valid() && elem in h.cells && list in h.handles && list in h.cells && Exclusive(h.cells[list])
    requires Live(h.cells, items)
    requires multiset(h.cells[list].data.items) + multiset{elem} == multiset(items) + Owed(dropped)
    modifies h`cells, h`handles, h`crowded
    ensures h.Valid() && h.handles == old(h.handles) + multiset{list}
    ensures list in h.cells && h.cells[list].data == List(items, 0, None)
    ensures old(Acyclic(h.cells)) ==> (Acyclic(h.cells) <==> list !in items)
    ensures old(Acyclic(h.cells)) && list !in items ==>
              Yields(old(h.cells), h.cells, {list}, list, VList(old(Meanings(h.cells, items))))
  {
    hide Sound, Counts, Slots, Settled, Shape, PoolCells, PoolFull, Marked, Refines, SameCells, Grows, Yields, Acyclic, Live, Meanings, Bump, Shrinks;
    Overwrite(h, list, elem, items, dropped);
    ghost var u, held := h.cells, h.handles;
    SoundCounts(u, held);
    if dropped.Some? {
      NotNull(h.cells, h.handles, dropped.value);
      h.Release(dropped.value);
      assert h.handles == old(h.handles);
    } else {
      ShrinksReflexive(u);
      NothingDone(u, held);
      assert h.handles == old(h.handles);
    }
    ghost var w := h.cells;
    NotNull(h.cells, h.handles, list);
    CanRetain(h.cells, h.handles, list);
    ShrinksData(u, w, list);
    h.Retain(list);
    BumpData(w[list]);
    ReplaceMeaning(old(h.cells), old(h.handles), u, held, w, old(h.handles), h.cells, h.handles, list, items);
  }

  /** Takes the reference to the new element and writes the items; nothing is given back yet. */
  method Overwrite(h: Heap, list: Ptr, elem: Ptr, items: seq<Ptr>, ghost dropped: Option<Ptr>)
    requires h.Valid() && elem in h.cells && list in h.handles && list in h.cells && Exclusive(h.cells[list])
    requires multiset(h.cells[list].data.items) + multiset{elem} == multiset(items) + Owed(dropped)
    modifies h`cells, h`handles, h`crowded
    ensures h.Valid() && h.handles == old(h.handles) + Owed(dropped)
    ensures h.cells.Keys == old(h.cells.Keys) && h.cells[list].data == List(items, 0, None)
    ensures old(Acyclic(h.cells)) ==> (Acyclic(h.cells) <==> list !in items)
    ensures old(Acyclic(h.cells)) && list !in items ==> Refines(old(h.cells), h.cells, {list})
  {
    hide Sound, Counts, Slots, Settled, Shape, PoolCells, PoolFull, Marked, Refines, SameCells, Grows, Yields, Acyclic, Live, Meanings, Bump, Shrinks, Owed;
    ghost var s, held := h.cells, h.handles;
    ExclusiveFacts(s, held, list, elem);
    h.Retain(elem);
    ghost var t := h.cells;
    RetainedFacts(s, t, list, elem);
    Balance(held, multiset(s[list].data.items), multiset(items), elem, dropped);
    InPlaceSound(t, h.pool, h.handles, list, items);
    SetMarked(t, h.pool, h.crowded, list, t[list].(data := List(items, 0, None)));
    OverwriteRefines(s, held, t, t[list := t[list].(data := List(items, 0, None))], list);
    h.cells := h.cells[list := h.cells[list].(data := List(items, 0, None))];
    h.handles := held + Owed(dropped);
  }

  lemma OverwriteRefines(s: Store, handles: multiset<Ptr>, t: Store, u: Store, list: Ptr)
    requires Sound(s, handles) && SameCells(s, t)
    ensures Acyclic(s) && Refines(s, t, {}) && Shape(t) && Acyclic(t) && Refines(t, u, {list}) ==> Refines(s, u, {list})
    ensures t.Keys == s.Keys
    ensures Acyclic(s) && Refines(s, t, {}) ==> Shape(t)
  {
    if Acyclic(s) && Refines(s, t, {}) && Shape(t) && Acyclic(t) && Refines(t, u, {list}) {
      RefinesChain(s, t, u, {}, {list});
      assert {} + {list} == {list};
    }
  }

  lemma ExclusiveFacts(s: Store, handles: multiset<Ptr>, list: Ptr, elem: Ptr)
    requires Sound(s, handles) && list in handles && list in s && Exclusive(s[list]) && elem in s
    ensures elem != NULL && Counts(s, handles) && s[elem].rc > 0
    ensures list !in Refs(s) && Slots(s[list].data) == multiset(s[list].data.items)
  {
    SoleHandle(s, handles, list);
    assert s[list].data.items[0..] == s[list].data.items;
  }

  lemma RetainedFacts(s: Store, t: Store, list: Ptr, elem: Ptr)
    requires elem in s && s[elem].rc > 0 && t == s[elem := Bump(s[elem])]
    requires list in s && s[list].rc == 1 && list !in Refs(s)
    ensures list in t && list !in Refs(t) && t[list].data == s[list].data && t[list].rc != IMMORTAL
  {
    RefsUpdate(s, elem, Bump(s[elem]));
    Cancel(Refs(t), Refs(s), CellSlots(s[elem]));
  }

  lemma Balance(held: multiset<Ptr>, before: multiset<Ptr>, after: multiset<Ptr>, elem: Ptr, dropped: Option<Ptr>)
    requires before + multiset{elem} == after + Owed(dropped)
    ensures after <= held + multiset{elem} + before
    ensures held + multiset{elem} + before - after == held + Owed(dropped)
  {
    forall x: Ptr
      ensures before[x] + multiset{elem}[x] == after[x] + Owed(dropped)[x]
    {
      assert (before + multiset{elem})[x] == (after + Owed(dropped))[x];
    }
  }

  lemma HoldsItself(s: Store, list: Ptr, items: seq<Ptr>)
    requires list in s && s[list].data == List(items, 0, None) && list in items
    ensures !Acyclic(s)
  {
    assert items[0..] == items;
    assert Edge(s, list, list);
  }

  lemma ReplaceMeaning(s: Store, before: multiset<Ptr>, u: Store, held: multiset<Ptr>, w: Store, mid: multiset<Ptr>,
                       x: Store, after: multiset<Ptr>, list: Ptr, items: seq<Ptr>)
    requires Sound(s, before) && Sound(u, held) && Sound(w, mid) && Sound(x, after) && Live(s, items)
    requires u.Keys == s.Keys && list in u && u[list].data == List(items, 0, None)
    requires Shrinks(u, w) && list in w && SameCells(w, x)
    requires Acyclic(s) ==> (Acyclic(u) <==> list !in items)
    requires Acyclic(s) && list !in items ==> Refines(s, u, {list})
    requires Acyclic(u) ==> Acyclic(w) && Refines(u, w, {})
    requires Acyclic(w) ==> Acyclic(x) && Refines(w, x, {})
    ensures Acyclic(s) ==> (Acyclic(x) <==> list !in items)
    ensures Acyclic(s) && list !in items ==> Yields(s, x, {list}, list, VList(Meanings(s, items)))
  {
    assert x[list].data == List(items, 0, None);
    if list in items {
      HoldsItself(x, list, items);
    } else if Acyclic(s) {
      assert Shape(s) && Shape(u) && Shape(w) && Shape(x) && w.Keys == x.Keys;
      hide Refines, Meaning, Acyclic, Sound, Counts, Settled, Shape, SameCells, Grows, Shrinks;
      RefinesChain(s, u, w, {list}, {});
      RefinesChain(s, w, x, {list} + {}, {});
      assert {list} + {} + {} == {list};
      ListMeansItems(s, x, {list}, list, items);
    }
  }

  /** The items of the result, one more than those of the list, are live and mean what they meant. */
  lemma InsertFacts(s: Store, list: Ptr, elem: Ptr, items: seq<Ptr>)
    requires Shape(s) && elem in s && list in s && s[list].data.List? && Live(s, Items(s, s[list].data))
    requires items == [elem] + Items(s, s[list].data) || items == Items(s, s[list].data) + [elem]
    ensures Live(s, items) && multiset(items) == multiset(Items(s, s[list].data)) + multiset{elem}
    ensures Acyclic(s) && Exclusive(s[list]) ==> (list in items <==> elem == list)
    ensures Acyclic(s) ==> InsertMeans(s, list, elem, items)
  {
    hide Acyclic, Meaning;
    InsertLive(s, list, elem, items);
    if Acyclic(s) {
      if Exclusive(s[list]) {
        NotOwnItem(s, list);
      }
      MeaningShape(s, list);
      MeaningsAppend(s, [elem], Items(s, s[list].data));
      MeaningsAppend(s, Items(s, s[list].data), [elem]);
      assert Meanings(s, [elem]) == [Meaning(s, elem)];
    }
  }

  ghost predicate InsertMeans(s: Store, list: Ptr, elem: Ptr, items: seq<Ptr>)
    requires Shape(s) && Acyclic(s) && elem in s && list in s && s[list].data.List? && Live(s, items)
  {
    && (items == [elem] + Items(s, s[list].data) ==>
          Meanings(s, items) == [Meaning(s, elem)] + ElemsOf(Meaning(s, list)))
    && (items == Items(s, s[list].data) + [elem] ==>
          Meanings(s, items) == ElemsOf(Meaning(s, list)) + [Meaning(s, elem)])
  }

  lemma InsertLive(s: Store, list: Ptr, elem: Ptr, items: seq<Ptr>)
    requires Shape(s) && elem in s && list in s && s[list].data.List? && Live(s, Items(s, s[list].data))
    requires items == [elem] + Items(s, s[list].data) || items == Items(s, s[list].data) + [elem]
    ensures Live(s, items) && multiset(items) == multiset(Items(s, s[list].data)) + multiset{elem}
    ensures list in items <==> elem == list || list in Items(s, s[list].data)
    ensures Live(s, [elem])
  {
  }

  lemma MeaningsAppend(s: Store, xs: seq<Ptr>, ys: seq<Ptr>)
    requires Shape(s) && Acyclic(s) && Live(s, xs) && Live(s, ys)
    ensures Live(s, xs + ys) && Meanings(s, xs + ys) == Meanings(s, xs) + Meanings(s, ys)
  {
    hide Meaning, Shape, Acyclic;
  }

  lemma NotOwnItem(s: Store, list: Ptr)
    requires Shape(s) && Acyclic(s) && list in s && Exclusive(s[list])
    ensures list !in Items(s, s[list].data)
  {
    var rank :| Ranked(s, rank);
    assert s[list].data.items[0..] == s[list].data.items;
    assert !Edge(s, list, list);
  }

  /** In place on a solely held root, otherwise a copy with the element in front. The heap turns
      cyclic exactly when a solely held list is consed onto itself. */
  method Cons(h: Heap, elem: Ptr, list: Ptr) returns (r: Result<Ptr, string>)
    requires h.Valid() && elem in h.cells && list in h.handles
    modifies h`cells, h`handles, h`crowded
    ensures h.Valid()
    ensures r.Ok? <==> list in old(h.cells) && old(h.cells)[list].data.List?
    ensures r.Err? ==> h.cells == old(h.cells) && h.handles == old(h.handles)
    ensures r.Ok? ==>
              var touched := if Exclusive(old(h.cells)[list]) then {list} else {};
              && h.handles == old(h.handles) + multiset{r.value}
              && (r.value == list <==> Exclusive(old(h.cells)[list]))
              && (Exclusive(old(h.cells)[list]) ==>
                    list in h.cells && h.cells[list].data == List([elem] + old(h.cells)[list].data.items, 0, None))
              && (old(Acyclic(h.cells)) ==> (Acyclic(h.cells) <==> !(elem == list && Exclusive(old(h.cells)[list]))))
              && (old(Acyclic(h.cells)) && Acyclic(h.cells) ==>
                    Yields(old(h.cells), h.cells, touched, r.value,
                      VList([old(Meaning(h.cells, elem))] + ElemsOf(old(Meaning(h.cells, list))))))
    ensures r.Err? ==> r.error == "not a List"
    ensures r.Ok? && old(h.cells)[list].data.List? ==>
              (r.value == list <==> old(h.cells)[list].rc == 1 && old(h.cells)[list].data.parent.None? && old(h.cells)[list].data.offset == 0)
  {
    NotNull(h.cells, h.handles, list);
    var c := h.cells[list];
    if Exclusive(c) {
      var items := [elem] + c.data.items;
      ItemsLive(h.cells, h.handles, list);
      InsertFacts(h.cells, list, elem, items);
      Replace(h, list, elem, items, None);
      return Ok(list);
    }
    if !c.data.List? {
      return Err("not a List");
    }
    var slice := Items(h.cells, c.data);
    ItemsLive(h.cells, h.handles, list);
    InsertFacts(h.cells, list, elem, [elem] + slice);
    var copy := NewList(h, [elem] + slice);
    return Ok(copy);
  }

  /** In place on a solely held root, otherwise a copy with the element at the end; bytes likewise. */
  method Append(h: Heap, list: Ptr, elem: Ptr) returns (r: Result<Ptr, string>)
    requires h.Valid() && elem in h.cells && list in h.handles
    modifies h`cells, h`handles, h`crowded
    ensures h.Valid()
    ensures list in old(h.cells)
    ensures r.Ok? <==> (old(h.cells)[list].data.List? ||
                        (old(h.cells)[list].data.Bytes? && old(h.cells[elem]).data.Int?))
    ensures r.Err? ==> h.cells == old(h.cells) && h.handles == old(h.handles)
    ensures r.Ok? ==> h.handles == old(h.handles) + multiset{r.value}
    ensures r.Ok? && old(h.cells)[list].data.List? ==>
              var touched := if Exclusive(old(h.cells)[list]) then {list} else {};
              && (r.value == list <==> Exclusive(old(h.cells)[list]))
              && (old(Acyclic(h.cells)) ==> (Acyclic(h.cells) <==> !(elem == list && Exclusive(old(h.cells)[list]))))
              && (old(Acyclic(h.cells)) && Acyclic(h.cells) ==>
                    Yields(old(h.cells), h.cells, touched, r.value,
                      VList(ElemsOf(old(Meaning(h.cells, list))) + [old(Meaning(h.cells, elem))])))
    ensures r.Ok? && old(h.cells)[list].data.Bytes? ==>
              var touched := if old(h.cells)[list].rc == 1 then {list} else {};
              old(Acyclic(h.cells)) ==>
                Yields(old(h.cells), h.cells, touched, r.value,
                  VBytes(old(h.cells)[list].data.bytes + [old(h.cells[elem]).data.i % 256]))
    ensures r.Err? ==>
              r.error == if old(h.cells)[list].data.Bytes? then "airl_append: Bytes can only append Int" else "airl_append: not a List or Bytes"
    ensures r.Ok? && old(h.cells)[list].data.List? ==>
              (r.value == list <==> old(h.cells)[list].rc == 1 && old(h.cells)[list].data.parent.None? && old(h.cells)[list].data.offset == 0)
  {
    NotNull(h.cells, h.handles, list);
    var c := h.cells[list];
    if Exclusive(c) {
      var items := c.data.items + [elem];
      ItemsLive(h.cells, h.handles, list);
      InsertFacts(h.cells, list, elem, items);
      Replace(h, list, elem, items, None);
      return Ok(list);
    }
    match c.data
    case List(_, _, _) =>
      var slice := Items(h.cells, c.data);
      ItemsLive(h.cells, h.handles, list);
      InsertFacts(h.cells, list, elem, slice + [elem]);
      var copy := NewList(h, slice + [elem]);
      return Ok(copy);
    case Bytes(bytes) =>
      if !h.cells[elem].data.Int? {
        return Err("airl_append: Bytes can only append Int");
      }
      var longer := Bytes(bytes + [h.cells[elem].data.i % 256]);
      var p := PutBytes(h, list, longer);
      return Ok(p);
    case _ =>
      return Err("airl_append: not a List or Bytes");
  }

  lemma BytesInPlace(s: Store, pool: map<Data, Ptr>, handles: multiset<Ptr>, p: Ptr, d: Data)
    requires Sound(s, handles) && PoolCells(s, pool) && p in handles && p in s && s[p].rc == 1
    requires s[p].data.Bytes? && d.Bytes?
    ensures var t := s[p := s[p].(data := d)];
            && Sound(t, handles) && PoolCells(t, pool)
            && (Acyclic(s) ==> Acyclic(t) && Refines(s, t, {p}))
  {
    SoleHandle(s, handles, p);
    NotStored(s, p);
    SetShape(s, p, s[p].(data := d));
    MutateStep(s, handles, p, d);
    assert handles + multiset{} - multiset{} == handles;
    if Acyclic(s) {
      SetCell(s, p, s[p].(data := d));
    }
  }

  lemma NoSlots(s: Store, handles: multiset<Ptr>, d: Data)
    requires d.Bytes?
    ensures Slots(d) == multiset{} && ListShape(s, d) && handles - Slots(d) == handles
  {
  }

  lemma MeaningOfBytes(s: Store, p: Ptr)
    requires Shape(s) && Acyclic(s) && p in s && s[p].data.Bytes?
    ensures Meaning(s, p) == VBytes(s[p].data.bytes)
  {
    var rank :| Ranked(s, rank);
    MeaningIs(s, rank, p);
  }

  lemma BytesMeaning(s: Store, before: multiset<Ptr>, t: Store, mid: multiset<Ptr>, u: Store, after: multiset<Ptr>,
                     touched: set<Ptr>, p: Ptr, d: Data)
    requires Sound(s, before) && Sound(t, mid) && Sound(u, after) && SameCells(t, u) && s.Keys <= t.Keys
    requires p in t && t[p].data == d && d.Bytes?
    ensures Acyclic(s) && Refines(s, t, touched) && Acyclic(u) && Refines(t, u, {}) ==>
              Yields(s, u, touched, p, VBytes(d.bytes))
  {
    SameCellsData(t, u, p);
    SoundShape(s, before);
    SoundShape(t, mid);
    SoundShape(u, after);
    hide Meaning, Shape, Acyclic, Sound, SameCells, Refines;
    if Acyclic(s) && Refines(s, t, touched) && Acyclic(u) && Refines(t, u, {}) {
      RefinesChain(s, t, u, touched, {});
      assert touched + {} == touched;
      MeaningOfBytes(u, p);
    }
  }

  lemma SoundShape(s: Store, handles: multiset<Ptr>)
    requires Sound(s, handles)
    ensures Shape(s)
  {
    hide Counts, Settled, Shape;
  }

  lemma SameCellsData(s: Store, t: Store, p: Ptr)
    requires SameCells(s, t) && p in s
    ensures s.Keys == t.Keys && p in t && t[p].data == s[p].data
  {
  }

  /** Bytes hold no references, so only the payload changes. */
  method PutBytes(h: Heap, list: Ptr, d: Data) returns (p: Ptr)
    requires h.Valid() && list in h.handles && list in h.cells && h.cells[list].data.Bytes? && d.Bytes?
    modifies h`cells, h`handles, h`crowded
    ensures h.Valid() && h.handles == old(h.handles) + multiset{p}
    ensures old(Acyclic(h.cells)) ==>
              Yields(old(h.cells), h.cells, if old(h.cells)[list].rc == 1 then {list} else {}, p, VBytes(d.bytes))
  {
    hide Sound, Counts, Slots, Settled, Shape, PoolCells, PoolFull, Marked, Refines, SameCells, Grows, Yields, Acyclic, Live, Meanings;
    if h.cells[list].rc == 1 {
      BytesInPlace(h.cells, h.pool, h.handles, list, d);
      SetMarked(h.cells, h.pool, h.crowded, list, h.cells[list].(data := d));
      h.cells := h.cells[list := h.cells[list].(data := d)];
      CanRetain(h.cells, h.handles, list);
      ghost var t := h.cells;
      h.Retain(list);
      BytesMeaning(old(h.cells), old(h.handles), t, old(h.handles), h.cells, h.handles, {list}, list, d);
      return list;
    } else {
      NoSlots(h.cells, h.handles, d);
      p := h.Alloc(d);
      NothingDone(h.cells, h.handles);
      BytesMeaning(old(h.cells), old(h.handles), h.cells, h.handles, h.cells, h.handles, {}, p, d);
    }
  }

  method ListNew(h: Heap, items: seq<Ptr>) returns (p: Ptr)
    requires h.Valid() && Live(h.cells, items)
    modifies h`cells, h`handles, h`crowded
    ensures h.Valid() && h.handles == old(h.handles) + multiset{p} && p !in old(h.cells)
    ensures Shows(h.cells, p, items)
    ensures old(Acyclic(h.cells)) ==>
              Acyclic(h.cells) && Yields(old(h.cells), h.cells, {}, p, VList(old(Meanings(h.cells, items))))
  {
    p := NewList(h, items);
  }

  /** Hands out one more reference to a live cell. */
  method Share(h: Heap, p: Ptr)
    requires h.Valid() && p in h.cells
    modifies h`cells, h`handles, h`crowded
    ensures h.Valid() && h.handles == old(h.handles) + multiset{p} && SameCells(old(h.cells), h.cells)
    ensures old(Acyclic(h.cells)) ==>
              Acyclic(h.cells) && Yields(old(h.cells), h.cells, {}, p, old(Meaning(h.cells, p)))
  {
    CanRetain(h.cells, h.handles, p);
    h.Retain(p);
  }

  /** Out of bounds on either side gives the default. */
  method AtOr(h: Heap, list: Ptr, idx: Ptr, default: Ptr) returns (r: Result<Ptr, string>)
    requires h.Valid() && list in h.cells && idx in h.cells && default in h.cells
    modifies h`cells, h`handles, h`crowded
    ensures h.Valid()
    ensures r.Ok? <==> old(h.cells[idx]).data.Int? && (old(h.cells[idx]).data.i < 0 || old(h.cells[list]).data.List?)
    ensures r.Err? ==> h.cells == old(h.cells) && h.handles == old(h.handles)
    ensures r.Ok? ==> h.handles == old(h.handles) + multiset{r.value} && SameCells(old(h.cells), h.cells)
    ensures r.Ok? && old(Acyclic(h.cells)) ==>
              var i, elems := old(h.cells[idx]).data.i, ElemsOf(old(Meaning(h.cells, list)));
              Acyclic(h.cells) && Yields(old(h.cells), h.cells, {}, r.value,
                if 0 <= i < |elems| then elems[i] else old(Meaning(h.cells, default)))
    ensures r.Err? ==>
              r.error == if !old(h.cells)[idx].data.Int? then "at-or: index must be Int" else "at-or: first argument must be List"
  {
    hide Sound, Counts, Slots, Settled, Shape, PoolCells, PoolFull, Marked, Refines, SameCells, Grows, Yields, Acyclic, Live, Bump;
    ListFacts(h.cells, h.handles, list);
    if !h.cells[idx].data.Int? {
      return Err("at-or: index must be Int");
    }
    var i := h.cells[idx].data.i;
    if i < 0 {
      Share(h, default);
      return Ok(default);
    }
    if !h.cells[list].data.List? {
      return Err("at-or: first argument must be List");
    }
    var slice := Items(h.cells, h.cells[list].data);
    if i >= |slice| {
      Share(h, default);
      return Ok(default);
    } else {
      LiveItem(h.cells, slice, i);
      Share(h, slice[i]);
      return Ok(slice[i]);
    }
  }

  lemma LiveItem(s: Store, items: seq<Ptr>, i: nat)
    requires Live(s, items) && i < |items|
    ensures items[i] in s
  {
  }

  /** In place on a solely held root, giving back the element that was there; otherwise a copy. */
  method SetAt(h: Heap, list: Ptr, idx: Ptr, val: Ptr) returns (r: Result<Ptr, string>)
    requires h.Valid() && idx in h.cells && val in h.cells && list in h.handles
    modifies h`cells, h`handles, h`crowded
    ensures h.Valid() && list in old(h.cells)
    ensures r.Ok? <==> old(
              && h.cells[idx].data.Int? && h.cells[list].data.List?
              && 0 <= h.cells[idx].data.i < |Items(h.cells, h.cells[list].data)|)
    ensures r.Err? ==> h.cells == old(h.cells) && h.handles == old(h.handles)
    ensures r.Ok? ==>
              var touched := if Exclusive(old(h.cells)[list]) then {list} else {};
              && h.handles == old(h.handles) + multiset{r.value}
              && (r.value == list <==> Exclusive(old(h.cells)[list]))
              && (old(Acyclic(h.cells)) ==> (Acyclic(h.cells) <==> !(val == list && Exclusive(old(h.cells)[list]))))
              && (old(Acyclic(h.cells)) && Acyclic(h.cells) ==>
                    Yields(old(h.cells), h.cells, touched, r.value,
                      VList(Updated(ElemsOf(old(Meaning(h.cells, list))), old(h.cells[idx]).data.i, old(Meaning(h.cells, val))))))
    ensures r.Err? ==>
              r.error == if !old(h.cells)[idx].data.Int? then "set-at: index must be Int"
              else if old(h.cells)[idx].data.i < 0 then "set-at: index is negative"
              else if !old(h.cells)[list].data.List? then "set-at: first argument must be List" else "set-at: index out of bounds"
    ensures r.Ok? && old(h.cells)[list].data.List? ==>
              (r.value == list <==> old(h.cells)[list].rc == 1 && old(h.cells)[list].data.parent.None? && old(h.cells)[list].data.offset == 0)
  {
    hide Sound, Counts, Slots, Settled, Shape, PoolCells, PoolFull, Marked, Refines, SameCells, Grows, Yields, Acyclic, Live, Bump, Meanings;
    SoundCounts(h.cells, h.handles);
    NotNull(h.cells, h.handles, list);
    ListFacts(h.cells, h.handles, list);
    if !h.cells[idx].data.Int? {
      return Err("set-at: index must be Int");
    }
    var i := h.cells[idx].data.i;
    if i < 0 {
      return Err("set-at: index is negative");
    }
    if !h.cells[list].data.List? {
      return Err("set-at: first argument must be List");
    }
    var slice := Items(h.cells, h.cells[list].data);
    if i >= |slice| {
      return Err("set-at: index out of bounds");
    }
    UpdateFacts(h.cells, h.handles, list, val, i);
    if Exclusive(h.cells[list]) {
      Replace(h, list, val, slice[i := val], Some(slice[i]));
      return Ok(list);
    }
    var copy := NewList(h, slice[i := val]);
    return Ok(copy);
  }

  /** Replaces the element at an index that is in range. */
  ghost function Updated(vs: seq<Value>, i: int, v: Value): seq<Value> {
    if 0 <= i < |vs| then vs[i := v] else vs
  }

  lemma UpdateFacts(s: Store, handles: multiset<Ptr>, list: Ptr, val: Ptr, i: nat)
    requires Sound(s, handles) && val in s && list in s && s[list].data.List? && i < |Items(s, s[list].data)|
    ensures var slice := Items(s, s[list].data);
            && Live(s, slice[i := val])
            && (Exclusive(s[list]) ==>
                  && slice == s[list].data.items
                  && multiset(slice) + multiset{val} == multiset(slice[i := val]) + multiset{slice[i]})
            && (Acyclic(s) && Exclusive(s[list]) ==> (list in slice[i := val] <==> val == list))
            && (Acyclic(s) ==>
                  Meanings(s, slice[i := val]) == Updated(ElemsOf(Meaning(s, list)), i, Meaning(s, val)))
  {
    var slice := Items(s, s[list].data);
    ItemsLive(s, handles, list);
    UpdateItems(slice, i, val);
    UpdateLive(s, slice, i, val);
    if Acyclic(s) {
      UpdateMeanings(s, list, val, i);
      if Exclusive(s[list]) {
        NotOwnItem(s, list);
      }
    }
    hide Acyclic, Meaning, Meanings, Updated, ElemsOf, Counts, Settled, Live, Slots;
  }

  /** One item is exchanged, as multisets and as members. */
  lemma UpdateItems(slice: seq<Ptr>, i: nat, val: Ptr)
    requires i < |slice|
    ensures multiset(slice) + multiset{val} == multiset(slice[i := val]) + multiset{slice[i]}
    ensures val in slice[i := val] && forall x :: x !in slice ==> (x in slice[i := val] <==> x == val)
  {
    assert slice == slice[..i] + [slice[i]] + slice[i + 1..];
    assert slice[i := val] == slice[..i] + [val] + slice[i + 1..];
    assert slice[i := val][i] == val;
  }

  lemma UpdateLive(s: Store, slice: seq<Ptr>, i: nat, val: Ptr)
    requires Live(s, slice) && val in s && i < |slice|
    ensures Live(s, slice[i := val])
  {
  }

  lemma UpdateMeanings(s: Store, list: Ptr, val: Ptr, i: nat)
    requires Shape(s) && Acyclic(s) && val in s && list in s && s[list].data.List?
    requires i < |Items(s, s[list].data)| && Live(s, Items(s, s[list].data))
    ensures Live(s, Items(s, s[list].data)[i := val])
    ensures Meanings(s, Items(s, s[list].data)[i := val]) == Updated(ElemsOf(Meaning(s, list)), i, Meaning(s, val))
  {
    MeaningShape(s, list);
    hide Acyclic, Meaning, Shape;
  }

  // ----- views and mutation -----

  /** A view denotes its root without the first `offset` elements, however many tails led to it. */
  lemma ViewIsDrop(s: Store, view: Ptr)
    requires Shape(s) && Acyclic(s) && view in s && s[view].data.List? && s[view].data.parent.Some?
    ensures s[view].data.parent.value in s && s[s[view].data.parent.value].data.parent.None?
    ensures s[view].data.offset <= |ElemsOf(Meaning(s, s[view].data.parent.value))|
    ensures Meaning(s, view) == VList(ElemsOf(Meaning(s, s[view].data.parent.value))[s[view].data.offset..])
  {
    var root := s[view].data.parent.value;
    MeaningOfList(s, view);
    MeaningOfList(s, root);
    hide Meaning, Acyclic;
    assert Meanings(s, Items(s, s[view].data)) == Meanings(s, Items(s, s[root].data))[s[view].data.offset..];
  }

  /** While a view of a list lives, a caller with a handle of its own sees a count above one, so no
      operation takes the in-place path. */
  lemma ViewBlocksMutation(s: Store, handles: multiset<Ptr>, root: Ptr, view: Ptr)
    requires Sound(s, handles) && root in handles && root in s && view in s
    requires s[view].data.List? && s[view].data.parent == Some(root)
    ensures !Exclusive(s[root])
  {
    RefsContain(s, view);
    assert (Refs(s) + handles)[root] == Refs(s)[root] + handles[root];
  }

  /** A list that was consed onto itself in place is among its own items. Whatever is released
      afterwards, the cell stays as it is; and once only it refers to itself, nothing reaches it. */
  lemma SelfConsLeaks(s: Store, handles: multiset<Ptr>, list: Ptr, t: Store, after: multiset<Ptr>)
    requires Sound(s, handles) && list in s && s[list].data.List? && s[list].data.parent.None?
    requires list in From(s[list].data.items, s[list].data.offset) && s[list].rc != IMMORTAL && Shrinks(s, t)
    ensures list in t && t[list].data == s[list].data && 0 < t[list].rc < IMMORTAL && !Acyclic(t)
    ensures list !in after && (forall q :: q in t && q != list ==> list !in Slots(t[q].data)) ==> !Reachable(t, after, list)
  {
    var path := [list, list];
    assert Edge(s, list, list);
    assert Cycle(s, path);
    CycleStays(s, handles, t, path);
    assert Edge(t, list, list) by { assert Edge(t, path[0], path[0 + 1]); }
    if list !in after && forall q :: q in t && q != list ==> list !in Slots(t[q].data) {
      forall p | Chain(t, p) && p[|p| - 1] == list
        ensures !Root(t, after, p[0])
      {
        OnlyItself(t, list, p);
      }
    }
  }

  lemma {:induction false} OnlyItself(t: Store, list: Ptr, path: seq<Ptr>)
    requires Chain(t, path) && path[|path| - 1] == list && forall q :: Edge(t, q, list) ==> q == list
    ensures path[0] == list
    decreases |path|
  {
    if |path| > 1 {
      var n := |path| - 2;
      assert Edge(t, path[n], path[n + 1]);
      OnlyItself(t, list, path[..n + 1]);
    }
  }
}
