/** The counting invariant of the runtime heap and the elementary steps that keep it. */
module RefCounts {
  import opened RtValues

  /** `handles` are the references held outside the heap, with multiplicity. Each cell is immortal
      or its count is exactly the number of references to it; no reference dangles. */
  ghost predicate Counts(s: Store, handles: multiset<Ptr>) {
    var demand := Refs(s) + handles;
    && NULL !in s
    && (forall p :: p in demand ==> p in s)
    && (forall p :: p in s ==> s[p].rc == IMMORTAL || (s[p].rc == demand[p] && s[p].rc < IMMORTAL))
  }

  /** No cell is half freed. */
  ghost predicate Settled(s: Store) {
    forall p :: p in s ==> s[p].rc > 0
  }

  /** Each of these cells is referred to by another of them, or by itself. */
  ghost predicate Supported(s: Store, cells: set<Ptr>) {
    forall q {:trigger HasOwner(s, cells, q)} :: q in cells ==> HasOwner(s, cells, q)
  }

  ghost predicate HasOwner(s: Store, cells: set<Ptr>, q: Ptr) {
    q in s && s[q].rc > 0 && exists p :: p in cells && p in s && q in Slots(s[p].data)
  }

  /** What refers to itself is never freed. */
  ghost predicate Keeps(s: Store, t: Store) {
    forall cells :: Supported(s, cells) ==> Supported(t, cells)
  }

  /** Payloads stay and counts sink; cells being freed are left to whoever frees them. */
  ghost predicate Sinks(s: Store, t: Store) {
    && (forall p :: p in t ==> p in s && t[p].data == s[p].data && t[p].rc <= s[p].rc)
    && (forall p :: p in t && t[p].rc == 0 ==> s[p].rc == 0)
    && (forall p :: p in s && s[p].rc == 0 ==> p in t)
    && (forall p :: p in s && s[p].rc == IMMORTAL ==> p in t && t[p].rc == IMMORTAL)
  }

  /** `t` is `s` after some frees and decrements. */
  ghost predicate Shrinks(s: Store, t: Store) {
    Keeps(s, t) && Sinks(s, t)
  }

  ghost function Counted(s: Store): set<Ptr> {
    set p | p in s && s[p].rc != 0
  }

  lemma ShrinksTransitive(s: Store, t: Store, u: Store)
    requires Shrinks(s, t) && Shrinks(t, u)
    ensures Shrinks(s, u)
  {
    assert Keeps(s, u);
    hide Keeps;
  }

  lemma CountedShrinks(s: Store, t: Store)
    requires Shrinks(s, t)
    ensures Counted(t) <= Counted(s)
  {
  }

  lemma CountedDrops(s: Store, p: Ptr)
    requires p in s && s[p].rc == 1
    ensures Counted(s[p := s[p].(rc := 0)]) == Counted(s) - {p} && p in Counted(s)
  {
  }

  /** The heap refers to every cell of such a set. */
  lemma SupportedStored(s: Store, p: Ptr, cells: set<Ptr>)
    requires Supported(s, cells) && p in cells
    ensures p in Refs(s)
  {
    assert HasOwner(s, cells, p);
    var q :| q in cells && q in s && p in Slots(s[q].data);
    assert HasOwner(s, cells, q);
    RefsContain(s, q);
    assert p in CellSlots(s[q]);
  }

  lemma SupportedWithout(s: Store, t: Store, p: Ptr, cells: set<Ptr>)
    requires Supported(s, cells) && p !in cells
    requires forall q :: q in s && q != p ==> q in t && t[q] == s[q]
    ensures Supported(t, cells)
  {
    hide Slots;
    forall q | q in cells
      ensures HasOwner(t, cells, q)
    {
      assert HasOwner(s, cells, q);
      var r :| r in cells && r in s && q in Slots(s[r].data);
      assert t[r] == s[r];
    }
  }

  lemma LastKeeps(s: Store, p: Ptr, t: Store)
    requires p in s && p !in Refs(s) && Keeps(s[p := s[p].(rc := 0)] - {p}, t)
    ensures Keeps(s, t)
  {
    hide Refs;
    var u := s[p := s[p].(rc := 0)] - {p};
    forall cells | Supported(s, cells)
      ensures Supported(t, cells)
    {
      if p in cells {
        SupportedStored(s, p, cells);
        assert false;
      }
      SupportedWithout(s, u, p, cells);
      hide Supported;
    }
  }

  lemma LastShrinks(s: Store, p: Ptr, t: Store)
    requires p in s && s[p].rc == 1 && p !in Refs(s) && Shrinks(s[p := s[p].(rc := 0)] - {p}, t)
    ensures Shrinks(s, t)
  {
    LastKeeps(s, p, t);
    hide Keeps, Refs;
  }

  lemma ShrinksReflexive(s: Store)
    ensures Shrinks(s, s)
  {
  }

  lemma SharedShrinks(s: Store, p: Ptr)
    requires p in s && 1 < s[p].rc < IMMORTAL
    ensures Shrinks(s, s[p := s[p].(rc := s[p].rc - 1)])
  {
    var t := s[p := s[p].(rc := s[p].rc - 1)];
    forall cells | Supported(s, cells)
      ensures Supported(t, cells)
    {
      SupportedLower(s, t, cells);
      hide Supported;
    }
    assert Keeps(s, t);
    hide Keeps;
  }

  lemma SupportedLower(s: Store, t: Store, cells: set<Ptr>)
    requires Supported(s, cells) && forall q :: q in s ==> q in t && t[q].data == s[q].data && (s[q].rc > 0 ==> t[q].rc > 0)
    ensures Supported(t, cells)
  {
    hide Slots;
    forall q | q in cells
      ensures HasOwner(t, cells, q)
    {
      assert HasOwner(s, cells, q);
      var r :| r in cells && r in s && q in Slots(s[r].data);
      assert t[r].data == s[r].data;
    }
  }

  /** Slots by cases, each as the multiset that freeing walks over. */
  lemma SlotsOf(d: Data)
    ensures match d
      case List(items, offset, parent) =>
        Slots(d) == if parent.Some? then multiset{parent.value} else multiset(From(items, offset))
      case Map(entries) => Slots(d) == Sum(Singles(entries))
      case Variant(_, inner) => Slots(d) == multiset{inner}
      case Closure(_, captures) => Slots(d) == multiset(captures)
      case PartialApp(_, captured, _) => Slots(d) == multiset(captured)
      case _ => Slots(d) == multiset{}
  {
  }

  lemma NoSingles()
    ensures Sum(Singles(map[])) == multiset{}
  {
  }

  lemma StillDying(s: Store, t: Store, p: Ptr)
    requires Shrinks(s, t) && p in s && s[p].rc == 0
    ensures p in t && t[p].rc == 0 && Shrinks(s - {p}, t - {p})
  {
    var u, w := s - {p}, t - {p};
    forall cells | Supported(u, cells)
      ensures Supported(w, cells)
    {
      SupportedIn(u, s, p, cells);
      assert Supported(t, cells);
      SupportedWithout(t, w, p, cells);
      hide Supported;
    }
    assert Keeps(u, w);
    hide Keeps;
  }

  lemma SupportedIn(s: Store, t: Store, p: Ptr, cells: set<Ptr>)
    requires Supported(s, cells) && s == t - {p}
    ensures Supported(t, cells) && p !in cells
  {
    hide Slots;
    forall q | q in cells
      ensures HasOwner(t, cells, q) && q != p
    {
      assert HasOwner(s, cells, q);
      var r :| r in cells && r in s && q in Slots(s[r].data);
      assert t[r] == s[r];
    }
  }

  lemma NotNull(s: Store, handles: multiset<Ptr>, p: Ptr)
    requires Counts(s, handles) && p in handles
    ensures p != NULL && p in s
  {
    assert p in Refs(s) + handles;
  }

  lemma TakeValue(handles: multiset<Ptr>, rest: multiset<Ptr>, p: Ptr)
    requires rest + multiset{p} <= handles
    ensures rest <= handles - multiset{p}
    ensures handles - (rest + multiset{p}) == handles - multiset{p} - rest
  {
    forall x: Ptr
      ensures rest[x] <= (handles - multiset{p})[x]
    {
      assert (rest + multiset{p})[x] <= handles[x];
    }
  }

  /** The count after a retain, saturating at the immortal mark. */
  function Bump(c: Cell): Cell {
    c.(rc := if c.rc >= IMMORTAL - 1 then IMMORTAL else c.rc + 1)
  }

  /** Rewriting one cell moves the difference of its slots between the heap and the handles. */
  lemma Rewrite(s: Store, handles: multiset<Ptr>, p: Ptr, c: Cell, after: multiset<Ptr>)
    requires p in s && after + CellSlots(c) == handles + CellSlots(s[p])
    ensures Refs(s[p := c]) + after == Refs(s) + handles
  {
    RefsUpdate(s, p, c);
    var t := Refs(s[p := c]);
    calc {
      t + after + (CellSlots(c) + CellSlots(s[p]));
      (t + CellSlots(s[p])) + (after + CellSlots(c));
      (Refs(s) + CellSlots(c)) + (handles + CellSlots(s[p]));
      Refs(s) + handles + (CellSlots(c) + CellSlots(s[p]));
    }
    Cancel(t + after, Refs(s) + handles, CellSlots(c) + CellSlots(s[p]));
  }

  /** The invariant survives when only the count of `p` and the references to `p` change alike. */
  lemma Recount(s: Store, handles: multiset<Ptr>, t: Store, after: multiset<Ptr>, p: Ptr)
    requires Counts(s, handles) && p in s && t.Keys == s.Keys
    requires forall q :: q in s && q != p ==> t[q].rc == s[q].rc
    requires forall q :: q != p ==> (Refs(t) + after)[q] == (Refs(s) + handles)[q]
    requires t[p].rc == IMMORTAL || (t[p].rc == (Refs(t) + after)[p] && t[p].rc < IMMORTAL)
    ensures Counts(t, after)
  {
    forall q | q in Refs(t) + after
      ensures q in t
    {
      assert q == p || q in Refs(s) + handles;
    }
  }

  lemma RetainStep(s: Store, handles: multiset<Ptr>, p: Ptr)
    requires Counts(s, handles) && p in s && s[p].rc > 0
    ensures Counts(s[p := Bump(s[p])], handles + multiset{p})
  {
    var c := Bump(s[p]);
    Rewrite(s, handles, p, c, handles);
    var t := s[p := c];
    assert Refs(t) + (handles + multiset{p}) == (Refs(s) + handles) + multiset{p};
    Recount(s, handles, t, handles + multiset{p}, p);
  }

  lemma ReleaseSharedStep(s: Store, handles: multiset<Ptr>, p: Ptr)
    requires Counts(s, handles) && p in handles && p in s && 1 < s[p].rc < IMMORTAL
    ensures Counts(s[p := s[p].(rc := s[p].rc - 1)], handles - multiset{p})
  {
    var c := s[p].(rc := s[p].rc - 1);
    Rewrite(s, handles, p, c, handles);
    var t := s[p := c];
    assert Refs(t) + (handles - multiset{p}) == (Refs(s) + handles) - multiset{p};
    Recount(s, handles, t, handles - multiset{p}, p);
  }

  lemma ReleaseLastStep(s: Store, handles: multiset<Ptr>, p: Ptr)
    requires Counts(s, handles) && p in handles && p in s && s[p].rc == 1
    ensures Counts(s[p := s[p].(rc := 0)], handles - multiset{p} + Slots(s[p].data))
  {
    var c := s[p].(rc := 0);
    var slots := Slots(s[p].data);
    Rewrite(s, handles, p, c, handles + slots);
    var t := s[p := c];
    assert Refs(t) + (handles - multiset{p} + slots) == (Refs(t) + (handles + slots)) - multiset{p};
    Recount(s, handles, t, handles - multiset{p} + slots, p);
  }

  lemma DropStep(s: Store, handles: multiset<Ptr>, p: Ptr)
    requires Counts(s, handles) && p in s && s[p].rc == 0
    ensures Counts(s - {p}, handles)
  {
    RefsRemove(s, p);
    assert Refs(s) == Refs(s - {p});
  }

  lemma Extend(s: Store, handles: multiset<Ptr>, t: Store, after: multiset<Ptr>, p: Ptr)
    requires Counts(s, handles) && p !in s && p != NULL
    requires t.Keys == s.Keys + {p} && t[p].rc == 1 && forall q :: q in s ==> t[q] == s[q]
    requires forall q :: (Refs(t) + after)[q] == (Refs(s) + handles)[q] + multiset{p}[q]
    ensures Counts(t, after)
  {
    forall q | q in Refs(t) + after
      ensures q in t
    {
      assert q == p || q in Refs(s) + handles;
    }
    assert p !in Refs(s) + handles;
  }

  lemma Moved(refs: multiset<Ptr>, handles: multiset<Ptr>, slots: multiset<Ptr>, p: Ptr)
    requires slots <= handles
    ensures forall q :: (refs + slots + (handles - slots + multiset{p}))[q] == (refs + handles)[q] + multiset{p}[q]
  {
    forall q: Ptr
      ensures (refs + slots + (handles - slots + multiset{p}))[q] == (refs + handles)[q] + multiset{p}[q]
    {
      assert slots[q] <= handles[q];
    }
  }

  lemma AllocStep(s: Store, handles: multiset<Ptr>, p: Ptr, d: Data)
    requires Counts(s, handles) && p !in s && p != NULL && Slots(d) <= handles
    ensures Counts(s[p := Cell(1, d)], handles - Slots(d) + multiset{p})
  {
    var t := s[p := Cell(1, d)];
    var after := handles - Slots(d) + multiset{p};
    RefsAdd(s, p, Cell(1, d));
    assert CellSlots(Cell(1, d)) == Slots(d);
    hide *;
    Moved(Refs(s), handles, Slots(d), p);
    Extend(s, handles, t, after, p);
  }

  lemma MutateStep(s: Store, handles: multiset<Ptr>, p: Ptr, d: Data)
    requires Counts(s, handles) && p in s && s[p].rc > 0 && Slots(d) <= handles + Slots(s[p].data)
    ensures Counts(s[p := s[p].(data := d)], handles + Slots(s[p].data) - Slots(d))
  {
    var after := handles + Slots(s[p].data) - Slots(d);
    Rewrite(s, handles, p, s[p].(data := d), after);
    Recount(s, handles, s[p := s[p].(data := d)], after, p);
  }

  /** A cell whose only reference is a handle is stored nowhere in the heap. */
  lemma SoleHandle(s: Store, handles: multiset<Ptr>, p: Ptr)
    requires Counts(s, handles) && p in handles && p in s && s[p].rc == 1
    ensures p !in Refs(s)
  {
    assert (Refs(s) + handles)[p] == Refs(s)[p] + handles[p];
  }

  lemma ImmortalStep(s: Store, handles: multiset<Ptr>, p: Ptr)
    requires Counts(s, handles) && p in handles && p in s && s[p].rc == IMMORTAL
    ensures Counts(s, handles - multiset{p})
  {
    Recount(s, handles, s, handles - multiset{p}, p);
  }

  lemma PositiveCount(s: Store, handles: multiset<Ptr>, p: Ptr)
    requires Counts(s, handles) && p in handles && p in s
    ensures 0 < s[p].rc <= IMMORTAL
  {
    assert p in Refs(s) + handles;
  }

  /** The handles left when the first `n` of the items are given back. */
  ghost function Without(handles: multiset<Ptr>, items: seq<Ptr>, n: nat): multiset<Ptr>
    requires n <= |items|
  {
    handles - multiset(items[..n])
  }

  lemma TakeOne(handles: multiset<Ptr>, items: seq<Ptr>, i: nat)
    requires i < |items| && multiset(items) <= handles
    ensures items[i] in Without(handles, items, i)
    ensures Without(handles, items, i) - multiset{items[i]} == Without(handles, items, i + 1)
  {
    assert items[..i + 1] == items[..i] + [items[i]];
    assert items == items[..i + 1] + items[i + 1..];
    assert multiset(items[..i + 1]) <= multiset(items);
  }

  lemma TakeEnds(handles: multiset<Ptr>, items: seq<Ptr>)
    ensures Without(handles, items, 0) == handles && Without(handles, items, |items|) == handles - multiset(items)
  {
    assert items[..|items|] == items;
  }

  lemma FreshPtr(s: Store)
    ensures exists p: Ptr :: p != NULL && p !in s
  {
    var bound := Above(s.Keys);
    assert bound + 1 !in s.Keys;
  }

  lemma {:induction false} Above(ps: set<Ptr>) returns (bound: nat)
    ensures forall p: Ptr :: p in ps ==> p <= bound
    decreases ps
  {
    bound := 0;
    if p: Ptr :| p in ps {
      var rest := Above(ps - {p});
      bound := if p > rest then p else rest;
      assert forall q: Ptr :: q in ps ==> q == p || q in ps - {p};
    }
  }
}
