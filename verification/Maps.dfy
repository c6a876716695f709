/** The map operations, which always clone, and the cells that hold a few captured references. */
module Maps {
  import opened Wrappers
  import opened RtValues
  import opened RefCounts
  import opened Denotation
  import opened Reachability
  import opened RtHeap
  import opened Lists

  ghost predicate LiveEntries(s: Store, entries: map<string, Ptr>) {
    forall k :: k in entries ==> entries[k] in s
  }

  ghost function EntryMeanings(s: Store, entries: map<string, Ptr>): map<string, Value>
    requires Shape(s) && Acyclic(s) && LiveEntries(s, entries)
  {
    map k | k in entries :: Meaning(s, entries[k])
  }

  lemma EntriesLive(s: Store, handles: multiset<Ptr>, m: Ptr)
    requires Sound(s, handles) && m in s
    ensures s[m].data.Map? ==> LiveEntries(s, s[m].data.entries)
    ensures Acyclic(s) && s[m].data.Map? ==> Meaning(s, m) == VMap(EntryMeanings(s, s[m].data.entries))
  {
    if s[m].data.Map? {
      EntriesStored(s, handles, m);
      if Acyclic(s) {
        MeaningOfMap(s, m);
        hide Meaning, Acyclic, Shape, Counts, Settled;
        assert EntryMeanings(s, s[m].data.entries) == map k | k in s[m].data.entries :: Meaning(s, s[m].data.entries[k]);
      }
    }
  }

  lemma EntriesStored(s: Store, handles: multiset<Ptr>, m: Ptr)
    requires Counts(s, handles) && Settled(s) && m in s && s[m].data.Map?
    ensures LiveEntries(s, s[m].data.entries)
  {
    EdgesInside(s, handles);
    hide Counts, Settled, Sum, Singles;
    forall k | k in s[m].data.entries
      ensures s[m].data.entries[k] in s
    {
      SlotsOfMapMember(s[m].data.entries, s[m].data.entries[k]);
      assert Edge(s, m, s[m].data.entries[k]);
    }
  }

  /** The entries that are no longer left to do. */
  function KeptSoFar(kept: map<string, Ptr>, rest: set<string>): map<string, Ptr> {
    map k | k in kept && k !in rest :: kept[k]
  }

  lemma KeptMore(entries: map<string, Ptr>, except: Option<string>, rest: set<string>, k: string)
    requires k in entries && k in rest
    ensures var kept := Kept(entries, except);
            if except != Some(k) then
              && k !in KeptSoFar(kept, rest)
              && KeptSoFar(kept, rest - {k}) == KeptSoFar(kept, rest)[k := entries[k]]
            else KeptSoFar(kept, rest - {k}) == KeptSoFar(kept, rest)
  {
  }

  function Kept(entries: map<string, Ptr>, except: Option<string>): map<string, Ptr> {
    if except.Some? then entries - {except.value} else entries
  }

  lemma KeptEnds(entries: map<string, Ptr>, except: Option<string>)
    ensures KeptSoFar(Kept(entries, except), entries.Keys) == map[]
    ensures KeptSoFar(Kept(entries, except), {}) == Kept(entries, except)
  {
  }

  /** The cloning loop: takes one reference to every value but that of `except`. */
  method RetainEntries(h: Heap, entries: map<string, Ptr>, except: Option<string>) returns (copy: map<string, Ptr>)
    requires h.Valid() && LiveEntries(h.cells, entries)
    modifies h`cells, h`handles, h`crowded
    ensures copy == Kept(entries, except)
    ensures h.Valid() && h.handles == old(h.handles) + Sum(Singles(copy)) && SameCells(old(h.cells), h.cells)
    ensures old(Acyclic(h.cells)) ==> Acyclic(h.cells) && Refines(old(h.cells), h.cells, {})
    ensures forall k :: k in copy ==> copy[k] in h.cells && h.cells[copy[k]].rc > 1
  {
    hide Sound, Counts, Settled, Shape, PoolCells, PoolFull, Marked, Refines, SameCells, Bump, Acyclic, Singles, Sum;
    hide KeptSoFar, Kept;
    copy := map[];
    var rest := entries.Keys;
    ghost var kept := Kept(entries, except);
    KeptEnds(entries, except);
    NoSingles();
    NothingDone(h.cells, h.handles);
    while rest != {}
      invariant rest <= entries.Keys && copy == KeptSoFar(kept, rest)
      invariant h.Valid() && h.handles == old(h.handles) + Sum(Singles(copy)) && SameCells(old(h.cells), h.cells)
      invariant old(Acyclic(h.cells)) ==> Acyclic(h.cells) && Refines(old(h.cells), h.cells, {})
      invariant forall k :: k in copy ==> copy[k] in h.cells && h.cells[copy[k]].rc > 1
      decreases rest
    {
      var k :| k in rest;
      KeptMore(entries, except, rest, k);
      rest := rest - {k};
      if except != Some(k) {
        ghost var before, held := h.cells, h.handles;
        SameCellsUse(old(h.cells), before, entries[k]);
        CanRetain(before, held, entries[k]);
        h.Retain(entries[k]);
        Chained(old(h.cells), old(h.handles), before, held, h.cells);
        RetainedTwice(before, h.cells, copy, entries[k]);
        SlotsOfMapAdd(copy, k, entries[k]);
        copy := copy[k := entries[k]];
      }
    }
  }

  lemma RetainedTwice(s: Store, t: Store, copy: map<string, Ptr>, p: Ptr)
    requires SameCells(s, t) && p in s && s[p].rc > 0 && t == s[p := Bump(s[p])]
    requires forall k :: k in copy ==> copy[k] in s && s[copy[k]].rc > 1
    ensures t[p].rc > 1 && forall k :: k in copy ==> copy[k] in t && t[copy[k]].rc > 1
  {
  }

  /** A fresh map cell from references already held. */
  method WrapMap(h: Heap, entries: map<string, Ptr>) returns (p: Ptr)
    requires h.Valid() && Sum(Singles(entries)) <= h.handles
    modifies h`cells, h`handles, h`crowded
    ensures h.Valid() && h.handles == old(h.handles) - Sum(Singles(entries)) + multiset{p}
    ensures p !in old(h.cells) && p in h.cells && Grows(old(h.cells), h.cells) && h.cells[p].data == Map(entries)
    ensures old(LiveEntries(h.cells, entries))
    ensures old(Acyclic(h.cells)) ==>
              Acyclic(h.cells) && Yields(old(h.cells), h.cells, {}, p, VMap(old(EntryMeanings(h.cells, entries))))
  {
    SlotsOf(Map(entries));
    forall k | k in entries
      ensures entries[k] in h.cells
    {
      SlotsOfMapMember(entries, entries[k]);
      NotNull(h.cells, h.handles, entries[k]);
    }
    hide Sound, Counts, Slots, Settled, Shape, PoolCells, PoolFull, Marked, Refines, Grows, Yields, Acyclic, Singles, Sum;
    p := h.Alloc(Map(entries));
    MapMeaning(old(h.cells), old(h.handles), h.cells, h.handles, p, entries);
  }

  lemma MapMeaning(s: Store, before: multiset<Ptr>, u: Store, after: multiset<Ptr>, p: Ptr, entries: map<string, Ptr>)
    requires Sound(s, before) && Sound(u, after) && Grows(s, u) && LiveEntries(s, entries)
    requires p in u && u[p].data == Map(entries)
    ensures Acyclic(s) && Acyclic(u) && Refines(s, u, {}) ==>
              Yields(s, u, {}, p, VMap(EntryMeanings(s, entries)))
  {
    if Acyclic(s) && Acyclic(u) && Refines(s, u, {}) {
      assert Shape(s) && Shape(u) && forall q :: q in s ==> q in u;
      hide Sound, Counts, Settled, Shape, Grows, Acyclic;
      MeaningOfMap(u, p);
      forall k | k in entries ensures Meaning(u, entries[k]) == Meaning(s, entries[k]) {
      }
      hide *;
      assert EntryMeanings(u, entries) == EntryMeanings(s, entries);
    }
  }

  method MapNew(h: Heap) returns (p: Ptr)
    requires h.Valid()
    modifies h`cells, h`handles, h`crowded
    ensures h.Valid() && h.handles == old(h.handles) + multiset{p} && p !in old(h.cells)
    ensures old(Acyclic(h.cells)) ==> Acyclic(h.cells) && Yields(old(h.cells), h.cells, {}, p, VMap(map[]))
  {
    NoSingles();
    p := WrapMap(h, map[]);
    assert h.handles == old(h.handles) + multiset{p};
    assert old(Acyclic(h.cells)) ==> old(EntryMeanings(h.cells, map[])) == map[];
  }

  /** A missing key gives the default. */
  method MapGetOr(h: Heap, m: Ptr, key: Ptr, default: Ptr) returns (r: Result<Ptr, string>)
    requires h.Valid() && m in h.cells && key in h.cells && default in h.cells
    modifies h`cells, h`handles, h`crowded
    ensures h.Valid()
    ensures r.Ok? <==> old(h.cells[key]).data.Str? && old(h.cells[m]).data.Map?
    ensures r.Err? ==> h.cells == old(h.cells) && h.handles == old(h.handles)
    ensures r.Ok? ==> h.handles == old(h.handles) + multiset{r.value} && SameCells(old(h.cells), h.cells)
    ensures r.Ok? && old(Acyclic(h.cells)) ==>
              var k, entries := old(h.cells[key]).data.s, EntriesOf(old(Meaning(h.cells, m)));
              Acyclic(h.cells) && Yields(old(h.cells), h.cells, {}, r.value,
                if k in entries then entries[k] else old(Meaning(h.cells, default)))
    ensures r.Err? ==>
              r.error == if old(h.cells)[key].data.Str? then "airl_map_get_or: first argument must be a Map" else "airl_map_get_or: key must be a Str"
  {
    EntriesLive(h.cells, h.handles, m);
    hide Sound, Counts, Slots, Settled, Shape, PoolCells, PoolFull, Marked, Refines, SameCells, Grows, Yields, Acyclic, Bump;
    if !h.cells[key].data.Str? {
      return Err("airl_map_get_or: key must be a Str");
    }
    var k := h.cells[key].data.s;
    match h.cells[m].data
    case Map(entries) =>
      if k in entries {
        var val := entries[k];
        Share(h, val);
        return Ok(val);
      } else {
        Share(h, default);
        return Ok(default);
      }
    case _ =>
      return Err("airl_map_get_or: first argument must be a Map");
  }

  /** A new map with the binding; the given map and every other cell stay as they were. */
  method MapSet(h: Heap, m: Ptr, key: Ptr, val: Ptr) returns (r: Result<Ptr, string>)
    requires h.Valid() && m in h.cells && key in h.cells && val in h.cells
    modifies h`cells, h`handles, h`crowded
    ensures h.Valid()
    ensures r.Ok? <==> old(h.cells[key]).data.Str? && old(h.cells[m]).data.Map?
    ensures r.Err? ==> h.cells == old(h.cells) && h.handles == old(h.handles)
    ensures r.Ok? ==>
              && h.handles == old(h.handles) + multiset{r.value} && r.value !in old(h.cells)
              && old(h.cells).Keys <= h.cells.Keys
    ensures r.Ok? && old(Acyclic(h.cells)) ==>
              Acyclic(h.cells) && Yields(old(h.cells), h.cells, {}, r.value,
                VMap(EntriesOf(old(Meaning(h.cells, m)))[old(h.cells[key]).data.s := old(Meaning(h.cells, val))]))
    ensures r.Err? ==>
              r.error == if old(h.cells)[key].data.Str? then "airl_map_set: first argument must be a Map" else "airl_map_set: key must be a Str"
  {
    EntriesLive(h.cells, h.handles, m);
    hide Sound, Counts, Slots, Settled, Shape, PoolCells, PoolFull, Marked, Refines, SameCells, Grows, Yields, Acyclic, Bump, Singles, Sum;
    if !h.cells[key].data.Str? {
      return Err("airl_map_set: key must be a Str");
    }
    var k := h.cells[key].data.s;
    if !h.cells[m].data.Map? {
      return Err("airl_map_set: first argument must be a Map");
    }
    var entries := h.cells[m].data.entries;
    var p := CloneWith(h, entries, k, val);
    return Ok(p);
  }

  /** The clone that binds `k` to `val` and otherwise shares the values. */
  method CloneWith(h: Heap, entries: map<string, Ptr>, k: string, val: Ptr) returns (p: Ptr)
    requires h.Valid() && LiveEntries(h.cells, entries) && val in h.cells
    modifies h`cells, h`handles, h`crowded
    ensures h.Valid() && h.handles == old(h.handles) + multiset{p} && p !in old(h.cells)
    ensures old(h.cells).Keys <= h.cells.Keys
    ensures old(Acyclic(h.cells)) ==>
              Acyclic(h.cells) && Yields(old(h.cells), h.cells, {}, p,
                VMap(old(EntryMeanings(h.cells, entries))[k := old(Meaning(h.cells, val))]))
  {
    hide Sound, Counts, Slots, Settled, Shape, PoolCells, PoolFull, Marked, Refines, SameCells, Grows, Yields, Acyclic, Bump, Singles, Sum;
    var fresh_entries := CloneForSet(h, entries, k);
    ghost var s2, h2 := h.cells, h.handles;
    ghost var others := entries - {k};
    CanRetain(h.cells, h.handles, val);
    h.Retain(val);
    SlotsOfMapAdd(others, k, val);
    fresh_entries := fresh_entries[k := val];
    assert fresh_entries == others[k := val];
    GiveBackAll(old(h.handles), Sum(Singles(others)), val);
    ghost var s3, h3 := h.cells, h.handles;
    p := WrapMap(h, fresh_entries);
    SameCellsKeys(s2, s3);
    MapSetChain(old(h.cells), old(h.handles), s2, h2, s3, h3);
    MapSetMeaning(old(h.cells), old(h.handles), s3, h3, h.cells, h.handles, p, entries, k, val);
  }

  /** Clones every binding, then gives back the reference to the value that is to be replaced. */
  method CloneForSet(h: Heap, entries: map<string, Ptr>, k: string) returns (copy: map<string, Ptr>)
    requires h.Valid() && LiveEntries(h.cells, entries)
    modifies h`cells, h`handles, h`crowded
    ensures copy == entries
    ensures h.Valid() && h.handles == old(h.handles) + Sum(Singles(entries - {k}))
    ensures h.cells.Keys == old(h.cells).Keys
    ensures old(Acyclic(h.cells)) ==> Acyclic(h.cells) && Refines(old(h.cells), h.cells, {})
  {
    hide Sound, Counts, Slots, Settled, Shape, PoolCells, PoolFull, Marked, Refines, SameCells, Grows, Shrinks, Acyclic, Bump, Singles, Sum;
    copy := RetainEntries(h, entries, None);
    ghost var s, held := h.cells, h.handles;
    SameCellsKeys(old(h.cells), s);
    if k in copy {
      SlotsOfMap(copy, k);
      GiveBack(old(h.handles), Sum(Singles(entries - {k})), copy[k]);
      SoundCounts(h.cells, h.handles);
      NotNull(h.cells, h.handles, copy[k]);
      h.Release(copy[k]);
      MapSetChain(old(h.cells), old(h.handles), s, held, h.cells, h.handles);
    } else {
      assert entries - {k} == entries;
    }
  }

  lemma GiveBack(handles: multiset<Ptr>, others: multiset<Ptr>, p: Ptr)
    ensures p in handles + (others + multiset{p})
    ensures handles + (others + multiset{p}) - multiset{p} == handles + others
  {
  }

  lemma GiveBackAll(handles: multiset<Ptr>, others: multiset<Ptr>, val: Ptr)
    ensures handles + others + multiset{val} == handles + (others + multiset{val})
    ensures others + multiset{val} <= handles + (others + multiset{val})
    ensures handles + (others + multiset{val}) - (others + multiset{val}) == handles
  {
  }

  lemma SameCellsKeys(s: Store, t: Store)
    requires SameCells(s, t)
    ensures s.Keys == t.Keys
  {
  }

  lemma MapSetChain(s: Store, hs: multiset<Ptr>, t: Store, ht: multiset<Ptr>, u: Store, hu: multiset<Ptr>)
    requires Sound(s, hs) && Sound(t, ht) && Sound(u, hu) && s.Keys == t.Keys == u.Keys
    requires Acyclic(s) ==> Acyclic(t) && Refines(s, t, {})
    requires Acyclic(t) ==> Acyclic(u) && Refines(t, u, {})
    ensures Acyclic(s) ==> Acyclic(u) && Refines(s, u, {})
  {
    hide Refines, Meaning, Acyclic;
    if Acyclic(s) {
      RefinesChain(s, t, u, {}, {});
      var none: set<Ptr> := {};
      assert none + none == none;
    }
  }

  lemma MapSetMeaning(s: Store, hs: multiset<Ptr>, t: Store, ht: multiset<Ptr>, u: Store, hu: multiset<Ptr>, p: Ptr,
                      entries: map<string, Ptr>, k: string, val: Ptr)
    requires Sound(s, hs) && Sound(t, ht) && Sound(u, hu) && s.Keys == t.Keys && Grows(t, u)
    requires LiveEntries(s, entries) && val in s && LiveEntries(t, entries[k := val])
    requires Acyclic(s) ==> Acyclic(t) && Refines(s, t, {})
    requires Acyclic(t) ==> Acyclic(u) && Yields(t, u, {}, p, VMap(EntryMeanings(t, entries[k := val])))
    ensures s.Keys <= u.Keys
    ensures Acyclic(s) ==>
              Acyclic(u) && Yields(s, u, {}, p, VMap(EntryMeanings(s, entries)[k := Meaning(s, val)]))
  {
    if Acyclic(s) {
      SameEntryMeanings(s, t, entries, k, val);
      hide Meaning, Acyclic, EntryMeanings, Refines, Counts, Settled, Shape, LiveEntries;
      RefinesChain(s, t, u, {}, {});
    }
  }

  lemma SameEntryMeanings(s: Store, t: Store, entries: map<string, Ptr>, k: string, val: Ptr)
    requires Shape(s) && Acyclic(s) && Refines(s, t, {}) && s.Keys == t.Keys
    requires LiveEntries(s, entries) && val in s && LiveEntries(t, entries[k := val])
    ensures EntryMeanings(t, entries[k := val]) == EntryMeanings(s, entries)[k := Meaning(s, val)]
  {
    hide Meaning, Acyclic, Shape;
  }

  /** A new map without the key; removing a missing key gives an equal map. */
  method MapRemove(h: Heap, m: Ptr, key: Ptr) returns (r: Result<Ptr, string>)
    requires h.Valid() && m in h.cells && key in h.cells
    modifies h`cells, h`handles, h`crowded
    ensures h.Valid()
    ensures r.Ok? <==> old(h.cells[key]).data.Str? && old(h.cells[m]).data.Map?
    ensures r.Err? ==> h.cells == old(h.cells) && h.handles == old(h.handles)
    ensures r.Ok? ==>
              && h.handles == old(h.handles) + multiset{r.value} && r.value !in old(h.cells)
              && old(h.cells).Keys <= h.cells.Keys
    ensures r.Ok? && old(Acyclic(h.cells)) ==>
              Acyclic(h.cells) && Yields(old(h.cells), h.cells, {}, r.value,
                VMap(EntriesOf(old(Meaning(h.cells, m))) - {old(h.cells[key]).data.s}))
    ensures r.Err? ==>
              r.error == if old(h.cells)[key].data.Str? then "airl_map_remove: first argument must be a Map" else "airl_map_remove: key must be a Str"
  {
    EntriesLive(h.cells, h.handles, m);
    hide Sound, Counts, Slots, Settled, Shape, PoolCells, PoolFull, Marked, Refines, SameCells, Grows, Yields, Acyclic, Bump, Singles, Sum;
    if !h.cells[key].data.Str? {
      return Err("airl_map_remove: key must be a Str");
    }
    var k := h.cells[key].data.s;
    if !h.cells[m].data.Map? {
      return Err("airl_map_remove: first argument must be a Map");
    }
    var p := CloneEntries(h, h.cells[m].data.entries, Some(k));
    return Ok(p);
  }

  method CloneEntries(h: Heap, entries: map<string, Ptr>, except: Option<string>) returns (p: Ptr)
    requires h.Valid() && LiveEntries(h.cells, entries)
    modifies h`cells, h`handles, h`crowded
    ensures h.Valid() && h.handles == old(h.handles) + multiset{p} && p !in old(h.cells)
    ensures old(h.cells).Keys <= h.cells.Keys && p in h.cells
    ensures h.cells[p].data == Map(entries - (if except.Some? then {except.value} else {}))
    ensures old(Acyclic(h.cells)) ==>
              Acyclic(h.cells) && Yields(old(h.cells), h.cells, {}, p,
                VMap(old(EntryMeanings(h.cells, entries)) - (if except.Some? then {except.value} else {})))
  {
    hide Sound, Counts, Slots, Settled, Shape, PoolCells, PoolFull, Marked, Refines, SameCells, Grows, Yields, Acyclic, Bump, Singles, Sum;
    var copy := RetainEntries(h, entries, except);
    ghost var t, ht := h.cells, h.handles;
    SameCellsKeys(old(h.cells), t);
    Fits(old(h.handles), Sum(Singles(copy)));
    p := WrapMap(h, copy);
    ghost var out := if except.Some? then {except.value} else {};
    assert copy == entries - out;
    SubMapMeaning(old(h.cells), old(h.handles), t, ht, h.cells, h.handles, p, entries, out);
  }

  lemma SubMapMeaning(s: Store, hs: multiset<Ptr>, t: Store, ht: multiset<Ptr>, u: Store, hu: multiset<Ptr>, p: Ptr,
                      entries: map<string, Ptr>, out: set<string>)
    requires Sound(s, hs) && Sound(t, ht) && Sound(u, hu) && s.Keys == t.Keys && Grows(t, u)
    requires LiveEntries(s, entries) && LiveEntries(t, entries - out)
    requires Acyclic(s) ==> Acyclic(t) && Refines(s, t, {})
    requires Acyclic(t) ==> Acyclic(u) && Yields(t, u, {}, p, VMap(EntryMeanings(t, entries - out)))
    ensures s.Keys <= u.Keys
    ensures Acyclic(s) ==> Acyclic(u) && Yields(s, u, {}, p, VMap(EntryMeanings(s, entries) - out))
  {
    if Acyclic(s) {
      SubEntryMeanings(s, t, entries, out);
      hide Meaning, Acyclic, EntryMeanings, Refines, Counts, Settled, Shape, LiveEntries;
      RefinesChain(s, t, u, {}, {});
    }
  }

  lemma SubEntryMeanings(s: Store, t: Store, entries: map<string, Ptr>, out: set<string>)
    requires Shape(s) && Acyclic(s) && Refines(s, t, {}) && s.Keys == t.Keys
    requires LiveEntries(s, entries) && LiveEntries(t, entries - out)
    ensures EntryMeanings(t, entries - out) == EntryMeanings(s, entries) - out
  {
    hide Meaning, Acyclic, Shape;
  }

  // ----- building a map from alternating keys and values -----

  /** The first `n` pairs are keys and live values. */
  ghost predicate Pairs(s: Store, items: seq<Ptr>, n: nat) {
    && 2 * n <= |items|
    && forall j :: 0 <= j < n ==> items[2 * j] in s && s[items[2 * j]].data.Str? && items[2 * j + 1] in s
  }

  /** The map after `n` pairs: later bindings win. */
  ghost function Built(s: Store, items: seq<Ptr>, n: nat): map<string, Ptr>
    requires Pairs(s, items, n)
  {
    if n == 0 then map[] else Built(s, items, n - 1)[s[items[2 * n - 2]].data.s := items[2 * n - 1]]
  }

  /** The references taken for values that a later pair overwrote; nobody gives them back. */
  ghost function Overwritten(s: Store, items: seq<Ptr>, n: nat): multiset<Ptr>
    requires Pairs(s, items, n)
  {
    if n == 0 then multiset{} else
      var before, k := Built(s, items, n - 1), s[items[2 * n - 2]].data.s;
      Overwritten(s, items, n - 1) + if k in before then multiset{before[k]} else multiset{}
  }

  /** Each key is bound to the value of its last pair. */
  lemma {:induction false} BuiltIsLast(s: Store, items: seq<Ptr>, n: nat, k: string)
    requires Pairs(s, items, n)
    ensures k in Built(s, items, n) <==> exists j :: 0 <= j < n && s[items[2 * j]].data.s == k
    ensures k in Built(s, items, n) ==>
              exists j :: 0 <= j < n && s[items[2 * j]].data.s == k && Built(s, items, n)[k] == items[2 * j + 1]
                       && forall i :: j < i < n ==> s[items[2 * i]].data.s != k
  {
    if n > 0 {
      BuiltIsLast(s, items, n - 1, k);
      if s[items[2 * (n - 1)]].data.s == k {
        assert Built(s, items, n)[k] == items[2 * (n - 1) + 1];
      }
    }
  }

  /** No reference is lost exactly when the keys are distinct. */
  lemma {:induction false} NothingLostIffDistinct(s: Store, items: seq<Ptr>, n: nat)
    requires Pairs(s, items, n)
    ensures Overwritten(s, items, n) == multiset{} <==>
              forall i, j :: 0 <= i < j < n ==> s[items[2 * i]].data.s != s[items[2 * j]].data.s
  {
    if n > 0 {
      NothingLostIffDistinct(s, items, n - 1);
      var k := s[items[2 * (n - 1)]].data.s;
      BuiltIsLast(s, items, n - 1, k);
      var before := Built(s, items, n - 1);
      if k in before {
        assert before[k] in Overwritten(s, items, n);
      } else {
        assert Overwritten(s, items, n) == Overwritten(s, items, n - 1);
      }
    }
  }

  /** Reads the pairs from left to right; a reference is taken for every value, kept or not. The
      heap keeps one reference too many for each overwritten value. */
  method MapFrom(h: Heap, pairs: Ptr) returns (r: Result<Ptr, string>)
    requires h.Valid() && pairs in h.cells
    modifies h`cells, h`handles, h`crowded
    ensures h.Valid() && old(h.handles) <= h.handles
    ensures r.Ok? ==>
              && old(h.cells)[pairs].data.List?
              && var items := old(Items(h.cells, h.cells[pairs].data));
              && |items| % 2 == 0 && Pairs(old(h.cells), items, |items| / 2)
              && h.handles == old(h.handles) + Overwritten(old(h.cells), items, |items| / 2) + multiset{r.value}
              && (old(Acyclic(h.cells)) ==>
                    && Acyclic(h.cells) && LiveEntries(old(h.cells), Built(old(h.cells), items, |items| / 2))
                    && Yields(old(h.cells), h.cells, {}, r.value,
                         VMap(EntryMeanings(old(h.cells), Built(old(h.cells), items, |items| / 2)))))
    ensures old(h.cells)[pairs].data.List? ==>
              var items := old(Items(h.cells, h.cells[pairs].data));
              r.Ok? <==> |items| % 2 == 0 && Pairs(old(h.cells), items, |items| / 2)
    ensures r.Err? ==>
              r.error == if !old(h.cells)[pairs].data.List? then "airl_map_from: argument must be a List"
              else if |old(Items(h.cells, h.cells[pairs].data))| % 2 != 0 then "airl_map_from: list must have even length"
              else "airl_map_from: key must be a Str"
  {
    ListFacts(h.cells, h.handles, pairs);
    hide Sound, Counts, Slots, Settled, Shape, PoolCells, PoolFull, Marked, Refines, SameCells, Grows, Yields, Acyclic, Bump, Singles, Sum, Overwritten, Built;
    if !h.cells[pairs].data.List? {
      return Err("airl_map_from: argument must be a List");
    }
    var items := Items(h.cells, h.cells[pairs].data);
    if |items| % 2 != 0 {
      return Err("airl_map_from: list must have even length");
    }
    var ok, entries := ReadPairs(h, items);
    if !ok {
      return Err("airl_map_from: key must be a Str");
    }
    ghost var t, ht := h.cells, h.handles;
    ghost var lost := Overwritten(old(h.cells), items, |items| / 2);
    SameCellsKeys(old(h.cells), t);
    Fits(old(h.handles) + lost, Sum(Singles(entries)));
    var p := WrapMap(h, entries);
    WholeMap(old(h.cells), old(h.handles), t, ht, h.cells, h.handles, p, entries);
    return Ok(p);
  }

  lemma WholeMap(s: Store, hs: multiset<Ptr>, t: Store, ht: multiset<Ptr>, u: Store, hu: multiset<Ptr>, p: Ptr,
                 entries: map<string, Ptr>)
    requires Sound(s, hs) && Sound(t, ht) && Sound(u, hu) && s.Keys == t.Keys && Grows(t, u)
    requires LiveEntries(s, entries) && LiveEntries(t, entries)
    requires Acyclic(s) ==> Acyclic(t) && Refines(s, t, {})
    requires Acyclic(t) ==> Acyclic(u) && Yields(t, u, {}, p, VMap(EntryMeanings(t, entries)))
    ensures Acyclic(s) ==> Acyclic(u) && Yields(s, u, {}, p, VMap(EntryMeanings(s, entries)))
  {
    hide Meaning, Acyclic, EntryMeanings, Refines, Counts, Settled, Shape, LiveEntries, Yields;
    assert entries - {} == entries;
    SubMapMeaning(s, hs, t, ht, u, hu, p, entries, {});
    if Acyclic(s) {
      assert EntryMeanings(s, entries) - {} == EntryMeanings(s, entries);
    }
  }

  /** The loop over the pairs; stops at the first key that is not a string. */
  method ReadPairs(h: Heap, items: seq<Ptr>) returns (ok: bool, entries: map<string, Ptr>)
    requires h.Valid() && |items| % 2 == 0 && Live(h.cells, items)
    modifies h`cells, h`handles, h`crowded
    ensures h.Valid() && old(h.handles) <= h.handles && SameCells(old(h.cells), h.cells)
    ensures ok <==> Pairs(old(h.cells), items, |items| / 2)
    ensures ok ==>
              && entries == Built(old(h.cells), items, |items| / 2)
              && LiveEntries(old(h.cells), entries)
              && h.handles == old(h.handles) + Overwritten(old(h.cells), items, |items| / 2) + Sum(Singles(entries))
    ensures old(Acyclic(h.cells)) ==> Acyclic(h.cells) && Refines(old(h.cells), h.cells, {})
  {
    hide Sound, Counts, Slots, Settled, Shape, PoolCells, PoolFull, Marked, Refines, SameCells, Grows, Acyclic, Bump, Singles, Sum,
         Built, Overwritten, Pairs, LiveEntries;
    entries := map[];
    NoPairs(h.cells, items);
    ghost var s, held, lost := h.cells, h.handles, multiset{};
    var i := 0;
    NoSingles();
    NothingDone(s, held);
    while i < |items|
      invariant 0 <= i <= |items| && i % 2 == 0 && Pairs(s, items, i / 2)
      invariant entries == Built(s, items, i / 2) && lost == Overwritten(s, items, i / 2)
      invariant LiveEntries(s, entries)
      invariant h.Valid() && h.handles == held + lost + Sum(Singles(entries)) && SameCells(s, h.cells)
      invariant Acyclic(s) ==> Acyclic(h.cells) && Refines(s, h.cells, {})
    {
      SameCellsAt(s, h.cells, items[i]);
      SameCellsAt(s, h.cells, items[i + 1]);
      if !h.cells[items[i]].data.Str? {
        NotPairs(s, items, i / 2);
        return false, entries;
      }
      var k := h.cells[items[i]].data.s;
      ghost var before, hb := h.cells, h.handles;
      CanRetain(before, hb, items[i + 1]);
      h.Retain(items[i + 1]);
      Chained(s, held, before, hb, h.cells);
      NextPair(s, items, i / 2);
      Rebind(held + lost, entries, k, items[i + 1]);
      LiveMore(s, entries, k, items[i + 1]);
      lost := lost + if k in entries then multiset{entries[k]} else multiset{};
      entries := entries[k := items[i + 1]];
      i := i + 2;
    }
    return true, entries;
  }

  lemma NotPairs(s: Store, items: seq<Ptr>, n: nat)
    requires Live(s, items) && |items| % 2 == 0 && 2 * n < |items| && !s[items[2 * n]].data.Str?
    ensures !Pairs(s, items, |items| / 2)
  {
    assert n < |items| / 2;
  }

  lemma LiveMore(s: Store, entries: map<string, Ptr>, k: string, p: Ptr)
    requires LiveEntries(s, entries) && p in s
    ensures LiveEntries(s, entries[k := p])
  {
  }

  lemma NoPairs(s: Store, items: seq<Ptr>)
    ensures LiveEntries(s, map[])
    ensures Pairs(s, items, 0) && Built(s, items, 0) == map[] && Overwritten(s, items, 0) == multiset{}
  {
  }

  lemma NextPair(s: Store, items: seq<Ptr>, n: nat)
    requires Pairs(s, items, n) && 2 * n + 1 < |items|
    requires items[2 * n] in s && s[items[2 * n]].data.Str? && items[2 * n + 1] in s
    ensures Pairs(s, items, n + 1)
    ensures var before, k := Built(s, items, n), s[items[2 * n]].data.s;
            && Built(s, items, n + 1) == before[k := items[2 * n + 1]]
            && Overwritten(s, items, n + 1) == Overwritten(s, items, n) + if k in before then multiset{before[k]} else multiset{}
  {
  }

  lemma SameCellsAt(s: Store, t: Store, p: Ptr)
    requires SameCells(s, t) && p in s
    ensures p in t && t[p].data == s[p].data
  {
  }

  lemma Rebind(handles: multiset<Ptr>, entries: map<string, Ptr>, k: string, v: Ptr)
    ensures handles + Sum(Singles(entries)) + multiset{v} ==
              handles + (if k in entries then multiset{entries[k]} else multiset{}) + Sum(Singles(entries[k := v]))
  {
    hide Sum, Singles;
    if k in entries {
      SlotsOfMap(entries, k);
      SlotsOfMapAdd(entries - {k}, k, v);
      assert (entries - {k})[k := v] == entries[k := v];
    } else {
      SlotsOfMapAdd(entries, k, v);
    }
  }
}
