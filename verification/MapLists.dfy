/** The keys and the values of a map as lists, in the order of the keys. */
module MapLists {
  import opened Denotation
  import opened Lists
  import opened Maps
  import opened RefCounts
  import opened RtHeap
  import opened RtValues
  import opened Strings
  import opened Values
  import opened Wrappers

  // ----- the order of keys -----

  /** These strings, each once, in increasing order. */
  ghost predicate IsOrderOf(ks: seq<string>, keys: set<string>) {
    (forall i, j :: 0 <= i < j < |ks| ==> Precedes(ks[i], ks[j])) && forall k :: k in ks <==> k in keys
  }

  function InsertKey(k: string, ks: seq<string>): seq<string> {
    if ks == [] || LexLess(k, ks[0]) then [k] + ks else [ks[0]] + InsertKey(k, ks[1..])
  }

  lemma TailOrder(ks: seq<string>, keys: set<string>)
    requires IsOrderOf(ks, keys) && ks != []
    ensures ks[0] in keys && IsOrderOf(ks[1..], keys - {ks[0]}) && forall k :: k in ks[1..] ==> Precedes(ks[0], k)
  {
    PrecedesOrder(ks[0], ks[0], ks[0]);
    hide Precedes;
    assert ks == [ks[0]] + ks[1..];
    forall i, j | 0 <= i < j < |ks[1..]|
      ensures Precedes(ks[1..][i], ks[1..][j])
    {
      assert Precedes(ks[i + 1], ks[j + 1]);
    }
    assert forall k :: k in ks[1..] ==> Precedes(ks[0], k);
    assert !Precedes(ks[0], ks[0]);
  }

  lemma ConsOrder(k: string, ks: seq<string>, keys: set<string>)
    requires IsOrderOf(ks, keys) && forall x :: x in ks ==> Precedes(k, x)
    ensures IsOrderOf([k] + ks, keys + {k})
  {
    hide Precedes;
    var all := [k] + ks;
    forall i, j | 0 <= i < j < |all|
      ensures Precedes(all[i], all[j])
    {
      assert all[j] == ks[j - 1];
      if i > 0 {
        assert all[i] == ks[i - 1];
      }
    }
  }

  lemma {:induction false} InsertOrder(k: string, ks: seq<string>, keys: set<string>)
    requires IsOrderOf(ks, keys) && k !in keys
    ensures IsOrderOf(InsertKey(k, ks), keys + {k})
    decreases |ks|
  {
    if ks == [] {
      ConsOrder(k, ks, keys);
    } else {
      TailOrder(ks, keys);
      PrecedesOrder(k, ks[0], ks[0]);
      LexLessIsPrecedes(k, ks[0]);
      hide LexLess, Precedes, IsOrderOf;
      if LexLess(k, ks[0]) {
        forall x | x in ks
          ensures Precedes(k, x)
        {
          PrecedesOrder(k, ks[0], x);
          assert x == ks[0] || x in ks[1..];
        }
        ConsOrder(k, ks, keys);
      } else {
        var rest := InsertKey(k, ks[1..]);
        InsertOrder(k, ks[1..], keys - {ks[0]});
        OrderMembers(rest, keys - {ks[0]} + {k});
        forall x | x in rest
          ensures Precedes(ks[0], x)
        {
          OrderMembers(ks[1..], keys - {ks[0]});
        }
        ConsOrder(ks[0], rest, keys - {ks[0]} + {k});
        assert keys - {ks[0]} + {k} + {ks[0]} == keys + {k};
      }
    }
  }

  lemma OrderMembers(ks: seq<string>, keys: set<string>)
    requires IsOrderOf(ks, keys)
    ensures forall k :: k in ks <==> k in keys
  {
  }

  /** There is one order of given keys. */
  lemma {:induction false} OneOrder(ks: seq<string>, ms: seq<string>, keys: set<string>)
    requires IsOrderOf(ks, keys) && IsOrderOf(ms, keys)
    ensures ks == ms
    decreases |ks|
  {
    if ks != [] && ms != [] {
      TailOrder(ks, keys);
      TailOrder(ms, keys);
      SameFirst(ks, ms, keys);
      OneOrder(ks[1..], ms[1..], keys - {ks[0]});
      assert ks == [ks[0]] + ks[1..] && ms == [ms[0]] + ms[1..];
    } else {
      EmptyOrder(ks, keys);
      EmptyOrder(ms, keys);
    }
  }

  lemma EmptyOrder(ks: seq<string>, keys: set<string>)
    requires IsOrderOf(ks, keys)
    ensures ks == [] <==> keys == {}
  {
    if ks != [] {
      assert ks[0] in keys;
    }
  }

  lemma SameFirst(ks: seq<string>, ms: seq<string>, keys: set<string>)
    requires ks != [] && ms != [] && ks[0] in keys && ms[0] in keys && IsOrderOf(ks, keys) && IsOrderOf(ms, keys)
    requires forall k :: k in ks[1..] ==> Precedes(ks[0], k)
    requires forall k :: k in ms[1..] ==> Precedes(ms[0], k)
    ensures ks[0] == ms[0]
  {
    PrecedesOrder(ks[0], ms[0], ks[0]);
    hide Precedes;
    assert ks == [ks[0]] + ks[1..] && ms == [ms[0]] + ms[1..];
    assert ms[0] in ks && ks[0] in ms;
  }

  lemma {:induction false} HasOrder(keys: set<string>) returns (ks: seq<string>)
    ensures IsOrderOf(ks, keys)
    decreases |keys|
  {
    ks := [];
    if k :| k in keys {
      var rest := HasOrder(keys - {k});
      ks := InsertKey(k, rest);
      InsertOrder(k, rest, keys - {k});
      assert keys - {k} + {k} == keys;
    }
  }

  /** The keys in order, as sorting gives them. */
  method SortKeys(keys: set<string>) returns (ks: seq<string>)
    ensures IsOrderOf(ks, keys)
  {
    ks := [];
    var rest := keys;
    while rest != {}
      invariant rest <= keys && IsOrderOf(ks, keys - rest)
      decreases rest
    {
      var k :| k in rest;
      InsertOrder(k, ks, keys - rest);
      assert keys - rest + {k} == keys - (rest - {k});
      ks, rest := InsertKey(k, ks), rest - {k};
    }
    assert keys - {} == keys;
  }

  // ----- values -----

  ghost predicate Bound(entries: map<string, Value>, ks: seq<string>) {
    forall i :: 0 <= i < |ks| ==> ks[i] in entries
  }

  ghost function InOrder(entries: map<string, Value>, ks: seq<string>): seq<Value>
    requires Bound(entries, ks)
  {
    seq(|ks|, (i: nat) requires i < |ks| && ks[i] in entries => entries[ks[i]])
  }

  /** The bound values, retained, in the order of their keys. */
  method MapValues(h: Heap, m: Ptr) returns (r: Result<Ptr, string>, ghost ks: seq<string>)
    requires h.Valid() && m in h.cells
    modifies h`cells, h`handles, h`crowded
    ensures h.Valid()
    ensures r.Ok? <==> old(h.cells[m]).data.Map?
    ensures r.Err? ==> h.cells == old(h.cells) && h.handles == old(h.handles)
    ensures r.Ok? ==>
              && h.handles == old(h.handles) + multiset{r.value} && r.value !in old(h.cells)
              && IsOrderOf(ks, old(h.cells[m]).data.entries.Keys)
    ensures r.Ok? && old(Acyclic(h.cells)) ==>
              && Bound(EntriesOf(old(Meaning(h.cells, m))), ks) && Acyclic(h.cells)
              && Yields(old(h.cells), h.cells, {}, r.value, VList(InOrder(EntriesOf(old(Meaning(h.cells, m))), ks)))
    ensures r.Err? ==> r.error == "airl_map_values: argument must be a Map"
  {
    EntriesLive(h.cells, h.handles, m);
    hide Sound, Counts, Slots, Settled, Shape, PoolCells, PoolFull, Marked, Refines, SameCells, Grows, Yields, Acyclic, Bump, Meaning;
    ks := [];
    match h.cells[m].data
    case Map(entries) =>
      var keys := SortKeys(entries.Keys);
      OrderMembers(keys, entries.Keys);
      ks := keys;
      var items := Picked(entries, keys);
      PickedLive(h.cells, entries, keys);
      PickedMeanings(h.cells, m, keys);
      var p := ListNew(h, items);
      return Ok(p), ks;
    case _ =>
      return Err("airl_map_values: argument must be a Map"), ks;
  }

  function Picked(entries: map<string, Ptr>, ks: seq<string>): (items: seq<Ptr>)
    requires forall k :: k in ks ==> k in entries
    ensures |items| == |ks| && forall i :: 0 <= i < |ks| ==> items[i] == entries[ks[i]]
  {
    seq(|ks|, i requires 0 <= i < |ks| => entries[ks[i]])
  }

  lemma PickedLive(s: Store, entries: map<string, Ptr>, ks: seq<string>)
    requires LiveEntries(s, entries) && forall k :: k in ks ==> k in entries
    ensures Live(s, Picked(entries, ks))
  {
  }

  lemma PickedMeanings(s: Store, m: Ptr, ks: seq<string>)
    requires Shape(s) && m in s && s[m].data.Map? && LiveEntries(s, s[m].data.entries)
    requires forall k :: k in ks ==> k in s[m].data.entries
    ensures Acyclic(s) ==>
              && Live(s, Picked(s[m].data.entries, ks)) && Bound(EntriesOf(Meaning(s, m)), ks)
              && Meanings(s, Picked(s[m].data.entries, ks)) == InOrder(EntriesOf(Meaning(s, m)), ks)
  {
    if Acyclic(s) {
      MeaningOfMap(s, m);
      hide Acyclic, Shape, Meaning;
    }
  }

  // ----- keys -----

  /** Cells that hold these strings. */
  ghost predicate HoldKeys(s: Store, items: seq<Ptr>, ks: seq<string>) {
    |items| <= |ks| && forall i :: 0 <= i < |items| ==> items[i] in s && s[items[i]].data == Str(ks[i])
  }

  ghost function KeyValues(ks: seq<string>): seq<Value> {
    seq(|ks|, (i: nat) requires i < |ks| => VStr(ks[i]))
  }

  /** The keys, as strings of the runtime, in order. */
  method MapKeys(h: Heap, m: Ptr) returns (r: Result<Ptr, string>, ghost ks: seq<string>)
    requires h.Valid() && m in h.cells
    modifies h
    ensures h.Valid()
    ensures r.Ok? <==> old(h.cells[m]).data.Map?
    ensures r.Err? ==> h.cells == old(h.cells) && h.handles == old(h.handles)
    ensures r.Ok? ==>
              && h.handles == old(h.handles) + multiset{r.value} && r.value !in old(h.cells)
              && IsOrderOf(ks, old(h.cells[m]).data.entries.Keys)
    ensures r.Ok? && old(Acyclic(h.cells)) ==>
              Acyclic(h.cells) && Yields(old(h.cells), h.cells, {}, r.value, VList(KeyValues(ks)))
    ensures r.Err? ==> r.error == "airl_map_keys: argument must be a Map"
  {
    hide Sound, Counts, Slots, Settled, Shape, PoolCells, PoolFull, Marked, Refines, SameCells, Grows, Yields, Acyclic, Bump, Meaning,
         HoldKeys, KeyValues, ListShape;
    ks := [];
    match h.cells[m].data
    case Map(entries) =>
      var keys := SortKeys(entries.Keys);
      ks := keys;
      ghost var s, held := h.cells, h.handles;
      var items := MakeKeys(h, keys);
      ghost var t, mid := h.cells, h.handles;
      OwnKeys(t, held, items);
      var p := h.Alloc(List(items, 0, None));
      KeysMeaning(s, held, t, mid, h.cells, h.handles, p, items, keys);
      return Ok(p), ks;
    case _ =>
      return Err("airl_map_keys: argument must be a Map"), ks;
  }

  lemma OwnKeys(t: Store, held: multiset<Ptr>, items: seq<Ptr>)
    ensures Slots(List(items, 0, None)) <= held + multiset(items) && ListShape(t, List(items, 0, None))
    ensures held + multiset(items) - Slots(List(items, 0, None)) == held
  {
    SlotsOf(List(items, 0, None));
  }

  /** The loop that makes one string for each key. */
  method MakeKeys(h: Heap, keys: seq<string>) returns (items: seq<Ptr>)
    requires h.Valid()
    modifies h
    ensures h.Valid() && h.handles == old(h.handles) + multiset(items) && Grows(old(h.cells), h.cells)
    ensures |items| == |keys| && HoldKeys(h.cells, items, keys)
    ensures old(Acyclic(h.cells)) ==> Acyclic(h.cells) && Refines(old(h.cells), h.cells, {})
  {
    hide Sound, Counts, Slots, Settled, Shape, PoolCells, PoolFull, Marked, Refines, SameCells, Grows, Yields, Acyclic, Bump, Meaning,
         HoldKeys;
    items := [];
    NothingDone(h.cells, h.handles);
    NoKeys(h.cells, keys);
    for i := 0 to |keys|
      invariant h.Valid() && |items| == i && h.handles == old(h.handles) + multiset(items) && Grows(old(h.cells), h.cells)
      invariant HoldKeys(h.cells, items, keys)
      invariant old(Acyclic(h.cells)) ==> Acyclic(h.cells) && Refines(old(h.cells), h.cells, {})
    {
      ghost var before, held := h.cells, h.handles;
      var p := MakeFlat(h, Str(keys[i]));
      MoreKeys(before, h.cells, items, keys, p);
      YieldsRefines(before, held, h.cells, p, VStr(keys[i]));
      GrowsChain(old(h.cells), old(h.handles), before, held, h.cells);
      items := items + [p];
    }
  }

  lemma NoKeys(s: Store, ks: seq<string>)
    ensures HoldKeys(s, [], ks) && Grows(s, s)
  {
  }

  lemma MoreKeys(s: Store, t: Store, items: seq<Ptr>, ks: seq<string>, p: Ptr)
    requires HoldKeys(s, items, ks) && Grows(s, t) && |items| < |ks| && p in t && t[p].data == Str(ks[|items|])
    ensures HoldKeys(t, items + [p], ks)
  {
  }

  lemma YieldsRefines(s: Store, hs: multiset<Ptr>, t: Store, p: Ptr, v: Value)
    requires Sound(s, hs)
    ensures Acyclic(s) && Yields(s, t, {}, p, v) ==> Refines(s, t, {})
  {
    hide Acyclic, Counts, Settled, Shape, Meaning, Refines;
  }

  lemma GrowsChain(s: Store, hs: multiset<Ptr>, t: Store, ht: multiset<Ptr>, u: Store)
    requires Sound(s, hs) && Sound(t, ht) && Grows(s, t) && Grows(t, u)
    ensures Grows(s, u)
    ensures Acyclic(s) && Refines(s, t, {}) && Acyclic(t) && Refines(t, u, {}) ==> Refines(s, u, {})
  {
    hide Counts, Settled, Meaning, Acyclic, Shape;
  }

  lemma KeysMeaning(s: Store, hs: multiset<Ptr>, t: Store, ht: multiset<Ptr>, u: Store, hu: multiset<Ptr>, p: Ptr,
                    items: seq<Ptr>, ks: seq<string>)
    requires Sound(s, hs) && Sound(t, ht) && Sound(u, hu) && Grows(s, t) && Grows(t, u)
    requires HoldKeys(t, items, ks) && |items| == |ks| && p !in t && p in u && u[p].data == List(items, 0, None)
    ensures p !in s
    ensures Acyclic(s) && Refines(s, t, {}) && Acyclic(t) && Refines(t, u, {}) && Acyclic(u) ==>
              Yields(s, u, {}, p, VList(KeyValues(ks)))
  {
    GrowsChain(s, hs, t, ht, u);
    HeldStay(t, u, items, ks);
    hide Counts, Settled, Shape, Refines, Acyclic, Meaning, HoldKeys, KeyValues, Meanings, Grows;
    if Acyclic(s) && Refines(s, t, {}) && Acyclic(t) && Refines(t, u, {}) && Acyclic(u) {
      KeysMean(u, items, ks);
      MeaningOfList(u, p);
    }
  }

  lemma HeldStay(t: Store, u: Store, items: seq<Ptr>, ks: seq<string>)
    requires HoldKeys(t, items, ks) && Grows(t, u)
    ensures HoldKeys(u, items, ks)
  {
  }

  lemma KeysMean(u: Store, items: seq<Ptr>, ks: seq<string>)
    requires Shape(u) && Acyclic(u) && HoldKeys(u, items, ks) && |items| == |ks|
    ensures Live(u, items) && Meanings(u, items) == KeyValues(ks)
  {
    hide Shape, Acyclic, Meaning;
    forall i | 0 <= i < |items|
      ensures items[i] in u && Meaning(u, items[i]) == VStr(ks[i])
    {
      MeaningOfFlat(u, items[i]);
    }
  }
}
