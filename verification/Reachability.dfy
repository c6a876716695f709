/** Counting against reachability: nothing reachable is freed, and on acyclic heaps nothing else lives. */
module Reachability {
  import opened Wrappers
  import opened RtValues
  import opened RefCounts
  import opened Denotation

  /** A chain of stored references from `path[0]` to its last cell. */
  ghost predicate Chain(s: Store, path: seq<Ptr>) {
    && path != []
    && forall i :: 0 <= i < |path| - 1 ==> Edge(s, path[i], path[i + 1])
  }

  /** A root is held by a handle or can never be freed. */
  ghost predicate Root(s: Store, handles: multiset<Ptr>, p: Ptr) {
    p in handles || (p in s && s[p].rc == IMMORTAL)
  }

  ghost predicate Reachable(s: Store, handles: multiset<Ptr>, p: Ptr) {
    exists path :: Chain(s, path) && Root(s, handles, path[0]) && path[|path| - 1] == p
  }

  /** Safety: whatever a handle or an immortal cell leads to is still allocated. */
  lemma {:induction false} ReachableIsLive(s: Store, handles: multiset<Ptr>, path: seq<Ptr>)
    requires Counts(s, handles) && Settled(s)
    requires Chain(s, path) && Root(s, handles, path[0])
    ensures path[|path| - 1] in s
    decreases |path|
  {
    if |path| == 1 {
      if path[0] in handles {
        NotNull(s, handles, path[0]);
      }
    } else {
      var n := |path| - 2;
      assert Edge(s, path[n], path[n + 1]);
      EdgeTargets(s, handles, path[n], path[n + 1]);
    }
  }

  lemma EdgeTargets(s: Store, handles: multiset<Ptr>, p: Ptr, q: Ptr)
    requires Counts(s, handles) && Settled(s) && Edge(s, p, q)
    ensures q in s && q in Refs(s)
  {
    RefsContain(s, p);
    assert q in CellSlots(s[p]);
    assert q in Refs(s) + handles;
  }

  /** No garbage: on an acyclic heap every cell is reachable. */
  lemma {:induction false} LiveIsReachable(s: Store, handles: multiset<Ptr>, rank: map<Ptr, nat>, bound: nat, p: Ptr)
    requires Counts(s, handles) && Settled(s) && Ranked(s, rank) && p in s
    requires forall q :: q in s ==> rank[q] <= bound
    ensures Reachable(s, handles, p)
    decreases bound - rank[p]
  {
    if Root(s, handles, p) {
      assert Chain(s, [p]);
    } else {
      assert (Refs(s) + handles)[p] == s[p].rc;
      RefsOwner(s, p);
      var owner :| owner in s && p in CellSlots(s[owner]);
      assert Edge(s, owner, p);
      LiveIsReachable(s, handles, rank, bound, owner);
      var path :| Chain(s, path) && Root(s, handles, path[0]) && path[|path| - 1] == owner;
      ChainExtends(s, path, p);
    }
  }

  lemma ChainExtends(s: Store, path: seq<Ptr>, p: Ptr)
    requires Chain(s, path) && Edge(s, path[|path| - 1], p)
    ensures Chain(s, path + [p]) && (path + [p])[0] == path[0] && (path + [p])[|path|] == p
  {
  }

  lemma {:induction false} RankBound(s: Store, rank: map<Ptr, nat>) returns (bound: nat)
    requires s.Keys <= rank.Keys
    ensures forall q :: q in s ==> rank[q] <= bound
    decreases s.Keys
  {
    bound := 0;
    if p :| p in s {
      var rest := RankBound(s - {p}, rank);
      bound := if rank[p] > rest then rank[p] else rest;
      assert forall q :: q in s ==> q == p || q in s - {p};
    }
  }

  /** Exactness: a settled acyclic heap holds precisely the reachable cells. */
  lemma LiveExactlyReachable(s: Store, handles: multiset<Ptr>, p: Ptr)
    requires Counts(s, handles) && Settled(s) && Acyclic(s)
    ensures p in s <==> Reachable(s, handles, p)
  {
    if p in s {
      var rank :| Ranked(s, rank);
      var bound := RankBound(s, rank);
      LiveIsReachable(s, handles, rank, bound, p);
    }
    if path :| Chain(s, path) && Root(s, handles, path[0]) && path[|path| - 1] == p {
      ReachableIsLive(s, handles, path);
    }
  }

  /** A chain of references that ends where it began. */
  ghost predicate Cycle(s: Store, path: seq<Ptr>) {
    Chain(s, path) && |path| > 1 && path[0] == path[|path| - 1]
  }

  lemma ShrinksCells(s: Store, t: Store, cells: set<Ptr>)
    requires Shrinks(s, t) && Supported(s, cells)
    ensures Supported(t, cells)
    ensures forall q :: q in cells ==> q in s && q in t && t[q].data == s[q].data && 0 < t[q].rc <= s[q].rc
  {
    assert Supported(t, cells);
    hide Keeps;
    forall q | q in cells
      ensures q in s && q in t && t[q].data == s[q].data && 0 < t[q].rc <= s[q].rc
    {
      assert HasOwner(s, cells, q) && HasOwner(t, cells, q);
    }
  }

  lemma CycleSupported(s: Store, handles: multiset<Ptr>, path: seq<Ptr>)
    requires Counts(s, handles) && Settled(s) && Cycle(s, path)
    ensures Supported(s, set q | q in path)
  {
    var cells := set q | q in path;
    forall q | q in cells
      ensures HasOwner(s, cells, q)
    {
      var i :| 0 <= i < |path| && path[i] == q;
      var before := if i == 0 then |path| - 2 else i - 1;
      assert path[before + 1] == q && Edge(s, path[before], path[before + 1]);
      EdgeTargets(s, handles, path[before], q);
      assert path[before] in cells;
    }
  }

  /** Whatever is released, every cell on a cycle stays, with its payload. */
  lemma CycleStays(s: Store, handles: multiset<Ptr>, t: Store, path: seq<Ptr>)
    requires Counts(s, handles) && Settled(s) && Cycle(s, path) && Shrinks(s, t)
    ensures forall q :: q in path ==> q in t && t[q].data == s[q].data && t[q].rc > 0
    ensures Cycle(t, path)
  {
    var cells := set q | q in path;
    CycleSupported(s, handles, path);
    ShrinksCells(s, t, cells);
    hide Supported, Shrinks, Counts;
    assert forall q :: q in path ==> q in cells;
    forall i | 0 <= i < |path| - 1
      ensures Edge(t, path[i], path[i + 1])
    {
      assert Edge(s, path[i], path[i + 1]) && path[i] in cells;
    }
  }

  /** The cells that nothing outside reaches. */
  ghost function Unreachable(s: Store, handles: multiset<Ptr>): set<Ptr> {
    set p | p in s && !Reachable(s, handles, p)
  }

  /** Garbage keeps itself alive: each of its cells is owned by another, or by itself. */
  lemma GarbageSupported(s: Store, handles: multiset<Ptr>)
    requires Counts(s, handles) && Settled(s)
    ensures Supported(s, Unreachable(s, handles))
  {
    var cells := Unreachable(s, handles);
    forall q | q in cells
      ensures HasOwner(s, cells, q)
    {
      GarbageOwner(s, handles, q);
    }
  }

  lemma GarbageOwner(s: Store, handles: multiset<Ptr>, q: Ptr)
    requires Counts(s, handles) && Settled(s) && q in Unreachable(s, handles)
    ensures HasOwner(s, Unreachable(s, handles), q)
  {
    if Root(s, handles, q) {
      assert Chain(s, [q]);
    }
    assert (Refs(s) + handles)[q] == s[q].rc;
    RefsOwner(s, q);
    var owner :| owner in s && q in CellSlots(s[owner]);
    assert Edge(s, owner, q);
    if Reachable(s, handles, owner) {
      var path :| Chain(s, path) && Root(s, handles, path[0]) && path[|path| - 1] == owner;
      ChainExtends(s, path, q);
    }
  }

  /** No leak is ever collected: what nothing reaches stays in the heap, whatever is released. There is
      such garbage only in a cyclic heap. */
  lemma GarbageStays(s: Store, handles: multiset<Ptr>, t: Store)
    requires Counts(s, handles) && Settled(s) && Shrinks(s, t)
    ensures forall p :: p in s && !Reachable(s, handles, p) ==> p in t && t[p].data == s[p].data && t[p].rc > 0
    ensures Acyclic(s) ==> forall p :: p in s ==> Reachable(s, handles, p)
  {
    var cells := Unreachable(s, handles);
    GarbageSupported(s, handles);
    ShrinksCells(s, t, cells);
    hide Supported, Shrinks, Counts;
    assert forall p :: p in s && !Reachable(s, handles, p) ==> p in cells;
    if Acyclic(s) {
      forall p | p in s
        ensures Reachable(s, handles, p)
      {
        LiveExactlyReachable(s, handles, p);
      }
    }
  }

  /** Once every handle is given back, only immortal cells and what they lead to remain of an acyclic heap. */
  lemma AllReleased(s: Store, p: Ptr)
    requires Counts(s, multiset{}) && Settled(s) && Acyclic(s) && p in s
    ensures exists path :: Chain(s, path) && path[|path| - 1] == p && path[0] in s && s[path[0]].rc == IMMORTAL
  {
    LiveExactlyReachable(s, multiset{}, p);
    var path :| Chain(s, path) && Root(s, multiset{}, path[0]) && path[|path| - 1] == p;
  }

  /** Once every handle is given back and no container's count has saturated, nothing but immortal cells
      is left exactly when the heap is acyclic. */
  lemma LeaksIffCyclic(s: Store)
    requires Counts(s, multiset{}) && Settled(s)
    requires forall q :: q in s && s[q].rc == IMMORTAL ==> Slots(s[q].data) == multiset{}
    ensures (forall p :: p in s ==> s[p].rc == IMMORTAL) <==> Acyclic(s)
  {
    if forall p :: p in s ==> s[p].rc == IMMORTAL {
      var rank := map p | p in s :: 0;
      assert Ranked(s, rank);
    }
    if Acyclic(s) {
      forall p | p in s
        ensures s[p].rc == IMMORTAL
      {
        AllReleased(s, p);
        var path :| Chain(s, path) && path[|path| - 1] == p && path[0] in s && s[path[0]].rc == IMMORTAL;
        assert |path| > 1 ==> Edge(s, path[0], path[0 + 1]);
      }
    }
  }

  /** The counts themselves are determined by the payloads, the handles and which cells are immortal. */
  lemma CountsUnique(s: Store, t: Store, handles: multiset<Ptr>)
    requires Counts(s, handles) && Settled(s) && Counts(t, handles) && Settled(t)
    requires s.Keys == t.Keys
    requires forall p :: p in s ==> s[p].data == t[p].data && (s[p].rc == IMMORTAL <==> t[p].rc == IMMORTAL)
    ensures s == t
  {
    assert SlotMap(s) == SlotMap(t);
    assert Refs(s) == Refs(t);
  }

  // ----- keeping the heap well shaped and acyclic -----

  /** A heap whose payloads are among those of an acyclic heap is acyclic. */
  lemma SubAcyclic(s: Store, t: Store)
    requires Acyclic(s)
    requires forall p :: p in t ==> p in s && t[p].data == s[p].data
    requires forall p, q :: Edge(t, p, q) ==> q in t
    ensures Acyclic(t)
  {
    var rank :| Ranked(s, rank);
    forall p, q | Edge(t, p, q)
      ensures q in t && rank[q] < rank[p]
    {
      assert Edge(s, p, q);
    }
    assert Ranked(t, rank);
  }

  /** Giving a payload to a cell that nothing points to keeps the heap acyclic exactly when the
      payload does not refer to the cell itself. */
  lemma SetAcyclic(s: Store, p: Ptr, c: Cell)
    requires Acyclic(s)
    requires forall q :: q in s ==> !Edge(s, q, p)
    requires forall q :: q in Slots(c.data) ==> q in s || q == p
    ensures Acyclic(s[p := c]) <==> p !in Slots(c.data)
  {
    var t := s[p := c];
    if p in Slots(c.data) {
      assert Edge(t, p, p);
    } else {
      var rank :| Ranked(s, rank);
      var bound := RankBound(s, rank);
      var raised := rank[p := bound + 1];
      forall q, r | Edge(t, q, r)
        ensures r in t && raised[r] < raised[q]
      {
        if q != p {
          assert Edge(s, q, r);
        }
      }
      assert Ranked(t, raised);
    }
  }

  lemma EdgesInside(s: Store, handles: multiset<Ptr>)
    requires Counts(s, handles) && Settled(s)
    ensures forall p, q :: Edge(s, p, q) ==> q in s
  {
    forall p, q | Edge(s, p, q)
      ensures q in s
    {
      EdgeTargets(s, handles, p, q);
    }
  }

  lemma NotStored(s: Store, p: Ptr)
    requires Settled(s) && p !in Refs(s)
    ensures forall q :: q in s ==> !Edge(s, q, p)
  {
    forall q | q in s
      ensures !Edge(s, q, p)
    {
      RefsContain(s, q);
    }
  }

  /** Frees and count changes keep the shape, acyclicity and every surviving denotation. */
  lemma SameData(s: Store, t: Store, handles: multiset<Ptr>)
    requires Shape(s) && Counts(t, handles) && Settled(t)
    requires forall p :: p in t ==> p in s && t[p].data == s[p].data
    ensures Shape(t)
    ensures Acyclic(s) ==> Acyclic(t)
    ensures Acyclic(s) ==> forall p :: p in t ==> Meaning(t, p) == Meaning(s, p)
  {
    EdgesInside(t, handles);
    forall p | p in t && t[p].data.List? && t[p].data.parent.Some?
      ensures t[p].data.parent.value in t
    {
      assert Edge(t, p, t[p].data.parent.value);
    }
    if Acyclic(s) {
      SubAcyclic(s, t);
      assert Agree(t, s, t.Keys);
      forall p | p in t
        ensures Meaning(t, p) == Meaning(s, p)
      {
        MeaningFrame(t, s, t.Keys, p);
      }
    }
  }

  /** A fresh or solely held cell can take a well-shaped payload; all other denotations stay. */
  lemma SetCell(s: Store, p: Ptr, c: Cell)
    requires Shape(s) && Acyclic(s)
    requires forall q :: q in s ==> !Edge(s, q, p)
    requires forall q :: q in Slots(c.data) ==> q in s
    requires p !in Slots(c.data) && ListShape(s, c.data)
    ensures Shape(s[p := c]) && Acyclic(s[p := c])
    ensures forall q :: q in s && q != p ==> Meaning(s[p := c], q) == Meaning(s, q)
  {
    var t := s[p := c];
    SetAcyclic(s, p, c);
    SetShape(s, p, c);
    var dom := s.Keys - {p};
    var rank :| Ranked(s, rank);
    forall q, r | q in dom && Edge(s, q, r)
      ensures r in dom
    {
      assert r in s && !Edge(s, q, p);
    }
    assert Agree(s, t, dom);
    forall q | q in dom
      ensures Meaning(t, q) == Meaning(s, q)
    {
      MeaningFrame(s, t, dom, q);
    }
  }

  lemma SetShape(s: Store, p: Ptr, c: Cell)
    requires Shape(s)
    requires forall q :: q in s ==> !Edge(s, q, p)
    requires ListShape(s, c.data) && (c.data.List? ==> c.data.parent != Some(p))
    ensures Shape(s[p := c])
  {
    var t := s[p := c];
    forall q | q in t
      ensures ListShape(t, t[q].data)
    {
      if q != p && s[q].data.List? && s[q].data.parent.Some? {
        assert Edge(s, q, s[q].data.parent.value);
      }
    }
  }
}
