/** What a cell denotes, and which heaps give every cell a denotation. */
module Denotation {
  import opened RtValues

  /** The values of the language, free of addresses and counts. */
  datatype Value =
    | VNil
    | VUnit
    | VInt(i: int)
    | VFloat(bits: int)
    | VBool(b: bool)
    | VStr(s: string)
    | VBytes(bytes: seq<int>)
    | VList(elems: seq<Value>)
    | VMap(entries: map<string, Value>)
    | VVariant(tag: string, inner: Value)
    | VClosure(func: int, captures: seq<Value>)
    | VPartial(name: string, captured: seq<Value>, remaining: nat)

  /** Lists own their items from offset 0; a view shows a suffix of a live root, never of a view. */
  ghost predicate ListShape(s: Store, d: Data) {
    d.List? ==>
      if d.parent.None? then d.offset == 0
      else
        && d.items == []
        && d.parent.value in s
        && s[d.parent.value].data.List?
        && s[d.parent.value].data.parent.None?
        && d.offset <= |s[d.parent.value].data.items|
  }

  ghost predicate Shape(s: Store) {
    forall p :: p in s ==> ListShape(s, s[p].data)
  }

  ghost predicate Edge(s: Store, p: Ptr, q: Ptr) {
    p in s && q in Slots(s[p].data)
  }

  ghost predicate Ranked(s: Store, rank: map<Ptr, nat>) {
    && s.Keys <= rank.Keys
    && forall p, q :: Edge(s, p, q) ==> q in s && rank[q] < rank[p]
  }

  ghost predicate Acyclic(s: Store) {
    exists rank :: Ranked(s, rank)
  }

  /** The items a list shows, through its root when it is a view. */
  function Items(s: Store, d: Data): (items: seq<Ptr>)
    requires d.List? && ListShape(s, d)
  {
    if d.parent.Some? then s[d.parent.value].data.items[d.offset..] else d.items
  }

  /** Every pointer that the denotation of a cell looks at ranks below the cell. */
  ghost predicate Below(rank: map<Ptr, nat>, s: Store, ps: seq<Ptr>, bound: nat) {
    forall i :: 0 <= i < |ps| ==> ps[i] in s && ps[i] in rank && rank[ps[i]] < bound
  }

  lemma ItemsBelow(s: Store, rank: map<Ptr, nat>, p: Ptr)
    requires Shape(s) && Ranked(s, rank) && p in s && s[p].data.List?
    ensures Below(rank, s, Items(s, s[p].data), rank[p])
  {
    var items := Items(s, s[p].data);
    var parent := s[p].data.parent;
    forall i | 0 <= i < |items|
      ensures items[i] in s && rank[items[i]] < rank[p]
    {
      if parent.Some? {
        assert Edge(s, p, parent.value);
        assert items[i] in s[parent.value].data.items;
        assert Edge(s, parent.value, items[i]);
      } else {
        assert Edge(s, p, items[i]);
      }
    }
  }

  lemma EntriesBelow(s: Store, rank: map<Ptr, nat>, p: Ptr)
    requires Ranked(s, rank) && p in s && s[p].data.Map?
    ensures forall k :: k in s[p].data.entries ==>
              s[p].data.entries[k] in s && rank[s[p].data.entries[k]] < rank[p]
  {
    forall k | k in s[p].data.entries
      ensures s[p].data.entries[k] in s && rank[s[p].data.entries[k]] < rank[p]
    {
      SlotsOfMapMember(s[p].data.entries, s[p].data.entries[k]);
      assert Edge(s, p, s[p].data.entries[k]);
    }
  }

  lemma OthersBelow(s: Store, rank: map<Ptr, nat>, p: Ptr)
    requires Ranked(s, rank) && p in s
    ensures s[p].data.Variant? ==> Below(rank, s, [s[p].data.inner], rank[p])
    ensures s[p].data.Closure? ==> Below(rank, s, s[p].data.captures, rank[p])
    ensures s[p].data.PartialApp? ==> Below(rank, s, s[p].data.captured, rank[p])
  {
    match s[p].data
    case Variant(_, inner) =>
      assert Edge(s, p, inner);
    case Closure(_, captures) =>
      forall i | 0 <= i < |captures|
        ensures captures[i] in s && rank[captures[i]] < rank[p]
      {
        assert Edge(s, p, captures[i]);
      }
    case PartialApp(_, captured, _) =>
      forall i | 0 <= i < |captured|
        ensures captured[i] in s && rank[captured[i]] < rank[p]
      {
        assert Edge(s, p, captured[i]);
      }
    case _ =>
  }

  ghost function Den(s: Store, rank: map<Ptr, nat>, p: Ptr): Value
    requires Shape(s) && Ranked(s, rank) && p in s
    decreases rank[p], 1
  {
    match s[p].data
    case Nil => VNil
    case Unit => VUnit
    case Int(i) => VInt(i)
    case Float(bits) => VFloat(bits)
    case Bool(b) => VBool(b)
    case Str(t) => VStr(t)
    case Bytes(bytes) => VBytes(bytes)
    case List(_, _, _) =>
      ItemsBelow(s, rank, p);
      VList(DenAll(s, rank, Items(s, s[p].data), rank[p]))
    case Map(entries) =>
      EntriesBelow(s, rank, p);
      VMap(map k | k in entries :: Den(s, rank, entries[k]))
    case Variant(tag, inner) =>
      OthersBelow(s, rank, p);
      VVariant(tag, DenAll(s, rank, [inner], rank[p])[0])
    case Closure(func, captures) =>
      OthersBelow(s, rank, p);
      VClosure(func, DenAll(s, rank, captures, rank[p]))
    case PartialApp(name, captured, remaining) =>
      OthersBelow(s, rank, p);
      VPartial(name, DenAll(s, rank, captured, rank[p]), remaining)
  }

  ghost function DenAll(s: Store, rank: map<Ptr, nat>, ps: seq<Ptr>, bound: nat): (vs: seq<Value>)
    requires Shape(s) && Ranked(s, rank) && Below(rank, s, ps, bound)
    ensures |vs| == |ps|
    ensures forall i :: 0 <= i < |ps| ==> vs[i] == Den(s, rank, ps[i])
    decreases bound, 0
  {
    seq(|ps|, (i: nat) requires i < |ps| && ps[i] in s && rank[ps[i]] < bound => Den(s, rank, ps[i]))
  }

  // ----- the denotation depends only on the cells that are reached -----

  /** `dom` is closed under edges and both heaps agree on its payloads. */
  ghost predicate Agree(s: Store, t: Store, dom: set<Ptr>) {
    && dom <= s.Keys && dom <= t.Keys
    && (forall p :: p in dom ==> s[p].data == t[p].data)
    && (forall p, q :: p in dom && Edge(s, p, q) ==> q in dom)
  }

  lemma {:induction false} DenFrame(s: Store, rs: map<Ptr, nat>, t: Store, rt: map<Ptr, nat>, dom: set<Ptr>, p: Ptr)
    requires Shape(s) && Ranked(s, rs) && Shape(t) && Ranked(t, rt)
    requires Agree(s, t, dom) && p in dom
    ensures Den(s, rs, p) == Den(t, rt, p)
    decreases rs[p], 2
  {
    match s[p].data
    case List(_, _, _) =>
      DenFrameList(s, rs, t, rt, dom, p);
    case Map(_) =>
      DenFrameMap(s, rs, t, rt, dom, p);
    case Variant(_, _) =>
      DenFrameOther(s, rs, t, rt, dom, p);
    case Closure(_, _) =>
      DenFrameOther(s, rs, t, rt, dom, p);
    case PartialApp(_, _, _) =>
      DenFrameOther(s, rs, t, rt, dom, p);
    case _ =>
  }

  lemma {:induction false} DenFrameList(s: Store, rs: map<Ptr, nat>, t: Store, rt: map<Ptr, nat>, dom: set<Ptr>, p: Ptr)
    requires Shape(s) && Ranked(s, rs) && Shape(t) && Ranked(t, rt)
    requires Agree(s, t, dom) && p in dom
    requires s[p].data.List?
    ensures Den(s, rs, p) == Den(t, rt, p)
    decreases rs[p], 1
  {
    var parent := s[p].data.parent;
    if parent.Some? {
      assert Edge(s, p, parent.value);
    }
    ItemsInDom(s, t, dom, p);
    ItemsBelow(s, rs, p);
    ItemsBelow(t, rt, p);
    DenAllFrame(s, rs, t, rt, dom, Items(s, s[p].data), rs[p], rt[p]);
  }

  lemma {:induction false} DenFrameMap(s: Store, rs: map<Ptr, nat>, t: Store, rt: map<Ptr, nat>, dom: set<Ptr>, p: Ptr)
    requires Shape(s) && Ranked(s, rs) && Shape(t) && Ranked(t, rt)
    requires Agree(s, t, dom) && p in dom
    requires s[p].data.Map?
    ensures Den(s, rs, p) == Den(t, rt, p)
    decreases rs[p], 1
  {
    var entries := s[p].data.entries;
    EntriesInDom(s, t, dom, p);
    EntriesBelow(s, rs, p);
    EntriesBelow(t, rt, p);
    forall k | k in entries
      ensures Den(s, rs, entries[k]) == Den(t, rt, entries[k])
    {
      DenFrame(s, rs, t, rt, dom, entries[k]);
    }
    assert Den(s, rs, p).entries == Den(t, rt, p).entries;
  }

  lemma EntriesInDom(s: Store, t: Store, dom: set<Ptr>, p: Ptr)
    requires Agree(s, t, dom) && p in dom && s[p].data.Map?
    ensures forall k :: k in s[p].data.entries ==> s[p].data.entries[k] in dom
  {
    var entries := s[p].data.entries;
    forall k | k in entries
      ensures entries[k] in dom
    {
      SlotsOfMapMember(entries, entries[k]);
      assert Edge(s, p, entries[k]);
    }
  }

  lemma {:induction false} DenFrameOther(s: Store, rs: map<Ptr, nat>, t: Store, rt: map<Ptr, nat>, dom: set<Ptr>, p: Ptr)
    requires Shape(s) && Ranked(s, rs) && Shape(t) && Ranked(t, rt)
    requires Agree(s, t, dom) && p in dom
    requires s[p].data.Variant? || s[p].data.Closure? || s[p].data.PartialApp?
    ensures Den(s, rs, p) == Den(t, rt, p)
    decreases rs[p], 1
  {
    OthersBelow(s, rs, p);
    OthersBelow(t, rt, p);
    var ps := match s[p].data
      case Variant(_, inner) => [inner]
      case Closure(_, captures) => captures
      case PartialApp(_, captured, _) => captured
      case _ => [];
    assert forall q :: q in ps ==> Edge(s, p, q);
    DenAllFrame(s, rs, t, rt, dom, ps, rs[p], rt[p]);
  }

  lemma ItemsInDom(s: Store, t: Store, dom: set<Ptr>, p: Ptr)
    requires Shape(s) && Shape(t) && Agree(s, t, dom) && p in dom && s[p].data.List?
    requires s[p].data.parent.Some? ==> s[p].data.parent.value in dom
    ensures Items(s, s[p].data) == Items(t, t[p].data)
    ensures forall q :: q in Items(s, s[p].data) ==> q in dom
  {
    var root := if s[p].data.parent.Some? then s[p].data.parent.value else p;
    forall q | q in Items(s, s[p].data)
      ensures q in dom
    {
      assert q in s[root].data.items;
      assert Edge(s, root, q);
    }
  }

  lemma {:induction false} DenAllFrame(s: Store, rs: map<Ptr, nat>, t: Store, rt: map<Ptr, nat>, dom: set<Ptr>,
                                       ps: seq<Ptr>, bs: nat, bt: nat)
    requires Shape(s) && Ranked(s, rs) && Shape(t) && Ranked(t, rt) && Agree(s, t, dom)
    requires Below(rs, s, ps, bs) && Below(rt, t, ps, bt) && forall q :: q in ps ==> q in dom
    ensures DenAll(s, rs, ps, bs) == DenAll(t, rt, ps, bt)
    decreases bs, 0
  {
    forall i | 0 <= i < |ps|
      ensures Den(s, rs, ps[i]) == Den(t, rt, ps[i])
    {
      DenFrame(s, rs, t, rt, dom, ps[i]);
    }
  }

  /** The denotation of a cell, whatever ranking shows the heap acyclic. */
  ghost function Meaning(s: Store, p: Ptr): Value
    requires Shape(s) && Acyclic(s) && p in s
  {
    var rank :| Ranked(s, rank);
    Den(s, rank, p)
  }

  lemma MeaningIs(s: Store, rank: map<Ptr, nat>, p: Ptr)
    requires Shape(s) && Ranked(s, rank) && p in s
    ensures Meaning(s, p) == Den(s, rank, p)
  {
    var other :| Ranked(s, other) && Meaning(s, p) == Den(s, other, p);
    assert Agree(s, s, s.Keys);
    DenFrame(s, other, s, rank, s.Keys, p);
  }

  lemma MeaningFrame(s: Store, t: Store, dom: set<Ptr>, p: Ptr)
    requires Shape(s) && Acyclic(s) && Shape(t) && Acyclic(t) && Agree(s, t, dom) && p in dom
    ensures Meaning(s, p) == Meaning(t, p)
  {
    var rs :| Ranked(s, rs);
    var rt :| Ranked(t, rt);
    MeaningIs(s, rs, p);
    MeaningIs(t, rt, p);
    DenFrame(s, rs, t, rt, dom, p);
  }

  function ElemsOf(v: Value): seq<Value> {
    if v.VList? then v.elems else []
  }

  function EntriesOf(v: Value): map<string, Value> {
    if v.VMap? then v.entries else map[]
  }

  ghost predicate Live(s: Store, ps: seq<Ptr>) {
    forall i :: 0 <= i < |ps| ==> ps[i] in s
  }

  ghost function Meanings(s: Store, ps: seq<Ptr>): (vs: seq<Value>)
    requires Shape(s) && Acyclic(s) && Live(s, ps)
  {
    seq(|ps|, (i: nat) requires i < |ps| && ps[i] in s => Meaning(s, ps[i]))
  }

  /** A list denotes the meanings of the items it shows. */
  lemma MeaningOfList(s: Store, p: Ptr)
    requires Shape(s) && Acyclic(s) && p in s && s[p].data.List?
    ensures Live(s, Items(s, s[p].data))
    ensures Meaning(s, p) == VList(Meanings(s, Items(s, s[p].data)))
  {
    var rank :| Ranked(s, rank);
    var items := Items(s, s[p].data);
    ItemsBelow(s, rank, p);
    MeaningIs(s, rank, p);
    forall i | 0 <= i < |items|
      ensures Meaning(s, items[i]) == Den(s, rank, items[i])
    {
      MeaningIs(s, rank, items[i]);
    }
    assert DenAll(s, rank, items, rank[p]) == Meanings(s, items);
  }

  lemma MeaningOfMap(s: Store, p: Ptr)
    requires Shape(s) && Acyclic(s) && p in s && s[p].data.Map?
    ensures forall k :: k in s[p].data.entries ==> s[p].data.entries[k] in s
    ensures Meaning(s, p) == VMap(map k | k in s[p].data.entries :: Meaning(s, s[p].data.entries[k]))
  {
    var rank :| Ranked(s, rank);
    EntriesBelow(s, rank, p);
    MeaningIs(s, rank, p);
    forall k | k in s[p].data.entries
      ensures Meaning(s, s[p].data.entries[k]) == Den(s, rank, s[p].data.entries[k])
    {
      MeaningIs(s, rank, s[p].data.entries[k]);
    }
  }

  lemma MeaningOfVariant(s: Store, p: Ptr)
    requires Shape(s) && Acyclic(s) && p in s && s[p].data.Variant?
    ensures s[p].data.inner in s
    ensures Meaning(s, p) == VVariant(s[p].data.tag, Meaning(s, s[p].data.inner))
  {
    var rank :| Ranked(s, rank);
    OthersBelow(s, rank, p);
    MeaningIs(s, rank, p);
    assert Below(rank, s, [s[p].data.inner], rank[p]);
    assert [s[p].data.inner][0] in s;
    MeaningIs(s, rank, s[p].data.inner);
  }

  lemma MeaningOfClosure(s: Store, p: Ptr)
    requires Shape(s) && Acyclic(s) && p in s && s[p].data.Closure?
    ensures Live(s, s[p].data.captures)
    ensures Meaning(s, p) == VClosure(s[p].data.func, Meanings(s, s[p].data.captures))
  {
    var rank :| Ranked(s, rank);
    var caps := s[p].data.captures;
    OthersBelow(s, rank, p);
    MeaningIs(s, rank, p);
    forall i | 0 <= i < |caps|
      ensures Meaning(s, caps[i]) == Den(s, rank, caps[i])
    {
      MeaningIs(s, rank, caps[i]);
    }
    assert DenAll(s, rank, caps, rank[p]) == Meanings(s, caps);
  }
}
