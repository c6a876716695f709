/** The cells of the AIRL runtime heap and the references each cell owns. */
module RtValues {
  import opened Wrappers

  /** An address; address 0 is the null pointer. */
  type Ptr = nat

  const NULL: Ptr := 0

  /** A count of `u32::MAX` marks a cell that is never freed. */
  const IMMORTAL: nat := 0xFFFF_FFFF

  /** The payload of a cell. A list with a parent is a tail view: it owns no items of its own and
      shows the parent's items from `offset` on. Floats are their bit patterns. */
  datatype Data =
    | Nil
    | Unit
    | Int(i: int)
    | Float(bits: int)
    | Bool(b: bool)
    | Str(s: string)
    | Bytes(bytes: seq<int>)
    | List(items: seq<Ptr>, offset: nat, parent: Option<Ptr>)
    | Map(entries: map<string, Ptr>)
    | Variant(tag: string, inner: Ptr)
    | Closure(func: int, captures: seq<Ptr>)
    | PartialApp(name: string, captured: seq<Ptr>, remaining: nat)

  datatype Cell = Cell(rc: nat, data: Data)

  type Store = map<Ptr, Cell>

  function From(items: seq<Ptr>, offset: nat): seq<Ptr> {
    if offset <= |items| then items[offset..] else []
  }

  /** The union, with multiplicities, of a finite family of multisets. */
  ghost function Sum<K>(m: map<K, multiset<Ptr>>): multiset<Ptr> {
    if m == map[] then multiset{} else var k :| k in m; m[k] + Sum(m - {k})
  }

  ghost function Singles(entries: map<string, Ptr>): map<string, multiset<Ptr>> {
    map k | k in entries :: multiset{entries[k]}
  }

  /** The references a payload owns: exactly those `free_value` gives back. */
  ghost function Slots(d: Data): multiset<Ptr> {
    match d
    case List(items, offset, parent) =>
      if parent.Some? then multiset{parent.value} else multiset(From(items, offset))
    case Map(entries) => Sum(Singles(entries))
    case Variant(_, inner) => multiset{inner}
    case Closure(_, captures) => multiset(captures)
    case PartialApp(_, captured, _) => multiset(captured)
    case _ => multiset{}
  }

  /** A cell whose count has reached zero is being freed: its slots are already owed elsewhere. */
  ghost function CellSlots(c: Cell): multiset<Ptr> {
    if c.rc == 0 then multiset{} else Slots(c.data)
  }

  ghost function SlotMap(s: Store): map<Ptr, multiset<Ptr>> {
    map p | p in s :: CellSlots(s[p])
  }

  /** How often each address is stored in the heap. */
  ghost function Refs(s: Store): multiset<Ptr> {
    Sum(SlotMap(s))
  }

  // ----- sums do not depend on the order of summation -----

  lemma {:induction false} SumRemove<K>(m: map<K, multiset<Ptr>>, k: K)
    requires k in m
    ensures Sum(m) == m[k] + Sum(m - {k})
    decreases |m|
  {
    var j :| j in m && Sum(m) == m[j] + Sum(m - {j});
    if j != k {
      SumRemove(m - {j}, k);
      SumRemove(m - {k}, j);
      assert m - {j} - {k} == m - {k} - {j};
    }
  }

  lemma SumAdd<K>(m: map<K, multiset<Ptr>>, k: K, v: multiset<Ptr>)
    requires k !in m
    ensures Sum(m[k := v]) == Sum(m) + v
  {
    SumRemove(m[k := v], k);
    assert m[k := v] - {k} == m;
  }

  lemma {:induction false} SumMember<K>(m: map<K, multiset<Ptr>>, x: Ptr)
    requires x in Sum(m)
    ensures exists k :: k in m && x in m[k]
    decreases |m|
  {
    var k :| k in m && Sum(m) == m[k] + Sum(m - {k});
    if x !in m[k] {
      SumMember(m - {k}, x);
    }
  }

  lemma Cancel(a: multiset<Ptr>, b: multiset<Ptr>, c: multiset<Ptr>)
    requires a + c == b + c
    ensures a == b
  {
    forall x: Ptr
      ensures a[x] == b[x]
    {
      assert (a + c)[x] == (b + c)[x];
    }
  }

  // ----- how Refs changes with the store -----

  lemma RefsAdd(s: Store, p: Ptr, c: Cell)
    requires p !in s
    ensures Refs(s[p := c]) == Refs(s) + CellSlots(c)
  {
    assert SlotMap(s[p := c]) == SlotMap(s)[p := CellSlots(c)];
    SumAdd(SlotMap(s), p, CellSlots(c));
  }

  lemma RefsRemove(s: Store, p: Ptr)
    requires p in s
    ensures Refs(s) == Refs(s - {p}) + CellSlots(s[p])
  {
    SumRemove(SlotMap(s), p);
    assert SlotMap(s) - {p} == SlotMap(s - {p});
  }

  lemma RefsUpdate(s: Store, p: Ptr, c: Cell)
    requires p in s
    ensures Refs(s[p := c]) + CellSlots(s[p]) == Refs(s) + CellSlots(c)
  {
    RefsRemove(s, p);
    RefsAdd(s - {p}, p, c);
    assert (s - {p})[p := c] == s[p := c];
  }

  lemma RefsOwner(s: Store, q: Ptr)
    requires q in Refs(s)
    ensures exists p :: p in s && q in CellSlots(s[p])
  {
    SumMember(SlotMap(s), q);
  }

  lemma RefsContain(s: Store, p: Ptr)
    requires p in s
    ensures CellSlots(s[p]) <= Refs(s)
  {
    RefsRemove(s, p);
  }

  lemma SinglesRemove(entries: map<string, Ptr>, k: string)
    ensures Singles(entries) - {k} == Singles(entries - {k})
  {
  }

  lemma {:induction false} SlotsOfMap(entries: map<string, Ptr>, k: string)
    requires k in entries
    ensures Sum(Singles(entries)) == Sum(Singles(entries - {k})) + multiset{entries[k]}
  {
    SinglesRemove(entries, k);
    SumRemove(Singles(entries), k);
  }

  lemma SlotsOfMapAdd(entries: map<string, Ptr>, k: string, v: Ptr)
    requires k !in entries
    ensures Sum(Singles(entries[k := v])) == Sum(Singles(entries)) + multiset{v}
  {
    var grown := entries[k := v];
    assert grown - {k} == entries;
    SlotsOfMap(grown, k);
  }

  lemma SlotsOfMapMember(entries: map<string, Ptr>, x: Ptr)
    ensures x in Sum(Singles(entries)) <==> exists k :: k in entries && entries[k] == x
  {
    if x in Sum(Singles(entries)) {
      SumMember(Singles(entries), x);
    }
    if k :| k in entries && entries[k] == x {
      SlotsOfMap(entries, k);
    }
  }
}
