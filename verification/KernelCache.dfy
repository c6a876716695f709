/** The bounded cache of compiled kernels against a recency list. */
module KernelCache {
  import opened Wrappers

  datatype Op = Add | Mul

  datatype CacheKey =
    | Elementwise(op: Op, len: nat)
    | Matmul(m: nat, k: nat, n: nat)
    | Softmax(len: nat)
    | Transpose(rows: nat, cols: nat)

  /** A compiled module, and the key it was compiled for. */
  datatype CompiledModule = CompiledModule(key: CacheKey)

  datatype CacheEntry = CacheEntry(code: CompiledModule, lastAccess: nat)

  datatype CompileError = CompileFailed

  const MAX_CACHE_SIZE := 256
  const TWO64: nat := 0x1_0000_0000_0000_0000

  // ----- the recency list -----

  function Without(ks: seq<CacheKey>, key: CacheKey): seq<CacheKey> {
    if ks == [] then [] else (if ks[0] == key then [] else [ks[0]]) + Without(ks[1..], key)
  }

  function Take(ks: seq<CacheKey>, n: nat): seq<CacheKey> {
    if |ks| <= n then ks else ks[..n]
  }

  /** The list after a use of `key`: most recent first, the oldest dropped when there is no room. */
  function Used(ks: seq<CacheKey>, key: CacheKey): seq<CacheKey> {
    Take([key] + Without(ks, key), MAX_CACHE_SIZE)
  }

  /** The distinct keys of a history, most recently used first. */
  function Distinct(history: seq<CacheKey>): seq<CacheKey> {
    if history == [] then []
    else
      var last := history[|history| - 1];
      [last] + Without(Distinct(history[..|history| - 1]), last)
  }

  ghost predicate NoDuplicates(ks: seq<CacheKey>) {
    forall i, j :: 0 <= i < j < |ks| ==> ks[i] != ks[j]
  }

  lemma {:induction false} WithoutMembers(ks: seq<CacheKey>, key: CacheKey)
    ensures forall k :: k in Without(ks, key) <==> k in ks && k != key
    ensures key !in ks ==> Without(ks, key) == ks
  {
    if ks != [] {
      WithoutMembers(ks[1..], key);
      assert ks == [ks[0]] + ks[1..];
      assert forall k :: k in ks <==> k == ks[0] || k in ks[1..];
    }
  }

  lemma TailNoDuplicates(ks: seq<CacheKey>)
    requires ks != []
    ensures NoDuplicates(ks) <==> ks[0] !in ks[1..] && NoDuplicates(ks[1..])
  {
    if ks[0] !in ks[1..] && NoDuplicates(ks[1..]) {
      forall i, j | 0 <= i < j < |ks|
        ensures ks[i] != ks[j]
      {
        assert ks[j] == ks[1..][j - 1];
        if i > 0 {
          assert ks[i] == ks[1..][i - 1];
        }
      }
    }
  }

  lemma {:induction false} WithoutNoDuplicates(ks: seq<CacheKey>, key: CacheKey)
    requires NoDuplicates(ks)
    ensures NoDuplicates(Without(ks, key))
  {
    if ks != [] {
      TailNoDuplicates(ks);
      WithoutNoDuplicates(ks[1..], key);
      WithoutMembers(ks[1..], key);
      if ks[0] != key {
        assert Without(ks, key)[1..] == Without(ks[1..], key);
        TailNoDuplicates(Without(ks, key));
      }
    }
  }

  lemma {:induction false} WithoutAppend(ks: seq<CacheKey>, ms: seq<CacheKey>, key: CacheKey)
    ensures Without(ks + ms, key) == Without(ks, key) + Without(ms, key)
  {
    if ks == [] {
      assert ks + ms == ms;
    } else {
      assert (ks + ms)[1..] == ks[1..] + ms;
      WithoutAppend(ks[1..], ms, key);
    }
  }

  lemma WithoutMiddle(front: seq<CacheKey>, x: CacheKey, back: seq<CacheKey>, key: CacheKey)
    ensures Without(front + [x] + back, key) ==
              if x == key then Without(front, key) + Without(back, key) else Without(front, key) + [x] + Without(back, key)
  {
    WithoutAppend(front + [x], back, key);
    WithoutAppend(front, [x], key);
    assert [x][1..] == [];
    assert Without([x], key) == if x == key then [] else [x];
    hide *;
    assert Without(front, key) + [] == Without(front, key);
  }

  lemma Around(ks: seq<CacheKey>, i: nat)
    requires NoDuplicates(ks) && i < |ks|
    ensures ks[i] !in ks[..i] && ks[i] !in ks[i + 1..]
  {
    forall j | 0 <= j < |ks| && j != i ensures ks[j] != ks[i] {
    }
  }

  lemma SplitAt(ks: seq<CacheKey>, i: nat)
    requires i < |ks|
    ensures ks == ks[..i] + [ks[i]] + ks[i + 1..]
  {
  }

  /** Without one element of a list without duplicates: what is before it and what is after it. */
  lemma WithoutAt(ks: seq<CacheKey>, i: nat)
    requires NoDuplicates(ks) && i < |ks|
    ensures Without(ks, ks[i]) == ks[..i] + ks[i + 1..]
  {
    hide *;
    Around(ks, i);
    WithoutMembers(ks[..i], ks[i]);
    WithoutMembers(ks[i + 1..], ks[i]);
    WithoutMiddle(ks[..i], ks[i], ks[i + 1..], ks[i]);
    SplitAt(ks, i);
  }

  lemma MembersCons(k: CacheKey, ks: seq<CacheKey>)
    ensures ([k] + ks)[0] == k && ([k] + ks)[1..] == ks && forall x :: x in [k] + ks <==> x == k || x in ks
  {
  }

  lemma MembersLast(ks: seq<CacheKey>)
    requires ks != []
    ensures forall x :: x in ks <==> x in ks[..|ks| - 1] || x == ks[|ks| - 1]
  {
    assert ks == ks[..|ks| - 1] + [ks[|ks| - 1]];
  }

  lemma {:induction false} DistinctFacts(history: seq<CacheKey>)
    ensures NoDuplicates(Distinct(history))
    ensures forall k :: k in Distinct(history) <==> k in history
  {
    if history != [] {
      var n := |history| - 1;
      DistinctFacts(history[..n]);
      var d := Distinct(history[..n]);
      WithoutMembers(d, history[n]);
      WithoutNoDuplicates(d, history[n]);
      assert Distinct(history) == [history[n]] + Without(d, history[n]);
      hide Distinct, Without, NoDuplicates;
      MembersCons(history[n], Without(d, history[n]));
      TailNoDuplicates(Distinct(history));
      MembersLast(history);
    }
  }

  /** Using a key with only the first `MAX_CACHE_SIZE` entries in hand loses nothing that the full list
      would have kept. */
  lemma UsedOfTaken(ks: seq<CacheKey>, key: CacheKey)
    requires NoDuplicates(ks)
    ensures Used(Take(ks, MAX_CACHE_SIZE), key) == Used(ks, key)
  {
    if |ks| > MAX_CACHE_SIZE {
      var front, back := ks[..MAX_CACHE_SIZE], ks[MAX_CACHE_SIZE..];
      assert ks == front + back;
      WithoutAppend(front, back, key);
      WithoutMembers(front, key);
      if key in front {
        var i :| 0 <= i < |front| && front[i] == key;
        WithoutAt(front, i);
        assert |Without(front, key)| == MAX_CACHE_SIZE - 1;
      }
    }
  }

  /** Folding `Used` over a history gives its most recently used distinct keys. */
  function Recency(history: seq<CacheKey>): seq<CacheKey> {
    if history == [] then [] else Used(Recency(history[..|history| - 1]), history[|history| - 1])
  }

  lemma {:induction false} RecencyIsDistinct(history: seq<CacheKey>)
    ensures Recency(history) == Take(Distinct(history), 256)
  {
    if history != [] {
      var n := |history| - 1;
      RecencyIsDistinct(history[..n]);
      DistinctFacts(history[..n]);
      UsedOfTaken(Distinct(history[..n]), history[n]);
    }
  }

  function Keys(history: seq<CacheKey>): set<CacheKey> {
    set k | k in history
  }

  /** A later use of another key moves `d[s]` back by one unless that key was already in front of it. */
  lemma MovedBack(d: seq<CacheKey>, s: nat, last: CacheKey)
    requires NoDuplicates(d) && s < |d| && d[s] != last
    ensures var e := [last] + Without(d, last);
            var place := if last in d[..s] then s else s + 1;
            place < |e| && e[place] == d[s] && Keys(e[..place]) == Keys(d[..s]) + {last}
  {
    hide *;
    var front, back := d[..s], d[s + 1..];
    SplitAt(d, s);
    FrontNoDuplicates(d, s);
    WithoutMembers(front, last);
    WithoutLength(front, last);
    WithoutMiddle(front, d[s], back, last);
    JoinFour([last] + Without(d, last), last, Without(front, last), d[s], Without(back, last));
    KeysOfCons(last, Without(front, last), front);
  }

  lemma JoinFour(e: seq<CacheKey>, a: CacheKey, b: seq<CacheKey>, c: CacheKey, d: seq<CacheKey>)
    requires e == [a] + (b + [c] + d)
    ensures e[..|b| + 1] == [a] + b && e[|b| + 1] == c
  {
  }

  lemma KeysOfCons(a: CacheKey, b: seq<CacheKey>, ks: seq<CacheKey>)
    requires forall k :: k in b <==> k in ks && k != a
    ensures Keys([a] + b) == Keys(ks) + {a}
  {
  }

  lemma FrontNoDuplicates(d: seq<CacheKey>, s: nat)
    requires NoDuplicates(d) && s <= |d|
    ensures NoDuplicates(d[..s])
  {
  }

  lemma WithoutLength(ks: seq<CacheKey>, key: CacheKey)
    requires NoDuplicates(ks)
    ensures |Without(ks, key)| == if key in ks then |ks| - 1 else |ks|
  {
    WithoutMembers(ks, key);
    if key in ks {
      var i :| 0 <= i < |ks| && ks[i] == key;
      WithoutAt(ks, i);
    }
  }

  /** At `place` in the history's distinct keys stands `key`, behind exactly the keys `since`. */
  ghost predicate Behind(d: seq<CacheKey>, key: CacheKey, since: set<CacheKey>) {
    |since| < |d| && d[|since|] == key && Keys(d[..|since|]) == since
  }

  lemma BehindStep(d: seq<CacheKey>, key: CacheKey, since: set<CacheKey>, last: CacheKey)
    requires NoDuplicates(d) && Behind(d, key, since) && key != last
    ensures Behind([last] + Without(d, last), key, since + {last})
  {
    MovedBack(d, |since|, last);
    assert last in d[..|since|] <==> last in Keys(d[..|since|]);
    if last in since {
      assert since + {last} == since;
    }
  }

  /** A key stands behind exactly the keys used since its last use. */
  lemma {:induction false} PlaceInDistinct(history: seq<CacheKey>, i: nat)
    requires i < |history| && history[i] !in history[i + 1..]
    ensures Behind(Distinct(history), history[i], Keys(history[i + 1..]))
  {
    var n := |history| - 1;
    var before, last := history[..n], history[n];
    if i == n {
      assert history[i + 1..] == [];
    } else {
      assert history[i + 1..] == before[i + 1..] + [last];
      assert before[i] == history[i];
      assert history[i + 1..][|before[i + 1..]|] == last;
      PlaceInDistinct(before, i);
      DistinctFacts(before);
      assert Distinct(history) == [last] + Without(Distinct(before), last);
      hide Distinct, Without, NoDuplicates, Behind;
      BehindStep(Distinct(before), history[i], Keys(before[i + 1..]), last);
      assert Keys(history[i + 1..]) == Keys(before[i + 1..]) + {last};
    }
  }

  /** The cache holds a key exactly when fewer than 256 other keys were used after its last use. */
  lemma HeldIffRecent(history: seq<CacheKey>, i: nat)
    requires i < |history| && history[i] !in history[i + 1..]
    ensures history[i] in Recency(history) <==> |Keys(history[i + 1..])| < 256
  {
    RecencyIsDistinct(history);
    PlaceInDistinct(history, i);
    DistinctFacts(history);
    hide Distinct, Recency, Keys;
    var d, place := Distinct(history), |Keys(history[i + 1..])|;
    TakeHolds(d, place, MAX_CACHE_SIZE);
  }

  /** The first `n` of distinct keys hold the key at `place` exactly if it is among them. */
  lemma TakeHolds(d: seq<CacheKey>, place: nat, n: nat)
    requires NoDuplicates(d) && place < |d|
    ensures d[place] in Take(d, n) <==> place < n
  {
    if place < n {
      assert Take(d, n)[place] == d[place];
    }
  }

  lemma {:induction false} KeysSize(ks: seq<CacheKey>)
    requires NoDuplicates(ks)
    ensures |Keys(ks)| == |ks|
  {
    if ks != [] {
      TailNoDuplicates(ks);
      KeysSize(ks[1..]);
      assert ks == [ks[0]] + ks[1..];
      assert Keys(ks) == {ks[0]} + Keys(ks[1..]);
    }
  }

  // ----- the cache -----

  /** `recent` lists the keys of the cache by last access, latest first; every module is its key's. */
  ghost predicate Lists(recent: seq<CacheKey>, cache: map<CacheKey, CacheEntry>, generation: nat) {
    && (forall k :: k in cache <==> k in recent)
    && (forall k :: k in cache ==> cache[k].code.key == k && cache[k].lastAccess < generation)
    && forall i, j :: 0 <= i < j < |recent| ==> cache[recent[j]].lastAccess < cache[recent[i]].lastAccess
  }

  lemma ListsDistinct(recent: seq<CacheKey>, cache: map<CacheKey, CacheEntry>, generation: nat)
    requires Lists(recent, cache, generation)
    ensures NoDuplicates(recent) && |cache| == |recent|
  {
    forall i, j | 0 <= i < j < |recent|
      ensures recent[i] != recent[j]
    {
      assert cache[recent[j]].lastAccess < cache[recent[i]].lastAccess;
    }
    KeysSize(recent);
    assert cache.Keys == Keys(recent);
  }

  lemma DropMembers(ks: seq<CacheKey>, i: nat)
    requires NoDuplicates(ks) && i < |ks|
    ensures forall k :: k in ks[..i] + ks[i + 1..] <==> k in ks && k != ks[i]
  {
    WithoutAt(ks, i);
    WithoutMembers(ks, ks[i]);
  }

  lemma DropKeeps(recent: seq<CacheKey>, cache: map<CacheKey, CacheEntry>, generation: nat, i: nat)
    requires Lists(recent, cache, generation) && i < |recent|
    ensures Lists(recent[..i] + recent[i + 1..], cache - {recent[i]}, generation)
  {
    ListsDistinct(recent, cache, generation);
    DropMembers(recent, i);
    hide NoDuplicates;
    var rest, smaller := recent[..i] + recent[i + 1..], cache - {recent[i]};
    forall p, q | 0 <= p < q < |rest|
      ensures rest[p] in smaller && rest[q] in smaller
      ensures smaller[rest[q]].lastAccess < smaller[rest[p]].lastAccess
    {
      StillOrdered(recent, cache, generation, i, p, q);
      assert rest[p] in rest && rest[q] in rest;
    }
  }

  lemma StillOrdered(recent: seq<CacheKey>, cache: map<CacheKey, CacheEntry>, generation: nat, i: nat, p: nat, q: nat)
    requires Lists(recent, cache, generation) && i < |recent| && p < q < |recent| - 1
    ensures var rest := recent[..i] + recent[i + 1..];
            rest[p] in cache && rest[q] in cache && cache[rest[q]].lastAccess < cache[rest[p]].lastAccess
  {
    var p', q' := if p < i then p else p + 1, if q < i then q else q + 1;
    assert recent[p'] in recent && recent[q'] in recent;
    assert cache[recent[q']].lastAccess < cache[recent[p']].lastAccess;
  }

  lemma InsertKeeps(recent: seq<CacheKey>, cache: map<CacheKey, CacheEntry>, generation: nat, key: CacheKey)
    requires Lists(recent, cache, generation) && key !in cache
    ensures Lists([key] + recent, cache[key := CacheEntry(CompiledModule(key), generation)], generation + 1)
  {
  }

  class TensorJit {
    var cache: map<CacheKey, CacheEntry>
    var generation: nat
    /** The keys of the cache, most recently used first. */
    ghost var recent: seq<CacheKey>

    ghost predicate Valid()
      reads this
    {
      generation < TWO64 && |recent| <= MAX_CACHE_SIZE && Lists(recent, cache, generation)
    }

    constructor ()
      ensures Valid() && recent == Recency([]) && generation == 0
    {
      cache := map[];
      generation := 0;
      recent := [];
    }

    /** Looks at the entries in any order. */
    method LeastRecent() returns (key: CacheKey)
      requires Valid() && recent != []
      ensures key == recent[|recent| - 1] && key in cache
    {
      assert recent[0] in cache;
      key :| key in cache;
      var left := cache.Keys - {key};
      while left != {}
        invariant key in cache && left <= cache.Keys
        invariant forall k :: k in cache && k !in left ==> cache[key].lastAccess <= cache[k].lastAccess
        decreases |left|
      {
        var k :| k in left;
        if cache[k].lastAccess < cache[key].lastAccess {
          key := k;
        }
        left := left - {k};
      }
      var oldest := recent[|recent| - 1];
      assert oldest in recent;
      ghost var i :| 0 <= i < |recent| && recent[i] == key;
    }

    /** In a full cache the least recent entry goes. */
    method MakeRoom()
      requires Valid()
      modifies this
      ensures Valid() && generation == old(generation) && recent == Take(old(recent), MAX_CACHE_SIZE - 1)
      ensures forall k :: k in cache ==> k in old(cache)
    {
      ListsDistinct(recent, cache, generation);
      if |cache| >= MAX_CACHE_SIZE {
        var lru := LeastRecent();
        ghost var n := |recent| - 1;
        DropKeeps(recent, cache, generation, n);
        hide Lists;
        assert recent[..n] == recent[..n] + recent[n + 1..];
        cache := cache - {lru};
        recent := recent[..n];
      }
    }

    /** A hit makes the entry the youngest. */
    method Touch(key: CacheKey)
      requires Valid() && key in cache && generation + 1 < TWO64
      modifies this
      ensures Valid() && generation == old(generation) + 1
      ensures key in cache && cache[key].code.key == key && recent == Used(old(recent), key)
    {
      UseFacts(recent, cache, generation, key);
      hide *;
      recent := Used(recent, key);
      cache := cache[key := cache[key].(lastAccess := generation)];
      generation := generation + 1;
    }

    method Insert(key: CacheKey)
      requires Valid() && key !in cache && generation + 1 < TWO64 && |recent| < MAX_CACHE_SIZE
      modifies this
      ensures Valid() && generation == old(generation) + 1
      ensures key in cache && cache[key].code.key == key && recent == [key] + old(recent)
    {
      InsertKeeps(recent, cache, generation, key);
      hide Lists;
      cache := cache[key := CacheEntry(CompiledModule(key), generation)];
      recent := [key] + recent;
      generation := generation + 1;
    }

    /** `compiles` tells whether the key can be compiled, should that be needed. A success makes the key
        the most recent; a failure in a full cache costs the least recent one. */
    method EnsureCompiled(key: CacheKey, compiles: bool) returns (r: Result<(), CompileError>)
      requires Valid() && generation + 1 < 0x1_0000_0000_0000_0000
      modifies this
      ensures Valid() && generation == old(generation) + 1
      ensures r.Ok? <==> key in old(recent) || compiles
      ensures r.Ok? ==> key in cache && cache[key].code.key == key && recent == Used(old(recent), key)
      ensures r.Err? ==> recent == Take(old(recent), MAX_CACHE_SIZE - 1)
    {
      assert key in cache <==> key in recent;
      if key in cache {
        Touch(key);
        return Ok(());
      }
      UsedNew(recent, key);
      MakeRoom();
      hide Used;
      if compiles {
        Insert(key);
        return Ok(());
      }
      generation := generation + 1;
      return Err(CompileFailed);
    }
  }

  lemma UsedNew(ks: seq<CacheKey>, key: CacheKey)
    requires key !in ks && |ks| <= MAX_CACHE_SIZE
    ensures Used(ks, key) == [key] + Take(ks, MAX_CACHE_SIZE - 1)
  {
    WithoutMembers(ks, key);
  }

  /** A hit keeps the order: the entry becomes the youngest. */
  lemma UseFacts(recent: seq<CacheKey>, cache: map<CacheKey, CacheEntry>, generation: nat, key: CacheKey)
    requires Lists(recent, cache, generation) && key in cache && |recent| <= MAX_CACHE_SIZE
    ensures key in recent && cache[key].code.key == key
    ensures |Used(recent, key)| == |recent|
    ensures Lists(Used(recent, key), cache[key := cache[key].(lastAccess := generation)], generation + 1)
  {
    ListsDistinct(recent, cache, generation);
    assert key in recent;
    var i :| 0 <= i < |recent| && recent[i] == key;
    WithoutAt(recent, i);
    var rest := recent[..i] + recent[i + 1..];
    DropKeeps(recent, cache, generation, i);
    InsertKeeps(rest, cache - {key}, generation, key);
    assert Used(recent, key) == [key] + rest;
    var entry := CacheEntry(CompiledModule(key), generation);
    assert (cache - {key})[key := entry] == cache[key := entry];
    assert cache[key].(lastAccess := generation) == entry;
  }

  /** Over any run in which every use succeeds, the cache holds the most recently used distinct keys. */
  method Replay(uses: seq<CacheKey>) returns (jit: TensorJit)
    requires |uses| < 0x1_0000_0000_0000_0000 - 1
    ensures jit.Valid() && jit.recent == Take(Distinct(uses), 256)
    ensures forall k :: k in jit.cache <==> k in Take(Distinct(uses), 256)
  {
    jit := new TensorJit();
    var i := 0;
    while i < |uses|
      invariant i <= |uses| && jit.Valid() && fresh(jit) && jit.generation <= i && jit.recent == Recency(uses[..i])
    {
      assert uses[..i + 1][..i] == uses[..i];
      var r := jit.EnsureCompiled(uses[i], true);
      i := i + 1;
    }
    assert uses[..i] == uses;
    RecencyIsDistinct(uses);
  }
}
