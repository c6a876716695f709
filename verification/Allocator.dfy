/** The AIRLOS first-fit allocator: in-band headers in word-addressed memory against a list of blocks. */
module Allocator {
  const HEADER: nat := 16
  const MIN_BLOCK: nat := 16
  const PAGE: nat := 4096

  /** A block: its header address, the size of its payload and whether it is free. */
  datatype Blk = Blk(addr: nat, size: nat, free: bool)

  function Next(b: Blk): nat {
    b.addr + HEADER + b.size
  }

  /** The first address after all blocks. */
  function Frontier(blocks: seq<Blk>, start: nat): nat {
    if blocks == [] then start else Next(blocks[|blocks| - 1])
  }

  /** The blocks lie side by side from `start`, with 16-aligned sizes that are not zero. */
  ghost predicate Tiled(blocks: seq<Blk>, start: nat) {
    && start % 16 == 0
    && (blocks != [] ==> blocks[0].addr == start)
    && (forall i :: 0 <= i < |blocks| ==> blocks[i].addr % 16 == 0 && blocks[i].size > 0 && blocks[i].size % 16 == 0)
    && (forall i :: 0 <= i < |blocks| - 1 ==> blocks[i + 1].addr == Next(blocks[i]))
  }

  ghost function Live(blocks: seq<Blk>): set<Blk> {
    set b | b in blocks && !b.free
  }

  // ----- what allocation and freeing do to the list of blocks -----

  function RoundUp(n: nat, unit: nat): nat
    requires unit > 0
  {
    (n + unit - 1) / unit * unit
  }

  function PayloadSize(size: nat): (s: nat)
    ensures s % 16 == 0 && s >= 16 && size <= s && s < size + 16 + (if size == 0 then 1 else 0)
  {
    RoundUp(if size == 0 then 1 else size, 16)
  }

  predicate Fits(b: Blk, size: nat) {
    b.free && b.size >= size
  }

  /** The lowest fitting block, or the number of blocks. */
  function FirstFit(blocks: seq<Blk>, size: nat): (i: nat)
    ensures i <= |blocks|
    ensures i < |blocks| ==> Fits(blocks[i], size)
    ensures forall j :: 0 <= j < i ==> !Fits(blocks[j], size)
  {
    if blocks == [] || Fits(blocks[0], size) then 0 else 1 + FirstFit(blocks[1..], size)
  }

  /** A free block made used, split when the rest can hold a header and a smallest payload. */
  function Take(b: Blk, size: nat): seq<Blk>
    requires Fits(b, size)
  {
    if b.size >= size + HEADER + MIN_BLOCK then
      [Blk(b.addr, size, false), Blk(b.addr + HEADER + size, b.size - size - HEADER, true)]
    else [Blk(b.addr, b.size, false)]
  }

  function Allocated(blocks: seq<Blk>, start: nat, size: nat): seq<Blk> {
    var i := FirstFit(blocks, size);
    if i < |blocks| then blocks[..i] + Take(blocks[i], size) + blocks[i + 1..]
    else blocks + [Blk(Frontier(blocks, start), size, false)]
  }

  /** The block that allocation hands out. */
  function Handed(blocks: seq<Blk>, start: nat, size: nat): Blk {
    var i := FirstFit(blocks, size);
    if i < |blocks| then Take(blocks[i], size)[0] else Blk(Frontier(blocks, start), size, false)
  }

  /** A used block made free, merged with the block after it when that one is free. */
  function Freed(blocks: seq<Blk>, i: nat): seq<Blk>
    requires i < |blocks|
  {
    var b := blocks[i];
    if i + 1 < |blocks| && blocks[i + 1].free then
      blocks[..i] + [Blk(b.addr, b.size + HEADER + blocks[i + 1].size, true)] + blocks[i + 2..]
    else blocks[i := Blk(b.addr, b.size, true)]
  }

  // ----- properties of the block list -----

  lemma {:induction false} TiledOrder(blocks: seq<Blk>, start: nat, i: nat, j: nat)
    requires Tiled(blocks, start) && i < j < |blocks|
    ensures Next(blocks[i]) <= blocks[j].addr
    decreases j
  {
    if i + 1 < j {
      TiledOrder(blocks, start, i, j - 1);
      assert blocks[(j - 1) + 1].addr == Next(blocks[j - 1]);
    } else {
      assert blocks[i + 1].addr == Next(blocks[i]);
    }
  }

  lemma {:induction false} TiledBounds(blocks: seq<Blk>, start: nat, i: nat)
    requires Tiled(blocks, start) && i < |blocks|
    ensures start <= blocks[i].addr && Next(blocks[i]) <= Frontier(blocks, start)
  {
    if i > 0 {
      TiledOrder(blocks, start, 0, i);
    }
    if i < |blocks| - 1 {
      TiledOrder(blocks, start, i, |blocks| - 1);
    }
  }

  lemma FrontierAligned(blocks: seq<Blk>, start: nat)
    requires Tiled(blocks, start)
    ensures Frontier(blocks, start) % 16 == 0 && start <= Frontier(blocks, start)
  {
    if blocks != [] {
      TiledBounds(blocks, start, |blocks| - 1);
    }
  }

  /** Two blocks share no byte, headers included. */
  lemma BlocksDisjoint(blocks: seq<Blk>, start: nat, b: Blk, c: Blk)
    requires Tiled(blocks, start) && b in blocks && c in blocks && b != c
    ensures Next(b) <= c.addr || Next(c) <= b.addr
  {
    var i :| 0 <= i < |blocks| && blocks[i] == b;
    var j :| 0 <= j < |blocks| && blocks[j] == c;
    if i < j {
      TiledOrder(blocks, start, i, j);
    } else {
      TiledOrder(blocks, start, j, i);
    }
  }

  /** `b` is a new live block of the requested size, or up to 31 bytes more, clear of every other live
      block, at the lowest place that fits. */
  ghost predicate Placed(blocks: seq<Blk>, start: nat, size: nat, b: Blk) {
    && size <= b.size < size + 32 && b.addr % 16 == 0 && !b.free && b !in Live(blocks)
    && (forall c :: c in Live(blocks) ==> Next(b) <= c.addr || Next(c) <= b.addr)
    && (forall c :: c in blocks && Fits(c, size) ==> b.addr <= c.addr)
    && b.addr == (var i := FirstFit(blocks, size); if i < |blocks| then blocks[i].addr else Frontier(blocks, start))
  }

  /** Allocation keeps the tiling, adds one live block at the lowest place that fits, large enough
      and aligned, and leaves every other live block where it is. */
  lemma AllocatedBlocks(blocks: seq<Blk>, start: nat, size: nat) returns (b: Blk)
    requires Tiled(blocks, start) && size > 0 && size % 16 == 0
    ensures Tiled(Allocated(blocks, start, size), start)
    ensures b == Handed(blocks, start, size)
    ensures Live(Allocated(blocks, start, size)) == Live(blocks) + {b}
    ensures Placed(blocks, start, size, b)
    ensures b in Allocated(blocks, start, size)
    ensures Frontier(blocks, start) <= Frontier(Allocated(blocks, start, size), start)
  {
    var i := FirstFit(blocks, size);
    if i < |blocks| {
      b := TakenBlocks(blocks, start, size, i);
    } else {
      b := BumpedBlocks(blocks, start, size);
    }
  }

  lemma TakenBlocks(blocks: seq<Blk>, start: nat, size: nat, i: nat) returns (b: Blk)
    requires Tiled(blocks, start) && size > 0 && size % 16 == 0 && i == FirstFit(blocks, size) < |blocks|
    ensures Tiled(Allocated(blocks, start, size), start)
    ensures b == Handed(blocks, start, size)
    ensures Live(Allocated(blocks, start, size)) == Live(blocks) + {b}
    ensures Placed(blocks, start, size, b) && b in Allocated(blocks, start, size)
    ensures Frontier(Allocated(blocks, start, size), start) == Frontier(blocks, start)
  {
    var parts := Take(blocks[i], size);
    b := parts[0];
    TakeTiles(blocks[i], size);
    assert blocks[i..i + 1] == [blocks[i]];
    hide Tiled, FirstFit, Take, Frontier;
    TiledReplace(blocks, start, i, parts, i + 1);
    LiveReplace(blocks, i, parts, i + 1);
    assert b in blocks[..i] + parts + blocks[i + 1..] by {
      Replaced(blocks, i, parts, i + 1);
    }
    forall c | c in Live(blocks)
      ensures Next(b) <= c.addr || Next(c) <= b.addr
    {
      BlocksDisjoint(blocks, start, blocks[i], c);
    }
    forall c | c in blocks && Fits(c, size)
      ensures b.addr <= c.addr
    {
      var j :| 0 <= j < |blocks| && blocks[j] == c;
      if i < j {
        TiledOrder(blocks, start, i, j);
      }
    }
  }

  /** Both parts of a split lie where the block was; only the first is live. */
  lemma TakeLive(b: Blk, size: nat)
    requires Fits(b, size)
    ensures Live(Take(b, size)) == {Take(b, size)[0]}
  {
    var parts := Take(b, size);
    assert !parts[0].free && (|parts| == 2 ==> parts[1].free);
    hide Take;
  }

  lemma TakeTiles(b: Blk, size: nat)
    requires Fits(b, size) && b.addr % 16 == 0 && b.size % 16 == 0 && size > 0 && size % 16 == 0
    ensures var parts := Take(b, size);
            && Tiled(parts, b.addr) && Frontier(parts, b.addr) == Next(b) && Live(parts) == {parts[0]}
            && parts[0].addr == b.addr && size <= parts[0].size < size + 32 && !parts[0].free && Next(parts[0]) <= Next(b)
  {
    TakeLive(b, size);
    hide Live;
  }

  lemma BumpedBlocks(blocks: seq<Blk>, start: nat, size: nat) returns (b: Blk)
    requires Tiled(blocks, start) && size > 0 && size % 16 == 0 && FirstFit(blocks, size) == |blocks|
    ensures Tiled(Allocated(blocks, start, size), start)
    ensures b == Handed(blocks, start, size)
    ensures Live(Allocated(blocks, start, size)) == Live(blocks) + {b}
    ensures Placed(blocks, start, size, b) && b in Allocated(blocks, start, size)
    ensures Frontier(blocks, start) <= Frontier(Allocated(blocks, start, size), start)
  {
    FrontierAligned(blocks, start);
    b := Blk(Frontier(blocks, start), size, false);
    forall c | c in blocks
      ensures Next(c) <= b.addr
    {
      var j :| 0 <= j < |blocks| && blocks[j] == c;
      TiledBounds(blocks, start, j);
    }
    AppendTiled(blocks, start, b);
    LiveAppend(blocks, b);
    hide Tiled, Live, FirstFit;
  }

  lemma AppendTiled(blocks: seq<Blk>, start: nat, b: Blk)
    requires Tiled(blocks, start) && b.addr == Frontier(blocks, start) && b.addr % 16 == 0 && b.size > 0 && b.size % 16 == 0
    ensures Tiled(blocks + [b], start)
  {
  }

  lemma LiveAppend(blocks: seq<Blk>, b: Blk)
    requires !b.free
    ensures Live(blocks + [b]) == Live(blocks) + {b} && b in blocks + [b]
  {
    assert forall c :: c in blocks + [b] <==> c in blocks || c == b;
  }

  /** The live blocks after replacing a stretch that holds no live block. */
  lemma LiveReplace(blocks: seq<Blk>, i: nat, parts: seq<Blk>, k: nat)
    requires i <= k <= |blocks| && Live(blocks[i..k]) == {}
    ensures Live(blocks[..i] + parts + blocks[k..]) == Live(blocks) + Live(parts)
  {
    Replaced(blocks, i, parts, k);
    assert forall c :: c in blocks[i..k] ==> c.free || c in Live(blocks[i..k]);
  }

  lemma Replaced(blocks: seq<Blk>, i: nat, parts: seq<Blk>, k: nat)
    requires i <= k <= |blocks|
    ensures forall c :: c in blocks[..i] + parts + blocks[k..] <==> c in blocks[..i] || c in parts || c in blocks[k..]
    ensures forall c :: c in blocks <==> c in blocks[..i] || c in blocks[i..k] || c in blocks[k..]
  {
    assert blocks == blocks[..i] + blocks[i..k] + blocks[k..];
  }

  /** Putting a tiling of the same stretch in place of some blocks keeps the tiling. */
  lemma TiledReplace(blocks: seq<Blk>, start: nat, i: nat, parts: seq<Blk>, k: nat)
    requires Tiled(blocks, start) && i < k <= |blocks|
    requires parts != [] && Tiled(parts, blocks[i].addr)
    requires Frontier(parts, blocks[i].addr) == Next(blocks[k - 1])
    ensures Tiled(blocks[..i] + parts + blocks[k..], start)
    ensures Frontier(blocks[..i] + parts + blocks[k..], start) == Frontier(blocks, start)
  {
    var out := blocks[..i] + parts + blocks[k..];
    var d := |parts| - (k - i);
    forall j | 0 <= j < |out| - 1
      ensures out[j + 1].addr == Next(out[j])
    {
      if j + 1 < i {
        assert blocks[j + 1].addr == Next(blocks[j]);
      } else if j + 1 == i {
        assert blocks[j + 1].addr == Next(blocks[j]);
      } else if j + 1 < i + |parts| {
        assert parts[(j - i) + 1].addr == Next(parts[j - i]);
      } else if j + 1 == i + |parts| {
        assert blocks[(k - 1) + 1].addr == Next(blocks[k - 1]);
      } else {
        assert blocks[(j - d) + 1].addr == Next(blocks[j - d]);
      }
    }
  }

  /** Freeing keeps the tiling and removes exactly the freed block from the live ones. */
  lemma UpdateParts(blocks: seq<Blk>, i: nat, b: Blk)
    requires i < |blocks|
    ensures blocks[i := b] == blocks[..i] + [b] + blocks[i + 1..]
  {
  }

  /** The freed block, merged with the next when that is free, in place of what it covers. */
  lemma FreedParts(blocks: seq<Blk>, start: nat, i: nat) returns (parts: seq<Blk>, k: nat)
    requires Tiled(blocks, start) && i < |blocks| && !blocks[i].free
    ensures i < k <= |blocks| && |parts| == 1 && parts[0].free && Freed(blocks, i) == blocks[..i] + parts + blocks[k..]
    ensures Tiled(parts, blocks[i].addr) && Next(parts[0]) == Next(blocks[k - 1])
    ensures forall j :: i < j < k ==> blocks[j].free
  {
    var b := blocks[i];
    var merged := i + 1 < |blocks| && blocks[i + 1].free;
    k := if merged then i + 2 else i + 1;
    parts := [Blk(b.addr, if merged then b.size + HEADER + blocks[i + 1].size else b.size, true)];
    if merged {
      assert blocks[i + 1].addr == Next(blocks[i]);
    } else {
      UpdateParts(blocks, i, parts[0]);
    }
  }

  lemma FreedBlocks(blocks: seq<Blk>, start: nat, i: nat)
    requires Tiled(blocks, start) && i < |blocks| && !blocks[i].free
    ensures Tiled(Freed(blocks, i), start)
    ensures Frontier(Freed(blocks, i), start) == Frontier(blocks, start)
    ensures Live(Freed(blocks, i)) == Live(blocks) - {blocks[i]}
  {
    hide *;
    var parts, k := FreedParts(blocks, start, i);
    MergedFrontier(blocks, i, parts, k);
    TiledReplace(blocks, start, i, parts, k);
    Unique(blocks, start, i, k);
    LiveRemove(blocks, i, parts, k);
  }

  lemma MergedFrontier(blocks: seq<Blk>, i: nat, parts: seq<Blk>, k: nat)
    requires i < k <= |blocks| && |parts| == 1 && Next(parts[0]) == Next(blocks[k - 1])
    ensures Frontier(parts, blocks[i].addr) == Next(blocks[k - 1])
  {
  }

  lemma LiveRemove(blocks: seq<Blk>, i: nat, parts: seq<Blk>, k: nat)
    requires i < k <= |blocks| && !blocks[i].free && forall c :: c in parts ==> c.free
    requires blocks[i] !in blocks[..i] && blocks[i] !in blocks[k..]
    requires forall j :: i < j < k ==> blocks[j].free
    ensures Live(blocks[..i] + parts + blocks[k..]) == Live(blocks) - {blocks[i]}
  {
    Replaced(blocks, i, parts, k);
    assert forall c :: c in blocks[i..k] ==> c == blocks[i] || c.free;
  }

  /** A block occurs once. */
  lemma Unique(blocks: seq<Blk>, start: nat, i: nat, k: nat)
    requires Tiled(blocks, start) && i < k <= |blocks|
    ensures blocks[i] !in blocks[..i] && blocks[i] !in blocks[k..]
  {
    forall j | 0 <= j < |blocks| && j != i
      ensures blocks[j] != blocks[i]
    {
      TiledOrder(blocks, start, if i < j then i else j, if i < j then j else i);
    }
  }

  /** No two neighbours are both free. */
  ghost predicate Coalesced(blocks: seq<Blk>) {
    forall i :: 0 <= i < |blocks| - 1 ==> !(blocks[i].free && blocks[i + 1].free)
  }

  /** Merging looks forward only: freeing keeps the list coalesced exactly when the block before the
      freed one is in use. */
  lemma FreedCoalesced(blocks: seq<Blk>, i: nat)
    requires Coalesced(blocks) && i < |blocks| && !blocks[i].free
    ensures Coalesced(Freed(blocks, i)) <==> i == 0 || !blocks[i - 1].free
  {
    var out := Freed(blocks, i);
    if i > 0 && blocks[i - 1].free {
      assert out[i - 1].free && out[(i - 1) + 1].free;
    } else {
      var merged := i + 1 < |blocks| && blocks[i + 1].free;
      forall j | 0 <= j < |out| - 1
        ensures !(out[j].free && out[j + 1].free)
      {
        if merged && j >= i {
          assert !(blocks[j + 1].free && blocks[(j + 1) + 1].free);
        } else {
          assert !(blocks[j].free && blocks[j + 1].free);
        }
      }
    }
  }

  /** Allocation keeps the list coalesced. */
  lemma AllocatedCoalesced(blocks: seq<Blk>, start: nat, size: nat)
    requires Coalesced(blocks)
    ensures Coalesced(Allocated(blocks, start, size))
  {
    var i := FirstFit(blocks, size);
    var out := Allocated(blocks, start, size);
    var d := |out| - |blocks|;
    forall j | 0 <= j < |out| - 1
      ensures !(out[j].free && out[j + 1].free)
    {
      if j + 1 < i {
        assert !(blocks[j].free && blocks[j + 1].free);
      } else if i < |blocks| && j >= i + d {
        assert !(blocks[j - d].free && blocks[(j - d) + 1].free);
      }
    }
  }

  // ----- nothing is lost -----

  /** The bytes of the payloads that are free, or that are not. */
  function Bytes(blocks: seq<Blk>, free: bool): nat {
    if blocks == [] then 0 else (if blocks[0].free == free then blocks[0].size else 0) + Bytes(blocks[1..], free)
  }

  lemma {:induction false} BytesConcat(a: seq<Blk>, b: seq<Blk>, free: bool)
    ensures Bytes(a + b, free) == Bytes(a, free) + Bytes(b, free)
  {
    if a == [] {
      assert a + b == b;
    } else {
      BytesConcat(a[1..], b, free);
      assert (a + b)[1..] == a[1..] + b;
    }
  }

  /** Live payloads, free payloads and headers of 16 bytes fill the used region. */
  lemma {:induction false} Conserved(blocks: seq<Blk>, start: nat)
    requires Tiled(blocks, start)
    ensures Bytes(blocks, false) + Bytes(blocks, true) + 16 * |blocks| == Frontier(blocks, start) - start
  {
    if blocks != [] {
      var rest := blocks[1..];
      TailTiled(blocks, start);
      Conserved(rest, Next(blocks[0]));
    }
  }

  lemma TailTiled(blocks: seq<Blk>, start: nat)
    requires Tiled(blocks, start) && blocks != []
    ensures Tiled(blocks[1..], Next(blocks[0])) && Frontier(blocks[1..], Next(blocks[0])) == Frontier(blocks, start)
  {
    var rest := blocks[1..];
    assert |blocks| > 1 ==> blocks[0 + 1].addr == Next(blocks[0]);
    forall i | 0 <= i < |rest| - 1
      ensures rest[i + 1].addr == Next(rest[i])
    {
      assert blocks[(i + 1) + 1].addr == Next(blocks[i + 1]);
    }
  }

  lemma BytesReplace(blocks: seq<Blk>, i: nat, parts: seq<Blk>, k: nat, free: bool)
    requires i <= k <= |blocks|
    ensures Bytes(blocks[..i] + parts + blocks[k..], free) + Bytes(blocks[i..k], free) == Bytes(blocks, free) + Bytes(parts, free)
  {
    BytesConcat(blocks[..i] + parts, blocks[k..], free);
    BytesConcat(blocks[..i], parts, free);
    BytesConcat(blocks[..i] + blocks[i..k], blocks[k..], free);
    BytesConcat(blocks[..i], blocks[i..k], free);
    assert blocks == blocks[..i] + blocks[i..k] + blocks[k..];
  }

  /** The block handed out has the requested size when the rest of the free block can hold a header of 16 bytes and
      16 bytes more, or when it is new; the rest is then a free block of its own. Otherwise it is the whole free block. */
  lemma TakenExactly(blocks: seq<Blk>, start: nat, size: nat) returns (b: Blk)
    requires Tiled(blocks, start) && size > 0 && size % 16 == 0
    ensures Placed(blocks, start, size, b) && Live(Allocated(blocks, start, size)) == Live(blocks) + {b}
    ensures Bytes(Allocated(blocks, start, size), false) == Bytes(blocks, false) + b.size
    ensures var i, out := FirstFit(blocks, size), Allocated(blocks, start, size);
            if i == |blocks| then b.size == size && out == blocks + [b]
            else if blocks[i].size >= size + 32 then
              b.size == size && out == blocks[..i] + [b, Blk(b.addr + 16 + size, blocks[i].size - size - 16, true)] + blocks[i + 1..]
            else b.size == blocks[i].size && out == blocks[..i] + [b] + blocks[i + 1..]
  {
    hide *;
    b := AllocatedBlocks(blocks, start, size);
    HandedParts(blocks, start, size);
    HandedBytes(blocks, start, size);
  }

  lemma HandedParts(blocks: seq<Blk>, start: nat, size: nat)
    ensures var i, b, out := FirstFit(blocks, size), Handed(blocks, start, size), Allocated(blocks, start, size);
            if i == |blocks| then b.size == size && out == blocks + [b]
            else if blocks[i].size >= size + 32 then
              b.size == size && out == blocks[..i] + [b, Blk(b.addr + 16 + size, blocks[i].size - size - 16, true)] + blocks[i + 1..]
            else b.size == blocks[i].size && out == blocks[..i] + [b] + blocks[i + 1..]
  {
    hide FirstFit, Frontier;
  }

  lemma HandedBytes(blocks: seq<Blk>, start: nat, size: nat)
    ensures Bytes(Allocated(blocks, start, size), false) == Bytes(blocks, false) + Handed(blocks, start, size).size
  {
    var i := FirstFit(blocks, size);
    hide FirstFit, Frontier;
    if i == |blocks| {
      BytesConcat(blocks, [Blk(Frontier(blocks, start), size, false)], false);
    } else {
      BytesReplace(blocks, i, Take(blocks[i], size), i + 1, false);
      assert blocks[i..i + 1] == [blocks[i]];
      OneFree(blocks[i]);
      TakenBytes(blocks[i], size);
      hide Take, Bytes;
    }
  }

  lemma OneFree(b: Blk)
    ensures Bytes([b], false) == if b.free then 0 else b.size
  {
  }

  lemma TakenBytes(b: Blk, size: nat)
    requires Fits(b, size)
    ensures Bytes(Take(b, size), false) == Take(b, size)[0].size
  {
    var parts := Take(b, size);
    if |parts| == 2 {
      assert parts[1..] == [parts[1]];
      OneFree(parts[1]);
    }
  }

  /** Freeing turns exactly the payload of the block into free bytes, and its header when it is merged. */
  lemma FreedBytes(blocks: seq<Blk>, start: nat, i: nat)
    requires Tiled(blocks, start) && i < |blocks| && !blocks[i].free
    ensures Bytes(Freed(blocks, i), false) + blocks[i].size == Bytes(blocks, false)
    ensures Bytes(Freed(blocks, i), true) ==
              Bytes(blocks, true) + blocks[i].size + if i + 1 < |blocks| && blocks[i + 1].free then 16 else 0
  {
    hide Tiled, Live, Bytes;
    FreedBlocks(blocks, start, i);
    Conserved(blocks, start);
    Conserved(Freed(blocks, i), start);
    var parts, k := FreedParts(blocks, start, i);
    BytesReplace(blocks, i, parts, k, false);
    OneFree(parts[0]);
    assert parts == [parts[0]];
    BytesConcat([blocks[i]], blocks[i + 1..k], false);
    assert blocks[i..k] == [blocks[i]] + blocks[i + 1..k];
    AllFree(blocks[i + 1..k]);
    OneFree(blocks[i]);
  }

  lemma {:induction false} AllFree(blocks: seq<Blk>)
    requires forall j :: 0 <= j < |blocks| ==> blocks[j].free
    ensures Bytes(blocks, false) == 0
  {
    if blocks != [] {
      AllFree(blocks[1..]);
    }
  }

  // ----- what is free can be had again -----

  /** The payload that these requests, one after the other, can share: with a header between two. */
  function Need(sizes: seq<nat>): nat {
    if sizes == [] then 0 else if |sizes| == 1 then sizes[0] else sizes[0] + 16 + Need(sizes[1..])
  }

  function AllocatedAll(blocks: seq<Blk>, start: nat, sizes: seq<nat>): seq<Blk>
    decreases |sizes|
  {
    if sizes == [] then blocks else AllocatedAll(Allocated(blocks, start, sizes[0]), start, sizes[1..])
  }

  /** Each request finds a free block when its turn comes. */
  predicate Served(blocks: seq<Blk>, start: nat, sizes: seq<nat>)
    decreases |sizes|
  {
    sizes == [] || (FirstFit(blocks, sizes[0]) < |blocks| && Served(Allocated(blocks, start, sizes[0]), start, sizes[1..]))
  }

  lemma Found(blocks: seq<Blk>, size: nat, c: Blk)
    requires c in blocks && Fits(c, size)
    ensures FirstFit(blocks, size) < |blocks|
  {
    var j :| 0 <= j < |blocks| && blocks[j] == c;
  }

  /** After one allocation, the free block that was large enough for more is there, or what is left of it. */
  lemma StillRoom(blocks: seq<Blk>, start: nat, size: nat, more: nat, c: Blk) returns (d: Blk)
    requires c in blocks && Fits(c, size + 16 + more) && more >= 16
    ensures d in Allocated(blocks, start, size) && Fits(d, more)
  {
    Found(blocks, size, c);
    HandedParts(blocks, start, size);
    var i, b, out := FirstFit(blocks, size), Handed(blocks, start, size), Allocated(blocks, start, size);
    hide FirstFit, Allocated, Handed;
    var j :| 0 <= j < |blocks| && blocks[j] == c;
    if j > i {
      d := c;
      assert out[j + |out| - |blocks|] == c;
    } else {
      d := Blk(b.addr + 16 + size, c.size - size - 16, true);
      assert out[i + 1] == d;
    }
  }

  /** Requests that a free block has room for all find room, in whatever other free blocks they land. */
  lemma {:induction false} AllServed(blocks: seq<Blk>, start: nat, sizes: seq<nat>, c: Blk)
    requires c in blocks && Fits(c, Need(sizes)) && forall i :: 0 <= i < |sizes| ==> sizes[i] >= 16
    ensures Served(blocks, start, sizes)
    decreases |sizes|
  {
    if sizes != [] {
      var rest := sizes[1..];
      Found(blocks, sizes[0], c);
      if rest != [] {
        NeedAtLeast(rest);
        var d := StillRoom(blocks, start, sizes[0], Need(rest), c);
        AllServed(Allocated(blocks, start, sizes[0]), start, rest, d);
      }
    }
  }

  lemma {:induction false} NeedAtLeast(sizes: seq<nat>)
    requires sizes != [] && forall i :: 0 <= i < |sizes| ==> sizes[i] >= 16
    ensures Need(sizes) >= 16
  {
    if |sizes| > 1 {
      NeedAtLeast(sizes[1..]);
    }
  }

  /** Memory given back serves again: after freeing a payload, requests that fit in it, headers between them
      counted, all succeed without the heap growing. */
  lemma FreedServes(blocks: seq<Blk>, start: nat, i: nat, sizes: seq<nat>)
    requires Tiled(blocks, start) && i < |blocks| && !blocks[i].free && Need(sizes) <= blocks[i].size
    requires forall k :: 0 <= k < |sizes| ==> sizes[k] > 0 && sizes[k] % 16 == 0
    ensures Served(Freed(blocks, i), start, sizes)
    ensures Frontier(AllocatedAll(Freed(blocks, i), start, sizes), start) == Frontier(blocks, start)
  {
    hide Tiled, Live, Served, AllocatedAll, Frontier;
    var out := Freed(blocks, i);
    Reusable(blocks, i);
    AllServed(out, start, sizes, out[i]);
    FreedBlocks(blocks, start, i);
    ServedFrontier(out, start, sizes);
  }

  lemma Reusable(blocks: seq<Blk>, i: nat)
    requires i < |blocks|
    ensures var out := Freed(blocks, i); i < |out| && out[i] in out && Fits(out[i], blocks[i].size)
  {
    assert Freed(blocks, i)[i] in Freed(blocks, i);
  }

  lemma {:induction false} ServedFrontier(blocks: seq<Blk>, start: nat, sizes: seq<nat>)
    requires Tiled(blocks, start) && Served(blocks, start, sizes)
    requires forall k :: 0 <= k < |sizes| ==> sizes[k] > 0 && sizes[k] % 16 == 0
    ensures Frontier(AllocatedAll(blocks, start, sizes), start) == Frontier(blocks, start)
    decreases |sizes|
  {
    hide Tiled, FirstFit, Allocated, Live, Placed, Frontier, Handed;
    if sizes != [] {
      var b := TakenBlocks(blocks, start, sizes[0], FirstFit(blocks, sizes[0]));
      ServedFrontier(Allocated(blocks, start, sizes[0]), start, sizes[1..]);
    }
  }
}
