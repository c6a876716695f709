/** The allocator over memory: headers are words in the heap, the list of blocks is what they spell. */
module AirlosAllocator {
  import opened Allocator

  /** Words of memory by address; a header is a size word and a flags word. */
  type Memory = map<nat, nat>

  ghost predicate Header(mem: Memory, b: Blk) {
    && b.addr in mem && b.addr + 8 in mem
    && mem[b.addr] == b.size && mem[b.addr + 8] == if b.free then 1 else 0
  }

  ghost predicate Headers(mem: Memory, blocks: seq<Blk>) {
    forall i :: 0 <= i < |blocks| ==> Header(mem, blocks[i])
  }

  /** Every word of [lo, hi) is there, and reads as zero. */
  ghost predicate Zeroed(mem: Memory, lo: nat, hi: nat) {
    forall a :: lo <= a < hi && a % 8 == 0 ==> a in mem && mem[a] == 0
  }

  ghost predicate Mapped(mem: Memory, lo: nat, hi: nat) {
    forall a :: lo <= a < hi && a % 8 == 0 ==> a in mem
  }

  ghost predicate InPayload(b: Blk, a: nat) {
    b.addr + HEADER <= a < Next(b)
  }

  /** The payload words of every live block read the same in both memories. */
  ghost predicate Untouched(live: set<Blk>, before: Memory, after: Memory) {
    forall b, a :: b in live && InPayload(b, a) && a in before ==> a in after && after[a] == before[a]
  }

  /** The memory from `start` to `end` spells out the blocks and is zero behind them. */
  ghost predicate Spells(mem: Memory, blocks: seq<Blk>, start: nat, end: nat) {
    && Tiled(blocks, start)
    && Frontier(blocks, start) <= end
    && Headers(mem, blocks)
    && Mapped(mem, start, end)
    && Zeroed(mem, Frontier(blocks, start), end)
  }

  class AirlosAlloc {
    var heapStart: nat
    var heapEnd: nat
    var mem: Memory
    ghost var blocks: seq<Blk>

    ghost predicate Valid()
      reads this
    {
      if heapStart == 0 then heapEnd == 0 && blocks == [] && mem == map[]
      else
        heapEnd % 16 == 0 && Spells(mem, blocks, heapStart, heapEnd)
    }

    constructor ()
      ensures Valid() && heapStart == 0 && blocks == []
    {
      heapStart, heapEnd, mem, blocks := 0, 0, map[], [];
    }

    method HdrSet(ptr: nat, size: nat, flags: nat)
      modifies this`mem
      ensures mem == old(mem)[ptr := size][ptr + 8 := flags]
    {
      mem := mem[ptr := size];
      mem := mem[ptr + 8 := flags];
    }

    /** `brk` is what the kernel reports as the current break, 0 on failure. */
    method EnsureInit(brk: nat) returns (ok: bool)
      requires Valid() && brk % 16 == 0
      modifies this
      ensures Valid() && blocks == old(blocks) && mem == old(mem)
      ensures ok <==> old(heapStart) != 0 || brk != 0
      ensures ok ==> heapStart != 0
      ensures heapStart == if old(heapStart) != 0 then old(heapStart) else brk
      ensures heapEnd == if old(heapStart) != 0 then old(heapEnd) else if ok then brk else 0
    {
      if heapStart != 0 {
        return true;
      }
      if brk == 0 {
        return false;
      }
      heapStart, heapEnd := brk, brk;
      return true;
    }

    /** Grows by whole pages when the kernel grants it; fresh memory reads as zero. */
    method GrowHeap(needed: nat, granted: bool) returns (ok: bool)
      requires Valid() && heapStart != 0 && needed > 0
      modifies this`heapEnd, this`mem
      ensures Valid() && ok == granted
      ensures !ok ==> heapEnd == old(heapEnd) && mem == old(mem)
      ensures ok ==> heapEnd == old(heapEnd) + RoundUp(needed, PAGE)
      ensures ok ==> needed <= heapEnd - old(heapEnd) < needed + 4096 && (heapEnd - old(heapEnd)) % 4096 == 0
      ensures forall a :: a in old(mem) && a < old(heapEnd) ==> a in mem && mem[a] == old(mem)[a]
    {
      var grow := RoundUp(needed, PAGE);
      PageMultiple(needed);
      if !granted {
        return false;
      }
      hide Spells, RoundUp;
      mem := mem + Zeros(heapEnd, heapEnd + grow);
      ZerosAdded(old(mem), heapEnd, heapEnd + grow);
      hide Zeros;
      GrowSpells(old(mem), mem, blocks, heapStart, heapEnd, heapEnd + grow);
      heapEnd := heapEnd + grow;
      return true;
    }

    /** Walks the headers to the lowest free block that fits, or to the end of the used region. */
    method Walk(size: nat) returns (ptr: nat, found: bool)
      requires Valid() && heapStart != 0
      ensures var i := FirstFit(blocks, size);
              if found then i < |blocks| && ptr == blocks[i].addr else i == |blocks| && ptr == Frontier(blocks, heapStart)
    {
      hide Spells, FirstFit;
      ptr := heapStart;
      ghost var i := 0;
      while ptr + HEADER <= heapEnd
        invariant 0 <= i <= |blocks| && ptr == Frontier(blocks[..i], heapStart)
        invariant forall j :: 0 <= j < i ==> !Fits(blocks[j], size)
        decreases heapEnd - ptr
      {
        AtBlock(blocks, heapStart, heapEnd, mem, i);
        var bsize := mem[ptr];
        if bsize == 0 {
          break;
        }
        var bflags := mem[ptr + 8];
        if bflags % 2 != 0 && bsize >= size {
          FitsHere(blocks, size, i);
          return ptr, true;
        }
        ptr := ptr + HEADER + bsize;
        i := i + 1;
      }
      ListEnd(blocks, heapStart, heapEnd, mem, i, ptr);
      NoFit(blocks, size, i);
      return ptr, false;
    }

    /** First fit, else a new block at the frontier. `brk` and `granted` are the kernel's answers. */
    method Alloc(request: nat, brk: nat, granted: bool) returns (p: nat)
      requires Valid() && brk % 16 == 0
      modifies this
      ensures Valid() && Untouched(Live(old(blocks)), old(mem), mem)
      ensures p == 0 ==> blocks == old(blocks)
      ensures p == 0 <==>
                || (old(heapStart) == 0 && brk == 0)
                || (!granted && NeedsGrowth(old(blocks), if old(heapStart) == 0 then brk else old(heapStart),
                                            if old(heapStart) == 0 then brk else old(heapEnd), PayloadSize(request)))
      ensures p != 0 ==>
                && heapStart == (if old(heapStart) == 0 then brk else old(heapStart)) && heapStart != 0
                && blocks == Allocated(old(blocks), heapStart, PayloadSize(request))
                && exists b :: Live(blocks) == Live(old(blocks)) + {b} && p == b.addr + 16 &&
                     Placed(old(blocks), heapStart, PayloadSize(request), b)
      ensures old(heapStart) != 0 && !NeedsGrowth(old(blocks), old(heapStart), old(heapEnd), PayloadSize(request)) ==>
                heapEnd == old(heapEnd)
      ensures heapEnd == old(heapEnd) || old(heapStart) == 0 || heapEnd < Frontier(blocks, heapStart) + 4096
    {
      var ready := EnsureInit(brk);
      if !ready {
        return 0;
      }
      var size := PayloadSize(request);
      var ptr, found := Walk(size);
      ghost var b := AllocatedBlocks(blocks, heapStart, size);
      if found {
        p := UseFree(ptr, size);
      } else {
        p := Bump(ptr, size, granted);
      }
    }

    /** Takes the free block at `ptr`, splitting it when it is large enough. */
    method UseFree(ptr: nat, size: nat) returns (p: nat)
      requires Valid() && heapStart != 0 && size > 0 && size % 16 == 0
      requires FirstFit(blocks, size) < |blocks| && ptr == blocks[FirstFit(blocks, size)].addr
      modifies this`mem, this`blocks
      ensures Valid() && p == ptr + HEADER && blocks == Allocated(old(blocks), heapStart, size)
      ensures Untouched(Live(old(blocks)), old(mem), mem)
    {
      ghost var i := FirstFit(blocks, size);
      assert Header(mem, blocks[i]);
      hide Spells, FirstFit, Live, Allocated, Untouched, HeadersTaken;
      WriteTaken(blocks[i], ptr, size);
      TakenMemory(old(mem), mem, blocks, heapStart, heapEnd, size, i);
      blocks := Allocated(blocks, heapStart, size);
      return ptr + HEADER;
    }

    /** The headers of the taken block and of what is split off. */
    method WriteTaken(ghost b: Blk, ptr: nat, size: nat)
      requires Header(mem, b) && b.addr == ptr
      modifies this`mem
      ensures mem == HeadersTaken(old(mem), b, size)
    {
      var bsize := mem[ptr];
      if bsize >= size + HEADER + MIN_BLOCK {
        var next := ptr + HEADER + size;
        HdrSet(next, bsize - size - HEADER, 1);
        HdrSet(ptr, size, 0);
      } else {
        HdrSet(ptr, bsize, 0);
      }
    }

    /** Puts a new block behind the last one, growing the heap if need be. */
    method Bump(ptr: nat, size: nat, granted: bool) returns (p: nat)
      requires Valid() && heapStart != 0 && size > 0 && size % 16 == 0
      requires FirstFit(blocks, size) == |blocks| && ptr == Frontier(blocks, heapStart)
      modifies this`mem, this`blocks, this`heapEnd
      ensures Valid() && Untouched(Live(old(blocks)), old(mem), mem)
      ensures p == 0 <==> !granted && ptr + HEADER + size > old(heapEnd)
      ensures p == 0 ==> blocks == old(blocks)
      ensures ptr + HEADER + size <= old(heapEnd) ==> heapEnd == old(heapEnd)
      ensures heapEnd == old(heapEnd) || heapEnd < Frontier(blocks, heapStart) + 4096
      ensures p != 0 ==> p == ptr + HEADER && blocks == Allocated(old(blocks), heapStart, size)
    {
      ghost var b := AllocatedBlocks(blocks, heapStart, size);
      var total := HEADER + size;
      if ptr + total > heapEnd {
        var grown := GrowHeap(ptr + total - heapEnd, granted);
        PayloadsBelow(blocks, heapStart, old(heapEnd), old(mem), mem);
        if !grown {
          return 0;
        }
      }
      ghost var m1 := mem;
      HdrSet(ptr, size, 0);
      BumpedMemory(m1, mem, blocks, heapStart, heapEnd, size);
      blocks := Allocated(blocks, heapStart, size);
      return ptr + HEADER;
    }

    /** Frees a payload handed out before; merges with the next block when that is free. */
    method Dealloc(p: nat)
      requires Valid()
      requires p != 0 ==> exists b :: b in Live(blocks) && p == b.addr + HEADER
      modifies this`mem, this`blocks
      ensures Valid()
      ensures p == 0 ==> blocks == old(blocks) && mem == old(mem)
      ensures p != 0 ==>
                && (exists i :: 0 <= i < |old(blocks)| && old(blocks)[i].addr + HEADER == p && blocks == Freed(old(blocks), i))
                && (forall b :: b in Live(old(blocks)) ==> (b !in Live(blocks) <==> b.addr + HEADER == p))
                && Live(blocks) <= Live(old(blocks))
      ensures Untouched(Live(blocks), old(mem), mem)
    {
      if p == 0 {
        return;
      }
      ghost var i := LiveIndex(blocks, heapStart, p);
      ghost var before := blocks;
      MarkFree(p - HEADER, i);
      FreedBlocks(before, heapStart, i);
      SameAddress(before, heapStart, i);
    }

    /** Rewrites the header of block `i`, over the next one when that is free. */
    method MarkFree(hdr: nat, ghost i: nat)
      requires Valid() && i < |blocks| && !blocks[i].free && hdr == blocks[i].addr
      modifies this`mem, this`blocks
      ensures Valid() && blocks == Freed(old(blocks), i)
      ensures Untouched(Live(old(blocks)) - {old(blocks)[i]}, old(mem), mem)
    {
      assert Header(mem, blocks[i]);
      hide Spells, Freed, Untouched, Live;
      ghost var m0 := mem;
      var size := mem[hdr];
      HdrSet(hdr, size, 1);
      var next := hdr + HEADER + size;
      AfterBlock(blocks, heapStart, heapEnd, m0, mem, i);
      if next + HEADER <= heapEnd {
        var nextSize := mem[next];
        if nextSize > 0 && mem[next + 8] % 2 != 0 {
          HdrSet(hdr, size + HEADER + nextSize, 1);
          HdrTwice(m0, mem, hdr, size, size + HEADER + nextSize);
        }
      }
      FreedMemory(m0, mem, blocks, heapStart, heapEnd, i);
      blocks := Freed(blocks, i);
    }

    /** A client writes a word of a payload that it holds. */
    method WriteWord(ghost b: Blk, a: nat, v: nat)
      requires Valid() && b in Live(blocks) && InPayload(b, a) && a % 8 == 0
      modifies this`mem
      ensures Valid() && mem == old(mem)[a := v]
      ensures Untouched(Live(blocks) - {b}, old(mem), mem)
    {
      mem := mem[a := v];
      PayloadWrite(old(mem), blocks, heapStart, heapEnd, b, a, v);
    }
  }

  lemma PageMultiple(needed: nat)
    ensures needed <= RoundUp(needed, PAGE) < needed + 4096 && RoundUp(needed, PAGE) % 4096 == 0
  {
  }

  /** Neither a free block fits nor is there room behind the last block. */
  ghost predicate NeedsGrowth(blocks: seq<Blk>, start: nat, end: nat, size: nat) {
    FirstFit(blocks, size) == |blocks| && Frontier(blocks, start) + 16 + size > end
  }

  // ----- reading the list off the headers -----

  /** Zeroed words from one address up to another. */
  function Zeros(from: nat, to: nat): Memory {
    map a | from <= a < to && a % 8 == 0 :: 0
  }

  lemma ZerosAdded(m: Memory, from: nat, to: nat)
    ensures var n := m + Zeros(from, to);
            && (forall a :: a in m && a < from ==> a in n && n[a] == m[a])
            && forall a :: from <= a < to && a % 8 == 0 ==> a in n && n[a] == 0
  {
  }

  lemma GrowSpells(m0: Memory, m1: Memory, blocks: seq<Blk>, start: nat, end: nat, newEnd: nat)
    requires Spells(m0, blocks, start, end) && end <= newEnd
    requires forall a :: a in m0 && a < end ==> a in m1 && m1[a] == m0[a]
    requires forall a :: end <= a < newEnd && a % 8 == 0 ==> a in m1 && m1[a] == 0
    ensures Spells(m1, blocks, start, newEnd)
  {
    hide Zeroed, Mapped;
    forall i | 0 <= i < |blocks|
      ensures Header(m1, blocks[i])
    {
      TiledBounds(blocks, start, i);
      assert Header(m0, blocks[i]);
    }
    GrowZeroed(m0, m1, Frontier(blocks, start), end, newEnd);
    GrowMapped(m0, m1, start, end, newEnd);
  }

  lemma GrowZeroed(m0: Memory, m1: Memory, lo: nat, end: nat, newEnd: nat)
    requires Zeroed(m0, lo, end)
    requires forall a :: a in m0 && a < end ==> a in m1 && m1[a] == m0[a]
    requires forall a :: end <= a < newEnd && a % 8 == 0 ==> a in m1 && m1[a] == 0
    ensures Zeroed(m1, lo, newEnd)
  {
  }

  lemma GrowMapped(m0: Memory, m1: Memory, lo: nat, end: nat, newEnd: nat)
    requires Mapped(m0, lo, end)
    requires forall a :: a in m0 && a < end ==> a in m1 && m1[a] == m0[a]
    requires forall a :: end <= a < newEnd && a % 8 == 0 ==> a in m1 && m1[a] == 0
    ensures Mapped(m1, lo, newEnd)
  {
  }

  /** Where the walk stands after `i` blocks: at the next header, or at zeroed memory. */
  lemma AtBlock(blocks: seq<Blk>, start: nat, end: nat, mem: Memory, i: nat)
    requires Spells(mem, blocks, start, end) && i <= |blocks|
    requires Frontier(blocks[..i], start) + HEADER <= end
    ensures var ptr := Frontier(blocks[..i], start);
            && ptr in mem && (mem[ptr] == 0 <==> i == |blocks|)
            && (i < |blocks| ==>
                  && ptr == blocks[i].addr && mem[ptr] == blocks[i].size && ptr + 8 in mem
                  && (mem[ptr + 8] % 2 != 0 <==> blocks[i].free)
                  && ptr + HEADER + mem[ptr] == Frontier(blocks[..i + 1], start))
  {
    if i < |blocks| {
      assert Header(mem, blocks[i]);
      TiledBounds(blocks, start, i);
      PrefixFrontier(blocks, start, i);
      PrefixFrontier(blocks, start, i + 1);
      hide Zeroed, Mapped, Headers, Tiled, Frontier;
    } else {
      assert blocks[..i] == blocks;
      FrontierAligned(blocks, start);
      ZeroAt(mem, Frontier(blocks, start), end);
    }
  }

  lemma PrefixFrontier(blocks: seq<Blk>, start: nat, i: nat)
    requires Tiled(blocks, start) && i <= |blocks|
    ensures Frontier(blocks[..i], start) == if i == |blocks| then Frontier(blocks, start) else blocks[i].addr
    ensures i > 0 ==> Frontier(blocks[..i], start) == Next(blocks[i - 1])
  {
    if 0 < i < |blocks| {
      assert blocks[(i - 1) + 1].addr == Next(blocks[i - 1]);
    }
  }

  lemma ZeroAt(mem: Memory, at: nat, end: nat)
    requires Zeroed(mem, at, end) && at % 16 == 0 && at + HEADER <= end
    ensures at in mem && mem[at] == 0
  {
    assert at % 8 == 0;
  }

  lemma FrontierPrefix(blocks: seq<Blk>, start: nat, i: nat)
    requires Tiled(blocks, start) && i < |blocks|
    ensures Frontier(blocks[..i], start) + HEADER < Frontier(blocks, start)
  {
    TiledBounds(blocks, start, i);
    if i > 0 {
      assert blocks[(i - 1) + 1].addr == Next(blocks[i - 1]);
    }
  }

  lemma ListEnd(blocks: seq<Blk>, start: nat, end: nat, mem: Memory, i: nat, ptr: nat)
    requires Spells(mem, blocks, start, end) && i <= |blocks| && ptr == Frontier(blocks[..i], start)
    requires ptr + HEADER <= end ==> ptr in mem && mem[ptr] == 0
    ensures i == |blocks| && ptr == Frontier(blocks, start)
  {
    if ptr + HEADER <= end {
      AtBlock(blocks, start, end, mem, i);
    } else if i < |blocks| {
      FrontierPrefix(blocks, start, i);
    }
    assert blocks[..|blocks|] == blocks;
  }

  lemma PayloadsBelow(blocks: seq<Blk>, start: nat, end: nat, m0: Memory, m1: Memory)
    requires Tiled(blocks, start) && Frontier(blocks, start) <= end
    requires forall a :: a in m0 && a < end ==> a in m1 && m1[a] == m0[a]
    ensures Untouched(Live(blocks), m0, m1)
  {
    forall b, a | b in Live(blocks) && InPayload(b, a) && a in m0
      ensures a in m1 && m1[a] == m0[a]
    {
      var j :| 0 <= j < |blocks| && blocks[j] == b;
      TiledBounds(blocks, start, j);
    }
  }

  lemma {:induction false} FitsHere(blocks: seq<Blk>, size: nat, i: nat)
    requires i < |blocks| && Fits(blocks[i], size) && forall j :: 0 <= j < i ==> !Fits(blocks[j], size)
    ensures FirstFit(blocks, size) == i
  {
  }

  lemma {:induction false} NoFit(blocks: seq<Blk>, size: nat, i: nat)
    requires i == |blocks| && forall j :: 0 <= j < i ==> !Fits(blocks[j], size)
    ensures FirstFit(blocks, size) == |blocks|
  {
  }

  lemma LiveIndex(blocks: seq<Blk>, start: nat, p: nat) returns (i: nat)
    requires exists b :: b in Live(blocks) && p == b.addr + HEADER
    ensures i < |blocks| && !blocks[i].free && p == blocks[i].addr + HEADER
  {
    var b :| b in Live(blocks) && p == b.addr + HEADER;
    i :| 0 <= i < |blocks| && blocks[i] == b;
  }

  lemma SameAddress(blocks: seq<Blk>, start: nat, i: nat)
    requires Tiled(blocks, start) && i < |blocks|
    ensures forall b :: b in Live(blocks) && b.addr == blocks[i].addr ==> b == blocks[i]
  {
    forall b | b in Live(blocks) && b.addr == blocks[i].addr
      ensures b == blocks[i]
    {
      if b != blocks[i] {
        BlocksDisjoint(blocks, start, b, blocks[i]);
      }
    }
  }

  // ----- what the header writes do to memory -----

  ghost predicate OtherHeaders(m: Memory, blocks: seq<Blk>, i: nat) {
    forall j :: 0 <= j < |blocks| && j != i ==> Header(m, blocks[j])
  }

  /** Only addresses of the block differ. */
  ghost predicate WrittenInside(m0: Memory, m1: Memory, b: Blk) {
    m0.Keys <= m1.Keys && forall a :: a in m0 && !(b.addr <= a < Next(b)) ==> m1[a] == m0[a]
  }

  /** Writes inside block `i` leave the headers and payloads of the other blocks alone. */
  lemma InsideBlock(m0: Memory, m1: Memory, blocks: seq<Blk>, start: nat, end: nat, i: nat)
    requires Spells(m0, blocks, start, end) && i < |blocks| && WrittenInside(m0, m1, blocks[i])
    ensures OtherHeaders(m1, blocks, i)
    ensures Mapped(m1, start, end) && Zeroed(m1, Frontier(blocks, start), end)
    ensures Untouched(Live(blocks) - {blocks[i]}, m0, m1)
  {
    TiledBounds(blocks, start, i);
    forall j | 0 <= j < |blocks| && j != i
      ensures Header(m1, blocks[j])
    {
      assert Header(m0, blocks[j]);
      OtherAddresses(blocks, start, i, j);
    }
    forall b, a | b in Live(blocks) - {blocks[i]} && InPayload(b, a) && a in m0
      ensures a in m1 && m1[a] == m0[a]
    {
      BlocksDisjoint(blocks, start, b, blocks[i]);
    }
  }

  lemma OtherAddresses(blocks: seq<Blk>, start: nat, i: nat, j: nat)
    requires Tiled(blocks, start) && i < |blocks| && j < |blocks| && j != i
    ensures !(blocks[i].addr <= blocks[j].addr < Next(blocks[i]))
    ensures !(blocks[i].addr <= blocks[j].addr + 8 < Next(blocks[i]))
  {
    if i < j {
      TiledOrder(blocks, start, i, j);
    } else {
      TiledOrder(blocks, start, j, i);
    }
  }

  /** The headers written when a block is taken: its own, and that of what is split off. */
  function HeadersTaken(m: Memory, b: Blk, size: nat): Memory {
    if b.size >= size + HEADER + MIN_BLOCK
      then m[b.addr + HEADER + size := b.size - size - HEADER][b.addr + HEADER + size + 8 := 1][b.addr := size][b.addr + 8 := 0]
      else m[b.addr := b.size][b.addr + 8 := 0]
  }

  lemma TakenMemory(m0: Memory, m1: Memory, blocks: seq<Blk>, start: nat, end: nat, size: nat, i: nat)
    requires Spells(m0, blocks, start, end)
    requires size > 0 && size % 16 == 0 && i == FirstFit(blocks, size) < |blocks|
    requires m1 == HeadersTaken(m0, blocks[i], size)
    ensures Spells(m1, Allocated(blocks, start, size), start, end)
    ensures Untouched(Live(blocks), m0, m1)
  {
    InsideBlock(m0, m1, blocks, start, end, i);
    assert Live(blocks) - {blocks[i]} == Live(blocks);
    TakeHeaders(m1, blocks[i], size);
    var b := TakenBlocks(blocks, start, size, i);
    hide Tiled, FirstFit, Take, Mapped, Zeroed, Header, Frontier, Untouched, Live;
    PartHeaders(m1, blocks, i, Take(blocks[i], size), i + 1);
  }

  lemma TakeHeaders(m: Memory, b: Blk, size: nat)
    requires Fits(b, size) && size > 0 && b.addr in m && b.addr + 8 in m && m[b.addr + 8] == 0
    requires if b.size >= size + HEADER + MIN_BLOCK then
               var next := b.addr + HEADER + size;
               m[b.addr] == size && next in m && m[next] == b.size - size - HEADER && next + 8 in m && m[next + 8] == 1
             else m[b.addr] == b.size
    ensures forall j :: 0 <= j < |Take(b, size)| ==> Header(m, Take(b, size)[j])
  {
  }

  lemma PartHeaders(m1: Memory, blocks: seq<Blk>, i: nat, parts: seq<Blk>, k: nat)
    requires i < k <= |blocks| && OtherHeaders(m1, blocks, i)
    requires forall j :: 0 <= j < |parts| ==> Header(m1, parts[j])
    ensures Headers(m1, blocks[..i] + parts + blocks[k..])
  {
    var out := blocks[..i] + parts + blocks[k..];
    forall j | 0 <= j < |out|
      ensures Header(m1, out[j])
    {
      if j >= i + |parts| {
        assert out[j] == blocks[j - |parts| - i + k];
      }
    }
  }

  lemma BumpedMemory(m0: Memory, m1: Memory, blocks: seq<Blk>, start: nat, end: nat, size: nat)
    requires Spells(m0, blocks, start, end)
    requires FirstFit(blocks, size) == |blocks| && Frontier(blocks, start) + HEADER + size <= end && size > 0 && size % 16 == 0
    requires var f := Frontier(blocks, start); m1 == m0[f := size][f + 8 := 0]
    ensures Spells(m1, Allocated(blocks, start, size), start, end)
    ensures Untouched(Live(blocks), m0, m1)
  {
    var f := Frontier(blocks, start);
    var bumped := BumpedBlocks(blocks, start, size);
    FrontierAligned(blocks, start);
    PayloadsBelow(blocks, start, f, m0, m1);
    BumpedHeaders(m0, m1, blocks, start, end, size);
    assert Zeroed(m1, f + HEADER + size, end);
    hide Tiled, Zeroed, Headers, Untouched, FirstFit, Live;
  }

  lemma BumpedHeaders(m0: Memory, m1: Memory, blocks: seq<Blk>, start: nat, end: nat, size: nat)
    requires Spells(m0, blocks, start, end)
    requires var f := Frontier(blocks, start); m1 == m0[f := size][f + 8 := 0]
    ensures Headers(m1, blocks + [Blk(Frontier(blocks, start), size, false)])
  {
    forall j | 0 <= j < |blocks|
      ensures Header(m1, blocks[j])
    {
      TiledBounds(blocks, start, j);
      assert Header(m0, blocks[j]);
    }
  }

  lemma HdrTwice(m0: Memory, m1: Memory, at: nat, size: nat, again: nat)
    requires m1 == m0[at := size][at + 8 := 1][at := again][at + 8 := 1]
    ensures m1 == m0[at := again][at + 8 := 1]
  {
  }

  /** What the header after block `i` reads once block `i` is marked free. */
  lemma AfterBlock(blocks: seq<Blk>, start: nat, end: nat, m0: Memory, m1: Memory, i: nat)
    requires Spells(m0, blocks, start, end)
    requires i < |blocks| && blocks[i].addr in m0 && m1 == m0[blocks[i].addr := blocks[i].size][blocks[i].addr + 8 := 1]
    ensures m0[blocks[i].addr] == blocks[i].size
    ensures var next := Next(blocks[i]);
            && (next + HEADER <= end ==>
                  && next in m1 && (m1[next] > 0 <==> i + 1 < |blocks|)
                  && (i + 1 < |blocks| ==>
                        m1[next] == blocks[i + 1].size && next + 8 in m1 && (m1[next + 8] % 2 != 0 <==> blocks[i + 1].free)))
            && (next + HEADER > end ==> i + 1 == |blocks|)
  {
    assert Header(m0, blocks[i]);
    if i + 1 < |blocks| {
      AfterInner(blocks, start, end, m0, m1, i);
    } else {
      AfterLast(blocks, start, end, m0, m1);
    }
  }

  lemma AfterInner(blocks: seq<Blk>, start: nat, end: nat, m0: Memory, m1: Memory, i: nat)
    requires Spells(m0, blocks, start, end)
    requires i + 1 < |blocks| && blocks[i].addr in m0 && m1 == m0[blocks[i].addr := blocks[i].size][blocks[i].addr + 8 := 1]
    ensures var next := Next(blocks[i]);
            && next + HEADER <= end && next in m1 && m1[next] == blocks[i + 1].size > 0
            && next + 8 in m1 && (m1[next + 8] % 2 != 0 <==> blocks[i + 1].free)
  {
    assert blocks[i + 1].addr == Next(blocks[i]);
    assert Header(m0, blocks[i + 1]);
    TiledBounds(blocks, start, i + 1);
    hide Zeroed, Mapped;
  }

  lemma AfterLast(blocks: seq<Blk>, start: nat, end: nat, m0: Memory, m1: Memory)
    requires Spells(m0, blocks, start, end) && blocks != []
    requires var b := blocks[|blocks| - 1]; b.addr in m0 && m1 == m0[b.addr := b.size][b.addr + 8 := 1]
    ensures var next := Next(blocks[|blocks| - 1]); next + HEADER <= end ==> next in m1 && m1[next] == 0
  {
    FrontierAligned(blocks, start);
    var next := Frontier(blocks, start);
    if next + HEADER <= end {
      ZeroAt(m0, next, end);
      hide Zeroed, Mapped, Headers, Tiled;
    }
  }

  lemma FreedMemory(m0: Memory, m1: Memory, blocks: seq<Blk>, start: nat, end: nat, i: nat)
    requires Spells(m0, blocks, start, end)
    requires i < |blocks| && !blocks[i].free
    requires var b := blocks[i];
             m1 == m0[b.addr := if i + 1 < |blocks| && blocks[i + 1].free then b.size + HEADER + blocks[i + 1].size else b.size]
                     [b.addr + 8 := 1]
    ensures Spells(m1, Freed(blocks, i), start, end)
    ensures Untouched(Live(blocks) - {blocks[i]}, m0, m1)
  {
    assert WrittenInside(m0, m1, blocks[i]);
    InsideBlock(m0, m1, blocks, start, end, i);
    FreedBlocks(blocks, start, i);
    FreedHeaders(m1, blocks, i);
    hide Tiled, Mapped, Zeroed, Frontier, Live, Headers, Freed, Untouched;
  }

  lemma FreedHeaders(m1: Memory, blocks: seq<Blk>, i: nat)
    requires i < |blocks| && OtherHeaders(m1, blocks, i)
    requires var b, merged := blocks[i], i + 1 < |blocks| && blocks[i + 1].free;
             Header(m1, Blk(b.addr, if merged then b.size + HEADER + blocks[i + 1].size else b.size, true))
    ensures Headers(m1, Freed(blocks, i))
  {
    var b := blocks[i];
    var merged := i + 1 < |blocks| && blocks[i + 1].free;
    var k := if merged then i + 2 else i + 1;
    var part := Blk(b.addr, if merged then b.size + HEADER + blocks[i + 1].size else b.size, true);
    assert Freed(blocks, i) == blocks[..i] + [part] + blocks[k..];
    PartHeaders(m1, blocks, i, [part], k);
  }

  lemma PayloadWrite(m0: Memory, blocks: seq<Blk>, start: nat, end: nat, b: Blk, a: nat, v: nat)
    requires Spells(m0, blocks, start, end)
    requires b in Live(blocks) && InPayload(b, a)
    ensures Spells(m0[a := v], blocks, start, end)
    ensures Untouched(Live(blocks) - {b}, m0, m0[a := v])
  {
    var i :| 0 <= i < |blocks| && blocks[i] == b;
    assert Header(m0, blocks[i]);
    InsideBlock(m0, m0[a := v], blocks, start, end, i);
  }
}
