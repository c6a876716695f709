/** The tiled matrix product and the tree reduction against the plain loops, over exact numbers. */
module Kernels {
  /** An `m` by `k` matrix times a `k` by `n` matrix, both row by row. */
  datatype Shape = Shape(m: nat, k: nat, n: nat)

  predicate Fits(a: seq<real>, b: seq<real>, s: Shape) {
    |a| == s.m * s.k && |b| == s.k * s.n
  }

  lemma CellInBounds(row: nat, rows: nat, col: nat, cols: nat)
    requires row < rows && col < cols
    ensures row * cols + col < rows * cols
  {
    assert (row + 1) * cols <= rows * cols;
  }

  lemma SmallMultiple(d: int, cols: nat, e: int)
    requires d * cols == e && 0 - cols < e < cols
    ensures d == 0
  {
    if d > 0 {
      Grows(d - 1, cols);
    } else if d < 0 {
      Grows(-d - 1, cols);
    }
  }

  lemma Grows(d: nat, cols: nat)
    ensures (d + 1) * cols >= cols
  {
  }

  lemma CellOf(row: nat, col: nat, cols: nat)
    requires col < cols
    ensures (row * cols + col) / cols == row && (row * cols + col) % cols == col
  {
    var x := row * cols + col;
    var q, r := x / cols, x % cols;
    assert x == q * cols + r;
    assert (row - q) * cols == row * cols - q * cols;
    SmallMultiple(row - q, cols, r - col);
  }

  lemma CellParts(x: nat, rows: nat, cols: nat)
    requires x < rows * cols
    ensures cols > 0 && x / cols < rows && x % cols < cols && x == x / cols * cols + x % cols
  {
  }

  /** The first `c` products of row `i` of `a` and column `j` of `b`. */
  function Dot(a: seq<real>, b: seq<real>, s: Shape, i: nat, j: nat, c: nat): real
    requires Fits(a, b, s) && i < s.m && j < s.n && c <= s.k
  {
    if c == 0 then 0.0
    else
      CellInBounds(i, s.m, c - 1, s.k);
      CellInBounds(c - 1, s.k, j, s.n);
      Dot(a, b, s, i, j, c - 1) + a[i * s.k + (c - 1)] * b[(c - 1) * s.n + j]
  }

  /** Cell `x` of the product: the dot product of its row and its column. */
  function Product(a: seq<real>, b: seq<real>, s: Shape, x: nat): real
    requires Fits(a, b, s) && x < s.m * s.n
  {
    CellParts(x, s.m, s.n);
    Dot(a, b, s, x / s.n, x % s.n, s.k)
  }

  lemma DotStep(a: seq<real>, b: seq<real>, s: Shape, i: nat, j: nat, c: nat)
    requires Fits(a, b, s) && i < s.m && j < s.n && c < s.k
    ensures i * s.k + c < |a| && c * s.n + j < |b|
    ensures Dot(a, b, s, i, j, c + 1) == Dot(a, b, s, i, j, c) + a[i * s.k + c] * b[c * s.n + j]
  {
    CellInBounds(i, s.m, c, s.k);
    CellInBounds(c, s.k, j, s.n);
  }

  lemma DotIsProduct(a: seq<real>, b: seq<real>, s: Shape, i: nat, j: nat)
    requires Fits(a, b, s) && i < s.m && j < s.n
    ensures i * s.n + j < s.m * s.n && Dot(a, b, s, i, j, s.k) == Product(a, b, s, i * s.n + j)
  {
    CellInBounds(i, s.m, j, s.n);
    CellOf(i, j, s.n);
  }

  /** The innermost loop. */
  method DotLoop(a: seq<real>, b: seq<real>, s: Shape, i: nat, j: nat) returns (sum: real)
    requires Fits(a, b, s) && i < s.m && j < s.n
    ensures i * s.n + j < s.m * s.n && sum == Product(a, b, s, i * s.n + j)
  {
    hide *;
    sum := 0.0;
    var p := 0;
    assert sum == Dot(a, b, s, i, j, 0) by {
      DotStart(a, b, s, i, j);
    }
    while p < s.k
      invariant p <= s.k && sum == Dot(a, b, s, i, j, p)
    {
      DotStep(a, b, s, i, j, p);
      sum := sum + a[i * s.k + p] * b[p * s.n + j];
      p := p + 1;
    }
    DotIsProduct(a, b, s, i, j);
  }

  lemma DotStart(a: seq<real>, b: seq<real>, s: Shape, i: nat, j: nat)
    requires Fits(a, b, s) && i < s.m && j < s.n
    ensures Dot(a, b, s, i, j, 0) == 0.0
  {
  }

  /** The row-column-inner loops. */
  method MatmulLoops(a: seq<real>, b: seq<real>, out: array<real>, s: Shape)
    requires Fits(a, b, s) && out.Length == s.m * s.n
    modifies out
    ensures forall x :: 0 <= x < s.m * s.n ==> out[x] == Product(a, b, s, x)
  {
    hide Product;
    var i, done: nat := 0, 0;
    while i < s.m
      invariant i <= s.m && done == i * s.n <= s.m * s.n
      invariant forall x :: 0 <= x < done ==> out[x] == Product(a, b, s, x)
    {
      CellBound(i, s.m, s.n);
      var j := 0;
      while j < s.n
        invariant j <= s.n && done == i * s.n + j <= s.m * s.n
        invariant forall x :: 0 <= x < done ==> out[x] == Product(a, b, s, x)
      {
        var sum := DotLoop(a, b, s, i, j);
        out[i * s.n + j] := sum;
        j := j + 1;
        done := done + 1;
      }
      i := i + 1;
      assert i * s.n == (i - 1) * s.n + s.n;
    }
  }

  lemma CellBound(i: nat, rows: nat, cols: nat)
    requires i < rows
    ensures i * cols + cols <= rows * cols
  {
    assert (i + 1) * cols <= rows * cols;
  }

  // ----- the tiled kernel -----

  const TILE := 16

  /** An element of `a`, or zero outside the matrix. */
  function PadA(a: seq<real>, s: Shape, row: nat, p: nat): real
    requires |a| == s.m * s.k
  {
    if row < s.m && p < s.k then
      CellInBounds(row, s.m, p, s.k);
      a[row * s.k + p]
    else 0.0
  }

  function PadB(b: seq<real>, s: Shape, p: nat, col: nat): real
    requires |b| == s.k * s.n
  {
    if p < s.k && col < s.n then
      CellInBounds(p, s.k, col, s.n);
      b[p * s.n + col]
    else 0.0
  }

  /** The first `c` products over the padded matrices. */
  function PaddedDot(a: seq<real>, b: seq<real>, s: Shape, row: nat, col: nat, c: nat): real
    requires Fits(a, b, s)
  {
    if c == 0 then 0.0
    else PaddedDot(a, b, s, row, col, c - 1) + PadA(a, s, row, c - 1) * PadB(b, s, c - 1, col)
  }

  lemma PaddedDotStep(a: seq<real>, b: seq<real>, s: Shape, row: nat, col: nat, c: nat)
    requires Fits(a, b, s)
    ensures PaddedDot(a, b, s, row, col, c + 1) ==
              PaddedDot(a, b, s, row, col, c) + PadA(a, s, row, c) * PadB(b, s, c, col)
  {
  }

  /** Padding adds nothing: past the inner dimension every product is zero. */
  lemma {:induction false} PaddingIsZero(a: seq<real>, b: seq<real>, s: Shape, i: nat, j: nat, c: nat)
    requires Fits(a, b, s) && i < s.m && j < s.n
    ensures PaddedDot(a, b, s, i, j, c) == Dot(a, b, s, i, j, if c <= s.k then c else s.k)
  {
    if c > 0 {
      PaddingIsZero(a, b, s, i, j, c - 1);
    }
  }

  datatype Thread = Thread(y: nat, x: nat)

  /** The positions of one block's threads, or of the blocks of a grid. */
  function Grid(rows: nat, cols: nat): (ts: set<Thread>)
    ensures forall t: Thread :: t in ts <==> t.y < rows && t.x < cols
  {
    set y: nat, x: nat | 0 <= y < rows && 0 <= x < cols :: Thread(y, x)
  }

  /** Where a thread of a block stands in the output. */
  function Row(block: Thread, t: Thread): nat { block.y * TILE + t.y }

  function Col(block: Thread, t: Thread): nat { block.x * TILE + t.x }

  /** The block and the thread that own an output cell. */
  function OwnerBlock(x: nat, s: Shape): Thread
    requires x < s.m * s.n
  {
    Thread(x / s.n / TILE, x % s.n / TILE)
  }

  function OwnerThread(x: nat, s: Shape): Thread
    requires x < s.m * s.n
  {
    Thread(x / s.n % TILE, x % s.n % TILE)
  }

  /** One block of threads: two shared tiles and a running sum in each thread. */
  class ThreadBlock {
    const at: Thread
    const tileA: array2<real>
    const tileB: array2<real>
    const sum: array2<real>

    ghost predicate Shaped() {
      && tileA.Length0 == TILE && tileA.Length1 == TILE && tileB.Length0 == TILE && tileB.Length1 == TILE
      && sum.Length0 == TILE && sum.Length1 == TILE && tileA != tileB && tileA != sum && tileB != sum
    }

    constructor (at: Thread)
      ensures Shaped() && this.at == at && fresh(tileA) && fresh(tileB) && fresh(sum)
      ensures forall y, x :: 0 <= y < TILE && 0 <= x < TILE ==> sum[y, x] == 0.0
    {
      this.at := at;
      tileA := new real[TILE, TILE];
      tileB := new real[TILE, TILE];
      sum := new real[TILE, TILE]((_, _) => 0.0);
    }

    ghost predicate Loaded(a: seq<real>, b: seq<real>, s: Shape, t: nat, th: Thread)
      requires Shaped() && Fits(a, b, s) && th.y < TILE && th.x < TILE
      reads tileA, tileB
    {
      && tileA[th.y, th.x] == PadA(a, s, Row(at, th), t * TILE + th.x)
      && tileB[th.y, th.x] == PadB(b, s, t * TILE + th.y, Col(at, th))
    }

    method FetchA(a: seq<real>, s: Shape, row: nat, col: nat) returns (v: real)
      requires |a| == s.m * s.k
      ensures v == PadA(a, s, row, col)
    {
      v := 0.0;
      if row < s.m && col < s.k {
        CellInBounds(row, s.m, col, s.k);
        v := a[row * s.k + col];
      }
    }

    method FetchB(b: seq<real>, s: Shape, row: nat, col: nat) returns (v: real)
      requires |b| == s.k * s.n
      ensures v == PadB(b, s, row, col)
    {
      v := 0.0;
      if row < s.k && col < s.n {
        CellInBounds(row, s.k, col, s.n);
        v := b[row * s.n + col];
      }
    }

    /** The phase before the first barrier: each thread, in any order, fetches one element of each tile. */
    method Load(a: seq<real>, b: seq<real>, s: Shape, t: nat)
      requires Shaped() && Fits(a, b, s)
      modifies tileA, tileB
      ensures forall th :: th in Grid(TILE, TILE) ==> Loaded(a, b, s, t, th)
    {
      hide PadA, PadB;
      var pending := Grid(TILE, TILE);
      while pending != {}
        invariant pending <= Grid(TILE, TILE)
        invariant forall th :: th in Grid(TILE, TILE) && th !in pending ==> Loaded(a, b, s, t, th)
        decreases |pending|
      {
        var th :| th in pending;
        var x := FetchA(a, s, at.y * TILE + th.y, t * TILE + th.x);
        var y := FetchB(b, s, t * TILE + th.y, at.x * TILE + th.x);
        tileA[th.y, th.x] := x;
        tileB[th.y, th.x] := y;
        pending := pending - {th};
      }
    }

    /** A thread's running sum covers the first `c` products. */
    ghost predicate Summed(a: seq<real>, b: seq<real>, s: Shape, c: nat, th: Thread)
      requires Shaped() && Fits(a, b, s) && th.y < TILE && th.x < TILE
      reads sum
    {
      sum[th.y, th.x] == PaddedDot(a, b, s, Row(at, th), Col(at, th), c)
    }

    /** One thread's inner loop. */
    method InnerLoop(a: seq<real>, b: seq<real>, s: Shape, t: nat, th: Thread) returns (total: real)
      requires Shaped() && Fits(a, b, s) && th in Grid(TILE, TILE)
      requires forall o :: o in Grid(TILE, TILE) ==> Loaded(a, b, s, t, o)
      requires Summed(a, b, s, t * TILE, th)
      ensures total == PaddedDot(a, b, s, Row(at, th), Col(at, th), (t + 1) * TILE)
    {
      hide PaddedDot, PadA, PadB, Fits;
      total := sum[th.y, th.x];
      var i := 0;
      while i < TILE
        invariant i <= TILE && total == PaddedDot(a, b, s, Row(at, th), Col(at, th), t * TILE + i)
      {
        assert Loaded(a, b, s, t, Thread(th.y, i)) && Loaded(a, b, s, t, Thread(i, th.x));
        PaddedDotStep(a, b, s, Row(at, th), Col(at, th), t * TILE + i);
        assert t * TILE + i + 1 == t * TILE + (i + 1);
        total := total + tileA[th.y, i] * tileB[i, th.x];
        i := i + 1;
      }
      assert t * TILE + TILE == (t + 1) * TILE;
    }

    /** The phase before the second barrier: each thread, in any order, adds up its row of one tile
        times its column of the other. */
    method Accumulate(a: seq<real>, b: seq<real>, s: Shape, t: nat)
      requires Shaped() && Fits(a, b, s)
      requires forall th :: th in Grid(TILE, TILE) ==> Loaded(a, b, s, t, th)
      requires forall th :: th in Grid(TILE, TILE) ==> Summed(a, b, s, t * TILE, th)
      modifies sum
      ensures forall th :: th in Grid(TILE, TILE) ==> Summed(a, b, s, (t + 1) * TILE, th)
    {
      hide PaddedDot, Loaded;
      var pending := Grid(TILE, TILE);
      while pending != {}
        invariant pending <= Grid(TILE, TILE)
        invariant forall th :: th in pending ==> Summed(a, b, s, t * TILE, th)
        invariant forall th :: th in Grid(TILE, TILE) && th !in pending ==> Summed(a, b, s, (t + 1) * TILE, th)
        decreases |pending|
      {
        var th :| th in pending;
        var total := InnerLoop(a, b, s, t, th);
        sum[th.y, th.x] := total;
        pending := pending - {th};
      }
    }

    /** The whole kernel of one block. It writes the cells that its threads own and no other. */
    method Run(a: seq<real>, b: seq<real>, out: array<real>, s: Shape)
      requires Shaped() && Fits(a, b, s) && out.Length == s.m * s.n
      requires forall th :: th in Grid(TILE, TILE) ==> Summed(a, b, s, 0, th)
      modifies tileA, tileB, sum, out
      ensures forall x :: 0 <= x < s.m * s.n ==>
                out[x] == if OwnerBlock(x, s) == at then Product(a, b, s, x) else old(out[x])
    {
      var numTiles := (s.k + TILE - 1) / TILE;
      var t := 0;
      while t < numTiles
        invariant t <= numTiles
        invariant forall th :: th in Grid(TILE, TILE) ==> Summed(a, b, s, t * TILE, th)
        invariant out[..] == old(out[..])
      {
        Load(a, b, s, t);
        Accumulate(a, b, s, t);
        t := t + 1;
      }
      Store(a, b, out, s, numTiles * TILE);
    }

    /** One thread's last step: it writes its sum if it stands inside the output. */
    method StoreOne(a: seq<real>, b: seq<real>, out: array<real>, s: Shape, c: nat, th: Thread)
      requires Shaped() && Fits(a, b, s) && out.Length == s.m * s.n && c >= s.k
      requires th in Grid(TILE, TILE) && Summed(a, b, s, c, th)
      modifies out
      ensures forall x :: 0 <= x < s.m * s.n ==>
                out[x] == if OwnerBlock(x, s) == at && OwnerThread(x, s) == th then Product(a, b, s, x) else old(out[x])
    {
      var row, col := at.y * TILE + th.y, at.x * TILE + th.x;
      OwnsOneCell(s, at, th);
      if row < s.m && col < s.n {
        CellInBounds(row, s.m, col, s.n);
        CellOf(row, col, s.n);
        PaddingIsZero(a, b, s, row, col, c);
        assert sum[th.y, th.x] == Product(a, b, s, row * s.n + col);
        var total := sum[th.y, th.x];
        hide *;
        out[row * s.n + col] := total;
      }
    }

    /** After the last barrier the threads write, in any order. */
    method Store(a: seq<real>, b: seq<real>, out: array<real>, s: Shape, c: nat)
      requires Shaped() && Fits(a, b, s) && out.Length == s.m * s.n && c >= s.k
      requires forall th :: th in Grid(TILE, TILE) ==> Summed(a, b, s, c, th)
      modifies out
      ensures forall x :: 0 <= x < s.m * s.n ==>
                out[x] == if OwnerBlock(x, s) == at then Product(a, b, s, x) else old(out[x])
    {
      forall x | 0 <= x < s.m * s.n
        ensures OwnerThread(x, s) in Grid(TILE, TILE)
      {
      }
      hide Product, OwnerBlock, OwnerThread, Summed;
      var pending := Grid(TILE, TILE);
      while pending != {}
        invariant pending <= Grid(TILE, TILE)
        invariant forall x :: 0 <= x < s.m * s.n ==>
                    out[x] == if OwnerBlock(x, s) == at && OwnerThread(x, s) !in pending then Product(a, b, s, x) else old(out[x])
        decreases |pending|
      {
        var th :| th in pending;
        StoreOne(a, b, out, s, c, th);
        pending := pending - {th};
      }
    }
  }

  /** A thread owns the cell it stands on, if any, and no other cell. */
  lemma OwnsOneCell(s: Shape, block: Thread, t: Thread)
    requires t.y < 16 && t.x < 16
    ensures forall x: nat :: x < s.m * s.n ==>
              (OwnerBlock(x, s) == block && OwnerThread(x, s) == t <==>
               block.y * 16 + t.y < s.m && block.x * 16 + t.x < s.n && x == (block.y * 16 + t.y) * s.n + (block.x * 16 + t.x))
  {
    forall x: nat | x < s.m * s.n
      ensures OwnerBlock(x, s) == block && OwnerThread(x, s) == t <==>
               block.y * 16 + t.y < s.m && block.x * 16 + t.x < s.n && x == (block.y * 16 + t.y) * s.n + (block.x * 16 + t.x)
    {
      CellParts(x, s.m, s.n);
      if Col(block, t) < s.n {
        CellOf(Row(block, t), Col(block, t), s.n);
      }
    }
  }

  /** The launch: enough blocks to cover the output, in any order. */
  method MatmulTiled(a: seq<real>, b: seq<real>, out: array<real>, s: Shape)
    requires Fits(a, b, s) && out.Length == s.m * s.n
    modifies out
    ensures forall x :: 0 <= x < s.m * s.n ==> out[x] == Product(a, b, s, x)
  {
    var grid := Grid((s.m + TILE - 1) / TILE, (s.n + TILE - 1) / TILE);
    var pending := grid;
    while pending != {}
      invariant pending <= grid
      invariant forall x :: 0 <= x < s.m * s.n && OwnerBlock(x, s) !in pending && OwnerBlock(x, s) in grid ==>
                  out[x] == Product(a, b, s, x)
      decreases |pending|
    {
      var at :| at in pending;
      var block := new ThreadBlock(at);
      block.Run(a, b, out, s);
      pending := pending - {at};
    }
    forall x | 0 <= x < s.m * s.n
      ensures OwnerBlock(x, s) in grid
    {
      CellParts(x, s.m, s.n);
    }
  }

  // ----- the tree reduction -----

  function Sum(s: seq<real>): real {
    if s == [] then 0.0 else Sum(s[..|s| - 1]) + s[|s| - 1]
  }

  predicate IsPowerOfTwo(n: nat) {
    n == 1 || (n > 1 && n % 2 == 0 && IsPowerOfTwo(n / 2))
  }

  function Power(k: nat): nat {
    if k == 0 then 1 else 2 * Power(k - 1)
  }

  lemma {:induction false} PowersOfTwo(k: nat)
    ensures Power(k) > 0 && IsPowerOfTwo(Power(k))
  {
    if k > 0 {
      PowersOfTwo(k - 1);
    }
  }

  /** Adding the upper half onto the lower half keeps the sum. */
  lemma {:induction false} FoldedHalf(before: seq<real>, after: seq<real>, h: nat, k: nat)
    requires k <= h && 2 * h <= |before| && h <= |after|
    requires forall i :: 0 <= i < h ==> after[i] == before[i] + before[i + h]
    ensures Sum(after[..k]) == Sum(before[..k]) + Sum(before[h..h + k])
  {
    if k > 0 {
      FoldedHalf(before, after, h, k - 1);
      assert after[..k][..k - 1] == after[..k - 1] && before[..k][..k - 1] == before[..k - 1];
      assert before[h..h + k][..k - 1] == before[h..h + (k - 1)];
    }
  }

  lemma {:induction false} SumSplit(s: seq<real>, i: nat)
    requires i <= |s|
    ensures Sum(s) == Sum(s[..i]) + Sum(s[i..])
  {
    if i == |s| {
      assert s[..i] == s && s[i..] == [];
    } else {
      SumSplit(s[..|s| - 1], i);
      assert s[..|s| - 1][..i] == s[..i] && s[..|s| - 1][i..] == s[i..][..|s| - i - 1];
    }
  }

  lemma HalvingKeepsSum(before: seq<real>, after: seq<real>, h: nat, width: nat)
    requires width == 2 * h <= |before| == |after|
    requires forall i :: 0 <= i < h ==> after[i] == before[i] + before[i + h]
    ensures Sum(after[..h]) == Sum(before[..width])
  {
    FoldedHalf(before, after, h, h);
    SumSplit(before[..width], h);
    assert before[..width][..h] == before[..h] && before[..width][h..] == before[h..h + h];
  }

  /** A block of threads, their number a power of two, adds up its shared array in halving steps; within
      a step the threads run in any order. */
  method TreeSum(sdata: array<real>)
    requires IsPowerOfTwo(sdata.Length)
    modifies sdata
    ensures sdata[0] == Sum(old(sdata[..]))
  {
    var h := sdata.Length / 2;
    ghost var width := sdata.Length;
    assert sdata[..width] == sdata[..];
    while h > 0
      invariant h == width / 2 && 1 <= width <= sdata.Length && IsPowerOfTwo(width)
      invariant Sum(sdata[..width]) == Sum(old(sdata[..]))
    {
      hide Sum;
      ghost var before := sdata[..];
      assert sdata[..width] == before[..width];
      HalvingStep(sdata, h);
      HalvingKeepsSum(before, sdata[..], h, width);
      assert sdata[..][..h] == sdata[..h];
      width := h;
      h := h / 2;
    }
    assert sdata[..1] == [sdata[0]] && [sdata[0]][..0] == [];
  }

  method HalvingStep(sdata: array<real>, h: nat)
    requires 2 * h <= sdata.Length
    modifies sdata
    ensures forall i :: 0 <= i < h ==> sdata[i] == old(sdata[i]) + old(sdata[i + h])
    ensures forall i :: h <= i < sdata.Length ==> sdata[i] == old(sdata[i])
  {
    var pending := Grid(1, sdata.Length);
    while pending != {}
      invariant pending <= Grid(1, sdata.Length)
      invariant forall i :: 0 <= i < sdata.Length ==>
                  sdata[i] == if i < h && Thread(0, i) !in pending then old(sdata[i]) + old(sdata[i + h]) else old(sdata[i])
      decreases |pending|
    {
      var th :| th in pending;
      if th.x < h {
        sdata[th.x] := sdata[th.x] + sdata[th.x + h];
      }
      pending := pending - {th};
    }
  }
}
