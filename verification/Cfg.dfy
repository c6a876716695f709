/** Control-flow graphs with block parameters: what a function builder writes and how it runs. */
module Cfg {
  import opened RuntimeOps
  import opened Ast

  datatype IntBinary = Iadd | Isub | Imul | Sdiv | Srem

  datatype BitBinary = Band | Bor | Bxor

  datatype FloatBinary = Fadd | Fsub | Fmul | Fdiv

  /** Instructions name the value they define first. Variables are the builder's mutable slots. */
  datatype Instr =
    | Iconst(dst: nat, ty: Ty, imm: int)
    | F64const(dst: nat, bits: int)
    | UseVar(dst: nat, variable: nat)
    | DefVar(variable: nat, src: nat)
    | IntBin(dst: nat, iop: IntBinary, x: nat, y: nat)
    | BitBin(dst: nat, bop: BitBinary, x: nat, y: nat)
    | FloatBin(dst: nat, fop: FloatBinary, x: nat, y: nat)
    | Icmp(dst: nat, cc: CmpOp, x: nat, y: nat)
    | Fcmp(dst: nat, cc: CmpOp, x: nat, y: nat)
    | Trapz(x: nat)
    | Trapnz(x: nat)

  datatype Term = Open | Brif(c: nat, thn: nat, els: nat) | Jump(target: nat, arg: nat)

  datatype Param = NoParam | Param(id: nat)

  datatype Block = Block(param: Param, instrs: seq<Instr>, term: Term)

  type Code = seq<Block>

  // ----- execution -----

  datatype State =
    | Running(blk: nat, pc: nat, vals: map<nat, int>, vars: map<nat, int>)
    | Trapped
    | Stuck

  function Set(st: State, dst: nat, v: int): State
    requires st.Running?
  {
    st.(pc := st.pc + 1, vals := st.vals[dst := v])
  }

  function Bit(b: bool): int {
    if b then 1 else 0
  }

  /** Machine integers wrap; division traps by itself on a zero divisor or an overflow. */
  function IntResult(op: IntBinary, x: int, y: int): Number {
    match op
    case Iadd => Number(Wrap(x + y))
    case Isub => Number(Wrap(x - y))
    case Imul => Number(Wrap(x * y))
    case Sdiv => if y == 0 || (x == I64_MIN && y == -1) then Trap else Number(TruncDiv(x, y))
    case Srem => if y == 0 then Trap else Number(TruncRem(x, y))
  }

  datatype Number = Number(n: int) | Trap

  function CmpResult(cc: CmpOp, x: int, y: int): bool {
    match cc
    case Eq => x == y
    case Ne => x != y
    case Lt => x < y
    case Gt => x > y
    case Le => x <= y
    case Ge => x >= y
  }

  function BitResult(op: BitBinary, x: bool, y: bool): bool {
    match op
    case Band => x && y
    case Bor => x || y
    case Bxor => x != y
  }

  /** Bitwise on the lowest `n` bits, negative integers in two's complement. */
  function Bitwise(op: BitBinary, x: int, y: int, n: nat): int
    decreases n
  {
    if n == 0 then 0 else Bit(BitResult(op, x % 2 == 1, y % 2 == 1)) + 2 * Bitwise(op, x / 2, y / 2, n - 1)
  }

  lemma {:induction false} BitwiseOfZeros(op: BitBinary, n: nat)
    ensures Bitwise(op, 0, 0, n) == 0
  {
    if n > 0 {
      BitwiseOfZeros(op, n - 1);
    }
  }

  /** On the one-bit values that comparisons and boolean literals produce. */
  lemma BitwiseOfBits(op: BitBinary, x: bool, y: bool)
    ensures Wrap(Bitwise(op, Bit(x), Bit(y), 64)) == Bit(BitResult(op, x, y))
  {
    BitwiseOfZeros(op, 63);
    assert Bit(x) / 2 == 0 && Bit(y) / 2 == 0;
    assert Bitwise(op, Bit(x), Bit(y), 64) == Bit(BitResult(op, x, y)) + 2 * Bitwise(op, 0, 0, 63);
  }

  function Exec(i: Instr, st: State): State
    requires st.Running?
  {
    match i
    case Iconst(dst, _, imm) => Set(st, dst, imm)
    case UseVar(dst, variable) => if variable in st.vars then Set(st, dst, st.vars[variable]) else Stuck
    case DefVar(variable, src) =>
      if src in st.vals then st.(pc := st.pc + 1, vars := st.vars[variable := st.vals[src]]) else Stuck
    case IntBin(dst, op, x, y) =>
      if x !in st.vals || y !in st.vals then Stuck
      else
        var r := IntResult(op, st.vals[x], st.vals[y]);
        if r.Trap? then Trapped else Set(st, dst, r.n)
    case BitBin(dst, op, x, y) =>
      if x !in st.vals || y !in st.vals then Stuck
      else Set(st, dst, Wrap(Bitwise(op, st.vals[x], st.vals[y], 64)))
    case Icmp(dst, cc, x, y) =>
      if x !in st.vals || y !in st.vals then Stuck else Set(st, dst, Bit(CmpResult(cc, st.vals[x], st.vals[y])))
    case Trapz(x) =>
      if x !in st.vals then Stuck else if st.vals[x] == 0 then Trapped else st.(pc := st.pc + 1)
    case Trapnz(x) =>
      if x !in st.vals then Stuck else if st.vals[x] != 0 then Trapped else st.(pc := st.pc + 1)
    case _ => Stuck
  }

  lemma ExecBits(dst: nat, op: BitBinary, x: nat, y: nat, xb: bool, yb: bool, st: State)
    requires st.Running? && x in st.vals && y in st.vals && st.vals[x] == Bit(xb) && st.vals[y] == Bit(yb)
    ensures Exec(BitBin(dst, op, x, y), st) == Set(st, dst, Bit(BitResult(op, xb, yb)))
  {
    BitwiseOfBits(op, xb, yb);
    hide Wrap, Bitwise;
  }

  function Step(code: Code, st: State): State {
    if !st.Running? then st
    else if st.blk >= |code| then Stuck
    else
      var b := code[st.blk];
      if st.pc < |b.instrs| then Exec(b.instrs[st.pc], st)
      else
        match b.term
        case Open => Stuck
        case Brif(c, thn, els) =>
          if c !in st.vals then Stuck
          else st.(blk := if st.vals[c] != 0 then thn else els, pc := 0)
        case Jump(target, arg) =>
          if arg !in st.vals || target >= |code| || code[target].param.NoParam? then Stuck
          else st.(blk := target, pc := 0, vals := st.vals[code[target].param.id := st.vals[arg]])
  }

  function Run(code: Code, st: State, n: nat): State
    decreases n
  {
    if n == 0 then st else Run(code, Step(code, st), n - 1)
  }

  ghost predicate Reaches(code: Code, st: State, end: State) {
    exists n :: Run(code, st, n) == end
  }

  lemma {:induction false} RunAdds(code: Code, st: State, m: nat, n: nat)
    ensures Run(code, st, m + n) == Run(code, Run(code, st, m), n)
    decreases m
  {
    if m > 0 {
      RunAdds(code, Step(code, st), m - 1, n);
    }
  }

  lemma ReachesTrans(code: Code, a: State, b: State, c: State)
    requires Reaches(code, a, b) && Reaches(code, b, c)
    ensures Reaches(code, a, c)
  {
    var m :| Run(code, a, m) == b;
    var n :| Run(code, b, n) == c;
    RunAdds(code, a, m, n);
  }

  lemma ReachesSelf(code: Code, a: State)
    ensures Reaches(code, a, a)
  {
    assert Run(code, a, 0) == a;
  }

  lemma ReachesStep(code: Code, a: State)
    ensures Reaches(code, a, Step(code, a))
  {
    assert Run(code, a, 1) == Step(code, a) by {
      assert Run(code, Step(code, a), 0) == Step(code, a);
    }
  }

  // ----- the builder -----

  /** The function under construction: the block being filled and the next unused identifiers. */
  datatype Builder = Builder(blocks: Code, cur: nat, nextVal: nat, nextVar: nat)

  ghost predicate Ready(b: Builder) {
    b.cur < |b.blocks| && b.blocks[b.cur].term == Open
  }

  function Emit(b: Builder, i: Instr): Builder
    requires b.cur < |b.blocks|
  {
    var block := b.blocks[b.cur];
    b.(blocks := b.blocks[b.cur := block.(instrs := block.instrs + [i])])
  }

  /** Emits an instruction that defines the next value. */
  function Define(b: Builder, i: Instr): Builder
    requires b.cur < |b.blocks|
  {
    Emit(b, i).(nextVal := b.nextVal + 1)
  }

  function Terminate(b: Builder, t: Term): Builder
    requires b.cur < |b.blocks|
  {
    b.(blocks := b.blocks[b.cur := b.blocks[b.cur].(term := t)])
  }

  const NEW_BLOCK := Block(NoParam, [], Open)

  function CreateBlock(b: Builder): Builder {
    b.(blocks := b.blocks + [NEW_BLOCK])
  }

  function AppendParam(b: Builder, block: nat): Builder
    requires block < |b.blocks|
  {
    b.(blocks := b.blocks[block := b.blocks[block].(param := Param(b.nextVal))], nextVal := b.nextVal + 1)
  }

  /** Building from `b` to `c` only appended to the current block of `b` and added blocks. */
  ghost predicate Extends(b: Builder, c: Builder) {
    && Ready(b) && Ready(c)
    && |b.blocks| <= |c.blocks| && b.nextVal <= c.nextVal && b.nextVar <= c.nextVar
    && (c.cur == b.cur || c.cur >= |b.blocks|)
    && (forall i :: 0 <= i < |b.blocks| && i != b.cur ==> c.blocks[i] == b.blocks[i])
    && c.blocks[b.cur].param == b.blocks[b.cur].param
    && b.blocks[b.cur].instrs <= c.blocks[b.cur].instrs
  }

  lemma ExtendsTrans(b: Builder, c: Builder, d: Builder)
    requires Extends(b, c) && Extends(c, d)
    ensures Extends(b, d)
  {
  }

  /** `code` contains what was built from `b` to `c`; the last block may have been continued. */
  ghost predicate Region(code: Code, b: Builder, c: Builder) {
    && |c.blocks| <= |code|
    && forall i :: 0 <= i < |c.blocks| && (i == b.cur || i >= |b.blocks|) ==>
         if i == c.cur then
           c.blocks[i].instrs <= code[i].instrs && code[i].param == c.blocks[i].param
         else code[i] == c.blocks[i]
  }

  lemma RegionSplit(code: Code, b: Builder, c: Builder, d: Builder)
    requires Extends(b, c) && Extends(c, d) && Region(code, b, d)
    ensures Region(code, b, c) && Region(code, c, d)
  {
  }

  /** The machine is about to run whatever is built next. */
  ghost predicate AtEnd(b: Builder, st: State) {
    st.Running? && b.cur < |b.blocks| && st.blk == b.cur && st.pc == |b.blocks[b.cur].instrs|
  }

  /** Values and variables that existed before `b` keep their contents. */
  ghost predicate Keeps(b: Builder, st: State, end: State)
    requires st.Running? && end.Running?
  {
    && (forall i :: 0 <= i < b.nextVal && i in st.vals ==> i in end.vals && end.vals[i] == st.vals[i])
    && (forall i :: 0 <= i < b.nextVar && i in st.vars ==> i in end.vars && end.vars[i] == st.vars[i])
  }

  lemma EmitExtends(b: Builder, i: Instr)
    requires Ready(b)
    ensures Extends(b, Emit(b, i)) && Extends(b, Define(b, i))
  {
  }

  /** Running one emitted instruction. */
  lemma RunEmitted(code: Code, b: Builder, i: Instr, c: Builder, st: State)
    requires Ready(b) && c.blocks == Emit(b, i).blocks && c.cur == b.cur && Region(code, b, c) && AtEnd(b, st)
    ensures Reaches(code, st, Exec(i, st))
    ensures Exec(i, st).Running? ==> AtEnd(c, Exec(i, st))
  {
    assert c.blocks[b.cur].instrs[st.pc] == i;
    assert code[b.cur].instrs[st.pc] == i;
    ReachesStep(code, st);
  }
}
