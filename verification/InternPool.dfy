/** The pool of interned strings under any interleaving of threads. */
module InternPool {
  import opened Strings

  type Tid = nat
  type Ptr = nat

  /** A string cell; an immortal one is never freed. */
  datatype Cell = Cell(text: string, immortal: bool)

  /** Where a thread is in a call that makes the string `s`. The read lock is held in `Reading`, the
      write lock in `Writing`, `Allocated` and `Pinned`. */
  datatype Pc =
    | Idle
    | Entered(s: string)
    | Reading(s: string)
    | Missed(s: string)
    | Writing(s: string)
    | Allocated(s: string, p: Ptr)
    | Pinned(s: string, p: Ptr)
    | Returned(s: string, p: Ptr)

  datatype Holder = Nobody | Held(tid: Tid)

  datatype State = State(pcs: map<Tid, Pc>, readers: set<Tid>, writer: Holder, pool: map<string, Ptr>, cells: map<Ptr, Cell>)

  predicate Short(s: string) { ByteLength(s) <= MAX_INTERN_LEN }

  predicate Init(st: State) {
    && st.readers == {} && st.writer == Nobody && st.pool == map[] && (forall t :: t in st.pcs ==> st.pcs[t] == Idle)
    && forall p :: p in st.cells ==> !st.cells[p].immortal
  }

  // ----- the steps of one thread -----

  /** Thread `t` goes on to `pc`. */
  function To(st: State, t: Tid, pc: Pc): State {
    st.(pcs := st.pcs[t := pc])
  }

  predicate Call(st: State, st': State, t: Tid, s: string) {
    t in st.pcs && (st.pcs[t].Idle? || st.pcs[t].Returned?) && st' == To(st, t, Entered(s))
  }

  /** Long strings get a cell of their own. */
  predicate MakeLong(st: State, st': State, t: Tid, p: Ptr) {
    && t in st.pcs && st.pcs[t].Entered? && !Short(st.pcs[t].s) && p !in st.cells
    && st' == To(st, t, Returned(st.pcs[t].s, p)).(cells := st.cells[p := Cell(st.pcs[t].s, false)])
  }

  predicate ReadLock(st: State, st': State, t: Tid) {
    && t in st.pcs && st.pcs[t].Entered? && Short(st.pcs[t].s) && st.writer.Nobody?
    && st' == To(st, t, Reading(st.pcs[t].s)).(readers := st.readers + {t})
  }

  /** The first look, and the release of the read lock. */
  predicate LookUp(st: State, st': State, t: Tid) {
    && t in st.pcs && st.pcs[t].Reading?
    && var s := st.pcs[t].s;
       st' == To(st, t, if s in st.pool then Returned(s, st.pool[s]) else Missed(s)).(readers := st.readers - {t})
  }

  predicate WriteLock(st: State, st': State, t: Tid) {
    && t in st.pcs && st.pcs[t].Missed? && st.writer.Nobody? && st.readers == {}
    && st' == To(st, t, Writing(st.pcs[t].s)).(writer := Held(t))
  }

  /** The second look, under the write lock: found, or a new cell. */
  predicate Recheck(st: State, st': State, t: Tid, p: Ptr) {
    && t in st.pcs && st.pcs[t].Writing?
    && var s := st.pcs[t].s;
       if s in st.pool then st' == To(st, t, Returned(s, st.pool[s])).(writer := Nobody)
       else p !in st.cells && st' == To(st, t, Allocated(s, p)).(cells := st.cells[p := Cell(s, false)])
  }

  predicate Pin(st: State, st': State, t: Tid) {
    && t in st.pcs && st.pcs[t].Allocated?
    && var pc := st.pcs[t];
       st' == To(st, t, Pinned(pc.s, pc.p)).(cells := st.cells[pc.p := Cell(pc.s, true)])
  }

  /** Installs the cell and releases the write lock. */
  predicate Install(st: State, st': State, t: Tid) {
    && t in st.pcs && st.pcs[t].Pinned?
    && var pc := st.pcs[t];
       st' == To(st, t, Returned(pc.s, pc.p)).(pool := st.pool[pc.s := pc.p], writer := Nobody)
  }

  datatype Step =
    | CallStep(s: string)
    | MakeLongStep(p: Ptr)
    | ReadLockStep
    | LookUpStep
    | WriteLockStep
    | RecheckStep(p: Ptr)
    | PinStep
    | InstallStep

  predicate Takes(st: State, st': State, t: Tid, step: Step) {
    match step
    case CallStep(s) => Call(st, st', t, s)
    case MakeLongStep(p) => MakeLong(st, st', t, p)
    case ReadLockStep => ReadLock(st, st', t)
    case LookUpStep => LookUp(st, st', t)
    case WriteLockStep => WriteLock(st, st', t)
    case RecheckStep(p) => Recheck(st, st', t, p)
    case PinStep => Pin(st, st', t)
    case InstallStep => Install(st, st', t)
  }

  ghost predicate Next(st: State, st': State) {
    exists t, step :: Takes(st, st', t, step)
  }

  // ----- what every step keeps -----

  predicate HoldsWrite(pc: Pc) { pc.Writing? || pc.Allocated? || pc.Pinned? }

  /** The locks exclude each other. */
  ghost predicate Locks(st: State) {
    && (forall t :: t in st.pcs ==> (st.writer == Held(t) <==> HoldsWrite(st.pcs[t])))
    && (forall t :: t in st.pcs && st.pcs[t].Reading? ==> t in st.readers)
    && (st.writer.Held? ==> st.readers == {})
  }

  ghost predicate PoolSound(st: State) {
    forall s :: s in st.pool ==> st.pool[s] in st.cells && st.cells[st.pool[s]] == Cell(s, true) && Short(s)
  }

  /** What a thread has in hand. */
  ghost predicate InHand(st: State, pc: Pc) {
    match pc
    case Reading(s) => Short(s)
    case Missed(s) => Short(s)
    case Writing(s) => Short(s)
    case Allocated(s, p) => Short(s) && s !in st.pool && p in st.cells && st.cells[p] == Cell(s, false)
    case Pinned(s, p) => Short(s) && s !in st.pool && p in st.cells && st.cells[p] == Cell(s, true)
    case Returned(s, p) => Short(s) ==> s in st.pool && st.pool[s] == p
    case _ => true
  }

  ghost predicate Hands(st: State) {
    forall t :: t in st.pcs ==> InHand(st, st.pcs[t])
  }

  /** Every immortal cell is the one in the pool, or about to be. */
  ghost predicate Unique(st: State) {
    forall p :: p in st.cells && st.cells[p].immortal ==>
      var s := st.cells[p].text;
      (s in st.pool && st.pool[s] == p) || exists t :: t in st.pcs && st.pcs[t] == Pinned(s, p)
  }

  ghost predicate Inv(st: State) {
    Locks(st) && PoolSound(st) && Hands(st) && Unique(st)
  }

  /** No step takes an entry out of the pool or changes an immortal cell. */
  ghost predicate Grows(st: State, st': State) {
    && (forall s :: s in st.pool ==> s in st'.pool && st'.pool[s] == st.pool[s])
    && forall p :: p in st.cells && st.cells[p].immortal ==> p in st'.cells && st'.cells[p] == st.cells[p]
  }

  lemma LocksKept(st: State, st': State, t: Tid, step: Step)
    requires Locks(st) && Takes(st, st', t, step)
    ensures Locks(st')
  {
  }

  lemma PoolKept(st: State, st': State, t: Tid, step: Step)
    requires PoolSound(st) && Hands(st) && Takes(st, st', t, step)
    ensures PoolSound(st')
  {
  }

  lemma GrowsKept(st: State, st': State, t: Tid, step: Step)
    requires Hands(st) && Takes(st, st', t, step)
    ensures Grows(st, st')
  {
    hide Locks, PoolSound, Unique;
    assert InHand(st, st.pcs[t]);
  }

  lemma HandsKept(st: State, st': State, t: Tid, step: Step)
    requires Locks(st) && Hands(st) && Takes(st, st', t, step)
    ensures Hands(st')
  {
    assert InHand(st, st.pcs[t]);
    forall o | o in st'.pcs
      ensures InHand(st', st'.pcs[o])
    {
      if o != t {
        assert InHand(st, st.pcs[o]);
      }
    }
  }

  lemma UniqueKept(st: State, st': State, t: Tid, step: Step)
    requires Hands(st) && Unique(st) && Takes(st, st', t, step)
    ensures Unique(st')
  {
    assert InHand(st, st.pcs[t]);
    forall p | p in st'.cells && st'.cells[p].immortal
      ensures var s := st'.cells[p].text;
              (s in st'.pool && st'.pool[s] == p) || exists o :: o in st'.pcs && st'.pcs[o] == Pinned(s, p)
    {
      var s := st'.cells[p].text;
      if p in st.cells && st.cells[p].immortal {
        if !(s in st.pool && st.pool[s] == p) {
          var o :| o in st.pcs && st.pcs[o] == Pinned(s, p);
          if o != t {
            assert st'.pcs[o] == Pinned(s, p);
          }
        }
      } else {
        assert st'.pcs[t] == Pinned(s, p);
      }
    }
  }

  lemma StepKeeps(st: State, st': State, t: Tid, step: Step)
    requires Inv(st) && Takes(st, st', t, step)
    ensures Inv(st') && Grows(st, st')
  {
    LocksKept(st, st', t, step);
    PoolKept(st, st', t, step);
    GrowsKept(st, st', t, step);
    HandsKept(st, st', t, step);
    UniqueKept(st, st', t, step);
  }

  // ----- whole runs -----

  ghost predicate IsRun(run: seq<State>) {
    run != [] && Init(run[0]) && forall i :: 0 <= i < |run| - 1 ==> Next(run[i], run[i + 1])
  }

  lemma {:induction false} RunInvariant(run: seq<State>, i: nat)
    requires IsRun(run) && i < |run|
    ensures Inv(run[i])
  {
    if i > 0 {
      RunInvariant(run, i - 1);
      assert Next(run[i - 1], run[i - 1 + 1]);
      hide Inv, Takes;
      var t, step :| Takes(run[i - 1], run[i], t, step);
      StepKeeps(run[i - 1], run[i], t, step);
    }
  }

  lemma {:induction false} RunGrows(run: seq<State>, i: nat, j: nat)
    requires IsRun(run) && i <= j < |run|
    ensures Grows(run[i], run[j])
    decreases j - i
  {
    if i < j {
      RunGrows(run, i, j - 1);
      RunInvariant(run, j - 1);
      assert Next(run[j - 1], run[j - 1 + 1]);
      hide Inv, Takes;
      var t, step :| Takes(run[j - 1], run[j], t, step);
      StepKeeps(run[j - 1], run[j], t, step);
      GrowsOn(run[i], run[j - 1], run[j]);
    }
  }

  lemma GrowsOn(a: State, b: State, c: State)
    requires Grows(a, b) && Grows(b, c)
    ensures Grows(a, c)
  {
  }

  /** All calls on equal short strings return the same pointer, whenever and by whichever thread, and
      from the first return on it holds that string for ever. */
  lemma InterningIsUnique(run: seq<State>, i: nat, j: nat, t: Tid, u: Tid, s: string, p: Ptr, q: Ptr)
    requires IsRun(run) && i <= j < |run| && ByteLength(s) <= 64
    requires t in run[i].pcs && run[i].pcs[t] == Returned(s, p)
    requires u in run[j].pcs && run[j].pcs[u] == Returned(s, q)
    ensures p == q
    ensures p in run[j].cells && run[j].cells[p] == Cell(s, true)
  {
    RunInvariant(run, i);
    RunInvariant(run, j);
    RunGrows(run, i, j);
    assert InHand(run[i], run[i].pcs[t]) && InHand(run[j], run[j].pcs[u]);
  }

  /** In no state are there two immortal cells of one string. */
  lemma OneCellPerString(run: seq<State>, i: nat, p: Ptr, q: Ptr)
    requires IsRun(run) && i < |run|
    requires p in run[i].cells && q in run[i].cells && run[i].cells[p].immortal && run[i].cells[q].immortal
    ensures run[i].cells[p].text == run[i].cells[q].text ==> p == q
  {
    RunInvariant(run, i);
    var st := run[i];
    assert forall t :: t in st.pcs && st.pcs[t].Pinned? ==> st.writer == Held(t);
    assert forall t :: t in st.pcs ==> InHand(st, st.pcs[t]);
  }

  // ----- a call that is let run comes to its end -----

  /** Thread `t` alone takes the state from the first to the last. */
  ghost predicate Solo(run: seq<State>, t: Tid) {
    run != [] && forall i :: 0 <= i < |run| - 1 ==> Moves(run[i], run[i + 1], t)
  }

  ghost predicate Moves(st: State, st': State, t: Tid) {
    exists step :: Takes(st, st', t, step)
  }

  lemma SoloStep(run: seq<State>, t: Tid, step: Step, st: State) returns (longer: seq<State>)
    requires Solo(run, t) && Takes(run[|run| - 1], st, t, step)
    ensures Solo(longer, t) && longer[0] == run[0] && longer[|longer| - 1] == st
  {
    longer := run + [st];
    hide Takes;
    assert Moves(run[|run| - 1], st, t);
    hide Moves;
    forall i | 0 <= i < |longer| - 1
      ensures Moves(longer[i], longer[i + 1], t)
    {
      if i < |run| - 1 {
        assert Moves(run[i], run[i + 1], t);
      }
    }
  }

  /** With the locks free, a thread that calls for a string and is not disturbed gets a pointer: the pooled one
      if the string is pooled, a new immortal and pooled one if it is short, and else a new cell of its own. */
  lemma CallReturns(st: State, t: Tid, s: string, p: Ptr) returns (run: seq<State>)
    requires t in st.pcs && (st.pcs[t].Idle? || st.pcs[t].Returned?)
    requires st.writer == Nobody && st.readers == {} && p !in st.cells
    requires s in st.pool ==> ByteLength(s) <= 64
    ensures Solo(run, t) && run[0] == st
    ensures var q, end := if s in st.pool then st.pool[s] else p, run[|run| - 1];
            && end.pcs == st.pcs[t := Returned(s, q)] && end.readers == {} && end.writer == Nobody
            && (ByteLength(s) <= 64 ==> end.pool == st.pool[s := q])
            && (ByteLength(s) > 64 ==> end.pool == st.pool && end.cells == st.cells[p := Cell(s, false)])
            && (s in st.pool ==> end.cells == st.cells)
            && (s !in st.pool && ByteLength(s) <= 64 ==> end.cells == st.cells[p := Cell(s, true)])
  {
    hide ByteLength;
    var st1 := To(st, t, Entered(s));
    run := SoloStep([st], t, CallStep(s), st1);
    if !Short(s) {
      run := SoloStep(run, t, MakeLongStep(p), To(st1, t, Returned(s, p)).(cells := st1.cells[p := Cell(s, false)]));
    } else {
      var st2 := To(st1, t, Reading(s)).(readers := st1.readers + {t});
      run := SoloStep(run, t, ReadLockStep, st2);
      var st3 := To(st2, t, if s in st.pool then Returned(s, st.pool[s]) else Missed(s)).(readers := st2.readers - {t});
      run := SoloStep(run, t, LookUpStep, st3);
      if s !in st.pool {
        run := Installed(run, st3, t, s, p);
      }
    }
  }

  lemma Installed(run: seq<State>, st: State, t: Tid, s: string, p: Ptr) returns (longer: seq<State>)
    requires Solo(run, t) && run[|run| - 1] == st && t in st.pcs && st.pcs[t] == Missed(s)
    requires st.writer == Nobody && st.readers == {} && s !in st.pool && p !in st.cells
    ensures Solo(longer, t) && longer[0] == run[0]
    ensures longer[|longer| - 1] ==
              st.(pcs := st.pcs[t := Returned(s, p)], pool := st.pool[s := p], cells := st.cells[p := Cell(s, true)])
  {
    var st4 := To(st, t, Writing(s)).(writer := Held(t));
    longer := SoloStep(run, t, WriteLockStep, st4);
    var st5 := To(st4, t, Allocated(s, p)).(cells := st4.cells[p := Cell(s, false)]);
    longer := SoloStep(longer, t, RecheckStep(p), st5);
    var st6 := To(st5, t, Pinned(s, p)).(cells := st5.cells[p := Cell(s, true)]);
    longer := SoloStep(longer, t, PinStep, st6);
    var st7 := To(st6, t, Returned(s, p)).(pool := st6.pool[s := p], writer := Nobody);
    longer := SoloStep(longer, t, InstallStep, st7);
  }

  /** In a fresh process, whatever its threads, there is a run in which any of them makes any string. */
  lemma FirstCall(threads: set<Tid>, t: Tid, s: string) returns (run: seq<State>)
    requires t in threads
    ensures IsRun(run) && run[0] == State(map u | u in threads :: Idle, {}, Nobody, map[], map[])
    ensures var pcs := run[|run| - 1].pcs; t in pcs && pcs[t].Returned? && pcs[t].s == s
  {
    var start := State(map u | u in threads :: Idle, {}, Nobody, map[], map[]);
    run := CallReturns(start, t, s, 0);
    hide Takes;
    forall i | 0 <= i < |run| - 1
      ensures Next(run[i], run[i + 1])
    {
      assert Moves(run[i], run[i + 1], t);
    }
  }
}
