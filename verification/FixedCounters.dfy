/** The control registers of the fixed counters (src/msr_counters.c): set_fixed_counter_ctrl changes
    one field after another through pointers into the batch, and get_fixed_ctr_ctrl reads them back. */
module FixedCounters {
  import opened Words
  import opened BatchOps
  import opened BatchTables
  import opened MsrBatch

  const IA32_FIXED_CTR0 := 0x309
  const IA32_FIXED_CTR_CTRL := 0x38D
  const IA32_PERF_GLOBAL_CTRL := 0x38F
  const FIXED_COUNTERS_DATA := 2
  const FIXED_COUNTERS_CTR_DATA := 3

  // ----- one register

  /** The settings of one counter on one CPU, each a uint64_t. */
  datatype Fields = Fields(enable: Word, ringLevel: Word, anyThread: Word, pmi: Word)

  /** w < 2^width, for a word. */
  predicate Narrow(w: Word, width: nat) {
    forall i :: width <= i < 64 ==> !w[i]
  }

  /** The ranges of the settings: the ring level has two bits, the others one. */
  predicate InRange(f: Fields) {
    Narrow(f.enable, 1) && Narrow(f.ringLevel, 2) && Narrow(f.anyThread, 1) && Narrow(f.pmi, 1)
  }

  lemma NarrowIsBound(w: Word, width: nat)
    requires width <= 64
    ensures Narrow(w, width) <==> NatOf(w) < Pow2(width)
  {
    BitsOfNatOf(w);
    if NatOf(w) < Pow2(width) {
      forall i | width <= i < 64
        ensures !w[i]
      {
        HighBitsClear(NatOf(w), width, 64, i);
      }
    }
    if Narrow(w, width) {
      assert w == w[..width] + w[width..];
      NatOfPadded(w[..width], w[width..]);
      BitsOfNatOf(w[..width]);
    }
  }

  /** (w & ~(ones << k)) | v << k, the update of one field. */
  function Put(w: Word, width: nat, k: nat, v: Word): Word
    requires 0 < width && k + width <= 64
  {
    Or(And(w, Not(MaskRange(k + width - 1, k))), Shl(v, k))
  }

  lemma PutBits(w: Word, width: nat, k: nat, v: Word)
    requires 0 < width && k + width <= 64 && Narrow(v, width)
    ensures forall j :: 0 <= j < 64 ==> Put(w, width, k, v)[j] == if k <= j < k + width then v[j - k] else w[j]
  {
  }

  function PutEnable(w: Word, k: nat, v: Word): Word
    requires k < 3
  {
    Put(w, 1, 32 + k, v)
  }

  /** The four control bits of counter k. */
  function PutControls(w: Word, k: nat, f: Fields): Word
    requires k < 3
  {
    Put(Put(Put(w, 2, 4 * k, f.ringLevel), 1, 4 * k + 2, f.anyThread), 1, 4 * k + 3, f.pmi)
  }

  /** IA32_PERF_GLOBAL_CTRL and IA32_FIXED_CTR_CTRL after the updates, counter after counter. */
  function GlobalWord(w: Word, f0: Fields, f1: Fields, f2: Fields): Word {
    PutEnable(PutEnable(PutEnable(w, 0, f0.enable), 1, f1.enable), 2, f2.enable)
  }

  function ControlWord(w: Word, f0: Fields, f1: Fields, f2: Fields): Word {
    PutControls(PutControls(PutControls(w, 0, f0), 1, f1), 2, f2)
  }

  /** The settings of counter k that get_fixed_ctr_ctrl finds in the registers. */
  function Found(global: Word, control: Word, k: nat): Fields
    requires k < 3
  {
    Fields(MaskVal(global, 32 + k, 32 + k), MaskVal(control, 4 * k + 1, 4 * k),
           MaskVal(control, 4 * k + 2, 4 * k + 2), MaskVal(control, 4 * k + 3, 4 * k + 3))
  }

  lemma FoundInRange(global: Word, control: Word, k: nat)
    requires k < 3
    ensures InRange(Found(global, control, k))
  {
  }

  /** Bit j of the settings of one counter, as it stands in the control register. */
  function ControlBit(f: Fields, j: nat): bool
    requires j < 4
  {
    if j < 2 then f.ringLevel[j] else if j == 2 then f.anyThread[0] else f.pmi[0]
  }

  /** The control bits of counter k stand in the register. */
  predicate Stands(w: Word, k: nat, f: Fields)
    requires k < 3
  {
    forall j :: 4 * k <= j < 4 * k + 4 ==> w[j] == ControlBit(f, j - 4 * k)
  }

  lemma PutControlsBits(w: Word, k: nat, f: Fields)
    requires k < 3 && InRange(f)
    ensures forall j :: 0 <= j < 64 ==>
      PutControls(w, k, f)[j] == if 4 * k <= j < 4 * k + 4 then ControlBit(f, j - 4 * k) else w[j]
  {
    var a := Put(w, 2, 4 * k, f.ringLevel);
    var b := Put(a, 1, 4 * k + 2, f.anyThread);
    PutBits(w, 2, 4 * k, f.ringLevel);
    PutBits(a, 1, 4 * k + 2, f.anyThread);
    PutBits(b, 1, 4 * k + 3, f.pmi);
  }

  /** All bits outside the three enable bits are kept. */
  lemma GlobalFrame(w: Word, f0: Fields, f1: Fields, f2: Fields)
    requires InRange(f0) && InRange(f1) && InRange(f2)
    ensures var r := GlobalWord(w, f0, f1, f2);
      && r[32] == f0.enable[0] && r[33] == f1.enable[0] && r[34] == f2.enable[0]
      && forall j :: 0 <= j < 64 && !(32 <= j <= 34) ==> r[j] == w[j]
  {
    var a := PutEnable(w, 0, f0.enable);
    var b := PutEnable(a, 1, f1.enable);
    PutBits(w, 1, 32, f0.enable);
    PutBits(a, 1, 33, f1.enable);
    PutBits(b, 1, 34, f2.enable);
  }

  /** All bits above the twelve control bits are kept. */
  lemma ControlFrame(w: Word, f0: Fields, f1: Fields, f2: Fields)
    requires InRange(f0) && InRange(f1) && InRange(f2)
    ensures var r := ControlWord(w, f0, f1, f2);
      && Stands(r, 0, f0) && Stands(r, 1, f1) && Stands(r, 2, f2)
      && forall j :: 12 <= j < 64 ==> r[j] == w[j]
  {
    var a := PutControls(w, 0, f0);
    var b := PutControls(a, 1, f1);
    PutControlsBits(w, 0, f0);
    PutControlsBits(a, 1, f1);
    PutControlsBits(b, 2, f2);
  }

  lemma FoundIs(global: Word, control: Word, k: nat, f: Fields)
    requires k < 3 && InRange(f) && global[32 + k] == f.enable[0]
    requires Stands(control, k, f)
    ensures Found(global, control, k) == f
  {
    assert MaskVal(global, 32 + k, 32 + k) == f.enable;
    assert MaskVal(control, 4 * k + 1, 4 * k) == f.ringLevel;
    assert MaskVal(control, 4 * k + 2, 4 * k + 2) == f.anyThread;
    assert MaskVal(control, 4 * k + 3, 4 * k + 3) == f.pmi;
  }

  /** What is set reads back, for all three counters, exactly when every setting is in range. */
  lemma SetThenGet(g: Word, c: Word, f0: Fields, f1: Fields, f2: Fields)
    ensures var global, control := GlobalWord(g, f0, f1, f2), ControlWord(c, f0, f1, f2);
      (Found(global, control, 0) == f0 && Found(global, control, 1) == f1 && Found(global, control, 2) == f2)
      <==> (InRange(f0) && InRange(f1) && InRange(f2))
  {
    var global, control := GlobalWord(g, f0, f1, f2), ControlWord(c, f0, f1, f2);
    FoundInRange(global, control, 0);
    FoundInRange(global, control, 1);
    FoundInRange(global, control, 2);
    if InRange(f0) && InRange(f1) && InRange(f2) {
      GlobalFrame(g, f0, f1, f2);
      ControlFrame(c, f0, f1, f2);
      FoundIs(global, control, 0, f0);
      FoundIs(global, control, 1, f1);
      FoundIs(global, control, 2, f2);
    }
  }

  // ----- the cells of both batches

  /** Operations 0..n and n..2n: both control registers, one operation a CPU. */
  ghost predicate ControlOps(ops: seq<Op>, n: nat) {
    && |ops| == 2 * n && Uniform(ops)
    && (forall j :: 0 <= j < n ==> ops[j].Target() == Reg(j, IA32_PERF_GLOBAL_CTRL))
    && forall j :: n <= j < 2 * n ==> ops[j].Target() == Reg(j - n, IA32_FIXED_CTR_CTRL)
  }

  /** The same for the three counters. */
  ghost predicate ValueOps(ops: seq<Op>, n: nat) {
    && |ops| == 3 * n && Uniform(ops)
    && (forall j :: 0 <= j < n ==> ops[j].Target() == Reg(j, IA32_FIXED_CTR0))
    && (forall j :: n <= j < 2 * n ==> ops[j].Target() == Reg(j - n, IA32_FIXED_CTR0 + 1))
    && forall j :: 2 * n <= j < 3 * n ==> ops[j].Target() == Reg(j - 2 * n, IA32_FIXED_CTR0 + 2)
  }

  /** The array leads to cells start, start + 1, ... */
  ghost predicate LeadsTo(val: Cells, ops: array<Op>, start: nat, n: nat)
    reads val
  {
    val.Length == n && forall i :: 0 <= i < n ==> val[i] == Some(Dest(ops, start + i))
  }

  /** The settings of CPU i of one counter, for all CPUs. */
  type Settings = seq<Fields>

  /** The control cells once CPUs 0..i are done. */
  ghost predicate ControlsDone(was: seq<Op>, now: seq<Op>, n: nat, i: nat, f0: Settings, f1: Settings, f2: Settings)
    requires |was| == 2 * n && |f0| == |f1| == |f2| == n
  {
    && |now| == |was|
    && (forall j :: 0 <= j < n ==>
          now[j] == if j < i then was[j].WithData(GlobalWord(was[j].data, f0[j], f1[j], f2[j])) else was[j])
    && forall j :: n <= j < 2 * n ==>
         now[j] == if j < n + i then was[j].WithData(ControlWord(was[j].data, f0[j - n], f1[j - n], f2[j - n])) else was[j]
  }

  /** The counter cells once CPUs 0..i are done. */
  ghost predicate ValuesDone(was: seq<Op>, now: seq<Op>, n: nat, i: nat)
    requires |was| == 3 * n
  {
    && |now| == |was|
    && forall j :: 0 <= j < 3 * n ==>
         now[j] == if j < i || n <= j < n + i || 2 * n <= j < 2 * n + i then was[j].WithData(Zero()) else was[j]
  }

  // ----- the registers

  /** What set_fixed_counter_ctrl does to the registers of CPUs 0..n. */
  ghost predicate SetTo(before: Store, after: Store, n: nat, f0: Settings, f1: Settings, f2: Settings)
    requires |f0| == |f1| == |f2| == n
  {
    && (forall i :: 0 <= i < n ==>
          Lookup(after, Reg(i, IA32_PERF_GLOBAL_CTRL))
          == GlobalWord(Lookup(before, Reg(i, IA32_PERF_GLOBAL_CTRL)), f0[i], f1[i], f2[i]))
    && (forall i :: 0 <= i < n ==>
          Lookup(after, Reg(i, IA32_FIXED_CTR_CTRL))
          == ControlWord(Lookup(before, Reg(i, IA32_FIXED_CTR_CTRL)), f0[i], f1[i], f2[i]))
    && Zeroed(after, n)
    && forall q: Reg :: q.cpu >= n || !IsFixed(q.msr) ==> Lookup(after, q) == Lookup(before, q)
  }

  /** The three counters of all CPUs are zero. */
  ghost predicate Zeroed(s: Store, n: nat) {
    forall q: Reg :: q.cpu < n && IA32_FIXED_CTR0 <= q.msr <= IA32_FIXED_CTR0 + 2 ==> Lookup(s, q) == Zero()
  }

  /** The registers of the fixed counters. */
  predicate IsFixed(msr: nat) {
    msr == IA32_PERF_GLOBAL_CTRL || msr == IA32_FIXED_CTR_CTRL || IA32_FIXED_CTR0 <= msr <= IA32_FIXED_CTR0 + 2
  }

  function FoundOn(s: Store, cpu: nat, k: nat): Fields
    requires k < 3
  {
    Found(Lookup(s, Reg(cpu, IA32_PERF_GLOBAL_CTRL)), Lookup(s, Reg(cpu, IA32_FIXED_CTR_CTRL)), k)
  }

  /** Every register of the batch has its cell's data, every other register what it had. */
  ghost predicate Wrote(ops: seq<Op>, before: Store, after: Store) {
    && (forall i :: 0 <= i < |ops| ==> Lookup(after, ops[i].Target()) == ops[i].data)
    && forall q :: (forall i :: 0 <= i < |ops| ==> ops[i].Target() != q) ==> Lookup(after, q) == Lookup(before, q)
  }

  lemma ControlsConsistent(ops: seq<Op>, n: nat)
    requires ControlOps(ops, n)
    ensures Consistent(ops)
  {
  }

  lemma ValuesConsistent(ops: seq<Op>, n: nat)
    requires ValueOps(ops, n)
    ensures Consistent(ops)
  {
  }

  lemma SameControlOps(was: seq<Op>, now: seq<Op>, n: nat)
    requires ControlOps(was, n) && |now| == |was| && Uniform(now)
    requires forall j :: 0 <= j < |was| ==> now[j].Target() == was[j].Target()
    ensures ControlOps(now, n)
  {
  }

  lemma SameValueOps(was: seq<Op>, now: seq<Op>, n: nat)
    requires ValueOps(was, n) && |now| == |was| && Uniform(now)
    requires forall j :: 0 <= j < |was| ==> now[j].Target() == was[j].Target()
    ensures ValueOps(now, n)
  {
  }

  lemma WriteBatch(viaDriver: bool, s: Store, ops: seq<Op>)
    requires Uniform(ops) && Consistent(ops)
    ensures var r := Step(viaDriver, State(s, ops), Do(BatchWrite));
      && Wrote(ops, s, r.store) && |r.ops| == |ops| && Uniform(r.ops)
      && forall i :: 0 <= i < |ops| ==> r.ops[i].Target() == ops[i].Target()
  {
    WriteUniform(viaDriver, State(s, ops));
  }

  /** The global control register of a CPU once the cells are written. */
  lemma GlobalWrote(s: Store, after: Store, was: seq<Op>, now: seq<Op>, n: nat, f0: Settings, f1: Settings, f2: Settings, i: nat)
    requires ControlOps(was, n) && |f0| == |f1| == |f2| == n && ControlsDone(was, now, n, n, f0, f1, f2)
    requires forall j :: 0 <= j < 2 * n ==> was[j].data == Lookup(s, was[j].Target())
    requires Wrote(now, s, after) && i < n
    ensures Lookup(after, Reg(i, IA32_PERF_GLOBAL_CTRL))
         == GlobalWord(Lookup(s, Reg(i, IA32_PERF_GLOBAL_CTRL)), f0[i], f1[i], f2[i])
  {
    assert now[i].Target() == was[i].Target() == Reg(i, IA32_PERF_GLOBAL_CTRL);
  }

  lemma ControlWrote(s: Store, after: Store, was: seq<Op>, now: seq<Op>, n: nat, f0: Settings, f1: Settings, f2: Settings, i: nat)
    requires ControlOps(was, n) && |f0| == |f1| == |f2| == n && ControlsDone(was, now, n, n, f0, f1, f2)
    requires forall j :: 0 <= j < 2 * n ==> was[j].data == Lookup(s, was[j].Target())
    requires Wrote(now, s, after) && i < n
    ensures Lookup(after, Reg(i, IA32_FIXED_CTR_CTRL))
         == ControlWord(Lookup(s, Reg(i, IA32_FIXED_CTR_CTRL)), f0[i], f1[i], f2[i])
  {
    var j := n + i;
    assert now[j].Target() == was[j].Target() == Reg(i, IA32_FIXED_CTR_CTRL);
  }

  lemma ControlsElse(s: Store, after: Store, ops: seq<Op>, n: nat, q: Reg)
    requires ControlOps(ops, n) && Wrote(ops, s, after)
    requires q.cpu >= n || (q.msr != IA32_PERF_GLOBAL_CTRL && q.msr != IA32_FIXED_CTR_CTRL)
    ensures Lookup(after, q) == Lookup(s, q)
  {
    assert forall i :: 0 <= i < |ops| ==> ops[i].Target() != q;
  }

  lemma ValuesElse(s: Store, after: Store, ops: seq<Op>, n: nat, q: Reg)
    requires ValueOps(ops, n) && Wrote(ops, s, after)
    requires q.cpu >= n || !(IA32_FIXED_CTR0 <= q.msr <= IA32_FIXED_CTR0 + 2)
    ensures Lookup(after, q) == Lookup(s, q)
  {
    assert forall i :: 0 <= i < |ops| ==> ops[i].Target() != q;
  }

  lemma ValuesZeroed(s: Store, after: Store, ops: seq<Op>, n: nat)
    requires ValueOps(ops, n) && Wrote(ops, s, after)
    requires forall j :: 0 <= j < |ops| ==> ops[j].data == Zero()
    ensures Zeroed(after, n)
  {
    forall q: Reg | q.cpu < n && IA32_FIXED_CTR0 <= q.msr <= IA32_FIXED_CTR0 + 2
      ensures Lookup(after, q) == Zero()
    {
      var j := if q.msr == IA32_FIXED_CTR0 then q.cpu
               else if q.msr == IA32_FIXED_CTR0 + 1 then n + q.cpu
               else 2 * n + q.cpu;
      assert ops[j].Target() == q;
    }
  }

  /** Writing the control cells, then the counter cells. */
  lemma SetToHolds(s: Store, mid: Store, after: Store, was: seq<Op>, now: seq<Op>, values: seq<Op>, n: nat,
                   f0: Settings, f1: Settings, f2: Settings)
    requires ControlOps(was, n) && |f0| == |f1| == |f2| == n && ControlsDone(was, now, n, n, f0, f1, f2)
    requires forall j :: 0 <= j < 2 * n ==> was[j].data == Lookup(s, was[j].Target())
    requires ControlOps(now, n) && Wrote(now, s, mid)
    requires ValueOps(values, n) && Wrote(values, mid, after) && forall j :: 0 <= j < |values| ==> values[j].data == Zero()
    ensures SetTo(s, after, n, f0, f1, f2)
  {
    forall i | 0 <= i < n
      ensures Lookup(after, Reg(i, IA32_PERF_GLOBAL_CTRL))
           == GlobalWord(Lookup(s, Reg(i, IA32_PERF_GLOBAL_CTRL)), f0[i], f1[i], f2[i])
    {
      GlobalWrote(s, mid, was, now, n, f0, f1, f2, i);
      ValuesElse(mid, after, values, n, Reg(i, IA32_PERF_GLOBAL_CTRL));
    }
    forall i | 0 <= i < n
      ensures Lookup(after, Reg(i, IA32_FIXED_CTR_CTRL))
           == ControlWord(Lookup(s, Reg(i, IA32_FIXED_CTR_CTRL)), f0[i], f1[i], f2[i])
    {
      ControlWrote(s, mid, was, now, n, f0, f1, f2, i);
      ValuesElse(mid, after, values, n, Reg(i, IA32_FIXED_CTR_CTRL));
    }
    forall q: Reg | q.cpu >= n || !IsFixed(q.msr)
      ensures Lookup(after, q) == Lookup(s, q)
    {
      ControlsElse(s, mid, now, n, q);
      ValuesElse(mid, after, values, n, q);
    }
    ValuesZeroed(mid, after, values, n);
  }

  // ----- the turns of the loop

  lemma ControlsTurn(was: seq<Op>, now: seq<Op>, next: seq<Op>, n: nat, i: nat, f0: Settings, f1: Settings, f2: Settings)
    requires |was| == 2 * n && |f0| == |f1| == |f2| == n && i < n && ControlsDone(was, now, n, i, f0, f1, f2)
    requires next == now[i := now[i].WithData(GlobalWord(now[i].data, f0[i], f1[i], f2[i]))]
                        [n + i := now[n + i].WithData(ControlWord(now[n + i].data, f0[i], f1[i], f2[i]))]
    ensures ControlsDone(was, next, n, i + 1, f0, f1, f2)
  {
  }

  lemma ValuesTurn(was: seq<Op>, now: seq<Op>, next: seq<Op>, n: nat, i: nat)
    requires |was| == 3 * n && i < n && ValuesDone(was, now, n, i)
    requires next == now[i := now[i].WithData(Zero())][n + i := now[n + i].WithData(Zero())]
                        [2 * n + i := now[2 * n + i].WithData(Zero())]
    ensures ValuesDone(was, next, n, i + 1)
  {
  }

  /** *dest = (*dest & ~(ones << k)) | v << k */
  method PutCell(table: MsrTable, batchnum: nat, dest: Dest<Op>, width: nat, k: nat, v: Word)
    requires table.Valid() && table.Allocated(batchnum)
    requires dest.ops == table.batch[batchnum].ops && dest.index < |table.model[batchnum]|
    requires 0 < width && k + width <= 64
    modifies table`model, table.repr
    ensures table.Valid()
    ensures table.model == Stored(old(table.model), batchnum, dest.index,
                                  Put(old(table.model[batchnum][dest.index].data), width, k, v))
  {
    assert dest.ops[dest.index] == dest.ops[..|table.model[batchnum]|][dest.index];
    StoreCell(table, batchnum, dest, Put(dest.ops[dest.index].data, width, k, v));
  }

  /** The three updates of the global control register of one CPU. */
  method PutEnables(table: MsrTable, batchnum: nat, dest: Dest<Op>, f0: Fields, f1: Fields, f2: Fields)
    requires table.Valid() && table.Allocated(batchnum)
    requires dest.ops == table.batch[batchnum].ops && dest.index < |table.model[batchnum]|
    modifies table`model, table.repr
    ensures table.Valid()
    ensures table.model == Stored(old(table.model), batchnum, dest.index,
                                  GlobalWord(old(table.model[batchnum][dest.index].data), f0, f1, f2))
  {
    ghost var m: seq<seq<Op>>, i := table.model, dest.index;
    ghost var w := m[batchnum][i].data;
    ghost var w0 := PutEnable(w, 0, f0.enable);
    ghost var w1 := PutEnable(w0, 1, f1.enable);
    PutCell(table, batchnum, dest, 1, 32, f0.enable);
    PutCell(table, batchnum, dest, 1, 33, f1.enable);
    StoredTwice(m, batchnum, i, w0, w1);
    PutCell(table, batchnum, dest, 1, 34, f2.enable);
    StoredTwice(m, batchnum, i, w1, PutEnable(w1, 2, f2.enable));
  }

  /** The three updates of the control bits of one counter on one CPU. */
  method PutCounter(table: MsrTable, batchnum: nat, dest: Dest<Op>, k: nat, f: Fields)
    requires table.Valid() && table.Allocated(batchnum) && k < 3
    requires dest.ops == table.batch[batchnum].ops && dest.index < |table.model[batchnum]|
    modifies table`model, table.repr
    ensures table.Valid()
    ensures table.model == Stored(old(table.model), batchnum, dest.index,
                                  PutControls(old(table.model[batchnum][dest.index].data), k, f))
  {
    ghost var m: seq<seq<Op>>, i := table.model, dest.index;
    ghost var w := m[batchnum][i].data;
    ghost var w0 := Put(w, 2, 4 * k, f.ringLevel);
    ghost var w1 := Put(w0, 1, 4 * k + 2, f.anyThread);
    PutCell(table, batchnum, dest, 2, 4 * k, f.ringLevel);
    PutCell(table, batchnum, dest, 1, 4 * k + 2, f.anyThread);
    StoredTwice(m, batchnum, i, w0, w1);
    PutCell(table, batchnum, dest, 1, 4 * k + 3, f.pmi);
    StoredTwice(m, batchnum, i, w1, Put(w1, 1, 4 * k + 3, f.pmi));
  }

  /** All nine updates of the fixed control register of one CPU. */
  method PutCounters(table: MsrTable, batchnum: nat, dest: Dest<Op>, f0: Fields, f1: Fields, f2: Fields)
    requires table.Valid() && table.Allocated(batchnum)
    requires dest.ops == table.batch[batchnum].ops && dest.index < |table.model[batchnum]|
    modifies table`model, table.repr
    ensures table.Valid()
    ensures table.model == Stored(old(table.model), batchnum, dest.index,
                                  ControlWord(old(table.model[batchnum][dest.index].data), f0, f1, f2))
  {
    ghost var m: seq<seq<Op>>, i := table.model, dest.index;
    ghost var w := m[batchnum][i].data;
    ghost var w0 := PutControls(w, 0, f0);
    ghost var w1 := PutControls(w0, 1, f1);
    PutCounter(table, batchnum, dest, 0, f0);
    PutCounter(table, batchnum, dest, 1, f1);
    StoredTwice(m, batchnum, i, w0, w1);
    PutCounter(table, batchnum, dest, 2, f2);
    StoredTwice(m, batchnum, i, w1, PutControls(w1, 2, f2));
  }

  // ----- the calls

  /** struct fixed_counter: the settings of every CPU, and the cells of the counter itself. */
  class FixedCounter {
    const fields: array<Fields>
    const value: Cells

    constructor (n: nat)
      ensures fresh(fields) && fresh(value) && fields.Length == value.Length == n
    {
      fields := new Fields[n](_ => Fields(Zero(), Zero(), Zero(), Zero()));
      value := new Option<Dest<Op>>[n](_ => None);
    }
  }

  /** The operations of a register, one a CPU. */
  function ThreadOps(msr: nat, n: nat): (ops: seq<Op>)
    ensures |ops| == n
    ensures forall j :: 0 <= j < n ==> ops[j] == NewOp(j, msr) && (n <= 0x1_0000 ==> ops[j].Target() == Reg(j, msr))
  {
    OpsFor(msr, ThreadCpus(n))
  }

  /** What else is in the table is where it was. */
  ghost predicate Undisturbed(now: seq<BatchArray<Op>>, model: seq<seq<Op>>, was: seq<BatchArray<Op>>, wasModel: seq<seq<Op>>, b: nat) {
    && |model| == |now| >= |was| == |wasModel|
    && (forall c :: 0 <= c < |was| && c != b ==> now[c].ops == was[c].ops && model[c] == wasModel[c])
    && forall c :: |was| <= c < |now| && c != b ==> now[c].ops == null
  }

  /** load_thread_batch for a register of the batch. */
  method LoadAll(numDevs: nat, msr: nat, val: Cells, table: MsrTable, b: nat, ghost front: seq<Op>)
    requires val.Length == numDevs <= 0x1_0000 && table.Valid() && table.Allocated(b)
    requires table.model[b] == front && |front| + numDevs <= table.size[b]
    modifies table, table.repr, val
    ensures table.Valid() && table.Allocated(b) && table.repr == old(table.repr) && table.size == old(table.size)
    ensures table.batch[b].ops == old(table.batch[b].ops) && LeadsTo(val, table.batch[b].ops, |front|, numDevs)
    ensures Undisturbed(table.batch, table.model, old(table.batch), old(table.model), b) && |table.batch| == |old(table.batch)|
    ensures table.model[b] == front + ThreadOps(msr, numDevs)
  {
    LoadThreadBatch(numDevs, msr, val, table, b);
    assert ThreadCpus(numDevs)[..numDevs] == ThreadCpus(numDevs);
  }

  /** Two registers of the batch. */
  method LoadBoth(numDevs: nat, msr1: nat, val1: Cells, msr2: nat, val2: Cells, table: MsrTable, b: nat, ghost front: seq<Op>)
    requires val1 != val2 && val1.Length == val2.Length == numDevs <= 0x1_0000 && table.Valid() && table.Allocated(b)
    requires table.model[b] == front && |front| + 2 * numDevs <= table.size[b]
    modifies table, table.repr, val1, val2
    ensures table.Valid() && table.Allocated(b) && table.repr == old(table.repr) && table.size == old(table.size)
    ensures table.batch[b].ops == old(table.batch[b].ops)
    ensures LeadsTo(val1, table.batch[b].ops, |front|, numDevs) && LeadsTo(val2, table.batch[b].ops, |front| + numDevs, numDevs)
    ensures Undisturbed(table.batch, table.model, old(table.batch), old(table.model), b) && |table.batch| == |old(table.batch)|
    ensures table.model[b] == front + ThreadOps(msr1, numDevs) + ThreadOps(msr2, numDevs)
  {
    LoadAll(numDevs, msr1, val1, table, b, front);
    LoadAll(numDevs, msr2, val2, table, b, front + ThreadOps(msr1, numDevs));
  }

  lemma ControlOpsLoaded(n: nat)
    requires n <= 0x1_0000
    ensures ControlOps([] + ThreadOps(IA32_PERF_GLOBAL_CTRL, n) + ThreadOps(IA32_FIXED_CTR_CTRL, n), n)
  {
    assert AllFlags([] + ThreadOps(IA32_PERF_GLOBAL_CTRL, n) + ThreadOps(IA32_FIXED_CTR_CTRL, n), true);
  }

  lemma ValueOpsLoaded(n: nat)
    requires n <= 0x1_0000
    ensures ValueOps([] + ThreadOps(IA32_FIXED_CTR0, n) + ThreadOps(IA32_FIXED_CTR0 + 1, n) + ThreadOps(IA32_FIXED_CTR0 + 2, n), n)
  {
    var ops := [] + ThreadOps(IA32_FIXED_CTR0, n) + ThreadOps(IA32_FIXED_CTR0 + 1, n) + ThreadOps(IA32_FIXED_CTR0 + 2, n);
    assert AllFlags(ops, true);
  }

  /** fixed_counter_ctrl_storage */
  method ControlStorage(numDevs: nat, global: Cells, control: Cells, table: MsrTable)
    requires global != control && global.Length == control.Length == numDevs <= 0x1_0000
    requires table.Valid() && !table.Allocated(FIXED_COUNTERS_CTR_DATA)
    modifies table, table.repr, global, control
    ensures table.Valid() && ControlsStored(table, numDevs, global, control)
    ensures fresh(table.repr - old(table.repr))
    ensures Undisturbed(table.batch, table.model, old(table.batch), old(table.model), FIXED_COUNTERS_CTR_DATA)
  {
    table.AllocateBatch(FIXED_COUNTERS_CTR_DATA, 2 * numDevs);
    FillControls(numDevs, global, control, table);
  }

  ghost predicate ControlsStored(table: MsrTable, n: nat, global: Cells, control: Cells)
    reads table, global, control
  {
    && table.Allocated(FIXED_COUNTERS_CTR_DATA) && |table.model| == |table.batch|
    && ControlOps(table.model[FIXED_COUNTERS_CTR_DATA], n)
    && LeadsTo(global, table.batch[FIXED_COUNTERS_CTR_DATA].ops, 0, n)
    && LeadsTo(control, table.batch[FIXED_COUNTERS_CTR_DATA].ops, n, n)
  }

  /** The batch is allocated and empty. */
  ghost predicate Empty(table: MsrTable, b: nat, size: nat)
    reads table, table.repr
  {
    table.Valid() && table.Allocated(b) && table.model[b] == [] && table.size[b] == size
  }

  method FillControls(numDevs: nat, global: Cells, control: Cells, table: MsrTable)
    requires global != control && global.Length == control.Length == numDevs <= 0x1_0000
    requires Empty(table, FIXED_COUNTERS_CTR_DATA, 2 * numDevs)
    modifies table, table.repr, global, control
    ensures table.Valid() && table.repr == old(table.repr) && ControlsStored(table, numDevs, global, control)
    ensures Undisturbed(table.batch, table.model, old(table.batch), old(table.model), FIXED_COUNTERS_CTR_DATA)
    ensures |table.batch| == |old(table.batch)|
  {
    LoadBoth(numDevs, IA32_PERF_GLOBAL_CTRL, global, IA32_FIXED_CTR_CTRL, control, table, FIXED_COUNTERS_CTR_DATA, []);
    ControlOpsLoaded(numDevs);
  }

  /** fixed_counter_storage */
  method ValueStorage(numDevs: nat, c0: Cells, c1: Cells, c2: Cells, table: MsrTable)
    requires c0 != c1 && c0 != c2 && c1 != c2 && c0.Length == c1.Length == c2.Length == numDevs <= 0x1_0000
    requires table.Valid() && !table.Allocated(FIXED_COUNTERS_DATA)
    modifies table, table.repr, c0, c1, c2
    ensures table.Valid() && ValuesStored(table, numDevs, c0, c1, c2)
    ensures fresh(table.repr - old(table.repr))
    ensures Undisturbed(table.batch, table.model, old(table.batch), old(table.model), FIXED_COUNTERS_DATA)
  {
    table.AllocateBatch(FIXED_COUNTERS_DATA, 3 * numDevs);
    FillValues(numDevs, c0, c1, c2, table);
  }

  ghost predicate ValuesStored(table: MsrTable, n: nat, c0: Cells, c1: Cells, c2: Cells)
    reads table, c0, c1, c2
  {
    && table.Allocated(FIXED_COUNTERS_DATA) && |table.model| == |table.batch|
    && ValueOps(table.model[FIXED_COUNTERS_DATA], n)
    && LeadsTo(c0, table.batch[FIXED_COUNTERS_DATA].ops, 0, n)
    && LeadsTo(c1, table.batch[FIXED_COUNTERS_DATA].ops, n, n)
    && LeadsTo(c2, table.batch[FIXED_COUNTERS_DATA].ops, 2 * n, n)
  }

  method FillValues(numDevs: nat, c0: Cells, c1: Cells, c2: Cells, table: MsrTable)
    requires c0 != c1 && c0 != c2 && c1 != c2 && c0.Length == c1.Length == c2.Length == numDevs <= 0x1_0000
    requires Empty(table, FIXED_COUNTERS_DATA, 3 * numDevs)
    modifies table, table.repr, c0, c1, c2
    ensures table.Valid() && table.repr == old(table.repr) && ValuesStored(table, numDevs, c0, c1, c2)
    ensures Undisturbed(table.batch, table.model, old(table.batch), old(table.model), FIXED_COUNTERS_DATA)
    ensures |table.batch| == |old(table.batch)|
  {
    LoadAll(numDevs, IA32_FIXED_CTR0, c0, table, FIXED_COUNTERS_DATA, []);
    ghost var first: seq<Op> := [] + ThreadOps(IA32_FIXED_CTR0, numDevs);
    LoadBoth(numDevs, IA32_FIXED_CTR0 + 1, c1, IA32_FIXED_CTR0 + 2, c2, table, FIXED_COUNTERS_DATA, first);
    ValueOpsLoaded(numDevs);
  }

  /** The static storage of the fixed counters, and the table and device it uses. */
  class CounterBank {
    const device: MsrDevice
    const table: MsrTable
    const numDevs: nat
    const perfGlobalCtrl: Cells
    const fixedCtrCtrl: Cells
    const ctr0: FixedCounter
    const ctr1: FixedCounter
    const ctr2: FixedCounter

    /** No array serves two purposes. */
    ghost predicate Separate() {
      && ctr0.fields.Length == ctr1.fields.Length == ctr2.fields.Length == numDevs
      && ctr0.value.Length == ctr1.value.Length == ctr2.value.Length == numDevs
      && perfGlobalCtrl.Length == fixedCtrCtrl.Length == numDevs && perfGlobalCtrl != fixedCtrCtrl
      && ctr0.fields != ctr1.fields && ctr0.fields != ctr2.fields && ctr1.fields != ctr2.fields
      && ctr0.value != ctr1.value && ctr0.value != ctr2.value && ctr1.value != ctr2.value
      && perfGlobalCtrl !in {ctr0.value, ctr1.value, ctr2.value}
      && fixedCtrCtrl !in {ctr0.value, ctr1.value, ctr2.value}
    }

    /** Every pointer leads to its own cell. */
    ghost predicate Linked()
      reads table, table.repr, perfGlobalCtrl, fixedCtrCtrl, ctr0.value, ctr1.value, ctr2.value
    {
      && Separate()
      && table.Valid() && table.Allocated(FIXED_COUNTERS_DATA) && table.Allocated(FIXED_COUNTERS_CTR_DATA)
      && |table.model[FIXED_COUNTERS_CTR_DATA]| == 2 * numDevs && |table.model[FIXED_COUNTERS_DATA]| == 3 * numDevs
      && LeadsTo(perfGlobalCtrl, table.batch[FIXED_COUNTERS_CTR_DATA].ops, 0, numDevs)
      && LeadsTo(fixedCtrCtrl, table.batch[FIXED_COUNTERS_CTR_DATA].ops, numDevs, numDevs)
      && LeadsTo(ctr0.value, table.batch[FIXED_COUNTERS_DATA].ops, 0, numDevs)
      && LeadsTo(ctr1.value, table.batch[FIXED_COUNTERS_DATA].ops, numDevs, numDevs)
      && LeadsTo(ctr2.value, table.batch[FIXED_COUNTERS_DATA].ops, 2 * numDevs, numDevs)
    }

    /** Every cell is that of its own register and CPU. */
    ghost predicate Valid()
      reads table, table.repr, perfGlobalCtrl, fixedCtrCtrl, ctr0.value, ctr1.value, ctr2.value
    {
      && Linked()
      && ControlOps(table.model[FIXED_COUNTERS_CTR_DATA], numDevs)
      && ValueOps(table.model[FIXED_COUNTERS_DATA], numDevs)
    }

    /** The storage of a machine whose CPU numbers fit sixteen bits. */
    constructor (device: MsrDevice, table: MsrTable, numDevs: nat)
      requires table.Valid() && numDevs <= 0x1_0000
      requires !table.Allocated(FIXED_COUNTERS_DATA) && !table.Allocated(FIXED_COUNTERS_CTR_DATA)
      modifies table, table.repr
      ensures Valid() && this.device == device && this.table == table && this.numDevs == numDevs
    {
      this.device, this.table, this.numDevs := device, table, numDevs;
      perfGlobalCtrl := new Option<Dest<Op>>[numDevs](_ => None);
      fixedCtrCtrl := new Option<Dest<Op>>[numDevs](_ => None);
      ctr0 := new FixedCounter(numDevs);
      ctr1 := new FixedCounter(numDevs);
      ctr2 := new FixedCounter(numDevs);
      new;
      Store();
    }

    /** The first call of both storage functions. */
    method Store()
      requires Separate() && table.Valid() && numDevs <= 0x1_0000
      requires !table.Allocated(FIXED_COUNTERS_DATA) && !table.Allocated(FIXED_COUNTERS_CTR_DATA)
      modifies table, table.repr, perfGlobalCtrl, fixedCtrCtrl, ctr0.value, ctr1.value, ctr2.value
      ensures Valid()
    {
      ValueStorage(numDevs, ctr0.value, ctr1.value, ctr2.value, table);
      ghost var ops: seq<Op> := table.model[FIXED_COUNTERS_DATA];
      ControlStorage(numDevs, perfGlobalCtrl, fixedCtrCtrl, table);
      assert table.model[FIXED_COUNTERS_DATA] == ops;
    }

    /** The three counters of CPU i to zero. */
    method ZeroValues(i: nat)
      requires Linked() && i < numDevs
      modifies table`model, table.repr
      ensures Linked() && |table.model| == |old(table.model)|
      ensures ghost var now := old(table.model[FIXED_COUNTERS_DATA]);
        table.model[FIXED_COUNTERS_DATA] ==
          now[i := now[i].WithData(Zero())][numDevs + i := now[numDevs + i].WithData(Zero())]
             [2 * numDevs + i := now[2 * numDevs + i].WithData(Zero())]
      ensures forall b :: 0 <= b < |table.model| && b != FIXED_COUNTERS_DATA ==> table.model[b] == old(table.model)[b]
    {
      StoreCell(table, FIXED_COUNTERS_DATA, ctr0.value[i].value, Zero());
      StoreCell(table, FIXED_COUNTERS_DATA, ctr1.value[i].value, Zero());
      StoreCell(table, FIXED_COUNTERS_DATA, ctr2.value[i].value, Zero());
    }

    /** Both control registers of CPU i. */
    method PutSettings(i: nat, f0: Fields, f1: Fields, f2: Fields)
      requires Linked() && i < numDevs
      modifies table`model, table.repr
      ensures Linked() && |table.model| == |old(table.model)|
      ensures ghost var now := old(table.model[FIXED_COUNTERS_CTR_DATA]);
        table.model[FIXED_COUNTERS_CTR_DATA] ==
          now[i := now[i].WithData(GlobalWord(now[i].data, f0, f1, f2))]
             [numDevs + i := now[numDevs + i].WithData(ControlWord(now[numDevs + i].data, f0, f1, f2))]
      ensures forall b :: 0 <= b < |table.model| && b != FIXED_COUNTERS_CTR_DATA ==> table.model[b] == old(table.model)[b]
    {
      PutEnables(table, FIXED_COUNTERS_CTR_DATA, perfGlobalCtrl[i].value, f0, f1, f2);
      PutCounters(table, FIXED_COUNTERS_CTR_DATA, fixedCtrCtrl[i].value, f0, f1, f2);
    }

    /** One turn of the loop of set_fixed_counter_ctrl. */
    method PutOne(i: nat, ghost controls: seq<Op>, ghost values: seq<Op>, ghost f0: Settings, ghost f1: Settings, ghost f2: Settings)
      requires Linked() && i < numDevs && f0 == ctr0.fields[..] && f1 == ctr1.fields[..] && f2 == ctr2.fields[..]
      requires |controls| == 2 * numDevs && ControlsDone(controls, table.model[FIXED_COUNTERS_CTR_DATA], numDevs, i, f0, f1, f2)
      requires |values| == 3 * numDevs && ValuesDone(values, table.model[FIXED_COUNTERS_DATA], numDevs, i)
      modifies table`model, table.repr
      ensures Linked()
      ensures ControlsDone(controls, table.model[FIXED_COUNTERS_CTR_DATA], numDevs, i + 1, f0, f1, f2)
      ensures ValuesDone(values, table.model[FIXED_COUNTERS_DATA], numDevs, i + 1)
    {
      ghost var now: seq<Op> := table.model[FIXED_COUNTERS_CTR_DATA];
      ghost var was: seq<Op> := table.model[FIXED_COUNTERS_DATA];
      ZeroValues(i);
      ValuesTurn(values, was, table.model[FIXED_COUNTERS_DATA], numDevs, i);
      PutSettings(i, ctr0.fields[i], ctr1.fields[i], ctr2.fields[i]);
      ControlsTurn(controls, now, table.model[FIXED_COUNTERS_CTR_DATA], numDevs, i, f0, f1, f2);
    }

    /** The loop of set_fixed_counter_ctrl. */
    method PutAll()
      requires Valid()
      modifies table`model, table.repr
      ensures Valid()
      ensures ControlsDone(old(table.model[FIXED_COUNTERS_CTR_DATA]), table.model[FIXED_COUNTERS_CTR_DATA], numDevs, numDevs,
                           ctr0.fields[..], ctr1.fields[..], ctr2.fields[..])
      ensures forall j :: 0 <= j < 3 * numDevs ==> table.model[FIXED_COUNTERS_DATA][j].data == Zero()
    {
      ghost var controls: seq<Op>, values: seq<Op> := table.model[FIXED_COUNTERS_CTR_DATA], table.model[FIXED_COUNTERS_DATA];
      ghost var f0, f1, f2 := ctr0.fields[..], ctr1.fields[..], ctr2.fields[..];
      var i := 0;
      while i < numDevs
        invariant 0 <= i <= numDevs
        invariant Linked() && |table.model| == |old(table.model)|
        invariant ControlsDone(controls, table.model[FIXED_COUNTERS_CTR_DATA], numDevs, i, f0, f1, f2)
        invariant ValuesDone(values, table.model[FIXED_COUNTERS_DATA], numDevs, i)
      {
        PutOne(i, controls, values, f0, f1, f2);
        i := i + 1;
      }
      DoneKeepsOps(controls, table.model[FIXED_COUNTERS_CTR_DATA], values, table.model[FIXED_COUNTERS_DATA], f0, f1, f2);
    }

    /** set_fixed_counter_ctrl */
    method SetFixedCounterCtrl()
      requires Valid()
      modifies device, table, table.repr
      ensures Valid()
      ensures SetTo(old(device.regs), device.regs, numDevs, ctr0.fields[..], ctr1.fields[..], ctr2.fields[..])
    {
      ReadControls();
      ghost var controls: seq<Op> := table.model[FIXED_COUNTERS_CTR_DATA];
      PutAll();
      WriteSettings(controls);
    }

    /** The two writes that end it. */
    method WriteSettings(ghost controls: seq<Op>)
      requires Valid() && ControlOps(controls, numDevs)
      requires ControlsDone(controls, table.model[FIXED_COUNTERS_CTR_DATA], numDevs, numDevs,
                            ctr0.fields[..], ctr1.fields[..], ctr2.fields[..])
      requires forall j :: 0 <= j < 2 * numDevs ==> controls[j].data == Lookup(device.regs, controls[j].Target())
      requires forall j :: 0 <= j < 3 * numDevs ==> table.model[FIXED_COUNTERS_DATA][j].data == Zero()
      modifies device, table, table.repr
      ensures Valid()
      ensures SetTo(old(device.regs), device.regs, numDevs, ctr0.fields[..], ctr1.fields[..], ctr2.fields[..])
    {
      ghost var s := device.regs;
      ghost var now: seq<Op>, zeros: seq<Op> := table.model[FIXED_COUNTERS_CTR_DATA], table.model[FIXED_COUNTERS_DATA];
      ghost var mid := WriteBoth();
      SetToHolds(s, mid, device.regs, controls, now, zeros, numDevs, ctr0.fields[..], ctr1.fields[..], ctr2.fields[..]);
    }

    lemma DoneKeepsOps(controls: seq<Op>, now: seq<Op>, values: seq<Op>, zeros: seq<Op>, f0: Settings, f1: Settings, f2: Settings)
      requires |f0| == |f1| == |f2| == numDevs && ControlOps(controls, numDevs) && ValueOps(values, numDevs)
      requires ControlsDone(controls, now, numDevs, numDevs, f0, f1, f2) && ValuesDone(values, zeros, numDevs, numDevs)
      ensures ControlOps(now, numDevs) && ValueOps(zeros, numDevs)
      ensures forall j :: 0 <= j < |zeros| ==> zeros[j].data == Zero()
    {
      UniformFlags(controls, now);
      SameControlOps(controls, now, numDevs);
      UniformFlags(values, zeros);
      SameValueOps(values, zeros, numDevs);
    }

    /** read_batch(FIXED_COUNTERS_CTR_DATA) */
    method ReadControls()
      requires Valid()
      modifies device, table, table.repr
      ensures Valid() && table.repr == old(table.repr) && device.regs == old(device.regs)
      ensures table.model[FIXED_COUNTERS_DATA] == old(table.model[FIXED_COUNTERS_DATA])
      ensures var ops := table.model[FIXED_COUNTERS_CTR_DATA];
        forall j :: 0 <= j < 2 * numDevs ==> ops[j].data == Lookup(device.regs, ops[j].Target())
    {
      ghost var st := State(device.regs, table.model[FIXED_COUNTERS_CTR_DATA]);
      var ret := device.DoBatchOp(table, FIXED_COUNTERS_CTR_DATA, BatchRead);
      ReadUniform(device.driver, st);
      SameControlOps(st.ops, table.model[FIXED_COUNTERS_CTR_DATA], numDevs);
    }

    /** write_batch of both batches; the registers in between are mid. */
    method WriteBoth() returns (ghost mid: Store)
      requires Valid()
      modifies device, table, table.repr
      ensures Valid()
      ensures Wrote(old(table.model[FIXED_COUNTERS_CTR_DATA]), old(device.regs), mid)
      ensures Wrote(old(table.model[FIXED_COUNTERS_DATA]), mid, device.regs)
    {
      WriteControls();
      mid := device.regs;
      WriteValues();
    }

    /** write_batch(FIXED_COUNTERS_CTR_DATA) */
    method WriteControls()
      requires Valid()
      modifies device, table, table.repr
      ensures Valid() && table.repr == old(table.repr)
      ensures table.model[FIXED_COUNTERS_DATA] == old(table.model[FIXED_COUNTERS_DATA])
      ensures Wrote(old(table.model[FIXED_COUNTERS_CTR_DATA]), old(device.regs), device.regs)
    {
      ghost var controls: seq<Op> := table.model[FIXED_COUNTERS_CTR_DATA];
      var ret := device.DoBatchOp(table, FIXED_COUNTERS_CTR_DATA, BatchWrite);
      ControlsConsistent(controls, numDevs);
      WriteBatch(device.driver, old(device.regs), controls);
      SameControlOps(controls, table.model[FIXED_COUNTERS_CTR_DATA], numDevs);
    }

    /** write_batch(FIXED_COUNTERS_DATA) */
    method WriteValues()
      requires Valid()
      modifies device, table, table.repr
      ensures Valid()
      ensures Wrote(old(table.model[FIXED_COUNTERS_DATA]), old(device.regs), device.regs)
    {
      ghost var values: seq<Op> := table.model[FIXED_COUNTERS_DATA];
      var ret := device.DoBatchOp(table, FIXED_COUNTERS_DATA, BatchWrite);
      ValuesConsistent(values, numDevs);
      WriteBatch(device.driver, old(device.regs), values);
      SameValueOps(values, table.model[FIXED_COUNTERS_DATA], numDevs);
    }

    /** get_fixed_ctr_ctrl, for any of the three counters the caller wants. */
    method GetFixedCtrCtrl(f0: array?<Fields>, f1: array?<Fields>, f2: array?<Fields>)
      requires Valid()
      requires forall f :: f in {f0, f1, f2} && f != null ==> f.Length == numDevs
      requires (f0 != null ==> f0 != f1 && f0 != f2) && (f1 != null ==> f1 != f2)
      modifies device, table, table.repr, f0, f1, f2
      ensures Valid() && device.regs == old(device.regs)
      ensures Fetched(f0, 0, numDevs, device.regs) && Fetched(f1, 1, numDevs, device.regs) && Fetched(f2, 2, numDevs, device.regs)
    {
      ReadControls();
      FetchAll(f0, f1, f2);
    }

    /** The loop of get_fixed_ctr_ctrl. */
    method FetchAll(f0: array?<Fields>, f1: array?<Fields>, f2: array?<Fields>)
      requires Linked() && CellsHoldRegisters()
      requires forall f :: f in {f0, f1, f2} && f != null ==> f.Length == numDevs
      requires (f0 != null ==> f0 != f1 && f0 != f2) && (f1 != null ==> f1 != f2)
      modifies f0, f1, f2
      ensures Fetched(f0, 0, numDevs, device.regs) && Fetched(f1, 1, numDevs, device.regs) && Fetched(f2, 2, numDevs, device.regs)
    {
      var i := 0;
      while i < numDevs
        invariant 0 <= i <= numDevs
        invariant Fetched(f0, 0, i, device.regs) && Fetched(f1, 1, i, device.regs) && Fetched(f2, 2, i, device.regs)
      {
        var global, control := ReadCells(i);
        Fetch(f0, 0, i, global, control, device.regs);
        Fetch(f1, 1, i, global, control, device.regs);
        Fetch(f2, 2, i, global, control, device.regs);
        i := i + 1;
      }
    }

    /** Every control cell has the value of its register. */
    ghost predicate CellsHoldRegisters()
      requires Linked()
      reads device, table, table.repr, perfGlobalCtrl, fixedCtrCtrl, ctr0.value, ctr1.value, ctr2.value
    {
      && ControlOps(table.model[FIXED_COUNTERS_CTR_DATA], numDevs)
      && forall j :: 0 <= j < 2 * numDevs ==>
           table.model[FIXED_COUNTERS_CTR_DATA][j].data == Lookup(device.regs, table.model[FIXED_COUNTERS_CTR_DATA][j].Target())
    }

    /** *perf_global_ctrl[i] and *fixed_ctr_ctrl[i] */
    method ReadCells(i: nat) returns (global: Word, control: Word)
      requires Linked() && CellsHoldRegisters() && i < numDevs
      ensures global == Lookup(device.regs, Reg(i, IA32_PERF_GLOBAL_CTRL))
      ensures control == Lookup(device.regs, Reg(i, IA32_FIXED_CTR_CTRL))
    {
      var p, q := perfGlobalCtrl[i].value, fixedCtrCtrl[i].value;
      global, control := p.ops[p.index].data, q.ops[q.index].data;
      ghost var ops: seq<Op> := table.model[FIXED_COUNTERS_CTR_DATA];
      assert p.ops[..2 * numDevs] == ops;
      assert ops[i] == p.ops[i] && ops[numDevs + i] == q.ops[numDevs + i];
    }

    /** enable_fixed_counters and disable_fixed_counters, which differ in the enable bit. */
    method Switch(on: bool)
      requires Valid()
      modifies device, table, table.repr, ctr0.fields, ctr1.fields, ctr2.fields
      ensures Valid()
      ensures forall i :: 0 <= i < numDevs ==>
        SwitchedTo(Lookup(device.regs, Reg(i, IA32_PERF_GLOBAL_CTRL)), Lookup(device.regs, Reg(i, IA32_FIXED_CTR_CTRL)), on)
      ensures Zeroed(device.regs, numDevs) && Kept(old(device.regs), device.regs, numDevs)
    {
      FillSettings(Switched(on));
      SetFixedCounterCtrl();
      SwitchedInRange(on);
      ghost var f0, f1, f2 := ctr0.fields[..], ctr1.fields[..], ctr2.fields[..];
      FillFound(old(device.regs), device.regs, numDevs, Switched(on), f0, f1, f2);
      SwitchSets(old(device.regs), device.regs, numDevs, on, f0, f1, f2);
    }

    /** The same settings for every CPU and counter. */
    method FillSettings(f: Fields)
      requires Separate()
      modifies ctr0.fields, ctr1.fields, ctr2.fields
      ensures Everywhere(f, ctr0.fields[..]) && Everywhere(f, ctr1.fields[..]) && Everywhere(f, ctr2.fields[..])
    {
      var i := 0;
      while i < numDevs
        invariant 0 <= i <= numDevs
        invariant forall j :: 0 <= j < i ==> ctr0.fields[j] == ctr1.fields[j] == ctr2.fields[j] == f
      {
        ctr0.fields[i] := f;
        ctr1.fields[i] := f;
        ctr2.fields[i] := f;
        i := i + 1;
      }
    }
  }

  /** The settings of counter k are those in the registers, for CPUs 0..i. */
  ghost predicate Fetched(f: array?<Fields>, k: nat, i: nat, s: Store)
    requires k < 3
    reads f
  {
    f != null ==> i <= f.Length && forall j :: 0 <= j < i ==> f[j] == FoundOn(s, j, k)
  }

  /** One counter of one CPU, if the caller wants it. */
  method Fetch(f: array?<Fields>, k: nat, i: nat, global: Word, control: Word, ghost s: Store)
    requires k < 3 && Fetched(f, k, i, s) && (f != null ==> i < f.Length)
    requires global == Lookup(s, Reg(i, IA32_PERF_GLOBAL_CTRL)) && control == Lookup(s, Reg(i, IA32_FIXED_CTR_CTRL))
    modifies f
    ensures Fetched(f, k, i + 1, s)
  {
    if f != null {
      f[i] := Found(global, control, k);
    }
  }

  ghost predicate Everywhere(f: Fields, all: Settings) {
    forall i :: 0 <= i < |all| ==> all[i] == f
  }

  /** The same settings for every CPU and counter are found everywhere. */
  lemma FillFound(before: Store, after: Store, n: nat, f: Fields, f0: Settings, f1: Settings, f2: Settings)
    requires |f0| == |f1| == |f2| == n && SetTo(before, after, n, f0, f1, f2)
    requires InRange(f) && Everywhere(f, f0) && Everywhere(f, f1) && Everywhere(f, f2)
    ensures forall i, k :: 0 <= i < n && 0 <= k < 3 ==> FoundOn(after, i, k) == f
    ensures Kept(before, after, n)
  {
    RoundTrip(before, after, n, f0, f1, f2);
    OtherBitsKept(before, after, n, f0, f1, f2);
    forall i, k | 0 <= i < n && 0 <= k < 3
      ensures FoundOn(after, i, k) == f
    {
      assert k == 0 || k == 1 || k == 2;
    }
  }

  /** The settings of a counter that is switched on or off: user and system rings, any thread, no
      interrupt. */
  function Switched(on: bool): Fields {
    Fields(WordOf(if on then 1 else 0), WordOf(3), WordOf(1), WordOf(0))
  }

  /** The three enable bits are `on`; each counter counts in both rings (two bits) and for any thread, and raises
      no interrupt. */
  predicate SwitchedTo(global: Word, control: Word, on: bool) {
    && global[32] == on && global[33] == on && global[34] == on
    && control[0] && control[1] && control[2] && !control[3]
    && control[4] && control[5] && control[6] && !control[7]
    && control[8] && control[9] && control[10] && !control[11]
  }

  lemma SwitchedBits(on: bool)
    ensures var f := Switched(on);
      f.enable[0] == on && f.ringLevel[0] && f.ringLevel[1] && f.anyThread[0] && !f.pmi[0]
  {
    assert WordOf(3) == [true] + BitsOf(1, 63);
    assert BitsOf(1, 63)[0];
  }

  lemma SwitchSets(before: Store, after: Store, n: nat, on: bool, f0: Settings, f1: Settings, f2: Settings)
    requires |f0| == |f1| == |f2| == n && SetTo(before, after, n, f0, f1, f2)
    requires Everywhere(Switched(on), f0) && Everywhere(Switched(on), f1) && Everywhere(Switched(on), f2)
    ensures forall i :: 0 <= i < n ==>
      SwitchedTo(Lookup(after, Reg(i, IA32_PERF_GLOBAL_CTRL)), Lookup(after, Reg(i, IA32_FIXED_CTR_CTRL)), on)
  {
    SwitchedInRange(on);
    forall i | 0 <= i < n
      ensures SwitchedTo(Lookup(after, Reg(i, IA32_PERF_GLOBAL_CTRL)), Lookup(after, Reg(i, IA32_FIXED_CTR_CTRL)), on)
    {
      SwitchesWord(Lookup(before, Reg(i, IA32_PERF_GLOBAL_CTRL)), Lookup(before, Reg(i, IA32_FIXED_CTR_CTRL)), on);
    }
  }

  lemma SwitchesWord(g: Word, c: Word, on: bool)
    ensures var f := Switched(on); SwitchedTo(GlobalWord(g, f, f, f), ControlWord(c, f, f, f), on)
  {
    var f := Switched(on);
    SwitchedInRange(on);
    SwitchedBits(on);
    GlobalFrame(g, f, f, f);
    ControlFrame(c, f, f, f);
  }

  lemma SwitchedInRange(on: bool)
    ensures InRange(Switched(on))
  {
    NarrowNumber(if on then 1 else 0, 1);
    NarrowNumber(3, 2);
    NarrowNumber(1, 1);
    NarrowNumber(0, 1);
  }

  lemma NarrowNumber(n: nat, width: nat)
    requires width <= 64 && n < Pow2(width)
    ensures Narrow(WordOf(n), width)
  {
    forall i | width <= i < 64
      ensures !WordOf(n)[i]
    {
      HighBitsClear(n, width, 64, i);
    }
  }

  ghost predicate AllInRange(f: Settings) {
    forall i :: 0 <= i < |f| ==> InRange(f[i])
  }

  ghost predicate FoundAll(s: Store, k: nat, f: Settings)
    requires k < 3
  {
    forall i :: 0 <= i < |f| ==> FoundOn(s, i, k) == f[i]
  }

  /** What was set for every CPU and counter is what is found afterwards, exactly when every setting is in
      range. */
  lemma RoundTrip(before: Store, after: Store, n: nat, f0: Settings, f1: Settings, f2: Settings)
    requires |f0| == |f1| == |f2| == n && SetTo(before, after, n, f0, f1, f2)
    ensures (FoundAll(after, 0, f0) && FoundAll(after, 1, f1) && FoundAll(after, 2, f2))
      <==> (AllInRange(f0) && AllInRange(f1) && AllInRange(f2))
  {
    forall i | 0 <= i < n
      ensures (FoundOn(after, i, 0) == f0[i] && FoundOn(after, i, 1) == f1[i] && FoundOn(after, i, 2) == f2[i])
        <==> (InRange(f0[i]) && InRange(f1[i]) && InRange(f2[i]))
    {
      SetThenGet(Lookup(before, Reg(i, IA32_PERF_GLOBAL_CTRL)), Lookup(before, Reg(i, IA32_FIXED_CTR_CTRL)), f0[i], f1[i], f2[i]);
    }
  }

  /** The bits of both control registers that belong to no fixed counter. */
  ghost predicate Kept(before: Store, after: Store, n: nat) {
    && (forall i, j :: 0 <= i < n && 0 <= j < 64 && !(32 <= j <= 34) ==>
          Lookup(after, Reg(i, IA32_PERF_GLOBAL_CTRL))[j] == Lookup(before, Reg(i, IA32_PERF_GLOBAL_CTRL))[j])
    && (forall i, j :: 0 <= i < n && 12 <= j < 64 ==>
          Lookup(after, Reg(i, IA32_FIXED_CTR_CTRL))[j] == Lookup(before, Reg(i, IA32_FIXED_CTR_CTRL))[j])
    && forall q: Reg :: q.cpu >= n || !IsFixed(q.msr) ==> Lookup(after, q) == Lookup(before, q)
  }

  lemma OtherBitsKept(before: Store, after: Store, n: nat, f0: Settings, f1: Settings, f2: Settings)
    requires |f0| == |f1| == |f2| == n && SetTo(before, after, n, f0, f1, f2)
    requires AllInRange(f0) && AllInRange(f1) && AllInRange(f2)
    ensures Kept(before, after, n)
  {
    forall i | 0 <= i < n
      ensures forall j :: 0 <= j < 64 && !(32 <= j <= 34) ==>
        Lookup(after, Reg(i, IA32_PERF_GLOBAL_CTRL))[j] == Lookup(before, Reg(i, IA32_PERF_GLOBAL_CTRL))[j]
      ensures forall j :: 12 <= j < 64 ==>
        Lookup(after, Reg(i, IA32_FIXED_CTR_CTRL))[j] == Lookup(before, Reg(i, IA32_FIXED_CTR_CTRL))[j]
    {
      GlobalFrame(Lookup(before, Reg(i, IA32_PERF_GLOBAL_CTRL)), f0[i], f1[i], f2[i]);
      ControlFrame(Lookup(before, Reg(i, IA32_FIXED_CTR_CTRL)), f0[i], f1[i], f2[i]);
    }
  }
}
