/** Batches of register operations as src/msr_core.c runs them: do_batch_op on the cells in place, by
    the batch driver or by the fallback, and the loops that fill a batch with one operation a socket,
    a core or a CPU. */
module MsrBatch {
  import opened Arithmetic
  import opened Words
  import opened BatchOps
  import opened BatchTables
  import opened Topology

  type MsrTable = BatchTable<Op>

  /** The pointers a loading loop fills in, one a socket, a core or a CPU. */
  type Cells = array<Option<Dest<Op>>>

  /** The registers of the machine, and whether the batch driver could be opened. */
  class MsrDevice {
    var regs: Store
    const driver: bool

    constructor (driver: bool, regs: Store)
      ensures this.driver == driver && this.regs == regs
    {
      this.driver, this.regs := driver, regs;
    }

    /** One access to a register, for operation i: a read fills its cell, a write takes it. */
    method Access(ops: array<Op>, i: nat, read: bool)
      requires i < ops.Length
      modifies this, ops
      ensures forall k :: 0 <= k < ops.Length && k != i ==> ops[k] == old(ops[k])
      ensures var op := old(ops[i]);
        if read then regs == old(regs) && ops[i] == op.WithData(Lookup(regs, op.Target()))
        else regs == old(regs)[op.Target() := op.data] && ops[i] == op
    {
      var op := ops[i];
      if read {
        ops[i] := op.WithData(Lookup(regs, op.Target()));
      } else {
        regs := regs[op.Target() := op.data];
      }
    }

    /** Operation i, executed after those in front of it. */
    method Next(ops: array<Op>, i: nat, read: bool, ghost done: State)
      requires i < ops.Length && State(regs, ops[..i]) == done
      modifies this, ops
      ensures ops[i + 1..] == old(ops[i + 1..])
      ensures var op := old(ops[i]);
        State(regs, ops[..i + 1]) ==
          if read then State(done.store, done.ops + [op.WithData(Lookup(done.store, op.Target()))])
          else State(done.store[op.Target() := op.data], done.ops + [op])
    {
      Access(ops, i, read);
      assert ops[..i] == done.ops;
      assert ops[..i + 1] == ops[..i] + [ops[i]];
    }

    /** The batch driver: executes the first n operations of the array in order. */
    method IoctlBatch(ops: array<Op>, n: nat)
      requires n <= ops.Length
      modifies this, ops
      ensures ops[n..] == old(ops[n..])
      ensures State(regs, ops[..n]) == Driver(old(regs), old(ops[..n]))
    {
      ghost var s, input := regs, ops[..];
      assert ops[..0] == input[..0] == [];
      var i := 0;
      while i < n
        invariant 0 <= i <= n && |input| == ops.Length
        invariant ops[i..] == input[i..] && State(regs, ops[..i]) == Driver(s, input[..i])
      {
        SameNext(ops[i..], input, i);
        DriverSnoc(s, input[..i], input[i]);
        Next(ops, i, ops[i].isRead, Driver(s, input[..i]));
        i := i + 1;
      }
    }

    /** compatibility_batch: one register access an operation, all of the same kind. */
    method CompatibilityBatch(ops: array<Op>, n: nat, kind: Kind)
      requires n <= ops.Length
      modifies this, ops
      ensures ops[n..] == old(ops[n..])
      ensures State(regs, ops[..n]) == FallbackLoop(kind, old(regs), old(ops[..n]))
    {
      ghost var s, input := regs, ops[..];
      assert ops[..0] == input[..0] == [];
      var i := 0;
      while i < n
        invariant 0 <= i <= n && |input| == ops.Length
        invariant ops[i..] == input[i..] && State(regs, ops[..i]) == FallbackLoop(kind, s, input[..i])
      {
        SameNext(ops[i..], input, i);
        FallbackSnoc(kind, s, input[..i], input[i]);
        Next(ops, i, kind.BatchRead?, FallbackLoop(kind, s, input[..i]));
        i := i + 1;
      }
    }

    /** The switching loop of do_batch_op. */
    method SwitchFlags(ops: array<Op>, n: nat, kind: Kind)
      requires 0 < n <= ops.Length
      modifies ops
      ensures ops[n..] == old(ops[n..])
      ensures ops[..n] == Issued(kind, old(ops[..n]))
    {
      if (kind.BatchWrite? && ops[0].isRead) || (kind.BatchRead? && !ops[0].isRead) {
        var j := 0;
        while j < n
          invariant 0 <= j <= n
          invariant ops[j..] == old(ops[j..])
          invariant forall k :: 0 <= k < j ==> ops[k] == old(ops[k]).WithFlag(kind.BatchRead?)
        {
          assert ops[j] == old(ops[j..])[0];
          ops[j] := ops[j].WithFlag(kind.BatchRead?);
          j := j + 1;
        }
      }
    }

    /** What do_batch_op does to the operations of a batch. */
    method Carry(ops: array<Op>, n: nat, kind: Kind) returns (ret: int)
      requires n <= ops.Length
      modifies this, ops
      ensures ops[n..] == old(ops[n..])
      ensures State(regs, ops[..n]) == Step(driver, State(old(regs), old(ops[..n])), Do(kind))
      ensures ret == if driver && n == 0 then -1 else 0
    {
      if !driver {
        CompatibilityBatch(ops, n, kind);
        return 0;
      }
      if n <= 0 {
        return -1;
      }
      SwitchFlags(ops, n, kind);
      IoctlBatch(ops, n);
      return 0;
    }

    /** do_batch_op on an allocated batch. */
    method DoBatchOp(table: MsrTable, batchnum: nat, kind: Kind) returns (ret: int)
      requires table.Valid() && table.Allocated(batchnum)
      modifies this, table, table.repr
      ensures table.Valid() && table.repr == old(table.repr) && table.size == old(table.size)
      ensures table.batch == old(table.batch) && table.handed == old(table.handed)
      ensures var st := Step(driver, State(old(regs), old(table.model[batchnum])), Do(kind));
        regs == st.store && table.model == old(table.model)[batchnum := st.ops]
      ensures ret == if driver && old(table.model[batchnum]) == [] then -1 else 0
    {
      table.BatchStorage(batchnum);
      assert table.batch == old(table.batch) && table.size == old(table.size) && table.model == old(table.model);
      var ops, n := table.batch[batchnum].ops, table.batch[batchnum].numops;
      assert ops[..n] == table.model[batchnum];
      ret := Carry(ops, n, kind);
      table.model := table.model[batchnum := ops[..n]];
    }
  }

  lemma SameNext(rest: seq<Op>, input: seq<Op>, i: nat)
    requires i < |input| && rest == input[i..]
    ensures rest[0] == input[i] && rest[1..] == input[i + 1..] && input[..i + 1] == input[..i] + [input[i]]
  {
  }

  // ----- cells

  /** Cell i of batch b holds v. */
  function Stored(m: seq<seq<Op>>, b: nat, i: nat, v: Word): seq<seq<Op>>
    requires b < |m| && i < |m[b]|
  {
    m[b := m[b][i := m[b][i].WithData(v)]]
  }

  lemma StoredTwice(m: seq<seq<Op>>, b: nat, i: nat, v: Word, w: Word)
    requires b < |m| && i < |m[b]|
    ensures Stored(Stored(m, b, i, v), b, i, w) == Stored(m, b, i, w)
  {
    assert m[b][i := m[b][i].WithData(v)][i := m[b][i].WithData(w)] == m[b][i := m[b][i].WithData(w)];
  }

  /** *dest = v, for a pointer to a cell of the batch. */
  method StoreCell(table: MsrTable, batchnum: nat, dest: Dest<Op>, v: Word)
    requires table.Valid() && table.Allocated(batchnum)
    requires dest.ops == table.batch[batchnum].ops && dest.index < |table.model[batchnum]|
    modifies table`model, table.repr
    ensures table.Valid() && table.model == Stored(old(table.model), batchnum, dest.index, v)
  {
    ghost var ops, n := table.model[batchnum], |table.model[batchnum]|;
    assert dest.ops[..n] == ops;
    dest.ops[dest.index] := dest.ops[dest.index].WithData(v);
    assert dest.ops[..n] == ops[dest.index := ops[dest.index].WithData(v)];
    table.model := Stored(table.model, batchnum, dest.index, v);
  }

  // ----- filling a batch

  /** The operations appended for CPUs 0..n of a list. */
  function OpsFor(msr: nat, cpus: seq<nat>): (s: seq<Op>)
    ensures |s| == |cpus|
    ensures forall i :: 0 <= i < |cpus| ==> s[i] == NewOp(cpus[i], msr)
    decreases |cpus|
  {
    if cpus == [] then [] else OpsFor(msr, cpus[..|cpus| - 1]) + [NewOp(cpus[|cpus| - 1], msr)]
  }

  /** The CPUs of core 0, thread 0 of each socket. */
  function SocketCpus(t: Topo, discontinuous: bool): seq<nat> {
    seq(t.sockets, s requires s >= 0 => DevIdx(t, discontinuous, Coord(s, 0, 0)))
  }

  /** The CPUs of thread 0 of each core, in logical order. */
  function CoreCpus(t: Topo, discontinuous: bool): seq<nat>
    requires t.Positive()
  {
    seq(t.NumCores(), k requires k >= 0 => DevIdx(t, discontinuous, Coord(k / t.cores, k % t.cores, 0)))
  }

  /** The inner loop of load_socket_batch: the least CPU of a socket is its core 0, thread 0. */
  method LeastOnSocket(top: TopoList, t: Topo, socket: nat) returns (cpu: nat)
    requires t.Positive() && top.Agrees(t) && socket < t.sockets
    ensures cpu == DevIdx(t, top.discontinuous, Coord(socket, 0, 0))
  {
    ghost var p := Coord(socket, 0, 0);
    assert top.AgreesAt(t, p);
    cpu := 0;
    while top.threadMap[cpu].socketId != socket
      invariant cpu <= DevIdx(t, top.discontinuous, p) < top.threadMap.Length
      decreases top.threadMap.Length - cpu
    {
      cpu := cpu + 1;
    }
    CoordOfNumber(t, top.discontinuous, cpu);
    ghost var q := CoordOf(t, top.discontinuous, cpu);
    assert top.AgreesAt(t, q);
    LeastOfSocket(t, top.discontinuous, q);
  }

  /** The inner loop of load_core_batch: the least CPU of a core is its thread 0. */
  method LeastOnCore(top: TopoList, t: Topo, core: nat) returns (cpu: nat)
    requires t.Positive() && top.Agrees(t) && core < t.NumCores()
    ensures cpu == DevIdx(t, top.discontinuous, Coord(core / t.cores, core % t.cores, 0))
  {
    ghost var p := Coord(core / t.cores, core % t.cores, 0);
    JoinDigits(core, t.sockets, t.cores);
    assert top.AgreesAt(t, p);
    cpu := 0;
    while top.threadMap[cpu].coreId != core
      invariant cpu <= DevIdx(t, top.discontinuous, p) < top.threadMap.Length
      decreases top.threadMap.Length - cpu
    {
      cpu := cpu + 1;
    }
    CoordOfNumber(t, top.discontinuous, cpu);
    ghost var q := CoordOf(t, top.discontinuous, cpu);
    assert top.AgreesAt(t, q);
    LogicalCoreUnique(t, p, q);
    LeastOfCore(t, top.discontinuous, q);
  }

  /** The first n CPUs of the list have their operations in the batch, after what was there before, and
      val points to their cells. */
  ghost predicate Loaded(table: MsrTable, batchnum: nat, val: Cells, before: seq<seq<Op>>,
                         msr: nat, cpus: seq<nat>, n: nat)
    reads table, table.repr, val
  {
    && table.Valid() && table.Allocated(batchnum) && n <= |cpus| == val.Length && batchnum < |before|
    && table.model == before[batchnum := before[batchnum] + OpsFor(msr, cpus[..n])]
    && forall i :: 0 <= i < n ==> val[i] == Some(Dest(table.batch[batchnum].ops, |before[batchnum]| + i))
  }

  /** One turn of a loading loop. */
  method LoadNext(table: MsrTable, batchnum: nat, val: Cells, ghost before: seq<seq<Op>>,
                  msr: nat, ghost cpus: seq<nat>, n: nat, cpu: nat)
    requires Loaded(table, batchnum, val, before, msr, cpus, n)
    requires n < |cpus| && cpu == cpus[n] && |before[batchnum]| + n < table.size[batchnum]
    modifies table, table.repr, val
    ensures Loaded(table, batchnum, val, before, msr, cpus, n + 1)
    ensures Unmoved(table.batch, old(table.batch)) && table.size == old(table.size) && table.repr == old(table.repr)
  {
    var outcome, dest := table.CreateOp(NewOp(cpu, msr), batchnum);
    val[n] := dest;
    OpsForNext(before, batchnum, msr, cpus, n);
  }

  lemma OpsForNext(before: seq<seq<Op>>, b: nat, msr: nat, cpus: seq<nat>, n: nat)
    requires b < |before| && n < |cpus|
    ensures before[b := before[b] + OpsFor(msr, cpus[..n]) + [NewOp(cpus[n], msr)]]
         == before[b := before[b] + OpsFor(msr, cpus[..n + 1])]
    ensures before == before[b := before[b] + OpsFor(msr, cpus[..0])]
  {
    assert cpus[..n + 1][..n] == cpus[..n];
    assert before[b] + OpsFor(msr, cpus[..n]) + [NewOp(cpus[n], msr)] == before[b] + OpsFor(msr, cpus[..n + 1]);
    assert before[b] + [] == before[b];
  }

  /** The memory of every batch is where it was. */
  ghost predicate Unmoved(now: seq<BatchArray<Op>>, before: seq<BatchArray<Op>>) {
    |now| == |before| && forall b :: 0 <= b < |now| ==> now[b].ops == before[b].ops
  }

  /** load_socket_batch */
  method LoadSocketBatch(top: TopoList, t: Topo, msr: nat, val: Cells, table: MsrTable, batchnum: nat)
    requires t.Positive() && top.Agrees(t) && val.Length == t.sockets
    requires table.Valid() && table.Allocated(batchnum)
    requires |table.model[batchnum]| + t.sockets <= table.size[batchnum]
    modifies table, table.repr, val
    ensures Loaded(table, batchnum, val, old(table.model), msr, SocketCpus(t, top.discontinuous), t.sockets)
    ensures Unmoved(table.batch, old(table.batch)) && table.size == old(table.size) && table.repr == old(table.repr)
  {
    ghost var cpus := SocketCpus(t, top.discontinuous);
    var i := 0;
    OpsForNext(table.model, batchnum, msr, cpus, 0);
    while i < t.sockets
      invariant 0 <= i <= t.sockets
      invariant top.Agrees(t) && cpus == SocketCpus(t, top.discontinuous)
      invariant Loaded(table, batchnum, val, old(table.model), msr, cpus, i)
      invariant Unmoved(table.batch, old(table.batch)) && table.size == old(table.size) && table.repr == old(table.repr)
    {
      var cpu := LeastOnSocket(top, t, i);
      LoadNext(table, batchnum, val, old(table.model), msr, cpus, i, cpu);
      i := i + 1;
    }
  }

  /** load_core_batch */
  method LoadCoreBatch(top: TopoList, t: Topo, msr: nat, val: Cells, table: MsrTable, batchnum: nat)
    requires t.Positive() && top.Agrees(t) && val.Length == t.NumCores()
    requires table.Valid() && table.Allocated(batchnum)
    requires |table.model[batchnum]| + t.NumCores() <= table.size[batchnum]
    modifies table, table.repr, val
    ensures Loaded(table, batchnum, val, old(table.model), msr, CoreCpus(t, top.discontinuous), t.NumCores())
    ensures Unmoved(table.batch, old(table.batch)) && table.size == old(table.size) && table.repr == old(table.repr)
  {
    ghost var cpus := CoreCpus(t, top.discontinuous);
    Product(t.sockets, t.cores);
    var i := 0;
    OpsForNext(table.model, batchnum, msr, cpus, 0);
    while i < t.NumCores()
      invariant 0 <= i <= t.NumCores()
      invariant top.Agrees(t) && cpus == CoreCpus(t, top.discontinuous)
      invariant Loaded(table, batchnum, val, old(table.model), msr, cpus, i)
      invariant Unmoved(table.batch, old(table.batch)) && table.size == old(table.size) && table.repr == old(table.repr)
    {
      var cpu := LeastOnCore(top, t, i);
      LoadNext(table, batchnum, val, old(table.model), msr, cpus, i, cpu);
      i := i + 1;
    }
  }

  /** load_thread_batch */
  method LoadThreadBatch(numDevs: nat, msr: nat, val: Cells, table: MsrTable, batchnum: nat)
    requires val.Length == numDevs
    requires table.Valid() && table.Allocated(batchnum)
    requires |table.model[batchnum]| + numDevs <= table.size[batchnum]
    modifies table, table.repr, val
    ensures Loaded(table, batchnum, val, old(table.model), msr, ThreadCpus(numDevs), numDevs)
    ensures Unmoved(table.batch, old(table.batch)) && table.size == old(table.size) && table.repr == old(table.repr)
  {
    var i := 0;
    assert table.model[batchnum] + [] == table.model[batchnum];
    while i < numDevs
      invariant 0 <= i <= numDevs
      invariant Loaded(table, batchnum, val, old(table.model), msr, ThreadCpus(numDevs), i)
      invariant Unmoved(table.batch, old(table.batch)) && table.size == old(table.size) && table.repr == old(table.repr)
    {
      LoadNext(table, batchnum, val, old(table.model), msr, ThreadCpus(numDevs), i, i);
      i := i + 1;
    }
  }

  function ThreadCpus(numDevs: nat): seq<nat> {
    seq(numDevs, d requires d >= 0 => d)
  }

  // ----- batched and by-coordinate access

  /** Every number in the list fits the sixteen bits an operation has for its CPU. */
  predicate AllFit(cpus: seq<nat>) {
    forall i :: 0 <= i < |cpus| ==> cpus[i] < 0x1_0000
  }

  /** The operations of a list of CPUs name the registers of those CPUs if and only if their numbers fit. */
  lemma TargetsExactly(msr: nat, cpus: seq<nat>)
    ensures (forall i :: 0 <= i < |cpus| ==> OpsFor(msr, cpus)[i].Target() == Reg(cpus[i], msr)) <==> AllFit(cpus)
  {
    forall i | 0 <= i < |cpus|
      ensures OpsFor(msr, cpus)[i].Target() == Reg(cpus[i], msr) <==> cpus[i] < 0x1_0000
    {
    }
  }

  /** The register a program addresses by coordinates. */
  function ByCoord(t: Topo, discontinuous: bool, p: Coord, msr: nat): Reg {
    Reg(DevIdx(t, discontinuous, p), msr)
  }

  /** The operations name these registers, in order. */
  predicate Names(ops: seq<Op>, regs: seq<Reg>) {
    |ops| == |regs| && forall i :: 0 <= i < |ops| ==> ops[i].Target() == regs[i]
  }

  /** A register of every socket, by coordinates. */
  function SocketRegs(t: Topo, discontinuous: bool, msr: nat): seq<Reg> {
    seq(t.sockets, s requires s >= 0 => ByCoord(t, discontinuous, Coord(s, 0, 0), msr))
  }

  /** A register of every core, by coordinates. */
  function CoreRegs(t: Topo, discontinuous: bool, msr: nat): seq<Reg>
    requires t.Positive()
  {
    seq(t.NumCores(), k requires k >= 0 => ByCoord(t, discontinuous, Coord(k / t.cores, k % t.cores, 0), msr))
  }

  /** load_socket_batch and access by coordinates name the same register for every socket if and only if the
      first CPUs of the sockets fit sixteen bits. */
  lemma SocketTargetsExactly(t: Topo, discontinuous: bool, msr: nat)
    ensures Names(OpsFor(msr, SocketCpus(t, discontinuous)), SocketRegs(t, discontinuous, msr))
      <==> AllFit(SocketCpus(t, discontinuous))
  {
    TargetsExactly(msr, SocketCpus(t, discontinuous));
  }

  /** The same for the cores. */
  lemma CoreTargetsExactly(t: Topo, discontinuous: bool, msr: nat)
    requires t.Positive()
    ensures Names(OpsFor(msr, CoreCpus(t, discontinuous)), CoreRegs(t, discontinuous, msr))
      <==> AllFit(CoreCpus(t, discontinuous))
  {
    var cpus := CoreCpus(t, discontinuous);
    TargetsExactly(msr, cpus);
    assert forall k :: 0 <= k < |cpus| ==> CoreRegs(t, discontinuous, msr)[k] == Reg(cpus[k], msr);
  }

  /** A machine of at most 65536 CPUs always fits. */
  lemma SmallMachineFits(t: Topo, discontinuous: bool)
    requires t.Positive() && t.NumDevs() <= 0x1_0000
    ensures AllFit(SocketCpus(t, discontinuous)) && AllFit(CoreCpus(t, discontinuous))
  {
    forall s | 0 <= s < t.sockets
      ensures SocketCpus(t, discontinuous)[s] < 0x1_0000
    {
      NumberOfCoord(t, discontinuous, Coord(s, 0, 0));
    }
    forall k | 0 <= k < t.NumCores()
      ensures CoreCpus(t, discontinuous)[k] < 0x1_0000
    {
      JoinDigits(k, t.sockets, t.cores);
      NumberOfCoord(t, discontinuous, Coord(k / t.cores, k % t.cores, 0));
    }
  }

  /** A batch that holds the operations of a list of CPUs is read: val leads to what the registers hold. */
  method ReadLoaded(dev: MsrDevice, table: MsrTable, batchnum: nat, val: Cells, msr: nat, ghost cpus: seq<nat>)
    requires table.Valid() && table.Allocated(batchnum) && table.model[batchnum] == OpsFor(msr, cpus) && val.Length == |cpus|
    requires forall i :: 0 <= i < |cpus| ==> val[i] == Some(Dest(table.batch[batchnum].ops, i))
    modifies dev, table, table.repr
    ensures table.Valid() && table.repr == old(table.repr) && dev.regs == old(dev.regs)
    ensures forall i :: 0 <= i < |cpus| ==> Shows(val[i], Lookup(dev.regs, OpsFor(msr, cpus)[i].Target()))
  {
    ghost var st := State(dev.regs, table.model[batchnum]);
    assert AllFlags(st.ops, true);
    ReadUniform(dev.driver, st);
    var ret := dev.DoBatchOp(table, batchnum, BatchRead);
    ghost var cells: seq<Op> := table.model[batchnum];
    assert table.batch[batchnum].ops[..|cpus|] == cells;
    forall i | 0 <= i < |cpus|
      ensures Shows(val[i], Lookup(dev.regs, OpsFor(msr, cpus)[i].Target()))
    {
      assert table.batch[batchnum].ops[i] == cells[i];
    }
  }

  /** The pointer leads to a cell with the value v. */
  ghost predicate Shows(dest: Option<Dest<Op>>, v: Word)
    reads if dest.Some? then {dest.value.ops} else {}
  {
    dest.Some? && dest.value.index < dest.value.ops.Length && dest.value.ops[dest.value.index].data == v
  }
}
