/** The batch of RAPL registers (src/msr_rapl.c): the size rapl_data_batch_size asks for against the
    operations create_rapl_data_batch appends. */
module RaplBatch {
  import opened Arithmetic
  import opened Words
  import opened BatchOps
  import opened BatchTables
  import opened Topology
  import opened MsrBatch

  // The bits of the flag word, and the registers they stand for.
  const PKG_ENERGY := 2
  const PKG_PERF := 3
  const DRAM_ENERGY := 6
  const DRAM_PERF := 7
  const MSR_PKG_ENERGY_STATUS := 0x611
  const MSR_PKG_PERF_STATUS := 0x613
  const MSR_DRAM_ENERGY_STATUS := 0x619
  const MSR_DRAM_PERF_STATUS := 0x61B
  const RAPL_DATA := 0

  function One(flag: bool): nat {
    if flag then 1 else 0
  }

  /** rapl_data_batch_size: PKG_ENERGY_STATUS is tested twice, DRAM_PERF_STATUS never. */
  function BatchSize(flags: Word): nat {
    One(flags[PKG_PERF]) + One(flags[PKG_ENERGY]) + One(flags[DRAM_ENERGY]) + One(flags[PKG_ENERGY])
  }

  /** The registers create_rapl_data_batch loads, in order. */
  function Loads(flags: Word): seq<nat> {
    Listed(flags[PKG_ENERGY], MSR_PKG_ENERGY_STATUS) + Listed(flags[PKG_PERF], MSR_PKG_PERF_STATUS)
    + Listed(flags[DRAM_ENERGY], MSR_DRAM_ENERGY_STATUS) + Listed(flags[DRAM_PERF], MSR_DRAM_PERF_STATUS)
  }

  function Listed(flag: bool, msr: nat): seq<nat> {
    if flag then [msr] else []
  }

  /** The batch is large enough exactly when DRAM_PERF_STATUS implies PKG_ENERGY_STATUS. */
  lemma CapacityExactly(flags: Word, sockets: nat)
    requires sockets > 0
    ensures |Loads(flags)| * sockets <= BatchSize(flags) * sockets <==> (flags[DRAM_PERF] ==> flags[PKG_ENERGY])
  {
    if |Loads(flags)| <= BatchSize(flags) {
      ProductLe(|Loads(flags)|, BatchSize(flags), sockets);
    } else {
      ProductLe(BatchSize(flags) + 1, |Loads(flags)|, sockets);
      assert (BatchSize(flags) + 1) * sockets == BatchSize(flags) * sockets + sockets;
    }
  }

  // ----- the flag words of setflags

  /** The flag words of the supported processor models. */
  const MODELS: seq<nat> := [
    0x407, 0x20003, 0x607, 0xFE17, 0x7FF, 0x6007F7, 0x1CEE17, 0x1CFE17, 0x1C01FF, 0x177, 0x1EFE17, 0x507FF
  ]

  lemma {:induction false} BitOfNumber(n: nat, k: nat, i: nat)
    requires i < k
    ensures BitsOf(n, k)[i] == (n / Pow2(i) % 2 == 1)
  {
    if i > 0 {
      BitOfNumber(n / 2, k - 1, i - 1);
      Halve(n, Pow2(i - 1));
    }
  }

  lemma Halve(n: nat, p: nat)
    requires p > 0
    ensures n / (2 * p) == n / 2 / p
  {
    var q, r := n / 2 / p, n / 2 % p;
    assert n == 2 * (q * p + r) + n % 2;
    assert n == q * (2 * p) + (2 * r + n % 2);
    SplitDigits(q, 2 * r + n % 2, 2 * p);
  }

  lemma FlagBits(n: nat)
    ensures WordOf(n)[PKG_ENERGY] == (n / 4 % 2 == 1) && WordOf(n)[DRAM_PERF] == (n / 128 % 2 == 1)
  {
    BitOfNumber(n, 64, 2);
    BitOfNumber(n, 64, 7);
    assert Pow2(2) == 4 && Pow2(7) == 128;
  }

  lemma ModelFlags(n: nat)
    requires n in MODELS
    ensures n / 128 % 2 == 1 ==> n / 4 % 2 == 1
  {
  }

  /** Every flag word setflags yields describes a batch that is large enough. */
  lemma ModelsFit(n: nat, sockets: nat)
    requires n in MODELS && sockets > 0
    ensures |Loads(WordOf(n))| * sockets <= BatchSize(WordOf(n)) * sockets
  {
    FlagBits(n);
    ModelFlags(n);
    CapacityExactly(WordOf(n), sockets);
  }

  // ----- filling the batch

  /** The operations of the registers in the list, one for each socket. */
  function OpsOfLoads(loads: seq<nat>, cpus: seq<nat>): seq<Op>
    decreases |loads|
  {
    if loads == [] then []
    else OpsOfLoads(loads[..|loads| - 1], cpus) + OpsFor(loads[|loads| - 1], cpus)
  }

  lemma {:induction false} OpsCount(loads: seq<nat>, cpus: seq<nat>)
    ensures |OpsOfLoads(loads, cpus)| == |loads| * |cpus|
    decreases |loads|
  {
    if loads != [] {
      OpsCount(loads[..|loads| - 1], cpus);
      OneMore(|loads| - 1, |cpus|);
    }
  }

  lemma OneMore(n: nat, k: nat)
    ensures (n + 1) * k == n * k + k
  {
  }

  /** The pointers of the sockets lead to consecutive operations. */
  ghost predicate PointsTo(val: seq<Option<Dest<Op>>>, ops: array<Op>, first: nat, sockets: nat) {
    |val| == sockets && forall s :: 0 <= s < sockets ==> val[s] == Some(Dest(ops, first + s))
  }

  /** How many operations a register takes. */
  function Share(flag: bool, sockets: nat): nat {
    if flag then sockets else 0
  }

  class RaplCells {
    const pkgBits: Cells
    const pkgPerf: Cells
    const dramBits: Cells
    const dramPerf: Cells

    /** Four different arrays, with an entry for every socket. */
    ghost predicate Separate(sockets: nat) {
      && pkgBits.Length == pkgPerf.Length == dramBits.Length == dramPerf.Length == sockets
      && pkgBits != pkgPerf && pkgBits != dramBits && pkgBits != dramPerf
      && pkgPerf != dramBits && pkgPerf != dramPerf && dramBits != dramPerf
    }

    constructor (sockets: nat)
      ensures fresh(pkgBits) && fresh(pkgPerf) && fresh(dramBits) && fresh(dramPerf)
      ensures Separate(sockets)
    {
      pkgBits := new Option<Dest<Op>>[sockets](_ => None);
      pkgPerf := new Option<Dest<Op>>[sockets](_ => None);
      dramBits := new Option<Dest<Op>>[sockets](_ => None);
      dramPerf := new Option<Dest<Op>>[sockets](_ => None);
    }
  }

  /** The batch has the operations of the registers in the list, and room for that many. */
  ghost predicate Holding(table: MsrTable, loads: seq<nat>, cpus: seq<nat>, room: nat, ops: array<Op>)
    reads table, table.repr
  {
    && table.Valid() && table.Allocated(RAPL_DATA)
    && table.batch[RAPL_DATA].ops == ops && table.size[RAPL_DATA] == room
    && table.model[RAPL_DATA] == OpsOfLoads(loads, cpus)
  }

  /** One of the four loads of create_rapl_data_batch. */
  method LoadRegister(flag: bool, msr: nat, ghost loads: seq<nat>, val: Cells, top: TopoList, t: Topo, table: MsrTable,
                      ghost cpus: seq<nat>, ghost room: nat, ghost ops: array<Op>, ghost first: nat)
    requires t.Positive() && top.Agrees(t) && val.Length == t.sockets && cpus == SocketCpus(t, top.discontinuous)
    requires Holding(table, loads, cpus, room, ops)
    requires |table.model[RAPL_DATA]| == first && first + Share(flag, t.sockets) <= room
    modifies table, table.repr, val
    ensures table.repr == old(table.repr) && Holding(table, loads + Listed(flag, msr), cpus, room, ops)
    ensures |table.model[RAPL_DATA]| == first + Share(flag, t.sockets)
    ensures flag ==> PointsTo(val[..], ops, first, t.sockets)
  {
    if flag {
      assert (loads + [msr])[..|loads|] == loads;
      LoadSocketBatch(top, t, msr, val, table, RAPL_DATA);
      assert cpus[..t.sockets] == cpus;
    } else {
      assert loads + [] == loads;
    }
  }

  /** Two pointer arrays lead to the cells of two consecutive registers. */
  ghost predicate PairPoints(flag1: bool, val1: seq<Option<Dest<Op>>>, flag2: bool, val2: seq<Option<Dest<Op>>>,
                             ops: array<Op>, first: nat, sockets: nat)
  {
    && (flag1 ==> PointsTo(val1, ops, first, sockets))
    && (flag2 ==> PointsTo(val2, ops, first + Share(flag1, sockets), sockets))
  }

  /** Where the operations of the DRAM registers begin. */
  function DramFirst(flags: Word, sockets: nat): nat {
    Share(flags[PKG_ENERGY], sockets) + Share(flags[PKG_PERF], sockets)
  }

  /** The pointer arrays lead to the cells of their own registers. */
  ghost predicate AllPoint(flags: Word, cells: RaplCells, ops: array<Op>, sockets: nat)
    reads cells.pkgBits, cells.pkgPerf, cells.dramBits, cells.dramPerf
  {
    && PairPoints(flags[PKG_ENERGY], cells.pkgBits[..], flags[PKG_PERF], cells.pkgPerf[..], ops, 0, sockets)
    && PairPoints(flags[DRAM_ENERGY], cells.dramBits[..], flags[DRAM_PERF], cells.dramPerf[..],
                  ops, DramFirst(flags, sockets), sockets)
  }

  /** create_rapl_data_batch, for flag words that fit: the batch ends up with one operation a socket
      for every register present, on the socket's first CPU, and each pointer array leads to the
      cells of its own register. */
  method CreateRaplDataBatch(flags: Word, top: TopoList, t: Topo, table: MsrTable) returns (cells: RaplCells)
    requires t.Positive() && top.Agrees(t)
    requires flags[DRAM_PERF] ==> flags[PKG_ENERGY]
    requires table.Valid() && !table.Allocated(RAPL_DATA)
    modifies table, table.repr
    ensures fresh(cells) && table.Valid() && table.Allocated(RAPL_DATA)
    ensures table.size[RAPL_DATA] == BatchSize(flags) * t.sockets
    ensures table.model[RAPL_DATA] == OpsOfLoads(Loads(flags), SocketCpus(t, top.discontinuous))
    ensures AllPoint(flags, cells, table.batch[RAPL_DATA].ops, t.sockets)
    ensures AllRead(flags, cells, table, SocketCpus(t, top.discontinuous)) && Uniform(table.model[RAPL_DATA])
  {
    cells := AllocateAndLoad(flags, top, t, table);
    LoadsOrdered(flags);
    BlocksOfLoads(flags, Loads(flags), SocketCpus(t, top.discontinuous));
    EachReads(flags, cells, table, SocketCpus(t, top.discontinuous));
    CreatedUniform(Loads(flags), SocketCpus(t, top.discontinuous));
  }

  /** The calls it makes. */
  method AllocateAndLoad(flags: Word, top: TopoList, t: Topo, table: MsrTable) returns (cells: RaplCells)
    requires t.Positive() && top.Agrees(t)
    requires flags[DRAM_PERF] ==> flags[PKG_ENERGY]
    requires table.Valid() && !table.Allocated(RAPL_DATA)
    modifies table, table.repr
    ensures fresh(cells) && table.Valid() && table.Allocated(RAPL_DATA)
    ensures table.size[RAPL_DATA] == BatchSize(flags) * t.sockets
    ensures table.model[RAPL_DATA] == OpsOfLoads(Loads(flags), SocketCpus(t, top.discontinuous))
    ensures AllPoint(flags, cells, table.batch[RAPL_DATA].ops, t.sockets)
  {
    cells := new RaplCells(t.sockets);
    table.AllocateBatch(RAPL_DATA, BatchSize(flags) * t.sockets);
    ghost var cpus, room, ops := SocketCpus(t, top.discontinuous), BatchSize(flags) * t.sockets, table.batch[RAPL_DATA].ops;
    RoomForAll(flags, t.sockets);
    LoadRegisters(flags, cells, top, t, table, cpus, room, ops);
  }

  /** val leads, for every CPU of the list, to the cell of the operation that reads the register msr of that CPU
      (its number cut to sixteen bits). */
  ghost predicate Reads(table: MsrTable, val: Cells, msr: nat, cpus: seq<nat>)
    reads table, val
  {
    && table.Allocated(RAPL_DATA) && RAPL_DATA < |table.model| && val.Length == |cpus|
    && forall s :: 0 <= s < |cpus| ==>
         && val[s].Some? && val[s].value.ops == table.batch[RAPL_DATA].ops
         && val[s].value.index < |table.model[RAPL_DATA]|
         && table.model[RAPL_DATA][val[s].value.index].Target() == Reg(cpus[s] % 0x1_0000, msr)
  }

  /** Each pointer array of a register that is present leads to the cells of that register. */
  ghost predicate AllRead(flags: Word, cells: RaplCells, table: MsrTable, cpus: seq<nat>)
    reads table, cells.pkgBits, cells.pkgPerf, cells.dramBits, cells.dramPerf
  {
    && (flags[PKG_ENERGY] ==> Reads(table, cells.pkgBits, MSR_PKG_ENERGY_STATUS, cpus))
    && (flags[PKG_PERF] ==> Reads(table, cells.pkgPerf, MSR_PKG_PERF_STATUS, cpus))
    && (flags[DRAM_ENERGY] ==> Reads(table, cells.dramBits, MSR_DRAM_ENERGY_STATUS, cpus))
    && (flags[DRAM_PERF] ==> Reads(table, cells.dramPerf, MSR_DRAM_PERF_STATUS, cpus))
  }

  lemma {:induction false} OpsAt(loads: seq<nat>, cpus: seq<nat>, n: nat, s: nat)
    requires n < |loads| && s < |cpus|
    ensures 0 <= n * |cpus| + s < |OpsOfLoads(loads, cpus)|
    ensures OpsOfLoads(loads, cpus)[n * |cpus| + s] == NewOp(cpus[s], loads[n])
    decreases |loads|
  {
    var last := |loads| - 1;
    OpsCount(loads, cpus);
    OpsCount(loads[..last], cpus);
    DigitsBelow(n, s, |loads|, |cpus|);
    if n < last {
      OpsAt(loads[..last], cpus, n, s);
    }
  }

  /** The place of the DRAM registers in the list. */
  function DramPlace(flags: Word): nat {
    One(flags[PKG_ENERGY]) + One(flags[PKG_PERF])
  }

  /** Register msr is n-th in the list. */
  predicate At(loads: seq<nat>, n: nat, msr: nat) {
    n < |loads| && loads[n] == msr
  }

  /** Where each register present is in the list. */
  predicate Ordered(flags: Word, loads: seq<nat>) {
    && (flags[PKG_ENERGY] ==> At(loads, 0, MSR_PKG_ENERGY_STATUS))
    && (flags[PKG_PERF] ==> At(loads, One(flags[PKG_ENERGY]), MSR_PKG_PERF_STATUS))
    && (flags[DRAM_ENERGY] ==> At(loads, DramPlace(flags), MSR_DRAM_ENERGY_STATUS))
    && (flags[DRAM_PERF] ==> At(loads, DramPlace(flags) + One(flags[DRAM_ENERGY]), MSR_DRAM_PERF_STATUS))
  }

  lemma LoadsOrdered(flags: Word)
    ensures Ordered(flags, Loads(flags))
  {
  }

  lemma ShareMore(n: nat, flag: bool, k: nat)
    ensures (n + One(flag)) * k == n * k + Share(flag, k)
  {
  }

  /** From first on, the operations read the register msr of each CPU of the list. */
  ghost predicate Block(s: seq<Op>, first: nat, msr: nat, cpus: seq<nat>) {
    first + |cpus| <= |s| && forall k :: 0 <= k < |cpus| ==> s[first + k] == NewOp(cpus[k], msr)
  }

  lemma {:induction false} BlockAt(loads: seq<nat>, n: nat, msr: nat, cpus: seq<nat>, first: nat)
    requires At(loads, n, msr) && first == n * |cpus|
    ensures Block(OpsOfLoads(loads, cpus), first, msr, cpus)
  {
    OpsCount(loads, cpus);
    ProductLe(n + 1, |loads|, |cpus|);
    forall k | 0 <= k < |cpus|
      ensures OpsOfLoads(loads, cpus)[first + k] == NewOp(cpus[k], msr)
    {
      OpsAt(loads, cpus, n, k);
    }
  }

  /** Two registers that are present have the next two blocks. */
  ghost predicate PairBlocks(s: seq<Op>, first: nat, flag1: bool, msr1: nat, flag2: bool, msr2: nat, cpus: seq<nat>) {
    && (flag1 ==> Block(s, first, msr1, cpus))
    && (flag2 ==> Block(s, first + Share(flag1, |cpus|), msr2, cpus))
  }

  /** Every register present has its block. */
  ghost predicate AllBlocks(flags: Word, s: seq<Op>, cpus: seq<nat>) {
    && PairBlocks(s, 0, flags[PKG_ENERGY], MSR_PKG_ENERGY_STATUS, flags[PKG_PERF], MSR_PKG_PERF_STATUS, cpus)
    && PairBlocks(s, DramFirst(flags, |cpus|), flags[DRAM_ENERGY], MSR_DRAM_ENERGY_STATUS,
                  flags[DRAM_PERF], MSR_DRAM_PERF_STATUS, cpus)
  }

  lemma {:induction false} BlocksAt(loads: seq<nat>, n: nat, first: nat, flag1: bool, msr1: nat,
                                    flag2: bool, msr2: nat, cpus: seq<nat>)
    requires (flag1 ==> At(loads, n, msr1)) && (flag2 ==> At(loads, n + One(flag1), msr2))
    requires first == n * |cpus|
    ensures PairBlocks(OpsOfLoads(loads, cpus), first, flag1, msr1, flag2, msr2, cpus)
  {
    if flag1 {
      BlockAt(loads, n, msr1, cpus, first);
    }
    if flag2 {
      ShareMore(n, flag1, |cpus|);
      BlockAt(loads, n + One(flag1), msr2, cpus, first + Share(flag1, |cpus|));
    }
  }

  lemma {:induction false} BlocksOfLoads(flags: Word, loads: seq<nat>, cpus: seq<nat>)
    requires Ordered(flags, loads)
    ensures AllBlocks(flags, OpsOfLoads(loads, cpus), cpus)
  {
    BlocksAt(loads, 0, 0, flags[PKG_ENERGY], MSR_PKG_ENERGY_STATUS, flags[PKG_PERF], MSR_PKG_PERF_STATUS, cpus);
    ShareMore(0, flags[PKG_ENERGY], |cpus|);
    ShareMore(One(flags[PKG_ENERGY]), flags[PKG_PERF], |cpus|);
    BlocksAt(loads, DramPlace(flags), DramFirst(flags, |cpus|), flags[DRAM_ENERGY], MSR_DRAM_ENERGY_STATUS,
             flags[DRAM_PERF], MSR_DRAM_PERF_STATUS, cpus);
  }

  lemma RegisterReads(table: MsrTable, val: Cells, first: nat, msr: nat, cpus: seq<nat>)
    requires table.Allocated(RAPL_DATA) && RAPL_DATA < |table.model|
    requires Block(table.model[RAPL_DATA], first, msr, cpus)
    requires PointsTo(val[..], table.batch[RAPL_DATA].ops, first, |cpus|)
    ensures Reads(table, val, msr, cpus)
  {
    forall s | 0 <= s < |cpus|
      ensures val[s] == Some(Dest(table.batch[RAPL_DATA].ops, first + s))
    {
      assert val[s] == val[..][s];
    }
  }

  lemma PairReads(table: MsrTable, first: nat, flag1: bool, val1: Cells, msr1: nat,
                  flag2: bool, val2: Cells, msr2: nat, cpus: seq<nat>)
    requires table.Allocated(RAPL_DATA) && RAPL_DATA < |table.model|
    requires PairBlocks(table.model[RAPL_DATA], first, flag1, msr1, flag2, msr2, cpus)
    requires PairPoints(flag1, val1[..], flag2, val2[..], table.batch[RAPL_DATA].ops, first, |cpus|)
    ensures (flag1 ==> Reads(table, val1, msr1, cpus)) && (flag2 ==> Reads(table, val2, msr2, cpus))
  {
    if flag1 {
      RegisterReads(table, val1, first, msr1, cpus);
    }
    if flag2 {
      RegisterReads(table, val2, first + Share(flag1, |cpus|), msr2, cpus);
    }
  }

  lemma EachReads(flags: Word, cells: RaplCells, table: MsrTable, cpus: seq<nat>)
    requires table.Allocated(RAPL_DATA) && RAPL_DATA < |table.model|
    requires AllBlocks(flags, table.model[RAPL_DATA], cpus)
    requires AllPoint(flags, cells, table.batch[RAPL_DATA].ops, |cpus|)
    ensures AllRead(flags, cells, table, cpus)
  {
    PairReads(table, 0, flags[PKG_ENERGY], cells.pkgBits, MSR_PKG_ENERGY_STATUS,
              flags[PKG_PERF], cells.pkgPerf, MSR_PKG_PERF_STATUS, cpus);
    PairReads(table, DramFirst(flags, |cpus|), flags[DRAM_ENERGY], cells.dramBits, MSR_DRAM_ENERGY_STATUS,
              flags[DRAM_PERF], cells.dramPerf, MSR_DRAM_PERF_STATUS, cpus);
  }

  // ----- reading the batch

  /** Every cell of the batch has the value of its operation's register. */
  ghost predicate CellsRead(dev: MsrDevice, table: MsrTable)
    reads dev, table, table.repr
  {
    && table.Valid() && table.Allocated(RAPL_DATA)
    && forall i :: 0 <= i < |table.model[RAPL_DATA]| ==>
         table.model[RAPL_DATA][i].data == Lookup(dev.regs, table.model[RAPL_DATA][i].Target())
  }

  /** val leads, for every socket, to what access by coordinates to the register msr of that socket returns. */
  ghost predicate ShownBy(dev: MsrDevice, table: MsrTable, val: Cells, msr: nat, t: Topo, discontinuous: bool)
    requires table.Allocated(RAPL_DATA)
    reads dev, table, table.batch[RAPL_DATA].ops, val
  {
    && val.Length == t.sockets
    && forall s :: 0 <= s < t.sockets ==>
         && val[s].Some? && val[s].value.ops == table.batch[RAPL_DATA].ops && val[s].value.index < val[s].value.ops.Length
         && table.batch[RAPL_DATA].ops[val[s].value.index].data
            == Lookup(dev.regs, ByCoord(t, discontinuous, Coord(s, 0, 0), msr))
  }

  lemma CellsShow(dev: MsrDevice, table: MsrTable, val: Cells, msr: nat, t: Topo, discontinuous: bool)
    requires CellsRead(dev, table) && Reads(table, val, msr, SocketCpus(t, discontinuous)) && AllFit(SocketCpus(t, discontinuous))
    ensures ShownBy(dev, table, val, msr, t, discontinuous)
  {
    ghost var ops := table.batch[RAPL_DATA].ops;
    ghost var cells: seq<Op> := table.model[RAPL_DATA];
    assert ops[..|cells|] == cells;
    forall s | 0 <= s < t.sockets
      ensures ops[val[s].value.index].data == Lookup(dev.regs, ByCoord(t, discontinuous, Coord(s, 0, 0), msr))
    {
      assert ops[val[s].value.index] == cells[val[s].value.index];
    }
  }

  /** read_batch(RAPL_DATA) on a batch whose pointers lead to the right cells: when the CPU numbers fit, each
      pointer of a register that is present leads to what access by coordinates to it returns. */
  method ReadRaplBatch(dev: MsrDevice, table: MsrTable, flags: Word, cells: RaplCells, t: Topo, discontinuous: bool)
    requires table.Valid() && table.Allocated(RAPL_DATA) && Uniform(table.model[RAPL_DATA])
    requires AllRead(flags, cells, table, SocketCpus(t, discontinuous)) && AllFit(SocketCpus(t, discontinuous))
    modifies dev, table, table.repr
    ensures table.Valid() && table.Allocated(RAPL_DATA) && Uniform(table.model[RAPL_DATA]) && dev.regs == old(dev.regs)
    ensures AllRead(flags, cells, table, SocketCpus(t, discontinuous))
    ensures flags[PKG_ENERGY] ==> ShownBy(dev, table, cells.pkgBits, MSR_PKG_ENERGY_STATUS, t, discontinuous)
    ensures flags[PKG_PERF] ==> ShownBy(dev, table, cells.pkgPerf, MSR_PKG_PERF_STATUS, t, discontinuous)
    ensures flags[DRAM_ENERGY] ==> ShownBy(dev, table, cells.dramBits, MSR_DRAM_ENERGY_STATUS, t, discontinuous)
    ensures flags[DRAM_PERF] ==> ShownBy(dev, table, cells.dramPerf, MSR_DRAM_PERF_STATUS, t, discontinuous)
  {
    ReadCells(dev, table);
    if flags[PKG_ENERGY] { CellsShow(dev, table, cells.pkgBits, MSR_PKG_ENERGY_STATUS, t, discontinuous); }
    if flags[PKG_PERF] { CellsShow(dev, table, cells.pkgPerf, MSR_PKG_PERF_STATUS, t, discontinuous); }
    if flags[DRAM_ENERGY] { CellsShow(dev, table, cells.dramBits, MSR_DRAM_ENERGY_STATUS, t, discontinuous); }
    if flags[DRAM_PERF] { CellsShow(dev, table, cells.dramPerf, MSR_DRAM_PERF_STATUS, t, discontinuous); }
  }

  method ReadCells(dev: MsrDevice, table: MsrTable)
    requires table.Valid() && table.Allocated(RAPL_DATA) && Uniform(table.model[RAPL_DATA])
    modifies dev, table, table.repr
    ensures CellsRead(dev, table) && Uniform(table.model[RAPL_DATA]) && dev.regs == old(dev.regs)
    ensures table.batch == old(table.batch) && |table.model[RAPL_DATA]| == |old(table.model[RAPL_DATA])|
    ensures forall i :: 0 <= i < |table.model[RAPL_DATA]| ==>
      table.model[RAPL_DATA][i].Target() == old(table.model[RAPL_DATA])[i].Target()
  {
    ReadUniform(dev.driver, State(dev.regs, table.model[RAPL_DATA]));
    var ret := dev.DoBatchOp(table, RAPL_DATA, BatchRead);
  }

  /** A batch that has just been created can be read. */
  lemma {:induction false} CreatedUniform(loads: seq<nat>, cpus: seq<nat>)
    ensures AllFlags(OpsOfLoads(loads, cpus), true)
    decreases |loads|
  {
    if loads != [] {
      CreatedUniform(loads[..|loads| - 1], cpus);
    }
  }

  lemma RoomForAll(flags: Word, sockets: nat)
    requires flags[DRAM_PERF] ==> flags[PKG_ENERGY]
    ensures DramFirst(flags, sockets) + Share(flags[DRAM_ENERGY], sockets) + Share(flags[DRAM_PERF], sockets)
         <= BatchSize(flags) * sockets
  {
  }

  /** The four loads. */
  method LoadRegisters(flags: Word, cells: RaplCells, top: TopoList, t: Topo, table: MsrTable,
                       ghost cpus: seq<nat>, ghost room: nat, ghost ops: array<Op>)
    requires t.Positive() && top.Agrees(t) && cpus == SocketCpus(t, top.discontinuous)
    requires cells.Separate(t.sockets) && Holding(table, [], cpus, room, ops)
    requires DramFirst(flags, t.sockets) + Share(flags[DRAM_ENERGY], t.sockets) + Share(flags[DRAM_PERF], t.sockets) <= room
    modifies table, table.repr, cells.pkgBits, cells.pkgPerf, cells.dramBits, cells.dramPerf
    ensures Holding(table, Loads(flags), cpus, room, ops) && AllPoint(flags, cells, ops, t.sockets)
  {
    LoadsOfPairs(flags);
    LoadTwo(flags[PKG_ENERGY], MSR_PKG_ENERGY_STATUS, flags[PKG_PERF], MSR_PKG_PERF_STATUS,
            [], cells.pkgBits, cells.pkgPerf, top, t, table, cpus, room, ops, 0);
    ghost var pkgBits, pkgPerf := cells.pkgBits[..], cells.pkgPerf[..];
    LoadTwo(flags[DRAM_ENERGY], MSR_DRAM_ENERGY_STATUS, flags[DRAM_PERF], MSR_DRAM_PERF_STATUS,
            PkgLoads(flags), cells.dramBits, cells.dramPerf, top, t, table, cpus, room, ops, DramFirst(flags, t.sockets));
    assert cells.pkgBits[..] == pkgBits && cells.pkgPerf[..] == pkgPerf;
  }

  /** The package registers that are loaded. */
  function PkgLoads(flags: Word): seq<nat> {
    Both(flags[PKG_ENERGY], MSR_PKG_ENERGY_STATUS, flags[PKG_PERF], MSR_PKG_PERF_STATUS, [])
  }

  /** The list with those of two registers that are present appended. */
  function Both(flag1: bool, msr1: nat, flag2: bool, msr2: nat, loads: seq<nat>): seq<nat> {
    loads + Listed(flag1, msr1) + Listed(flag2, msr2)
  }

  lemma LoadsOfPairs(flags: Word)
    ensures Loads(flags)
         == Both(flags[DRAM_ENERGY], MSR_DRAM_ENERGY_STATUS, flags[DRAM_PERF], MSR_DRAM_PERF_STATUS, PkgLoads(flags))
  {
  }

  /** Two of the four loads. */
  method LoadTwo(flag1: bool, msr1: nat, flag2: bool, msr2: nat, ghost loads: seq<nat>, val1: Cells, val2: Cells,
                 top: TopoList, t: Topo, table: MsrTable, ghost cpus: seq<nat>, ghost room: nat, ghost ops: array<Op>,
                 ghost first: nat)
    requires t.Positive() && top.Agrees(t) && cpus == SocketCpus(t, top.discontinuous)
    requires val1 != val2 && val1.Length == t.sockets && val2.Length == t.sockets
    requires Holding(table, loads, cpus, room, ops) && |table.model[RAPL_DATA]| == first
    requires first + Share(flag1, t.sockets) + Share(flag2, t.sockets) <= room
    modifies table, table.repr, val1, val2
    ensures table.repr == old(table.repr)
    ensures Holding(table, Both(flag1, msr1, flag2, msr2, loads), cpus, room, ops)
    ensures PairPoints(flag1, val1[..], flag2, val2[..], ops, first, t.sockets)
    ensures |table.model[RAPL_DATA]| == first + Share(flag1, t.sockets) + Share(flag2, t.sockets)
  {
    LoadRegister(flag1, msr1, loads, val1, top, t, table, cpus, room, ops, first);
    ghost var pointers := val1[..];
    LoadRegister(flag2, msr2, loads + Listed(flag1, msr1), val2, top, t, table, cpus, room, ops,
                 first + Share(flag1, t.sockets));
    assert val1[..] == pointers;
  }
}
