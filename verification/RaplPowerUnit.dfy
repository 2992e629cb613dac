/** The RAPL units of src/msr_rapl.c: get_rapl_power_unit reads one register a socket through a batch. */
module RaplPowerUnit {
  import opened Words
  import opened BatchOps
  import opened BatchTables
  import opened Topology
  import opened MsrBatch
  import opened RaplUnits
  import opened RaplLimits

  const RAPL_UNIT := 1
  const MSR_RAPL_POWER_UNIT := 0x606

  /** The batch of get_rapl_power_unit. */
  method LoadUnitBatch(top: TopoList, t: Topo, table: MsrTable, val: Cells)
    requires t.Positive() && top.Agrees(t) && val.Length == t.sockets
    requires table.Valid() && !table.Allocated(RAPL_UNIT)
    modifies table, table.repr, val
    ensures UnitBatch(table, val, SocketCpus(t, top.discontinuous))
    ensures fresh(table.repr - old(table.repr))
  {
    table.AllocateBatch(RAPL_UNIT, t.sockets);
    FillUnitBatch(top, t, table, val);
  }

  method FillUnitBatch(top: TopoList, t: Topo, table: MsrTable, val: Cells)
    requires t.Positive() && top.Agrees(t) && val.Length == t.sockets
    requires table.Valid() && table.Allocated(RAPL_UNIT)
    requires table.model[RAPL_UNIT] == [] && table.size[RAPL_UNIT] == t.sockets
    modifies table, table.repr, val
    ensures UnitBatch(table, val, SocketCpus(t, top.discontinuous))
    ensures table.repr == old(table.repr)
  {
    ghost var cpus := SocketCpus(t, top.discontinuous);
    LoadSocketBatch(top, t, MSR_RAPL_POWER_UNIT, val, table, RAPL_UNIT);
    assert cpus[..t.sockets] == cpus;
    NothingBefore(OpsFor(MSR_RAPL_POWER_UNIT, cpus));
  }

  lemma NothingBefore(ops: seq<Op>)
    ensures [] + ops == ops
  {
  }

  /** The batch has one operation a CPU of the list, and val leads to their cells. */
  ghost predicate UnitBatch(table: MsrTable, val: Cells, cpus: seq<nat>)
    reads table, table.repr, val
  {
    && table.Valid() && table.Allocated(RAPL_UNIT)
    && table.model[RAPL_UNIT] == OpsFor(MSR_RAPL_POWER_UNIT, cpus) && val.Length == |cpus|
    && forall i :: 0 <= i < |cpus| ==> val[i] == Some(Dest(table.batch[RAPL_UNIT].ops, i))
  }

  /** The values of the registers that the batch names, read in one go. */
  method ReadUnitBatch(dev: MsrDevice, table: MsrTable, val: Cells, ghost cpus: seq<nat>)
    returns (words: seq<Word>)
    requires UnitBatch(table, val, cpus)
    modifies dev, table, table.repr
    ensures dev.regs == old(dev.regs) && |words| == |cpus|
    ensures forall s :: 0 <= s < |cpus| ==> words[s] == Lookup(dev.regs, OpsFor(MSR_RAPL_POWER_UNIT, cpus)[s].Target())
  {
    ReadLoaded(dev, table, RAPL_UNIT, val, MSR_RAPL_POWER_UNIT, cpus);
    words := [];
    var i := 0;
    while i < val.Length
      invariant 0 <= i <= val.Length && |words| == i
      invariant forall s :: 0 <= s < i ==> words[s] == Lookup(dev.regs, OpsFor(MSR_RAPL_POWER_UNIT, cpus)[s].Target())
    {
      assert Shows(val[i], Lookup(dev.regs, OpsFor(MSR_RAPL_POWER_UNIT, cpus)[i].Target()));
      words := words + [val[i].value.ops[val[i].value.index].data];
      i := i + 1;
    }
  }

  /** The registers of the sockets, read in a batch: each is the one that access by coordinates names, if the
      CPU numbers fit. */
  method ReadUnits(dev: MsrDevice, top: TopoList, t: Topo, table: MsrTable) returns (words: seq<Word>)
    requires t.Positive() && top.Agrees(t) && table.Valid() && !table.Allocated(RAPL_UNIT)
    modifies dev, table, table.repr
    ensures dev.regs == old(dev.regs) && |words| == t.sockets
    ensures AllFit(SocketCpus(t, top.discontinuous)) ==>
      forall s :: 0 <= s < t.sockets ==>
        words[s] == Lookup(dev.regs, ByCoord(t, top.discontinuous, Coord(s, 0, 0), MSR_RAPL_POWER_UNIT))
  {
    var val := new Option<Dest<Op>>[t.sockets](_ => None);
    LoadUnitBatch(top, t, table, val);
    words := ReadUnitBatch(dev, table, val, SocketCpus(t, top.discontinuous));
    SocketTargetsExactly(t, top.discontinuous, MSR_RAPL_POWER_UNIT);
  }

  /** get_rapl_power_unit: the units of every socket are those written in the register that by-coordinate access
      names there, if the CPU numbers fit. (The check for consistency that follows reads the registers again, but
      compares each unit with itself.) */
  method GetRaplPowerUnit(dev: MsrDevice, top: TopoList, t: Topo, table: MsrTable) returns (units: seq<Units>)
    requires t.Positive() && top.Agrees(t) && table.Valid() && !table.Allocated(RAPL_UNIT)
    modifies dev, table, table.repr
    ensures dev.regs == old(dev.regs)
    ensures |units| == t.sockets && forall s :: 0 <= s < |units| ==> ValidUnits(units[s])
    ensures AllFit(SocketCpus(t, top.discontinuous)) ==>
      forall s :: 0 <= s < t.sockets ==>
        Describes(Lookup(dev.regs, ByCoord(t, top.discontinuous, Coord(s, 0, 0), MSR_RAPL_POWER_UNIT)), units[s])
  {
    var words := ReadUnits(dev, top, t, table);
    units := [];
    var i := 0;
    while i < t.sockets
      invariant 0 <= i <= t.sockets && |units| == i && dev.regs == old(dev.regs)
      invariant forall s :: 0 <= s < i ==> ValidUnits(units[s]) && Describes(words[s], units[s])
    {
      UnitsOfRegister(words[i]);
      units := units + [UnitsOf(words[i])];
      i := i + 1;
    }
  }

  /** The batched read and read_msr_by_coord return the same values on every socket, if the CPU numbers fit. */
  method ReadBothWays(rapl: Rapl, top: TopoList, table: MsrTable) returns (same: bool)
    requires rapl.Ready() && top.Agrees(rapl.topo) && top.discontinuous == rapl.discontinuous
    requires table.Valid() && !table.Allocated(RAPL_UNIT)
    modifies rapl.dev, table, table.repr
    ensures rapl.dev.regs == old(rapl.dev.regs)
    ensures AllFit(SocketCpus(rapl.topo, rapl.discontinuous)) ==> same
  {
    var words := ReadUnits(rapl.dev, top, rapl.topo, table);
    same := true;
    var i := 0;
    while i < rapl.topo.sockets
      invariant 0 <= i <= rapl.topo.sockets
      invariant rapl.dev.regs == old(rapl.dev.regs)
      invariant AllFit(SocketCpus(rapl.topo, rapl.discontinuous)) ==> same
    {
      var ret, word := rapl.ReadMsr(i, MSR_RAPL_POWER_UNIT, Zero(), Io(true, true));
      same := same && word == words[i];
      i := i + 1;
    }
  }
}
