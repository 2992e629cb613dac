/** What a batch of register operations does: the driver's execution in array order, the lazily
    flipped read/write flags of do_batch_op, and the fallback of compatibility_batch
    (src/msr_core.c), over every run of appends, reads, writes and stores to a cell. */
module BatchOps {
  import opened Words

  /** A register of one CPU. */
  datatype Reg = Reg(cpu: nat, msr: nat)

  type Store = map<Reg, Word>

  function Lookup(s: Store, r: Reg): Word {
    if r in s then s[r] else Zero()
  }

  /** struct msr_batch_op */
  datatype Op = Op(cpu: nat, msr: nat, isRead: bool, err: int, data: Word)
  {
    function Target(): Reg {
      Reg(cpu, msr)
    }

    function WithFlag(flag: bool): Op {
      Op(cpu, msr, flag, err, data)
    }

    function WithData(value: Word): Op {
      Op(cpu, msr, isRead, err, value)
    }
  }

  /** The register store and the operations of one batch. */
  datatype State = State(store: Store, ops: seq<Op>)

  datatype Kind = BatchRead | BatchWrite

  // ----- the driver

  /** One operation, executed by its own flag. */
  function Execute(st: State, op: Op): State {
    if op.isRead then
      State(st.store, st.ops + [op.WithData(Lookup(st.store, op.Target()))])
    else
      State(st.store[op.Target() := op.data], st.ops + [op])
  }

  /** The driver executes the operations in array order. */
  function Driver(s: Store, ops: seq<Op>): (st: State)
    ensures |st.ops| == |ops|
    decreases |ops|
  {
    if ops == [] then State(s, []) else Execute(Driver(s, ops[..|ops| - 1]), ops[|ops| - 1])
  }

  function SetFlags(ops: seq<Op>, flag: bool): (r: seq<Op>)
    ensures |r| == |ops|
    ensures forall i :: 0 <= i < |ops| ==> r[i] == ops[i].WithFlag(flag)
    decreases |ops|
  {
    if ops == [] then [] else SetFlags(ops[..|ops| - 1], flag) + [ops[|ops| - 1].WithFlag(flag)]
  }

  /** The flags are switched only when the first one is of the opposite kind. */
  function Issued(kind: Kind, ops: seq<Op>): (r: seq<Op>)
    ensures |r| == |ops|
  {
    if ops != [] && ops[0].isRead != kind.BatchRead? then SetFlags(ops, kind.BatchRead?) else ops
  }

  /** do_batch_op through the batch driver; an empty batch is an error and changes nothing. */
  function Ioctl(kind: Kind, st: State): State {
    if st.ops == [] then st else Driver(st.store, Issued(kind, st.ops))
  }

  // ----- the fallback

  /** One turn of the loop of compatibility_batch: the kind of the batch decides, not the flag. */
  function Fallback(kind: Kind, st: State, op: Op): State {
    if kind.BatchRead? then
      State(st.store, st.ops + [op.WithData(Lookup(st.store, op.Target()))])
    else
      State(st.store[op.Target() := op.data], st.ops + [op])
  }

  function FallbackLoop(kind: Kind, s: Store, ops: seq<Op>): (st: State)
    ensures |st.ops| == |ops|
    decreases |ops|
  {
    if ops == [] then State(s, [])
    else Fallback(kind, FallbackLoop(kind, s, ops[..|ops| - 1]), ops[|ops| - 1])
  }

  function Compatibility(kind: Kind, st: State): State {
    FallbackLoop(kind, st.store, st.ops)
  }

  lemma DriverSnoc(s: Store, ops: seq<Op>, op: Op)
    ensures Driver(s, ops + [op]) == Execute(Driver(s, ops), op)
  {
    assert (ops + [op])[..|ops|] == ops;
  }

  lemma FallbackSnoc(kind: Kind, s: Store, ops: seq<Op>, op: Op)
    ensures FallbackLoop(kind, s, ops + [op]) == Fallback(kind, FallbackLoop(kind, s, ops), op)
  {
    assert (ops + [op])[..|ops|] == ops;
  }

  // ----- runs

  /** What happens to one batch and the registers: an operation is appended, the cell of one stored to, the batch
      read or written; or a register changes by itself or by other means than the batch. */
  datatype Event = Append(cpu: nat, msr: nat) | Poke(index: nat, value: Word) | Do(kind: Kind) | Outside(reg: Reg, value: Word)

  /** create_batch_op: the new operation reads; the CPU is cut to sixteen bits. */
  function NewOp(cpu: nat, msr: nat): Op {
    Op(cpu % 0x1_0000, msr, true, 0, Zero())
  }

  function Step(viaDriver: bool, st: State, e: Event): State {
    match e
    case Append(cpu, msr) => st.(ops := st.ops + [NewOp(cpu, msr)])
    case Poke(i, v) => if i < |st.ops| then st.(ops := st.ops[i := st.ops[i].WithData(v)]) else st
    case Do(kind) => if viaDriver then Ioctl(kind, st) else Compatibility(kind, st)
    case Outside(r, v) => State(st.store[r := v], st.ops)
  }

  function Run(viaDriver: bool, s: Store, trace: seq<Event>): State
    decreases |trace|
  {
    if trace == [] then State(s, [])
    else Step(viaDriver, Run(viaDriver, s, trace[..|trace| - 1]), trace[|trace| - 1])
  }

  // ----- the flags of every reachable batch

  /** Flags of the shape 0^k 1^m. */
  predicate Shaped(ops: seq<Op>) {
    forall i, j :: 0 <= i < j < |ops| && ops[i].isRead ==> ops[j].isRead
  }

  predicate AllFlags(ops: seq<Op>, flag: bool) {
    forall i :: 0 <= i < |ops| ==> ops[i].isRead == flag
  }

  /** Executing operations leaves everything but the data of the reads as it was. */
  lemma {:induction false} DriverKeeps(s: Store, ops: seq<Op>)
    ensures forall i :: 0 <= i < |ops| ==> Driver(s, ops).ops[i] == ops[i].WithData(Driver(s, ops).ops[i].data)
    ensures forall i :: 0 <= i < |ops| && !ops[i].isRead ==> Driver(s, ops).ops[i] == ops[i]
    decreases |ops|
  {
    if ops != [] {
      DriverKeeps(s, ops[..|ops| - 1]);
    }
  }

  /** An operation was appended before event i. */
  predicate Filled(trace: seq<Event>, i: nat) {
    exists h :: 0 <= h < i && h < |trace| && trace[h].Append?
  }

  /** Event i is a write of a non-empty batch, and the batch has not been read since. */
  predicate WrittenAt(trace: seq<Event>, i: nat) {
    && i < |trace| && trace[i] == Do(BatchWrite) && Filled(trace, i)
    && forall k :: i < k < |trace| ==> trace[k] != Do(BatchRead)
  }

  /** The batch was written, and has not been read since. */
  predicate Written(trace: seq<Event>) {
    exists i :: 0 <= i < |trace| && WrittenAt(trace, i)
  }

  predicate StaleAt(trace: seq<Event>, i: nat, j: nat) {
    i < j < |trace| && WrittenAt(trace, i) && trace[j].Append?
  }

  /** An operation was appended after a write, with no read in between or since. */
  predicate Stale(trace: seq<Event>) {
    exists i, j :: 0 <= i < |trace| && 0 <= j < |trace| && StaleAt(trace, i, j)
  }

  lemma WrittenStep(t: seq<Event>, e: Event)
    ensures Written(t + [e]) <==>
      e != Do(BatchRead) && (Written(t) || (e == Do(BatchWrite) && Filled(t, |t|)))
  {
    var u := t + [e];
    FilledPrefix(t, e);
    if e != Do(BatchRead) {
      if i :| 0 <= i < |t| && WrittenAt(t, i) {
        assert WrittenAt(u, i);
      }
      if e == Do(BatchWrite) && Filled(t, |t|) {
        assert WrittenAt(u, |t|);
      }
    }
    if i :| 0 <= i < |u| && WrittenAt(u, i) {
      WrittenBefore(t, e, i);
    }
  }

  lemma FilledPrefix(t: seq<Event>, e: Event)
    ensures forall i :: 0 <= i <= |t| ==> Filled(t + [e], i) == Filled(t, i)
  {
    var u := t + [e];
    forall i | 0 <= i <= |t|
      ensures Filled(u, i) == Filled(t, i)
    {
      if h :| 0 <= h < i && h < |t| && t[h].Append? {
        assert u[h].Append?;
      }
      if h :| 0 <= h < i && h < |u| && u[h].Append? {
        assert t[h].Append?;
      }
    }
  }

  lemma WrittenBefore(t: seq<Event>, e: Event, i: nat)
    requires i <= |t| && WrittenAt(t + [e], i)
    ensures i < |t| ==> WrittenAt(t, i) && e != Do(BatchRead)
    ensures i == |t| ==> e == Do(BatchWrite) && Filled(t, i)
  {
    FilledPrefix(t, e);
    assert forall k :: 0 <= k < |t| ==> (t + [e])[k] == t[k];
    assert (t + [e])[|t|] == e;
  }

  lemma StaleStep(t: seq<Event>, e: Event)
    ensures Stale(t + [e]) <==> e != Do(BatchRead) && (Stale(t) || (e.Append? && Written(t)))
  {
    var u := t + [e];
    FilledPrefix(t, e);
    if e != Do(BatchRead) {
      if i, j :| 0 <= i < |t| && 0 <= j < |t| && StaleAt(t, i, j) {
        assert WrittenAt(u, i) && StaleAt(u, i, j);
      }
      if i :| 0 <= i < |t| && WrittenAt(t, i) && e.Append? {
        assert WrittenAt(u, i) && StaleAt(u, i, |t|);
      }
    }
    if i, j :| 0 <= i < |u| && 0 <= j < |u| && StaleAt(u, i, j) {
      WrittenBefore(t, e, i);
      if j < |t| {
        assert StaleAt(t, i, j);
      }
    }
  }

  /** Flags of both kinds: a write in front of a read. */
  predicate Mixed(ops: seq<Op>) {
    exists j :: 0 <= j < |ops| && ops[j].isRead && !ops[0].isRead
  }

  /** What the flags say about the run so far. */
  ghost predicate FlagsTell(trace: seq<Event>, ops: seq<Op>) {
    && Shaped(ops)
    && (ops != [] <==> Filled(trace, |trace|))
    && (Written(trace) <==> ops != [] && !ops[0].isRead)
    && (Stale(trace) <==> Mixed(ops))
  }

  /** What one event does to the flags. */
  lemma FlagsAfter(st: State, e: Event)
    requires Shaped(st.ops)
    ensures var ops := Step(true, st, e).ops;
      match e
      case Append(_, _) => ops == st.ops + [NewOp(e.cpu, e.msr)]
      case Outside(_, _) => ops == st.ops
      case Poke(_, _) => |ops| == |st.ops| && forall i :: 0 <= i < |ops| ==> ops[i].isRead == st.ops[i].isRead
      case Do(kind) =>
        && |ops| == |st.ops|
        && (kind.BatchRead? ==> AllFlags(ops, true))
        && (kind.BatchWrite? && !Mixed(st.ops) ==> AllFlags(ops, false))
        && (kind.BatchWrite? && Mixed(st.ops) ==> forall i :: 0 <= i < |ops| ==> ops[i].isRead == st.ops[i].isRead)
  {
    if e.Do? {
      DriverKeeps(st.store, Issued(e.kind, st.ops));
      IssuedFlags(e.kind, st.ops);
    }
  }

  /** A read batch goes out with every flag set. A write batch goes out with every flag cleared, or
      with flags of both kinds when they were so before. */
  lemma IssuedFlags(kind: Kind, ops: seq<Op>)
    requires Shaped(ops)
    ensures kind.BatchRead? ==> AllFlags(Issued(kind, ops), true)
    ensures kind.BatchWrite? && !Mixed(ops) ==> AllFlags(Issued(kind, ops), false)
    ensures kind.BatchWrite? && Mixed(ops) ==> Issued(kind, ops) == ops
  {
    if kind.BatchWrite? && !Mixed(ops) && ops != [] && !ops[0].isRead {
      assert forall j :: 0 <= j < |ops| ==> !ops[j].isRead;
    }
  }

  lemma FlagsStep(before: seq<Event>, e: Event, st: State)
    requires FlagsTell(before, st.ops)
    ensures FlagsTell(before + [e], Step(true, st, e).ops)
  {
    WrittenStep(before, e);
    StaleStep(before, e);
    FilledPrefix(before, e);
    FlagsAfter(st, e);
    var ops, trace := Step(true, st, e).ops, before + [e];
    assert Filled(trace, |trace|) <==> Filled(before, |before|) || e.Append? by {
      if e.Append? {
        assert trace[|before|].Append?;
      }
      if Filled(before, |before|) {
        var h :| 0 <= h < |before| && before[h].Append?;
        assert trace[h].Append?;
      }
    }
    if e.Append? && Written(before) {
      assert ops[|st.ops|].isRead && !ops[0].isRead;
    }
    if e == Do(BatchRead) || (e == Do(BatchWrite) && !Mixed(st.ops)) {
      assert !Mixed(ops);
    } else if Mixed(st.ops) {
      var j :| 0 <= j < |st.ops| && st.ops[j].isRead && !st.ops[0].isRead;
      assert ops[j].isRead && !ops[0].isRead;
    }
  }

  /** The flags of every batch reachable through the driver have the shape 0^k 1^m; both kinds occur
      exactly when an operation was appended to a batch that had been written and not read since. */
  lemma {:induction false} FlagsOfRun(s: Store, trace: seq<Event>)
    ensures FlagsTell(trace, Run(true, s, trace).ops)
    decreases |trace|
  {
    if trace != [] {
      var before, e := trace[..|trace| - 1], trace[|trace| - 1];
      FlagsOfRun(s, before);
      FlagsStep(before, e, Run(true, s, before));
      assert before + [e] == trace;
    }
  }

  /** Every read batch is issued with all flags set, and a write batch with all flags cleared exactly
      when it is not stale. */
  lemma IssuedOfRun(s: Store, trace: seq<Event>)
    ensures var ops := Run(true, s, trace).ops;
      AllFlags(Issued(BatchRead, ops), true) && (AllFlags(Issued(BatchWrite, ops), false) <==> !Stale(trace))
  {
    FlagsOfRun(s, trace);
    IssuedFlags(BatchRead, Run(true, s, trace).ops);
    IssuedFlags(BatchWrite, Run(true, s, trace).ops);
  }

  // ----- the fallback agrees with the driver

  predicate SameOp(a: Op, b: Op) {
    a.WithFlag(true) == b.WithFlag(true)
  }

  /** The same store and the same cells; the flags may differ. */
  predicate Same(a: State, b: State) {
    a.store == b.store && |a.ops| == |b.ops| && forall i :: 0 <= i < |a.ops| ==> SameOp(a.ops[i], b.ops[i])
  }

  /** With flags of one kind the driver does what the fallback does. */
  lemma {:induction false} DriverIsFallback(kind: Kind, s: Store, ops: seq<Op>, cells: seq<Op>)
    requires AllFlags(ops, kind.BatchRead?)
    requires |ops| == |cells| && forall i :: 0 <= i < |ops| ==> SameOp(ops[i], cells[i])
    ensures Same(Driver(s, ops), FallbackLoop(kind, s, cells))
    decreases |ops|
  {
    if ops != [] {
      DriverIsFallback(kind, s, ops[..|ops| - 1], cells[..|ops| - 1]);
    }
  }

  /** Every register reads the same in both stores. */
  ghost predicate SameRegs(a: Store, b: Store) {
    forall r :: Lookup(a, r) == Lookup(b, r)
  }

  /** The same registers and the same cells; the flags may differ. */
  ghost predicate Alike(a: State, b: State) {
    SameRegs(a.store, b.store) && SameCells(a.ops, b.ops)
  }

  predicate SameCells(a: seq<Op>, b: seq<Op>) {
    |a| == |b| && forall i :: 0 <= i < |a| ==> SameOp(a[i], b[i])
  }

  /** Every operation still flagged as a read carries what its register holds when its turn comes. */
  predicate Settled(s: Store, ops: seq<Op>)
    decreases |ops|
  {
    ops != [] ==>
      var before, op := ops[..|ops| - 1], ops[|ops| - 1];
      Settled(s, before) && (op.isRead ==> op.data == Lookup(Driver(s, before).store, op.Target()))
  }

  /** Issued as a write, with whatever flags, a batch leaves the registers and cells that the fallback
      leaves if and only if it is settled. */
  lemma {:induction false} WriteAgreesExactly(s: Store, ops: seq<Op>, cells: seq<Op>)
    requires SameCells(ops, cells)
    ensures Alike(Driver(s, ops), FallbackLoop(BatchWrite, s, cells)) <==> Settled(s, ops)
    ensures SameCells(Driver(s, ops).ops, FallbackLoop(BatchWrite, s, cells).ops) <==> Settled(s, ops)
    decreases |ops|
  {
    if ops != [] {
      var n := |ops| - 1;
      WriteAgreesExactly(s, ops[..n], cells[..n]);
      LastWriteAgrees(Driver(s, ops[..n]), ops[n], FallbackLoop(BatchWrite, s, cells[..n]), cells[n]);
    }
  }

  lemma BothStore(s: Store, t: Store, r: Reg, v: Word)
    requires SameRegs(s, t)
    ensures SameRegs(s[r := v], t[r := v])
  {
    var a: Store, b: Store := s[r := v], t[r := v];
    forall q
      ensures Lookup(a, q) == Lookup(b, q)
    {
      assert Lookup(s, q) == Lookup(t, q);
    }
  }

  /** Storing what is there already. */
  lemma StoreHeld(s: Store, t: Store, r: Reg, v: Word)
    requires SameRegs(s, t) && v == Lookup(s, r)
    ensures SameRegs(s, t[r := v])
  {
    forall q
      ensures Lookup(s, q) == Lookup(t[r := v], q)
    {
      assert Lookup(s, q) == Lookup(t, q);
    }
  }

  lemma LastWriteAgrees(d: State, op: Op, f: State, cell: Op)
    requires SameOp(op, cell) && |d.ops| == |f.ops|
    requires SameCells(d.ops, f.ops) ==> SameRegs(d.store, f.store)
    ensures var settled := op.isRead ==> op.data == Lookup(d.store, op.Target());
      && (SameCells(Execute(d, op).ops, Fallback(BatchWrite, f, cell).ops) <==> SameCells(d.ops, f.ops) && settled)
      && (SameCells(d.ops, f.ops) && settled ==> SameRegs(Execute(d, op).store, Fallback(BatchWrite, f, cell).store))
  {
    if SameRegs(d.store, f.store) {
      BothStore(d.store, f.store, op.Target(), op.data);
      if op.data == Lookup(d.store, op.Target()) {
        StoreHeld(d.store, f.store, op.Target(), op.data);
      }
    }
    var a, b := Execute(d, op).ops, Fallback(BatchWrite, f, cell).ops;
    assert a[..|d.ops|] == d.ops && b[..|f.ops|] == f.ops;
    assert SameCells(a, b) <==> SameCells(d.ops, f.ops) && SameOp(a[|d.ops|], b[|f.ops|]);
  }

  /** The fallback cannot tell stores apart that read the same. */
  lemma {:induction false} FallbackAlike(kind: Kind, s: Store, t: Store, cells: seq<Op>)
    requires SameRegs(s, t)
    ensures Alike(FallbackLoop(kind, s, cells), FallbackLoop(kind, t, cells))
    decreases |cells|
  {
    if cells != [] {
      var n := |cells| - 1;
      var f, g := FallbackLoop(kind, s, cells[..n]), FallbackLoop(kind, t, cells[..n]);
      FallbackAlike(kind, s, t, cells[..n]);
      BothStore(f.store, g.store, cells[n].Target(), cells[n].data);
      assert Lookup(f.store, cells[n].Target()) == Lookup(g.store, cells[n].Target());
    }
  }

  lemma AlikeThrough(a: State, b: State, c: State)
    requires Alike(b, c)
    ensures Alike(a, b) <==> Alike(a, c)
  {
  }

  /** Reading a batch keeps driver and fallback alike. */
  lemma ReadKeepsAlike(a: State, b: State)
    requires Alike(a, b) && Shaped(a.ops)
    ensures Alike(Step(true, a, Do(BatchRead)), Step(false, b, Do(BatchRead)))
  {
    var out := Issued(BatchRead, a.ops);
    IssuedKeeps(BatchRead, a.ops);
    IssuedFlags(BatchRead, a.ops);
    FallbackAlike(BatchRead, a.store, b.store, b.ops);
    DriverIsFallback(BatchRead, a.store, out, b.ops);
    AlikeThrough(Driver(a.store, out), FallbackLoop(BatchRead, a.store, b.ops), FallbackLoop(BatchRead, b.store, b.ops));
  }

  /** Writing a batch keeps them alike if and only if it is settled. */
  lemma WriteKeepsAlike(a: State, b: State)
    requires Alike(a, b)
    ensures Alike(Step(true, a, Do(BatchWrite)), Step(false, b, Do(BatchWrite)))
      <==> Settled(a.store, Issued(BatchWrite, a.ops))
  {
    var out := Issued(BatchWrite, a.ops);
    IssuedKeeps(BatchWrite, a.ops);
    assert SameCells(out, b.ops);
    FallbackAlike(BatchWrite, a.store, b.store, b.ops);
    WriteAgreesExactly(a.store, out, b.ops);
    AlikeThrough(Driver(a.store, out), FallbackLoop(BatchWrite, a.store, b.ops), FallbackLoop(BatchWrite, b.store, b.ops));
  }

  /** One event keeps driver and fallback alike if and only if it is not an unsettled write. */
  lemma StepAgreesExactly(a: State, b: State, e: Event)
    requires Alike(a, b) && Shaped(a.ops)
    ensures Alike(Step(true, a, e), Step(false, b, e))
      <==> (e == Do(BatchWrite) ==> Settled(a.store, Issued(BatchWrite, a.ops)))
  {
    if e == Do(BatchWrite) {
      WriteKeepsAlike(a, b);
    } else if e == Do(BatchRead) {
      ReadKeepsAlike(a, b);
    } else {
      assert SameCells(Step(true, a, e).ops, Step(false, b, e).ops);
      if e.Outside? {
        BothStore(a.store, b.store, e.reg, e.value);
      }
    }
  }

  /** Every write of the run is settled when it is issued. */
  predicate AllSettled(s: Store, trace: seq<Event>)
    decreases |trace|
  {
    trace != [] ==>
      var before := trace[..|trace| - 1];
      AllSettled(s, before) && (trace[|trace| - 1] == Do(BatchWrite) ==> SettledWrite(s, before))
  }

  predicate SettledWrite(s: Store, before: seq<Event>) {
    Settled(Run(true, s, before).store, Issued(BatchWrite, Run(true, s, before).ops))
  }

  ghost predicate AgreeAfter(s: Store, trace: seq<Event>) {
    Alike(Run(true, s, trace), Run(false, s, trace))
  }

  /** Driver and fallback cannot be told apart at the end of the run, nor at any time before. */
  ghost predicate AlwaysAgree(s: Store, trace: seq<Event>)
    decreases |trace|
  {
    AgreeAfter(s, trace) && (trace == [] || AlwaysAgree(s, trace[..|trace| - 1]))
  }

  /** A program cannot tell the fallback from the driver, at any time, if and only if every write it makes is
      settled: no operation it appended to a written batch carries anything but what its register holds. */
  lemma {:induction false} RunsAgreeExactly(s: Store, trace: seq<Event>)
    ensures AlwaysAgree(s, trace) <==> AllSettled(s, trace)
    decreases |trace|
  {
    if trace != [] {
      var n := |trace| - 1;
      var before := trace[..n];
      RunsAgreeExactly(s, before);
      FlagsOfRun(s, before);
      if AgreeAfter(s, before) {
        StepAgreesExactly(Run(true, s, before), Run(false, s, before), trace[n]);
      }
    }
  }

  /** Every write of the run goes out on a batch that is not stale. */
  predicate NoStaleWrite(trace: seq<Event>) {
    forall i :: 0 <= i < |trace| && trace[i] == Do(BatchWrite) ==> !Stale(trace[..i])
  }

  /** A write that is not stale is settled, so a program that never writes a stale batch cannot tell the
      fallback from the driver. */
  lemma {:induction false} RunsAgree(s: Store, trace: seq<Event>)
    requires NoStaleWrite(trace)
    ensures AllSettled(s, trace) && AlwaysAgree(s, trace)
    decreases |trace|
  {
    if trace != [] {
      NoStaleBefore(trace);
      RunsAgree(s, trace[..|trace| - 1]);
      if trace[|trace| - 1] == Do(BatchWrite) {
        FreshIsSettled(s, trace[..|trace| - 1]);
      }
    }
    RunsAgreeExactly(s, trace);
  }

  lemma NoStaleBefore(trace: seq<Event>)
    requires trace != [] && NoStaleWrite(trace)
    ensures NoStaleWrite(trace[..|trace| - 1])
    ensures trace[|trace| - 1] == Do(BatchWrite) ==> !Stale(trace[..|trace| - 1])
  {
    var before := trace[..|trace| - 1];
    forall i | 0 <= i < |before| && before[i] == Do(BatchWrite)
      ensures !Stale(before[..i])
    {
      assert before[..i] == trace[..i];
    }
  }

  lemma FreshIsSettled(s: Store, before: seq<Event>)
    requires !Stale(before)
    ensures SettledWrite(s, before)
  {
    FlagsOfRun(s, before);
    var ops := Run(true, s, before).ops;
    assert !Mixed(ops);
    IssuedFlags(BatchWrite, ops);
    WritesAreSettled(Run(true, s, before).store, Issued(BatchWrite, ops));
  }

  lemma {:induction false} WritesAreSettled(s: Store, ops: seq<Op>)
    requires AllFlags(ops, false)
    ensures Settled(s, ops)
    decreases |ops|
  {
    if ops != [] {
      WritesAreSettled(s, ops[..|ops| - 1]);
    }
  }

  lemma RunSnoc(viaDriver: bool, s: Store, t: seq<Event>, e: Event)
    ensures Run(viaDriver, s, t + [e]) == Step(viaDriver, Run(viaDriver, s, t), e)
  {
    assert (t + [e])[..|t|] == t;
  }

  /** A batch that was written once, then got a second operation and a value for it. */
  function StaleTrace(v: Word): seq<Event> {
    [Append(0, 1)] + [Do(BatchWrite)] + [Append(0, 2)] + [Poke(1, v)]
  }

  lemma StaleState(viaDriver: bool, v: Word)
    ensures Run(viaDriver, map[], StaleTrace(v))
         == State(map[Reg(0, 1) := Zero()], [NewOp(0, 1).WithFlag(!viaDriver), NewOp(0, 2).WithData(v)])
  {
    var a := [Append(0, 1)];
    var op := NewOp(0, 1);
    assert a[..0] == [];
    assert Run(viaDriver, map[], a) == State(map[], [op]);
    RunSnoc(viaDriver, map[], a, Do(BatchWrite));
    OneOp(map[], op.WithFlag(false));
    OneOp(map[], op);
    assert Issued(BatchWrite, [op]) == [op.WithFlag(false)];
    var b := a + [Do(BatchWrite)];
    assert Run(viaDriver, map[], b) == State(map[Reg(0, 1) := Zero()], [op.WithFlag(!viaDriver)]);
    RunSnoc(viaDriver, map[], b, Append(0, 2));
    RunSnoc(viaDriver, map[], b + [Append(0, 2)], Poke(1, v));
  }

  lemma OneOp(s: Store, op: Op)
    ensures Driver(s, [op]) == Execute(State(s, []), op)
    ensures FallbackLoop(BatchWrite, s, [op]) == Fallback(BatchWrite, State(s, []), op)
  {
    assert [op][..0] == [];
  }

  lemma StaleDriver(v: Word)
    ensures Lookup(Run(true, map[], StaleTrace(v) + [Do(BatchWrite)]).store, Reg(0, 2)) == Zero()
  {
    RunSnoc(true, map[], StaleTrace(v), Do(BatchWrite));
    StaleState(true, v);
    var p, q := NewOp(0, 1).WithFlag(false), NewOp(0, 2).WithData(v);
    assert [p, q][..1] == [p];
    OneOp(map[Reg(0, 1) := Zero()], p);
  }

  lemma StaleFallback(v: Word)
    ensures Lookup(Run(false, map[], StaleTrace(v) + [Do(BatchWrite)]).store, Reg(0, 2)) == v
  {
    RunSnoc(false, map[], StaleTrace(v), Do(BatchWrite));
    StaleState(false, v);
    var p, q := NewOp(0, 1), NewOp(0, 2).WithData(v);
    assert [p, q][..1] == [p];
    OneOp(map[Reg(0, 1) := Zero()], p);
  }

  /** The condition is needed: writing that batch again leaves the second register unwritten through
      the driver, and written through the fallback. */
  lemma StaleWriteDiffers(v: Word)
    requires v != Zero()
    ensures !AgreeAfter(map[], StaleTrace(v) + [Do(BatchWrite)])
  {
    StaleDriver(v);
    StaleFallback(v);
  }

  // ----- writing, then reading back

  /** Operations on the same register carry the same data. */
  predicate Consistent(ops: seq<Op>) {
    forall i, j :: 0 <= i < j < |ops| && ops[i].Target() == ops[j].Target() ==> ops[i].data == ops[j].data
  }

  lemma {:induction false} WritesKeepOps(s: Store, ops: seq<Op>)
    requires AllFlags(ops, false)
    ensures Driver(s, ops).ops == ops
    decreases |ops|
  {
    if ops != [] {
      WritesKeepOps(s, ops[..|ops| - 1]);
      assert ops[..|ops| - 1] + [ops[|ops| - 1]] == ops;
    }
  }

  /** A register that no operation names keeps its value. */
  lemma {:induction false} WritesElse(s: Store, ops: seq<Op>, r: Reg)
    requires AllFlags(ops, false) && forall i :: 0 <= i < |ops| ==> ops[i].Target() != r
    ensures Lookup(Driver(s, ops).store, r) == Lookup(s, r)
    decreases |ops|
  {
    if ops != [] {
      WritesElse(s, ops[..|ops| - 1], r);
    }
  }

  lemma {:induction false} WritesStore(s: Store, ops: seq<Op>)
    requires AllFlags(ops, false) && Consistent(ops)
    ensures forall i :: 0 <= i < |ops| ==> Lookup(Driver(s, ops).store, ops[i].Target()) == ops[i].data
    decreases |ops|
  {
    if ops != [] {
      WritesStore(s, ops[..|ops| - 1]);
    }
  }

  lemma {:induction false} ReadsLoad(s: Store, ops: seq<Op>)
    requires AllFlags(ops, true)
    ensures Driver(s, ops).store == s
    ensures forall i :: 0 <= i < |ops| ==> Driver(s, ops).ops[i] == ops[i].WithData(Lookup(s, ops[i].Target()))
    decreases |ops|
  {
    if ops != [] {
      ReadsLoad(s, ops[..|ops| - 1]);
    }
  }

  lemma IssuedKeeps(kind: Kind, ops: seq<Op>)
    ensures forall i :: 0 <= i < |ops| ==> SameOp(Issued(kind, ops)[i], ops[i])
    ensures forall i :: 0 <= i < |ops| ==> Issued(kind, ops)[i].Target() == ops[i].Target()
    ensures Consistent(Issued(kind, ops)) <==> Consistent(ops)
  {
    var r := Issued(kind, ops);
    assert forall i :: 0 <= i < |ops| ==> r[i].data == ops[i].data && r[i].Target() == ops[i].Target();
  }

  // ----- batches with flags of one kind

  predicate Uniform(ops: seq<Op>) {
    AllFlags(ops, true) || AllFlags(ops, false)
  }

  lemma {:induction false} FallbackKeeps(kind: Kind, s: Store, ops: seq<Op>)
    ensures var r := FallbackLoop(kind, s, ops).ops;
      forall i :: 0 <= i < |ops| ==> r[i] == ops[i].WithData(r[i].data)
    decreases |ops|
  {
    if ops != [] {
      FallbackKeeps(kind, s, ops[..|ops| - 1]);
    }
  }

  lemma UniformFlags(ops: seq<Op>, kept: seq<Op>)
    requires Uniform(ops) && |kept| == |ops|
    requires forall i :: 0 <= i < |ops| ==> kept[i].isRead == ops[i].isRead
    ensures Uniform(kept)
  {
    assert forall flag: bool :: AllFlags(ops, flag) ==> AllFlags(kept, flag);
  }

  lemma UniformIssued(kind: Kind, ops: seq<Op>)
    requires Uniform(ops)
    ensures AllFlags(Issued(kind, ops), kind.BatchRead?)
  {
    IssuedFlags(kind, ops);
  }

  lemma StepKeepsUniform(viaDriver: bool, st: State, kind: Kind)
    requires Uniform(st.ops)
    ensures Uniform(Step(viaDriver, st, Do(kind)).ops)
  {
    if viaDriver {
      UniformIssued(kind, st.ops);
      DriverKeeps(st.store, Issued(kind, st.ops));
      if st.ops != [] {
        UniformFlags(Issued(kind, st.ops), Driver(st.store, Issued(kind, st.ops)).ops);
      }
    } else {
      FallbackKeeps(kind, st.store, st.ops);
      UniformFlags(st.ops, FallbackLoop(kind, st.store, st.ops).ops);
    }
  }

  lemma StepIsDriver(viaDriver: bool, st: State, kind: Kind)
    requires Uniform(st.ops)
    ensures Same(Step(viaDriver, st, Do(kind)), Driver(st.store, Issued(kind, st.ops)))
  {
    UniformIssued(kind, st.ops);
    IssuedKeeps(kind, st.ops);
    DriverIsFallback(kind, st.store, Issued(kind, st.ops), st.ops);
  }

  /** Reading such a batch, with or without the driver: every cell gets its register. */
  lemma ReadUniform(viaDriver: bool, st: State)
    requires Uniform(st.ops)
    ensures var r := Step(viaDriver, st, Do(BatchRead));
      && r.store == st.store && |r.ops| == |st.ops| && Uniform(r.ops)
      && forall i :: 0 <= i < |st.ops| ==>
           r.ops[i].Target() == st.ops[i].Target() && r.ops[i].data == Lookup(st.store, st.ops[i].Target())
  {
    StepIsDriver(viaDriver, st, BatchRead);
    StepKeepsUniform(viaDriver, st, BatchRead);
    UniformIssued(BatchRead, st.ops);
    IssuedKeeps(BatchRead, st.ops);
    ReadsLoad(st.store, Issued(BatchRead, st.ops));
  }

  /** Writing such a batch changes no cell. */
  lemma WriteKeepsCells(viaDriver: bool, st: State)
    requires Uniform(st.ops)
    ensures var r := Step(viaDriver, st, Do(BatchWrite));
      && |r.ops| == |st.ops| && Uniform(r.ops)
      && forall i :: 0 <= i < |st.ops| ==> r.ops[i].Target() == st.ops[i].Target() && r.ops[i].data == st.ops[i].data
  {
    var out := Issued(BatchWrite, st.ops);
    var r := Step(viaDriver, st, Do(BatchWrite));
    StepKeepsUniform(viaDriver, st, BatchWrite);
    assert SameCells(r.ops, out) by {
      StepIsDriver(viaDriver, st, BatchWrite);
      UniformIssued(BatchWrite, st.ops);
      WritesKeepOps(st.store, out);
    }
    IssuedKeeps(BatchWrite, st.ops);
    SameContents(r.ops, out, st.ops);
  }

  lemma SameContents(a: seq<Op>, b: seq<Op>, c: seq<Op>)
    requires SameCells(a, b) && SameCells(b, c)
    ensures forall i :: 0 <= i < |c| ==> a[i].Target() == c[i].Target() && a[i].data == c[i].data
  {
    forall i | 0 <= i < |c|
      ensures a[i].Target() == c[i].Target() && a[i].data == c[i].data
    {
      assert SameOp(a[i], b[i]) && SameOp(b[i], c[i]);
    }
  }

  /** Writing such a batch, with or without the driver: every register gets its cell, and no other
      register changes. */
  lemma WriteUniform(viaDriver: bool, st: State)
    requires Uniform(st.ops) && Consistent(st.ops)
    ensures var r := Step(viaDriver, st, Do(BatchWrite));
      && |r.ops| == |st.ops| && Uniform(r.ops)
      && (forall i :: 0 <= i < |st.ops| ==>
            && r.ops[i].Target() == st.ops[i].Target() && r.ops[i].data == st.ops[i].data
            && Lookup(r.store, st.ops[i].Target()) == st.ops[i].data)
      && forall q :: (forall i :: 0 <= i < |st.ops| ==> st.ops[i].Target() != q) ==> Lookup(r.store, q) == Lookup(st.store, q)
  {
    WriteKeepsCells(viaDriver, st);
    WriteStores(st.store, st.ops);
    StepIsDriver(viaDriver, st, BatchWrite);
  }

  /** What issuing such a batch as a write does to the registers. */
  lemma {:induction false} WriteStores(s: Store, ops: seq<Op>)
    requires Uniform(ops) && Consistent(ops)
    ensures var after := Driver(s, Issued(BatchWrite, ops)).store;
      && (forall i :: 0 <= i < |ops| ==> Lookup(after, ops[i].Target()) == ops[i].data)
      && forall q :: (forall i :: 0 <= i < |ops| ==> ops[i].Target() != q) ==> Lookup(after, q) == Lookup(s, q)
  {
    var out := Issued(BatchWrite, ops);
    UniformIssued(BatchWrite, ops);
    IssuedKeeps(BatchWrite, ops);
    assert forall i :: 0 <= i < |ops| ==> out[i].data == ops[i].data;
    WritesStore(s, out);
    forall q | forall i :: 0 <= i < |ops| ==> ops[i].Target() != q
      ensures Lookup(Driver(s, out).store, q) == Lookup(s, q)
    {
      WritesElse(s, out, q);
    }
  }

  /** Writing such a batch and reading it back returns the written data, with or without the driver, if and only
      if operations on the same register carry the same data; distinct registers are a special case. */
  lemma ReadBack(viaDriver: bool, st: State)
    requires Uniform(st.ops)
    ensures var back := Step(viaDriver, Step(viaDriver, st, Do(BatchWrite)), Do(BatchRead));
      |back.ops| == |st.ops|
      && ((forall i :: 0 <= i < |st.ops| ==> back.ops[i].data == st.ops[i].data) <==> Consistent(st.ops))
  {
    var written := Step(viaDriver, st, Do(BatchWrite));
    WriteKeepsCells(viaDriver, st);
    ReadUniform(viaDriver, written);
    if Consistent(st.ops) {
      WriteUniform(viaDriver, st);
    }
  }

  /** A value stored to a cell and written with its batch is what its register holds, with or without the driver;
      the registers of the other operations hold their cells, and the batch reads the value back. */
  lemma StoredIsWritten(viaDriver: bool, st: State, i: nat, v: Word)
    requires Uniform(st.ops) && i < |st.ops|
    requires forall j, k :: 0 <= j < k < |st.ops| ==> st.ops[j].Target() != st.ops[k].Target()
    ensures var r := Step(viaDriver, Step(viaDriver, st, Poke(i, v)), Do(BatchWrite));
      && |r.ops| == |st.ops| && r.ops[i].data == v && Lookup(r.store, st.ops[i].Target()) == v
      && forall j :: 0 <= j < |st.ops| && j != i ==>
           r.ops[j].data == st.ops[j].data && Lookup(r.store, st.ops[j].Target()) == st.ops[j].data
  {
    var poked := Step(viaDriver, st, Poke(i, v));
    UniformFlags(st.ops, poked.ops);
    WriteUniform(viaDriver, poked);
    assert poked.ops[i].Target() == st.ops[i].Target() && poked.ops[i].data == v;
    forall j | 0 <= j < |st.ops| && j != i
      ensures poked.ops[j] == st.ops[j]
    {
    }
  }

  /** A register that changed outside the batch is what the next read of the batch finds. */
  lemma OutsideIsRead(viaDriver: bool, st: State, i: nat, v: Word)
    requires Uniform(st.ops) && i < |st.ops|
    ensures var r := Step(viaDriver, Step(viaDriver, st, Outside(st.ops[i].Target(), v)), Do(BatchRead));
      |r.ops| == |st.ops| && r.ops[i].data == v
  {
    ReadUniform(viaDriver, Step(viaDriver, st, Outside(st.ops[i].Target(), v)));
  }
}
