/** The growable table of operation arrays shared by src/msr_core.c and src/csr_core.c, which hands
    out pointers to the data cells inside the arrays. */
module BatchTables {
  import opened Words

  /** The pointer &ops[index].msrdata. */
  datatype Dest<T> = Dest(ops: array<T>, index: nat)

  /** struct msr_batch_array */
  datatype BatchArray<T> = BatchArray(numops: nat, ops: array?<T>)
  {
    /** The operations fit the memory allocated for `size` of them. */
    ghost predicate Fits(size: nat) {
      if ops == null then numops == 0 else ops.Length == size && numops <= size
    }
  }

  /** A destination handed out, and the batch it was handed out for. */
  datatype Handed<T> = Handed(batchnum: nat, dest: Dest<T>)

  class BatchTable<T(0)> {
    var init: bool
    var batch: seq<BatchArray<T>>
    var size: seq<nat>
    // csr_core.c refuses an operation as soon as the batch is full; msr_core.c one operation later,
    // after writing past the end.
    const strict: bool
    // The size recorded for a batch that has not been allocated.
    const defaultSize: nat
    // What calloc leaves in an operation.
    const blank: T

    // The operations of each batch, every destination handed out so far (oldest first), and the
    // memory in use.
    ghost var model: seq<seq<T>>
    ghost var handed: seq<Handed<T>>
    ghost var repr: set<array<T>>

    ghost predicate Valid()
      reads this, repr
    {
      && |batch| == |size| == |model|
      && (forall b :: 0 <= b < |batch| ==> batch[b].numops == |model[b]| && batch[b].Fits(size[b]))
      && (forall b :: 0 <= b < |batch| && batch[b].ops != null ==>
            batch[b].ops in repr && batch[b].ops[..|model[b]|] == model[b])
      && (forall b, c :: 0 <= b < c < |batch| && batch[b].ops != null ==> batch[b].ops != batch[c].ops)
      && (forall h :: 0 <= h < |handed| ==> Aliases(handed[h], batch))
      && (forall h, k :: 0 <= h < k < |handed| ==> handed[h].dest != handed[k].dest)
    }

    predicate Allocated(b: nat)
      reads this
    {
      b < |batch| && batch[b].ops != null
    }

    constructor (strict: bool, defaultSize: nat, blank: T)
      ensures Valid() && !init && batch == [] && handed == [] && repr == {}
      ensures this.strict == strict && this.blank == blank
    {
      this.strict, this.defaultSize, this.blank := strict, defaultSize, blank;
      init, batch, size, model, handed, repr := false, [], [], [], [], {};
    }

    /** batch_storage: the table grows to hold the batch, and no batch in it changes. */
    method BatchStorage(batchnum: nat)
      requires Valid()
      modifies this
      ensures Valid() && handed == old(handed) && repr == old(repr)
      ensures |batch| == if |old(batch)| > batchnum then |old(batch)| else batchnum + 1
      ensures old(batch) <= batch && old(size) <= size && old(model) <= model
      ensures forall b :: |old(batch)| <= b < |batch| ==> batch[b] == BatchArray(0, null)
    {
      var arrsize := |batch|;
      if !init {
        arrsize := if batchnum + 1 > arrsize then batchnum + 1 else arrsize;
        init := true;
      }
      if batchnum + 1 > arrsize {
        arrsize := batchnum + 1;
      }
      while |batch| < arrsize
        invariant init && Valid() && handed == old(handed) && repr == old(repr) && |batch| <= arrsize
        invariant old(batch) <= batch && old(size) <= size && old(model) <= model
        invariant forall b :: |old(batch)| <= b < |batch| ==> batch[b] == BatchArray(0, null)
        decreases arrsize - |batch|
      {
        AddEntry();
      }
    }

    /** One more entry of the table. */
    method AddEntry()
      requires Valid()
      modifies this`batch, this`size, this`model
      ensures Valid() && batch == old(batch) + [BatchArray(0, null)]
      ensures size == old(size) + [defaultSize] && model == old(model) + [[]]
    {
      batch, size, model := batch + [BatchArray(0, null)], size + [defaultSize], model + [[]];
    }

    /** allocate_batch, for a batch that has not been allocated before. */
    method AllocateBatch(batchnum: nat, bsize: nat)
      requires Valid() && !Allocated(batchnum)
      modifies this
      ensures Valid() && handed == old(handed)
      ensures Allocated(batchnum) && repr == old(repr) + {batch[batchnum].ops} && fresh(batch[batchnum].ops)
      ensures |batch| >= |old(batch)| && size[batchnum] == bsize && model[batchnum] == []
      ensures forall b :: 0 <= b < |old(batch)| && b != batchnum ==>
        b < |batch| && batch[b] == old(batch[b]) && size[b] == old(size[b]) && model[b] == old(model[b])
      ensures forall b :: |old(batch)| <= b < |batch| && b != batchnum ==> batch[b] == BatchArray(0, null)
    {
      BatchStorage(batchnum);
      var cells := new T[bsize](_ => blank);
      size := size[batchnum := bsize];
      batch := batch[batchnum := BatchArray(batch[batchnum].numops, cells)];
      repr := repr + {cells};
    }

    /** create_batch_op and create_csr_batch_op: with room, the operation goes into the next cell, and the
        pointer handed out is to that cell. A refusal changes nothing. Past the end C says nothing of what
        the program does from there on; the model stops before the write. */
    method CreateOp(op: T, batchnum: nat) returns (outcome: Outcome, dest: Option<Dest<T>>)
      requires Valid() && Allocated(batchnum)
      modifies this, repr
      ensures Valid() && repr == old(repr) && size == old(size) && |batch| == |old(batch)|
      ensures forall b :: 0 <= b < |batch| ==> batch[b].ops == old(batch[b].ops)
      ensures outcome == Guard(strict, |old(model[batchnum])|, size[batchnum])
      ensures outcome == Written ==>
        && dest == Some(Dest(batch[batchnum].ops, |old(model[batchnum])|))
        && model == old(model)[batchnum := old(model[batchnum]) + [op]]
        && handed == old(handed) + [Handed(batchnum, dest.value)]
      ensures outcome != Written ==> dest == None && model == old(model) && handed == old(handed)
    {
      BatchStorage(batchnum);
      var cells, n := batch[batchnum].ops, batch[batchnum].numops;
      if (if strict then n >= size[batchnum] else n > size[batchnum]) {
        return Refused, None;
      }
      if n >= cells.Length {
        return PastEnd, None;
      }
      batch := batch[batchnum := BatchArray(n + 1, cells)];
      cells[n] := op;
      model := model[batchnum := model[batchnum] + [op]];
      handed := handed + [Handed(batchnum, Dest(cells, n))];
      assert cells[..n + 1] == cells[..n] + [op];
      return Written, Some(Dest(cells, n));
    }

    /** A whole run of allocations and creations, over any batches and any growth of the table, up to a write
        past the end if there is one. Without one the table holds what the run says; every destination handed
        out is still the cell of the operation it was handed out for, and no two are the same. */
    method RunScript(script: seq<Request<T>>) returns (inside: bool, dests: seq<Option<Dest<T>>>)
      requires Valid() && batch == [] && repr == {} && handed == [] && Proper(script)
      modifies this
      ensures Valid() && inside == After(strict, script).Some?
      ensures inside <==> strict || Fitting(script)
      ensures inside ==> Holds(After(strict, script).value, batch, size, model) && |dests| == |script|
      ensures inside ==> forall k :: 0 <= k < |script| && dests[k].Some? ==> Points(dests[k].value, script[k])
      ensures inside ==> forall j, k :: 0 <= j < k < |script| && dests[j].Some? && dests[k].Some? ==> dests[j] != dests[k]
      ensures inside && !strict ==> forall k :: 0 <= k < |script| && script[k].Create? ==> dests[k].Some?
    {
      inside, dests := Replay(script);
      if inside {
        forall k | 0 <= k < |script| && dests[k].Some?
          ensures Points(dests[k].value, script[k])
        {
          RecordedPoints(script[k], dests[k].value);
        }
      }
      if strict {
        StrictStaysInside(script);
      } else {
        InsideExactly(script);
      }
    }

    /** The run was carried out, and stayed inside its memory. */
    ghost predicate Done(script: seq<Request<T>>, dests: seq<Option<Dest<T>>>)
      requires Proper(script)
      reads this, repr
    {
      && Valid() && After(strict, script).Some? && Holds(After(strict, script).value, batch, size, model)
      && |dests| == |script| && AllRecorded(strict, script, dests, Table(batch, model, handed))
    }

    method Replay(script: seq<Request<T>>) returns (inside: bool, dests: seq<Option<Dest<T>>>)
      requires Valid() && batch == [] && repr == {} && handed == [] && Proper(script)
      modifies this
      ensures Valid() && fresh(repr) && inside == After(strict, script).Some?
      ensures inside ==> Done(script, dests)
      decreases |script|
    {
      if script == [] {
        return true, [];
      }
      inside, dests := Replay(script[..|script| - 1]);
      if inside {
        var dest;
        inside, dest := Next(script, dests, After(strict, script[..|script| - 1]).value);
        dests := dests + [dest];
      }
    }

    /** The next request of a run. */
    method Next(script: seq<Request<T>>, ghost dests: seq<Option<Dest<T>>>, ghost m: map<nat, Usage<T>>)
      returns (inside: bool, dest: Option<Dest<T>>)
      requires Valid() && Holds(m, batch, size, model) && script != [] && |dests| == |script| - 1
      requires Allowed(m.Keys, script[|script| - 1])
      requires AllRecorded(strict, script[..|script| - 1], dests, Table(batch, model, handed))
      modifies this, repr
      ensures Valid() && fresh(repr - old(repr)) && inside == AfterOne(strict, m, script[|script| - 1]).Some?
      ensures inside ==> Holds(AfterOne(strict, m, script[|script| - 1]).value, batch, size, model)
      ensures inside ==> AllRecorded(strict, script, dests + [dest], Table(batch, model, handed))
    {
      ghost var before := Table(batch, model, handed);
      inside, dest := Perform(script[|script| - 1], m);
      if inside {
        RecordedStep(strict, script, dests, dest, before, Table(batch, model, handed));
      }
    }

    /** The destination is a cell, which holds the requested operation. */
    ghost predicate Points(dest: Dest<T>, r: Request<T>)
      reads dest.ops
    {
      r.Create? && dest.index < dest.ops.Length && dest.ops[dest.index] == r.op
    }

    lemma RecordedPoints(r: Request<T>, dest: Dest<T>)
      requires Valid() && Recorded(r, dest, Table(batch, model, handed))
      ensures Points(dest, r)
    {
      assert batch[r.batchnum].ops[..|model[r.batchnum]|][dest.index] == r.op;
    }

    method Perform(r: Request<T>, ghost m: map<nat, Usage<T>>) returns (inside: bool, dest: Option<Dest<T>>)
      requires Valid() && Holds(m, batch, size, model) && Allowed(m.Keys, r)
      modifies this, repr
      ensures Valid() && fresh(repr - old(repr)) && inside == AfterOne(strict, m, r).Some?
      ensures inside ==> Holds(AfterOne(strict, m, r).value, batch, size, model)
      ensures inside ==> Extends(Table(old(batch), old(model), old(handed)), Table(batch, model, handed), r, dest)
      ensures inside && r.Create? && !strict ==> dest.Some?
    {
      match r {
        case Allocate(b, n) =>
          AllocateBatch(b, n);
          inside, dest := true, None;
        case Create(b, op) =>
          inside, dest := PerformCreate(r, m);
      }
    }

    method PerformCreate(r: Request<T>, ghost m: map<nat, Usage<T>>) returns (inside: bool, dest: Option<Dest<T>>)
      requires Valid() && Holds(m, batch, size, model) && Allowed(m.Keys, r) && r.Create?
      modifies this, repr
      ensures Valid() && repr == old(repr) && inside == AfterOne(strict, m, r).Some?
      ensures inside ==> Holds(AfterOne(strict, m, r).value, batch, size, model)
      ensures inside ==> Extends(Table(old(batch), old(model), old(handed)), Table(batch, model, handed), r, dest)
      ensures inside && !strict ==> dest.Some?
    {
      var outcome;
      outcome, dest := CreateOp(r.op, r.batchnum);
      inside := outcome != PastEnd;
    }
  }

  // ----- the pointers of a run

  datatype Table<T> = Table(batch: seq<BatchArray<T>>, model: seq<seq<T>>, handed: seq<Handed<T>>)

  /** What one request may do to the table: memory stays where it is, operations stay in place, and a
      destination handed out is the new cell. */
  ghost predicate Extends<T>(t: Table<T>, u: Table<T>, r: Request<T>, dest: Option<Dest<T>>) {
    && |t.batch| == |t.model| <= |u.batch| == |u.model|
    && (forall b :: 0 <= b < |t.batch| ==> t.model[b] <= u.model[b])
    && (forall b :: 0 <= b < |t.batch| && t.batch[b].ops != null ==> u.batch[b].ops == t.batch[b].ops)
    && match dest
       case None => u.handed == t.handed
       case Some(d) => u.handed == t.handed + [Handed(r.batchnum, d)] && r.Create? && Recorded(r, d, u)
  }

  /** The destination was handed out for the request, and its batch has the operation there. */
  ghost predicate Recorded<T>(r: Request<T>, dest: Dest<T>, t: Table<T>) {
    && r.Create? && Handed(r.batchnum, dest) in t.handed
    && r.batchnum < |t.model| == |t.batch| && dest.ops == t.batch[r.batchnum].ops
    && dest.index < |t.model[r.batchnum]| && t.model[r.batchnum][dest.index] == r.op
  }

  ghost predicate AllRecorded<T>(strict: bool, script: seq<Request<T>>, dests: seq<Option<Dest<T>>>, t: Table<T>) {
    && |dests| <= |script|
    && (forall k :: 0 <= k < |dests| && script[k].Create? && !strict ==> dests[k].Some?)
    && (forall k :: 0 <= k < |dests| && dests[k].Some? ==> Recorded(script[k], dests[k].value, t))
    && (forall j, k :: 0 <= j < k < |dests| && dests[j].Some? && dests[k].Some? ==> dests[j] != dests[k])
  }

  lemma RecordedStep<T>(strict: bool, script: seq<Request<T>>, dests: seq<Option<Dest<T>>>, dest: Option<Dest<T>>, t: Table<T>, u: Table<T>)
    requires |dests| < |script| && AllRecorded(strict, script, dests, t) && Extends(t, u, script[|dests|], dest)
    requires script[|dests|].Create? && !strict ==> dest.Some?
    requires forall h, k :: 0 <= h < k < |u.handed| ==> u.handed[h].dest != u.handed[k].dest
    ensures AllRecorded(strict, script, dests + [dest], u)
  {
    forall k | 0 <= k < |dests| && dests[k].Some?
      ensures Recorded(script[k], dests[k].value, u) && dests[k] != dest
    {
      var h :| 0 <= h < |t.handed| && t.handed[h] == Handed(script[k].batchnum, dests[k].value);
      assert u.handed[h] == t.handed[h];
      if dest.Some? {
        assert u.handed[|t.handed|].dest == dest.value;
      }
    }
  }

  /** The destination is the cell of an operation of its own batch. */
  ghost predicate Aliases<T>(h: Handed<T>, batch: seq<BatchArray<T>>) {
    h.batchnum < |batch| && h.dest.ops == batch[h.batchnum].ops && h.dest.index < batch[h.batchnum].numops
  }

  /** The table holds exactly the batches of m. */
  ghost predicate Holds<T>(m: map<nat, Usage<T>>, batch: seq<BatchArray<T>>, size: seq<nat>, model: seq<seq<T>>)
    requires |batch| == |size| == |model|
  {
    && (forall b :: b in m ==> b < |batch| && m[b] == Usage(size[b], model[b]))
    && (forall b :: 0 <= b < |batch| ==> (batch[b].ops != null <==> b in m))
  }

  // ----- what a run leaves in the table

  datatype Request<T> = Allocate(batchnum: nat, bsize: nat) | Create(batchnum: nat, op: T)

  /** An allocated batch: its capacity and its operations. */
  datatype Usage<T> = Usage(size: nat, ops: seq<T>)

  /** What becomes of an operation: the guard refuses it, it is written into its batch, or it is written past
      the end of the batch's memory. */
  datatype Outcome = Refused | Written | PastEnd

  /** The guards of csr_core.c (strict) and msr_core.c for a batch of the given size. */
  function Guard(strict: bool, numops: nat, size: nat): Outcome {
    if numops < size then Written
    else if strict || numops > size then Refused
    else PastEnd
  }

  /** The batches after one more request, or None when an operation is written past the end. */
  function AfterOne<T>(strict: bool, m: map<nat, Usage<T>>, r: Request<T>): (after: Option<map<nat, Usage<T>>>)
    requires Allowed(m.Keys, r)
    ensures after.Some? ==> after.value.Keys == m.Keys + {r.batchnum}
  {
    match r
    case Allocate(b, n) => Some(m[b := Usage(n, [])])
    case Create(b, op) =>
      match Guard(strict, |m[b].ops|, m[b].size)
      case Written => Some(m[b := Usage(m[b].size, m[b].ops + [op])])
      case Refused => Some(m)
      case PastEnd => None
  }

  /** A batch is allocated once, and before operations are created in it. */
  predicate Allowed<T>(present: set<nat>, r: Request<T>) {
    if r.Allocate? then r.batchnum !in present else r.batchnum in present
  }

  /** The batches a run allocates, and their sizes. */
  function Sizes<T>(script: seq<Request<T>>): map<nat, nat>
    decreases |script|
  {
    if script == [] then map[]
    else
      var before, r := Sizes(script[..|script| - 1]), script[|script| - 1];
      if r.Allocate? then before[r.batchnum := r.bsize] else before
  }

  predicate Proper<T>(script: seq<Request<T>>)
    decreases |script|
  {
    script != [] ==>
      Proper(script[..|script| - 1]) && Allowed(Sizes(script[..|script| - 1]).Keys, script[|script| - 1])
  }

  function After<T>(strict: bool, script: seq<Request<T>>): (after: Option<map<nat, Usage<T>>>)
    requires Proper(script)
    ensures after.Some? ==> after.value.Keys == Sizes(script).Keys
    decreases |script|
  {
    if script == [] then Some(map[])
    else
      match After(strict, script[..|script| - 1])
      case None => None
      case Some(m) => AfterOne(strict, m, script[|script| - 1])
  }

  // ----- when a run stays inside its memory

  /** How many operations a run creates in a batch. */
  function Created<T>(script: seq<Request<T>>, b: nat): nat
    decreases |script|
  {
    if script == [] then 0
    else
      var r := script[|script| - 1];
      Created(script[..|script| - 1], b) + if r.Create? && r.batchnum == b then 1 else 0
  }

  /** No batch receives more operations than its size. */
  predicate Fitting<T>(script: seq<Request<T>>) {
    forall b :: b in Sizes(script) ==> Created(script, b) <= Sizes(script)[b]
  }

  lemma {:induction false} NothingBeforeAllocation<T>(script: seq<Request<T>>, b: nat)
    requires Proper(script) && b !in Sizes(script)
    ensures Created(script, b) == 0
    decreases |script|
  {
    if script != [] {
      NothingBeforeAllocation(script[..|script| - 1], b);
    }
  }

  /** A batch holds the operations created in it, as far as they are accepted. */
  ghost predicate Filled<T>(strict: bool, script: seq<Request<T>>, m: map<nat, Usage<T>>) {
    && m.Keys == Sizes(script).Keys
    && forall b :: b in m ==>
         && m[b].size == Sizes(script)[b]
         && |m[b].ops| == if strict && Created(script, b) > m[b].size then m[b].size else Created(script, b)
  }

  lemma {:induction false} FilledNext<T>(strict: bool, script: seq<Request<T>>, m: map<nat, Usage<T>>)
    requires Proper(script) && script != [] && Filled(strict, script[..|script| - 1], m)
    requires !strict ==> Fitting(script[..|script| - 1])
    ensures var after := AfterOne(strict, m, script[|script| - 1]);
      && (after.Some? ==> Filled(strict, script, after.value))
      && (strict ==> after.Some?) && (!strict ==> (after.Some? <==> Fitting(script)))
  {
    var before, r := script[..|script| - 1], script[|script| - 1];
    if r.Allocate? {
      NothingBeforeAllocation(before, r.batchnum);
    } else {
      assert Sizes(script) == Sizes(before);
      assert Created(script, r.batchnum) == Created(before, r.batchnum) + 1;
    }
  }

  /** The loose engine stays inside its memory, over every run, if and only if no batch receives more
      operations than its size. */
  lemma {:induction false} InsideExactly<T>(script: seq<Request<T>>)
    requires Proper(script)
    ensures After(false, script).Some? <==> Fitting(script)
    ensures After(false, script).Some? ==> Filled(false, script, After(false, script).value)
    decreases |script|
  {
    if script != [] {
      var before := script[..|script| - 1];
      InsideExactly(before);
      FittingBefore(script);
      if Fitting(before) {
        FilledNext(false, script, After(false, before).value);
      }
    }
  }

  lemma FittingBefore<T>(script: seq<Request<T>>)
    requires Proper(script) && script != []
    ensures Fitting(script) ==> Fitting(script[..|script| - 1])
  {
    var before, r := script[..|script| - 1], script[|script| - 1];
    forall b | b in Sizes(before)
      ensures b in Sizes(script) && Sizes(script)[b] == Sizes(before)[b] && Created(before, b) <= Created(script, b)
    {
    }
  }

  /** The strict engine always does, and holds as many as fit. */
  lemma {:induction false} StrictStaysInside<T>(script: seq<Request<T>>)
    requires Proper(script)
    ensures After(true, script).Some? && Filled(true, script, After(true, script).value)
    decreases |script|
  {
    if script != [] {
      var before := script[..|script| - 1];
      StrictStaysInside(before);
      FilledNext(true, script, After(true, before).value);
    }
  }
}
