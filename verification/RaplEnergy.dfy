/** Energy accounting of src/msr_rapl.c: read_rapl_data, delta_rapl_data and poll_rapl_data over
    32-bit energy counters that wrap, against the energy the counters stand for. */
module RaplEnergy {
  import opened Arithmetic
  import opened Words
  import RaplUnits

  // UINT_MAX, which the source adds for a wrap, and the size of a full counter revolution.
  const UINT_MAX: nat := 0xFFFF_FFFF
  const REVOLUTION: nat := 0x1_0000_0000

  /** struct timeval */
  datatype Time = Time(sec: int, usec: int)

  function Elapsed(before: Time, now: Time): real {
    (now.sec - before.sec) as real + (now.usec - before.usec) as real / 1000000.0
  }

  /** What one poll finds: the time, and the two energy counters of a socket. */
  datatype Sample = Sample(time: Time, pkg: nat, dram: nat)

  /** Energy units in a joule, of the package and of the DRAM counter of a socket. */
  datatype EnergyUnits = EnergyUnits(pkg: real, dram: real)

  predicate ValidUnits(u: EnergyUnits) {
    u.pkg > 0.0 && u.dram > 0.0
  }

  /** translate for BITS_TO_JOULES_DRAM: some server models count DRAM energy in units of 1/65536 J. */
  function DramUnit(model: nat, joules: real): real {
    if model == 0x3F || model == 0x4F || model == 0x55 then 65536.0 else joules
  }

  /** The entries of struct rapl_data for one socket. */
  datatype Socket = Socket(
    pkgBits: nat, oldPkgBits: nat, pkgJoules: real, oldPkgJoules: real, pkgDelta: real, pkgWatts: real,
    dramBits: nat, oldDramBits: nat, dramJoules: real, oldDramJoules: real, dramDelta: real, dramWatts: real)

  const BLANK := Socket(0, 0, 0.0, 0.0, 0.0, 0.0, 0, 0, 0.0, 0.0, 0.0, 0.0)

  // ----- one socket, as the source computes it

  /** The first call of read_rapl_data clears the energies. */
  function Cleared(k: Socket): Socket {
    k.(pkgJoules := 0.0, oldPkgJoules := 0.0, dramJoules := 0.0, oldDramJoules := 0.0)
  }

  /** Later calls move the current entries to the old ones. */
  function Moved(k: Socket): Socket {
    k.(oldPkgBits := k.pkgBits, oldPkgJoules := k.pkgJoules, oldDramBits := k.dramBits, oldDramJoules := k.dramJoules)
  }

  /** Reading the batch fills the cells. */
  function Loaded(k: Socket, x: Sample): Socket {
    k.(pkgBits := x.pkg, dramBits := x.dram)
  }

  function Translated(u: EnergyUnits, k: Socket): Socket
    requires ValidUnits(u)
  {
    k.(pkgJoules := k.pkgBits as real / u.pkg, dramJoules := k.dramBits as real / u.dram)
  }

  /** read_rapl_data */
  function ReadSocket(again: bool, u: EnergyUnits, k: Socket, x: Sample): Socket
    requires ValidUnits(u)
  {
    Translated(u, Loaded(if again then Moved(k) else Cleared(k), x))
  }

  function PkgDelta(u: EnergyUnits, k: Socket): real
    requires ValidUnits(u)
  {
    if k.pkgBits < k.oldPkgBits then (k.pkgBits + UINT_MAX - k.oldPkgBits) as real / u.pkg
    else k.pkgJoules - k.oldPkgJoules
  }

  /** On a DRAM wrap the source adds UINT_MAX as joules. */
  function DramDelta(k: Socket): real {
    if k.dramJoules - k.oldDramJoules < 0.0 then k.dramJoules + UINT_MAX as real - k.oldDramJoules
    else k.dramJoules - k.oldDramJoules
  }

  /** delta_rapl_data: the first call only clears the power. */
  function DeltaSocket(again: bool, u: EnergyUnits, elapsed: real, k: Socket): Socket
    requires ValidUnits(u)
  {
    if !again then k.(pkgWatts := 0.0, dramWatts := 0.0)
    else
      var pkg, dram := PkgDelta(u, k), DramDelta(k);
      k.(pkgDelta := pkg, dramDelta := dram,
         pkgWatts := if elapsed > 0.0 then pkg / elapsed else 0.0,
         dramWatts := if elapsed > 0.0 then dram / elapsed else 0.0)
  }

  /** poll_rapl_data for one socket. */
  function PollSocket(again: bool, u: EnergyUnits, elapsed: real, k: Socket, x: Sample): Socket
    requires ValidUnits(u)
  {
    DeltaSocket(again, u, elapsed, ReadSocket(again, u, k, x))
  }

  // ----- the structure, updated in place

  class RaplData {
    const units: seq<EnergyUnits>
    const socks: array<Socket>
    // The static flags of read_rapl_data and delta_rapl_data.
    var readInit: bool
    var deltaInit: bool
    var now: Time
    var oldNow: Time
    var elapsed: real

    predicate Valid() {
      socks.Length == |units| && forall s :: 0 <= s < |units| ==> ValidUnits(units[s])
    }

    constructor (units: seq<EnergyUnits>)
      requires forall s :: 0 <= s < |units| ==> ValidUnits(units[s])
      ensures Valid() && fresh(socks) && this.units == units && !readInit && !deltaInit
      ensures forall s :: 0 <= s < |units| ==> socks[s] == BLANK
    {
      this.units := units;
      readInit, deltaInit := false, false;
      now, oldNow, elapsed := Time(0, 0), Time(0, 0), 0.0;
      socks := new Socket[|units|](_ => BLANK);
    }

    /** The loop over the sockets before the batch is read. */
    method Prepare()
      requires Valid()
      modifies socks
      ensures forall s :: 0 <= s < |units| ==> socks[s] == if readInit then Moved(old(socks[s])) else Cleared(old(socks[s]))
    {
      var s := 0;
      while s < |units|
        invariant 0 <= s <= |units|
        invariant forall k :: 0 <= k < s ==> socks[k] == if readInit then Moved(old(socks[k])) else Cleared(old(socks[k]))
        invariant forall k :: s <= k < |units| ==> socks[k] == old(socks[k])
      {
        if readInit {
          socks[s] := Moved(socks[s]);
        } else {
          socks[s] := Cleared(socks[s]);
        }
        s := s + 1;
      }
    }

    /** read_batch(RAPL_DATA), finding the given counters. */
    method ReadBatch(readings: seq<Sample>)
      requires Valid() && |readings| == |units|
      modifies socks
      ensures forall s :: 0 <= s < |units| ==> socks[s] == Loaded(old(socks[s]), readings[s])
    {
      var s := 0;
      while s < |units|
        invariant 0 <= s <= |units|
        invariant forall k :: 0 <= k < s ==> socks[k] == Loaded(old(socks[k]), readings[k])
        invariant forall k :: s <= k < |units| ==> socks[k] == old(socks[k])
      {
        socks[s] := Loaded(socks[s], readings[s]);
        s := s + 1;
      }
    }

    /** read_rapl_data, finding the given time and counters. */
    method ReadRaplData(time: Time, readings: seq<Sample>)
      requires Valid() && |readings| == |units|
      modifies this, socks
      ensures readInit && deltaInit == old(deltaInit) && now == time
      ensures elapsed == if old(readInit) then Elapsed(old(now), time) else 0.0
      ensures forall s :: 0 <= s < |units| ==> socks[s] == ReadSocket(old(readInit), units[s], old(socks[s]), readings[s])
    {
      if !readInit {
        now, oldNow, elapsed := Time(0, 0), Time(0, 0), 0.0;
      }
      oldNow := now;
      now := time;
      if readInit {
        elapsed := Elapsed(oldNow, now);
      }
      Prepare();
      ReadBatch(readings);
      label Translating:
      var s := 0;
      while s < |units|
        invariant 0 <= s <= |units|
        invariant forall k :: 0 <= k < s ==> socks[k] == Translated(units[k], old@Translating(socks[k]))
        invariant forall k :: s <= k < |units| ==> socks[k] == old@Translating(socks[k])
        modifies socks
      {
        socks[s] := Translated(units[s], socks[s]);
        s := s + 1;
      }
      readInit := true;
    }

    /** delta_rapl_data */
    method DeltaRaplData()
      requires Valid()
      modifies this, socks
      ensures deltaInit && readInit == old(readInit) && now == old(now)
      ensures elapsed == if old(deltaInit) then old(elapsed) else 0.0
      ensures forall s :: 0 <= s < |units| ==> socks[s] == DeltaSocket(old(deltaInit), units[s], elapsed, old(socks[s]))
    {
      var again := deltaInit;
      if !deltaInit {
        deltaInit := true;
        elapsed := 0.0;
      }
      var s := 0;
      while s < |units|
        invariant 0 <= s <= |units|
        invariant forall k :: 0 <= k < s ==> socks[k] == DeltaSocket(again, units[k], elapsed, old(socks[k]))
        invariant forall k :: s <= k < |units| ==> socks[k] == old(socks[k])
        modifies socks
      {
        socks[s] := DeltaSocket(again, units[s], elapsed, socks[s]);
        s := s + 1;
      }
    }

    /** poll_rapl_data; on every socket it is PollSocket, unless the program has read before without
        taking differences. */
    method PollRaplData(time: Time, readings: seq<Sample>)
      requires Valid() && |readings| == |units|
      modifies this, socks
      ensures readInit && deltaInit && now == time
      ensures elapsed == if old(readInit && deltaInit) then Elapsed(old(now), time) else 0.0
      ensures forall s :: 0 <= s < |units| ==>
        socks[s] == DeltaSocket(old(deltaInit), units[s], elapsed, ReadSocket(old(readInit), units[s], old(socks[s]), readings[s]))
    {
      ReadRaplData(time, readings);
      DeltaRaplData();
    }

    /** The entries of every socket are those of a run of polls, the last one at time now. */
    ghost predicate Follows(run: seq<Reading>)
      requires Valid() && AllRead(|units|, run)
      reads this, socks
    {
      && readInit == deltaInit == (run != []) && (run != [] ==> now == run[|run| - 1].time)
      && forall s :: 0 <= s < |units| ==> socks[s] == RunSocket(units[s], Column(|units|, run, s))
    }

    /** A program that polls again and again: every socket is where a run of its own samples leads. */
    method PollAll(run: seq<Reading>)
      requires Valid() && !readInit && !deltaInit && AllRead(|units|, run)
      requires forall s :: 0 <= s < |units| ==> socks[s] == BLANK
      modifies this, socks
      ensures Follows(run)
    {
      var i := 0;
      assert run[..0] == [];
      while i < |run|
        invariant 0 <= i <= |run| && Follows(run[..i])
      {
        i := i + 1;
        assert run[..i][..i - 1] == run[..i - 1];
        PollNext(run[..i]);
      }
      assert run[..i] == run;
    }

    /** The last poll of a run. */
    method PollNext(run: seq<Reading>)
      requires Valid() && AllRead(|units|, run) && run != [] && Follows(run[..|run| - 1])
      modifies this, socks
      ensures Follows(run)
    {
      var n := |run| - 1;
      ghost var before := run[..n];
      PollRaplData(run[n].time, run[n].samples);
      forall s | 0 <= s < |units|
        ensures socks[s] == RunSocket(units[s], Column(|units|, run, s))
      {
        RunSnoc(units[s], Column(|units|, before, s), run[n].samples[s]);
      }
    }
  }

  // ----- one socket over a whole run of polls

  /** What one poll finds on all sockets. */
  datatype Reading = Reading(time: Time, samples: seq<Sample>)

  predicate AllRead(sockets: nat, run: seq<Reading>) {
    forall i :: 0 <= i < |run| ==> |run[i].samples| == sockets && forall s :: 0 <= s < sockets ==> run[i].samples[s].time == run[i].time
  }

  /** The samples of one socket. */
  function Column(sockets: nat, run: seq<Reading>, s: nat): (c: seq<Sample>)
    requires AllRead(sockets, run) && s < sockets
    ensures |c| == |run| && forall i :: 0 <= i < |run| ==> c[i] == run[i].samples[s]
    decreases |run|
  {
    if run == [] then [] else Column(sockets, run[..|run| - 1], s) + [run[|run| - 1].samples[s]]
  }

  lemma RunSnoc(u: EnergyUnits, c: seq<Sample>, x: Sample)
    requires ValidUnits(u)
    ensures RunSocket(u, c + [x])
         == PollSocket(c != [], u, if c == [] then 0.0 else Elapsed(c[|c| - 1].time, x.time), RunSocket(u, c), x)
  {
    assert (c + [x])[..|c|] == c;
  }

  /** The entries of a socket after a run of polls that found the given samples. */
  function RunSocket(u: EnergyUnits, run: seq<Sample>): Socket
    requires ValidUnits(u)
    decreases |run|
  {
    if run == [] then BLANK
    else
      var n := |run| - 1;
      PollSocket(n > 0, u, LastElapsed(run), RunSocket(u, run[..n]), run[n])
  }

  /** The elapsed time the last poll of a run computes. */
  function LastElapsed(run: seq<Sample>): real {
    if |run| < 2 then 0.0 else Elapsed(run[|run| - 2].time, run[|run| - 1].time)
  }

  /** The package energies the polls of a run report, summed. */
  function SumPkg(u: EnergyUnits, run: seq<Sample>): real
    requires ValidUnits(u)
    decreases |run|
  {
    if run == [] then 0.0 else SumPkg(u, run[..|run| - 1]) + RunSocket(u, run).pkgDelta
  }

  function SumDram(u: EnergyUnits, run: seq<Sample>): real
    requires ValidUnits(u)
    decreases |run|
  {
    if run == [] then 0.0 else SumDram(u, run[..|run| - 1]) + RunSocket(u, run).dramDelta
  }

  function SumElapsed(run: seq<Sample>): real
    decreases |run|
  {
    if run == [] then 0.0 else SumElapsed(run[..|run| - 1]) + LastElapsed(run)
  }

  /** The elapsed times telescope. */
  lemma {:induction false} ElapsedTelescopes(run: seq<Sample>)
    requires run != []
    ensures SumElapsed(run) == Elapsed(run[0].time, run[|run| - 1].time)
    decreases |run|
  {
    if |run| > 1 {
      ElapsedTelescopes(run[..|run| - 1]);
    } else {
      assert run[..0] == [];
    }
  }

  /** Elapsed time is in seconds, and a million microseconds are one, wherever the clock splits them. */
  lemma ElapsedIsSeconds(sec: int, usec: int, other: Time)
    ensures Elapsed(Time(sec, usec), Time(sec + 1, usec)) == 1.0
    ensures Elapsed(Time(sec + 1, usec), other) == Elapsed(Time(sec, usec + 1000000), other)
    ensures Elapsed(other, Time(sec + 1, usec)) == Elapsed(other, Time(sec, usec + 1000000))
    ensures Elapsed(Time(sec, usec), other) == -Elapsed(other, Time(sec, usec))
  {
  }

  // ----- the counters

  /** The units a poll reports for a counter that went from a to b. */
  function Step(a: nat, b: nat): int {
    if b < a then b + UINT_MAX - a else b - a
  }

  lemma Quotient(a: real, b: real, j: real)
    requires j > 0.0
    ensures a / j - b / j == (a - b) / j
    ensures a / j < b / j <==> a < b
  {
    if a < b { assert (b - a) / j > 0.0; }
    if b < a { assert (a - b) / j > 0.0; }
  }

  /** What the entries of a socket are after a run, in terms of the last two samples. */
  lemma {:induction false} EntriesOfRun(u: EnergyUnits, run: seq<Sample>)
    requires ValidUnits(u) && run != []
    ensures var k, x := RunSocket(u, run), run[|run| - 1];
      && k.pkgBits == x.pkg && k.dramBits == x.dram
      && k.pkgJoules == x.pkg as real / u.pkg && k.dramJoules == x.dram as real / u.dram
      && (|run| == 1 ==> k.pkgDelta == 0.0 && k.dramDelta == 0.0)
      && (|run| > 1 ==>
            var w := run[|run| - 2];
            && k.pkgDelta == Step(w.pkg, x.pkg) as real / u.pkg
            && k.dramDelta == (x.dram - w.dram) as real / u.dram + if x.dram < w.dram then UINT_MAX as real else 0.0)
    decreases |run|
  {
    if |run| > 1 {
      var n := |run| - 1;
      EntriesOfRun(u, run[..n]);
      Quotient(run[n].pkg as real, run[n - 1].pkg as real, u.pkg);
      Quotient(run[n].dram as real, run[n - 1].dram as real, u.dram);
    }
  }

  /** The old entries after a run: cleared by the first poll, those of the sample before by any other. */
  lemma OldEntriesOfRun(u: EnergyUnits, run: seq<Sample>)
    requires ValidUnits(u) && run != []
    ensures var k := RunSocket(u, run);
      && (|run| == 1 ==> k.oldPkgJoules == 0.0 && k.oldDramJoules == 0.0)
      && (|run| > 1 ==>
            var w := run[|run| - 2];
            && k.oldPkgBits == w.pkg && k.oldPkgJoules == w.pkg as real / u.pkg
            && k.oldDramBits == w.dram && k.oldDramJoules == w.dram as real / u.dram)
  {
    if |run| > 1 {
      EntriesOfRun(u, run[..|run| - 1]);
    }
  }

  // ----- the energy the counters stand for

  /** A true energy, in units: the full revolutions of its 32-bit counter, and what the counter shows. */
  datatype Energy = Energy(turns: nat, shown: nat)
  {
    predicate Valid() {
      shown < REVOLUTION
    }

    function Units(): nat {
      turns * REVOLUTION + shown
    }
  }

  /** The true energies of both domains when a poll happened. */
  datatype Moment = Moment(time: Time, pkg: Energy, dram: Energy)

  function ShownRun(truth: seq<Moment>): (run: seq<Sample>)
    ensures |run| == |truth|
    ensures forall i :: 0 <= i < |truth| ==> run[i] == Sample(truth[i].time, truth[i].pkg.shown, truth[i].dram.shown)
    decreases |truth|
  {
    if truth == [] then []
    else
      var m := truth[|truth| - 1];
      ShownRun(truth[..|truth| - 1]) + [Sample(m.time, m.pkg.shown, m.dram.shown)]
  }

  /** Energy is never given back. */
  predicate Growing(truth: seq<Moment>) {
    && (forall i :: 0 <= i < |truth| ==> truth[i].pkg.Valid() && truth[i].dram.Valid())
    && forall i :: 0 < i < |truth| ==>
         truth[i - 1].pkg.Units() <= truth[i].pkg.Units() && truth[i - 1].dram.Units() <= truth[i].dram.Units()
  }

  lemma {:induction false} Prefix(truth: seq<Moment>)
    requires truth != [] && Growing(truth)
    ensures Growing(truth[..|truth| - 1]) && ShownRun(truth)[..|truth| - 1] == ShownRun(truth[..|truth| - 1])
    ensures Frequent(truth) ==> Frequent(truth[..|truth| - 1])
    ensures DramFrequent(truth) ==> DramFrequent(truth[..|truth| - 1])
  {
  }

  /** Less than one revolution of the package counter between polls. */
  predicate Frequent(truth: seq<Moment>) {
    forall i :: 0 < i < |truth| ==> truth[i].pkg.Units() - truth[i - 1].pkg.Units() < REVOLUTION
  }

  /** One poll reports the true energy, less one unit a revolution, exactly when less than a full
      revolution went by; otherwise it reports less than that. */
  lemma StepExactly(a: Energy, b: Energy)
    requires a.Valid() && b.Valid() && a.Units() <= b.Units()
    ensures 0 <= Step(a.shown, b.shown) && a.turns <= b.turns
    ensures Step(a.shown, b.shown) + b.turns - a.turns <= b.Units() - a.Units()
    ensures Step(a.shown, b.shown) + b.turns - a.turns == b.Units() - a.Units() <==> b.Units() - a.Units() < REVOLUTION
  {
  }

  /** The units a run of polls reports. */
  function SumSteps(run: seq<Sample>): int
    decreases |run|
  {
    if |run| < 2 then 0
    else SumSteps(run[..|run| - 1]) + Step(run[|run| - 2].pkg, run[|run| - 1].pkg)
  }

  lemma StepsSnoc(run: seq<Sample>, a: Energy, b: Energy)
    requires |run| > 1 && run[|run| - 2].pkg == a.shown && run[|run| - 1].pkg == b.shown
    requires a.Valid() && b.Valid() && a.Units() <= b.Units()
    ensures var more := SumSteps(run) - SumSteps(run[..|run| - 1]) + b.turns - a.turns;
      more <= b.Units() - a.Units() && (more == b.Units() - a.Units() <==> b.Units() - a.Units() < REVOLUTION)
  {
    StepExactly(a, b);
  }

  /** Energy spent since the first poll, less one unit for each revolution of the counter, in units. */
  function Spent(truth: seq<Moment>): int {
    if truth == [] then 0
    else
      var first, last := truth[0].pkg, truth[|truth| - 1].pkg;
      last.Units() - first.Units() - (last.turns - first.turns)
  }

  /** Conservation in units: what the polls report, with one unit for every revolution of the counter,
      is the energy spent since the first poll, exactly when every poll came in time. */
  lemma {:induction false} UnitsConserved(truth: seq<Moment>)
    requires truth != [] && Growing(truth)
    ensures var first, last := truth[0].pkg, truth[|truth| - 1].pkg;
      var reported := SumSteps(ShownRun(truth)) + last.turns - first.turns;
      && reported <= last.Units() - first.Units()
      && (reported == last.Units() - first.Units() <==> Frequent(truth))
    decreases |truth|
  {
    if |truth| > 1 {
      var n := |truth| - 1;
      Prefix(truth);
      UnitsConserved(truth[..n]);
      StepsSnoc(ShownRun(truth), truth[n - 1].pkg, truth[n].pkg);
      LastFrequent(truth);
    }
  }

  lemma LastFrequent(truth: seq<Moment>)
    requires |truth| > 1
    ensures var n := |truth| - 1;
      Frequent(truth) <==> Frequent(truth[..n]) && truth[n].pkg.Units() - truth[n - 1].pkg.Units() < REVOLUTION
  {
    var n := |truth| - 1;
    if Frequent(truth[..n]) && truth[n].pkg.Units() - truth[n - 1].pkg.Units() < REVOLUTION {
      forall i | 0 < i < |truth|
        ensures truth[i].pkg.Units() - truth[i - 1].pkg.Units() < REVOLUTION
      {
        if i < n {
          assert truth[..n][i] == truth[i] && truth[..n][i - 1] == truth[i - 1];
        }
      }
    }
  }

  /** The energies reported, in joules. */
  lemma {:induction false} SumPkgIsSteps(u: EnergyUnits, run: seq<Sample>)
    requires ValidUnits(u)
    ensures SumPkg(u, run) == SumSteps(run) as real / u.pkg
    decreases |run|
  {
    if run != [] {
      var n := |run| - 1;
      SumPkgIsSteps(u, run[..n]);
      EntriesOfRun(u, run);
      if n > 0 {
        AddQuotients(SumSteps(run[..n]) as real, Step(run[n - 1].pkg, run[n].pkg) as real, u.pkg);
      }
    }
  }

  lemma AddQuotients(a: real, b: real, j: real)
    requires j > 0.0
    ensures a / j + b / j == (a + b) / j
  {
  }

  /** Conservation over every run of polls: the package energies reported sum to the true energy since
      the first poll, less one unit for each revolution of the counter, exactly when less than a full
      revolution went by between polls. */
  lemma EnergyConserved(u: EnergyUnits, truth: seq<Moment>)
    requires ValidUnits(u) && truth != [] && Growing(truth)
    ensures SumPkg(u, ShownRun(truth)) == Spent(truth) as real / u.pkg <==> Frequent(truth)
  {
    UnitsConserved(truth);
    SumPkgIsSteps(u, ShownRun(truth));
    EqualQuotients(SumSteps(ShownRun(truth)), Spent(truth), u.pkg);
  }

  /** No run reports more than was spent. */
  lemma ReportedAtMost(u: EnergyUnits, truth: seq<Moment>)
    requires ValidUnits(u) && Growing(truth)
    ensures SumPkg(u, ShownRun(truth)) <= Spent(truth) as real / u.pkg
    ensures SumPkg(u, ShownRun(truth)) == Spent(truth) as real / u.pkg <==> Frequent(truth)
  {
    if truth != [] {
      UnitsConserved(truth);
      EnergyConserved(u, truth);
      SumPkgIsSteps(u, ShownRun(truth));
      Quotient(Spent(truth) as real, SumSteps(ShownRun(truth)) as real, u.pkg);
    }
  }

  lemma EqualQuotients(a: int, b: int, j: real)
    requires j > 0.0
    ensures a as real / j == b as real / j <==> a == b
  {
    Quotient(a as real, b as real, j);
    Quotient(b as real, a as real, j);
  }

  /** No poll reports a negative package energy, whatever the counter did: the branch that reports one
      is never taken. */
  lemma NeverNegative(u: EnergyUnits, run: seq<Sample>)
    requires ValidUnits(u) && run != [] && forall i :: 0 <= i < |run| ==> run[i].pkg < REVOLUTION
    ensures RunSocket(u, run).pkgDelta >= 0.0
  {
    EntriesOfRun(u, run);
    if |run| > 1 {
      Quotient(0.0, Step(run[|run| - 2].pkg, run[|run| - 1].pkg) as real, u.pkg);
    }
  }

  /** The power reported is the energy reported over the elapsed time. */
  lemma PowerIsEnergyOverTime(u: EnergyUnits, run: seq<Sample>)
    requires ValidUnits(u) && |run| > 1 && LastElapsed(run) > 0.0
    ensures RunSocket(u, run).pkgWatts * LastElapsed(run) == RunSocket(u, run).pkgDelta
    ensures RunSocket(u, run).dramWatts * LastElapsed(run) == RunSocket(u, run).dramDelta
  {
    Cancel(RunSocket(u, run).pkgDelta, LastElapsed(run));
    Cancel(RunSocket(u, run).dramDelta, LastElapsed(run));
  }

  /** The first poll of a run reports no power, nor does one in no time. */
  lemma NoPowerInNoTime(u: EnergyUnits, run: seq<Sample>)
    requires ValidUnits(u) && run != [] && (|run| == 1 || LastElapsed(run) <= 0.0)
    ensures RunSocket(u, run).pkgWatts == 0.0 && RunSocket(u, run).dramWatts == 0.0
  {
  }

  // ----- DRAM

  predicate DramFrequent(truth: seq<Moment>) {
    forall i :: 0 < i < |truth| ==> truth[i].dram.Units() - truth[i - 1].dram.Units() < REVOLUTION
  }

  /** How often the DRAM counter of a run is seen to step back. */
  function DramWraps(run: seq<Sample>): nat
    decreases |run|
  {
    if |run| < 2 then 0
    else DramWraps(run[..|run| - 1]) + if run[|run| - 1].dram < run[|run| - 2].dram then 1 else 0
  }

  lemma {:induction false} WrapsAreTurns(truth: seq<Moment>)
    requires truth != [] && Growing(truth) && DramFrequent(truth)
    ensures DramWraps(ShownRun(truth)) == truth[|truth| - 1].dram.turns - truth[0].dram.turns
    decreases |truth|
  {
    if |truth| > 1 {
      var n := |truth| - 1;
      Prefix(truth);
      WrapsAreTurns(truth[..n]);
      WrapsSnoc(ShownRun(truth), truth[n - 1].dram, truth[n].dram);
    }
  }

  lemma WrapsSnoc(run: seq<Sample>, a: Energy, b: Energy)
    requires |run| > 1 && run[|run| - 2].dram == a.shown && run[|run| - 1].dram == b.shown
    requires a.Valid() && b.Valid() && 0 <= b.Units() - a.Units() < REVOLUTION
    ensures DramWraps(run) == DramWraps(run[..|run| - 1]) + b.turns - a.turns
  {
    OneTurn(a, b);
  }

  lemma OneTurn(a: Energy, b: Energy)
    requires a.Valid() && b.Valid() && 0 <= b.Units() - a.Units() < REVOLUTION
    ensures b.turns == a.turns + if b.shown < a.shown then 1 else 0
  {
  }

  /** The DRAM energies a run reports: the difference the counter shows, and UINT_MAX joules whenever it
      was seen to step back. */
  lemma {:induction false} DramSum(u: EnergyUnits, run: seq<Sample>)
    requires ValidUnits(u) && run != []
    ensures SumDram(u, run) == (run[|run| - 1].dram - run[0].dram) as real / u.dram + (DramWraps(run) * UINT_MAX) as real
    decreases |run|
  {
    var n := |run| - 1;
    EntriesOfRun(u, run);
    if n > 0 {
      DramSum(u, run[..n]);
      AddQuotients((run[n - 1].dram - run[0].dram) as real, (run[n].dram - run[n - 1].dram) as real, u.dram);
    }
  }

  /** The DRAM energy spent since the first poll, in units, and the revolutions of its counter. */
  function DramSpent(truth: seq<Moment>): int {
    if truth == [] then 0 else truth[|truth| - 1].dram.Units() - truth[0].dram.Units()
  }

  function DramTurns(truth: seq<Moment>): int {
    if truth == [] then 0 else truth[|truth| - 1].dram.turns - truth[0].dram.turns
  }

  /** The DRAM energies reported sum to the true energy if and only if UINT_MAX joules for every step back seen
      are worth what the revolutions of the counter are. */
  lemma DramExactly(u: EnergyUnits, truth: seq<Moment>)
    requires ValidUnits(u) && truth != [] && Growing(truth)
    ensures SumDram(u, ShownRun(truth)) == DramSpent(truth) as real / u.dram
      <==> (DramWraps(ShownRun(truth)) * UINT_MAX) as real == (DramTurns(truth) * REVOLUTION) as real / u.dram
  {
    DramSum(u, ShownRun(truth));
    UnitsApart(truth[0].dram, truth[|truth| - 1].dram);
    SumsCompared(truth[|truth| - 1].dram.shown - truth[0].dram.shown, DramWraps(ShownRun(truth)) * UINT_MAX,
                 DramTurns(truth) * REVOLUTION, u.dram, SumDram(u, ShownRun(truth)));
  }

  lemma UnitsApart(a: Energy, b: Energy)
    ensures b.Units() - a.Units() == b.shown - a.shown + (b.turns - a.turns) * REVOLUTION
  {
  }

  lemma SumsCompared(shown: int, added: int, turned: int, j: real, sum: real)
    requires j > 0.0 && sum == shown as real / j + added as real
    ensures sum == (shown + turned) as real / j <==> added as real == turned as real / j
  {
    AddQuotients(shown as real, turned as real, j);
  }

  /** The energy units a register and a processor model give the DRAM counter: one, or at least two, to the
      joule. */
  lemma DramUnitOfRegister(model: nat, w: Word)
    ensures var unit := DramUnit(model, RaplUnits.UnitsOf(w).joules); unit == 1.0 || unit >= 2.0
  {
    TwoOrMore(NatOf(MaskVal(w, 12, 8)));
  }

  /** A server model's DRAM counter is in units of 1/65536 J whatever the register says; any other model's has the
      energy unit the register's bits 12 to 8 write. */
  lemma DramUnitOfModel(model: nat, w: Word)
    ensures var unit := DramUnit(model, RaplUnits.UnitsOf(w).joules);
      && (model in {0x3F, 0x4F, 0x55} ==> unit == 65536.0)
      && (model !in {0x3F, 0x4F, 0x55} ==> unit == RaplUnits.RPow2(NatOf(w[8..13])))
  {
    RaplUnits.UnitsOfRegister(w);
  }

  lemma TwoOrMore(k: nat)
    ensures RaplUnits.RPow2(k) == 1.0 || RaplUnits.RPow2(k) >= 2.0
  {
    if k > 0 {
      assert RaplUnits.RPow2(k) == 2.0 * RaplUnits.RPow2(k - 1);
    }
  }

  lemma WrapError(wraps: nat, unit: real)
    requires unit == 1.0 || unit >= 2.0
    ensures (wraps * UINT_MAX) as real == (wraps * REVOLUTION) as real / unit <==> wraps == 0
  {
    if wraps > 0 && unit >= 2.0 {
      Quotient((wraps * REVOLUTION) as real, (wraps * UINT_MAX) as real * unit, unit);
      assert (wraps * UINT_MAX) as real * unit >= (wraps * UINT_MAX) as real * 2.0;
    }
  }

  /** On every supported machine, with less than a revolution between polls, that is so if and only if the
      counter did not wrap. */
  lemma DramConservedExactly(model: nat, w: Word, u: EnergyUnits, truth: seq<Moment>)
    requires ValidUnits(u) && u.dram == DramUnit(model, RaplUnits.UnitsOf(w).joules)
    requires truth != [] && Growing(truth) && DramFrequent(truth)
    ensures SumDram(u, ShownRun(truth)) == DramSpent(truth) as real / u.dram <==> DramTurns(truth) == 0
  {
    DramExactly(u, truth);
    WrapsAreTurns(truth);
    DramUnitOfRegister(model, w);
    WrapError(DramWraps(ShownRun(truth)), u.dram);
  }
}
