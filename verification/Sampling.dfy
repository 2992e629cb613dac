/** The accumulation of demoapps/powmon/common.c (take_measurement) and rapl2.c
    (read_rapl_energy_and_power): any number of threads poll the energy of two sockets and add what
    the polls report to one total, inside one mutex. A step is one of a thread's actions; a run is any
    interleaving. */
module Sampling {
  import opened Words
  import opened RaplEnergy

  /** The energy units of the two sockets. */
  datatype Units = Units(socket0: EnergyUnits, socket1: EnergyUnits)

  predicate Usable(u: Units) {
    ValidUnits(u.socket0) && ValidUnits(u.socket1)
  }

  /** Where a thread is in take_measurement; it copies both energies before it adds them. */
  datatype Pc = Idle | Entered | Polled | Copied(d0: real, d1: real) | Added

  /** The threads, the holder of the mutex, total_joules, and the true energies of both sockets at every
      poll so far. */
  datatype State = State(threads: seq<Pc>, holder: Option<nat>, total: real, truth0: seq<Moment>, truth1: seq<Moment>)

  /** A turn of thread t; should it poll, it finds these energies. */
  datatype Turn = Turn(t: nat, m0: Moment, m1: Moment)

  function Start(n: nat): (s: State)
    ensures |s.threads| == n
  {
    State(seq(n, i => Idle), None, 0.0, [], [])
  }

  /** pkg_delta_joules of a socket after the polls so far. */
  function Delta(u: EnergyUnits, truth: seq<Moment>): real
    requires ValidUnits(u)
  {
    RunSocket(u, ShownRun(truth)).pkgDelta
  }

  function At(s: State, t: nat, pc: Pc): State
    requires t < |s.threads|
  {
    State(s.threads[t := pc], s.holder, s.total, s.truth0, s.truth1)
  }

  /** The next action of a thread. Without the mutex a thread enters at any time. Energies that run
      backwards do not occur. */
  function Step(mutex: bool, u: Units, s: State, x: Turn): State
    requires Usable(u) && x.t < |s.threads|
  {
    match s.threads[x.t]
    case Idle =>
      if mutex && s.holder.Some? then s
      else State(s.threads[x.t := Entered], Some(x.t), s.total, s.truth0, s.truth1)
    case Entered =>
      if Growing(s.truth0 + [x.m0]) && Growing(s.truth1 + [x.m1]) then
        State(s.threads[x.t := Polled], s.holder, s.total, s.truth0 + [x.m0], s.truth1 + [x.m1])
      else s
    case Polled => At(s, x.t, Copied(Delta(u.socket0, s.truth0), Delta(u.socket1, s.truth1)))
    case Copied(d0, d1) => State(s.threads[x.t := Added], s.holder, s.total + (d0 + d1), s.truth0, s.truth1)
    case Added => State(s.threads[x.t := Idle], None, s.total, s.truth0, s.truth1)
  }

  predicate Schedule(n: nat, run: seq<Turn>) {
    forall i :: 0 <= i < |run| ==> run[i].t < n
  }

  function Run(mutex: bool, u: Units, s: State, run: seq<Turn>): (r: State)
    requires Usable(u) && Schedule(|s.threads|, run)
    ensures |r.threads| == |s.threads|
    decreases |run|
  {
    if run == [] then s else Run(mutex, u, Step(mutex, u, s, run[0]), run[1..])
  }

  // ----- the invariant

  /** What the polls so far reported, summed over both sockets. */
  function Reported(u: Units, s: State): real
    requires Usable(u)
  {
    SumPkg(u.socket0, ShownRun(s.truth0)) + SumPkg(u.socket1, ShownRun(s.truth1))
  }

  /** What the last poll reported. */
  function Latest(u: Units, s: State): real
    requires Usable(u)
  {
    Delta(u.socket0, s.truth0) + Delta(u.socket1, s.truth1)
  }

  /** The holder's poll that is not in the total yet. */
  function Pending(u: Units, s: State): real
    requires Usable(u)
  {
    if s.holder.Some? && s.holder.value < |s.threads| then
      match s.threads[s.holder.value]
      case Polled => Latest(u, s)
      case Copied(d0, d1) => d0 + d1
      case _ => 0.0
    else 0.0
  }

  /** The thread inside is the holder of the mutex. */
  predicate Locks(s: State) {
    && (forall t :: 0 <= t < |s.threads| ==> (s.threads[t] != Idle <==> s.holder == Some(t)))
    && (s.holder.Some? ==> s.holder.value < |s.threads|)
  }

  predicate Grown(s: State) {
    Growing(s.truth0) && Growing(s.truth1)
  }

  ghost predicate Inv(u: Units, s: State)
    requires Usable(u)
  {
    Locks(s) && Grown(s) && s.total + Pending(u, s) == Reported(u, s)
  }

  lemma OnePollMore(u: EnergyUnits, truth: seq<Moment>, m: Moment)
    requires ValidUnits(u)
    ensures SumPkg(u, ShownRun(truth + [m])) == SumPkg(u, ShownRun(truth)) + Delta(u, truth + [m])
  {
    var run := ShownRun(truth + [m]);
    assert run[..|truth|] == ShownRun(truth);
  }

  lemma PollReported(u: Units, s: State, t: State, m0: Moment, m1: Moment)
    requires Usable(u) && t.truth0 == s.truth0 + [m0] && t.truth1 == s.truth1 + [m1]
    ensures Reported(u, t) == Reported(u, s) + Latest(u, t)
  {
    OnePollMore(u.socket0, s.truth0, m0);
    OnePollMore(u.socket1, s.truth1, m1);
  }

  /** A poll makes what it reports pending. */
  lemma PollPends(u: Units, s: State, t: State, p: nat, m0: Moment, m1: Moment)
    requires Usable(u) && Inv(u, s) && p < |s.threads| && s.threads[p] == Entered && s.holder == Some(p)
    requires t == State(s.threads[p := Polled], s.holder, s.total, s.truth0 + [m0], s.truth1 + [m1]) && Grown(t)
    ensures Inv(u, t)
  {
    PollReported(u, s, t, m0, m1);
    Unfold(u, s);
    Unfold(u, t);
  }

  lemma Unfold(u: Units, s: State)
    requires Usable(u) && s.holder.Some? && s.holder.value < |s.threads|
    ensures s.threads[s.holder.value] == Entered ==> Pending(u, s) == 0.0
    ensures s.threads[s.holder.value] == Polled ==> Pending(u, s) == Latest(u, s)
  {
  }

  lemma PollKeepsInv(u: Units, s: State, x: Turn)
    requires Usable(u) && x.t < |s.threads| && Inv(u, s) && s.threads[x.t] == Entered
    ensures Inv(u, Step(true, u, s, x))
  {
    if Growing(s.truth0 + [x.m0]) && Growing(s.truth1 + [x.m1]) {
      PollPends(u, s, Step(true, u, s, x), x.t, x.m0, x.m1);
    }
  }

  /** Entering and leaving. */
  lemma LockKeepsInv(u: Units, s: State, x: Turn)
    requires Usable(u) && x.t < |s.threads| && Inv(u, s) && (s.threads[x.t] == Idle || s.threads[x.t] == Added)
    ensures Inv(u, Step(true, u, s, x))
  {
    var t := Step(true, u, s, x);
    assert Locks(t);
    assert Reported(u, t) == Reported(u, s);
  }

  /** Copying what the poll reported, and adding it. */
  lemma AddKeepsInv(u: Units, s: State, x: Turn)
    requires Usable(u) && x.t < |s.threads| && Inv(u, s) && (s.threads[x.t] == Polled || s.threads[x.t].Copied?)
    ensures Inv(u, Step(true, u, s, x))
  {
    var t := Step(true, u, s, x);
    assert s.holder == Some(x.t) && t.holder == s.holder;
    assert Locks(t);
    assert Reported(u, t) == Reported(u, s);
  }

  /** Every action but a poll leaves what was reported as it was. */
  lemma OtherStepKeepsInv(u: Units, s: State, x: Turn)
    requires Usable(u) && x.t < |s.threads| && Inv(u, s) && s.threads[x.t] != Entered
    ensures Inv(u, Step(true, u, s, x))
  {
    if s.threads[x.t] == Idle || s.threads[x.t] == Added {
      LockKeepsInv(u, s, x);
    } else {
      AddKeepsInv(u, s, x);
    }
  }

  lemma {:induction false} RunKeepsInv(u: Units, s: State, run: seq<Turn>)
    requires Usable(u) && Schedule(|s.threads|, run) && Inv(u, s)
    ensures Inv(u, Run(true, u, s, run))
    decreases |run|
  {
    if run != [] {
      var t := Step(true, u, s, run[0]);
      assert Inv(u, t) by {
        if s.threads[run[0].t] == Entered {
          PollKeepsInv(u, s, run[0]);
        } else {
          OtherStepKeepsInv(u, s, run[0]);
        }
      }
      RunKeepsInv(u, t, run[1..]);
    }
  }

  // ----- the total

  /** Whenever the mutex is free, whatever the interleaving, the total is what all polls of both sockets
      reported; and that is the true energy of each socket since the first poll, less one unit a revolution,
      in the units of its own, if and only if the polls came in time on both. */
  lemma TotalConserved(u: Units, n: nat, run: seq<Turn>)
    requires Usable(u) && Schedule(n, run)
    ensures var s := Run(true, u, Start(n), run);
      s.holder == None ==>
        && s.total == Reported(u, s)
        && (s.total == Spent(s.truth0) as real / u.socket0.pkg + Spent(s.truth1) as real / u.socket1.pkg
            <==> Frequent(s.truth0) && Frequent(s.truth1))
  {
    StartInv(u, n);
    RunKeepsInv(u, Start(n), run);
    var s := Run(true, u, Start(n), run);
    if s.holder == None {
      FreeTotal(u, s);
    }
  }

  lemma StartInv(u: Units, n: nat)
    requires Usable(u)
    ensures Inv(u, Start(n))
  {
  }

  /** With the mutex free nothing is pending. */
  lemma FreeTotal(u: Units, s: State)
    requires Usable(u) && Inv(u, s) && s.holder == None
    ensures s.total == Reported(u, s)
    ensures s.total == Spent(s.truth0) as real / u.socket0.pkg + Spent(s.truth1) as real / u.socket1.pkg
      <==> Frequent(s.truth0) && Frequent(s.truth1)
  {
    ReportedAtMost(u.socket0, s.truth0);
    ReportedAtMost(u.socket1, s.truth1);
  }

  /** At most one thread is in take_measurement at a time. */
  lemma MutualExclusion(u: Units, n: nat, run: seq<Turn>, a: nat, b: nat)
    requires Usable(u) && Schedule(n, run) && a < n && b < n
    requires var s := Run(true, u, Start(n), run); s.threads[a] != Idle && s.threads[b] != Idle
    ensures a == b
  {
    StartInv(u, n);
    RunKeepsInv(u, Start(n), run);
  }

  // ----- every measurement is made

  /** What the counters show a poll to have used since the one before. */
  function UsedSince(u: EnergyUnits, truth: seq<Moment>, m: Moment): real
    requires ValidUnits(u)
  {
    if truth == [] then 0.0
    else RaplEnergy.Step(truth[|truth| - 1].pkg.shown, m.pkg.shown) as real / u.pkg
  }

  lemma DeltaIsUsed(u: EnergyUnits, truth: seq<Moment>, m: Moment)
    requires ValidUnits(u)
    ensures Delta(u, truth + [m]) == UsedSince(u, truth, m)
  {
    EntriesOfRun(u, ShownRun(truth + [m]));
  }

  /** take_measurement by a thread that finds the mutex free: five actions bring the thread and the mutex back
      to where they were; both sockets have been polled once, and what the poll showed is in the total. */
  lemma MeasurementIsMade(u: Units, s: State, x: Turn)
    requires Usable(u) && x.t < |s.threads| && s.threads[x.t] == Idle && s.holder == None
    requires Growing(s.truth0 + [x.m0]) && Growing(s.truth1 + [x.m1])
    ensures Run(true, u, s, [x, x, x, x, x]) == State(s.threads, None,
        s.total + (UsedSince(u.socket0, s.truth0, x.m0) + UsedSince(u.socket1, s.truth1, x.m1)),
        s.truth0 + [x.m0], s.truth1 + [x.m1])
  {
    var b := State(s.threads[x.t := Polled], Some(x.t), s.total, s.truth0 + [x.m0], s.truth1 + [x.m1]);
    EntersAndPolls(u, s, x, b);
    RunAppend(true, u, s, [x, x], [x, x, x]);
    assert [x, x] + [x, x, x] == [x, x, x, x, x];
    DeltaIsUsed(u.socket0, s.truth0, x.m0);
    DeltaIsUsed(u.socket1, s.truth1, x.m1);
    AddsAndLeaves(u, b, x, Delta(u.socket0, b.truth0), Delta(u.socket1, b.truth1));
    assert s.threads[x.t := Polled][x.t := Idle] == s.threads;
  }

  lemma EntersAndPolls(u: Units, s: State, x: Turn, b: State)
    requires Usable(u) && x.t < |s.threads| && s.threads[x.t] == Idle && s.holder == None
    requires Growing(s.truth0 + [x.m0]) && Growing(s.truth1 + [x.m1])
    requires b == State(s.threads[x.t := Polled], Some(x.t), s.total, s.truth0 + [x.m0], s.truth1 + [x.m1])
    ensures Run(true, u, s, [x, x]) == b
  {
    var a := State(s.threads[x.t := Entered], Some(x.t), s.total, s.truth0, s.truth1);
    OneAction(u, s, x, a, [x]);
    assert a.threads[x.t := Polled] == b.threads;
    OneAction(u, a, x, b, []);
  }

  lemma AddsAndLeaves(u: Units, b: State, x: Turn, d0: real, d1: real)
    requires Usable(u) && x.t < |b.threads| && b.threads[x.t] == Polled
    requires d0 == Delta(u.socket0, b.truth0) && d1 == Delta(u.socket1, b.truth1)
    ensures Run(true, u, b, [x, x, x])
         == State(b.threads[x.t := Idle], None, b.total + (d0 + d1), b.truth0, b.truth1)
  {
    var c := State(b.threads[x.t := Copied(d0, d1)], b.holder, b.total, b.truth0, b.truth1);
    var d := State(c.threads[x.t := Added], b.holder, b.total + (d0 + d1), b.truth0, b.truth1);
    OneAction(u, b, x, c, [x, x]);
    OneAction(u, c, x, d, [x]);
    assert d.threads[x.t := Idle] == b.threads[x.t := Idle];
    OneAction(u, d, x, State(b.threads[x.t := Idle], None, d.total, b.truth0, b.truth1), []);
  }

  lemma OneAction(u: Units, s: State, x: Turn, t: State, rest: seq<Turn>)
    requires Usable(u) && x.t < |s.threads| && Schedule(|s.threads|, rest) && t == Step(true, u, s, x)
    ensures Run(true, u, s, [x] + rest) == Run(true, u, t, rest)
  {
    assert ([x] + rest)[1..] == rest;
  }

  /** The same at any time of any run: from every state reached with the mutex free, every thread can make
      its measurement, and it counts once. */
  lemma MeasurementOfRun(u: Units, n: nat, run: seq<Turn>, x: Turn)
    requires Usable(u) && Schedule(n, run) && x.t < n && Run(true, u, Start(n), run).holder == None
    requires var s := Run(true, u, Start(n), run); Growing(s.truth0 + [x.m0]) && Growing(s.truth1 + [x.m1])
    ensures Schedule(n, run + [x, x, x, x, x])
    ensures var s, r := Run(true, u, Start(n), run), Run(true, u, Start(n), run + [x, x, x, x, x]);
      && r.holder == None && r.threads == s.threads && r.threads[x.t] == Idle
      && r.truth0 == s.truth0 + [x.m0] && r.truth1 == s.truth1 + [x.m1]
      && r.total == s.total + (UsedSince(u.socket0, s.truth0, x.m0) + UsedSince(u.socket1, s.truth1, x.m1))
  {
    StartInv(u, n);
    RunKeepsInv(u, Start(n), run);
    RunAppend(true, u, Start(n), run, [x, x, x, x, x]);
    MeasurementIsMade(u, Run(true, u, Start(n), run), x);
  }

  lemma {:induction false} RunAppend(mutex: bool, u: Units, s: State, first: seq<Turn>, second: seq<Turn>)
    requires Usable(u) && Schedule(|s.threads|, first) && Schedule(|s.threads|, second)
    ensures Schedule(|s.threads|, first + second)
    ensures Run(mutex, u, s, first + second) == Run(mutex, u, Run(mutex, u, s, first), second)
    decreases |first|
  {
    if first == [] {
      assert first + second == second;
    } else {
      RunAppend(mutex, u, Step(mutex, u, s, first[0]), first[1..], second);
      assert (first + second)[1..] == first[1..] + second;
    }
  }

  /** A thread stays where it is if and only if it is about to enter and finds the mutex held, or is about to
      poll energies that would run backwards, which do not occur. */
  lemma OnlyHeldStays(u: Units, s: State, x: Turn)
    requires Usable(u) && x.t < |s.threads|
    ensures Step(true, u, s, x).threads[x.t] == s.threads[x.t] <==>
      || (s.threads[x.t] == Idle && s.holder.Some?)
      || (s.threads[x.t] == Entered && !(Growing(s.truth0 + [x.m0]) && Growing(s.truth1 + [x.m1])))
  {
  }

  // ----- without the mutex

  ghost predicate Reaches(mutex: bool, u: Units, n: nat, s: State)
    requires Usable(u)
  {
    exists run :: Schedule(n, run) && s == Run(mutex, u, Start(n), run)
  }

  lemma {:induction false} RunSnoc(mutex: bool, u: Units, s: State, run: seq<Turn>, x: Turn)
    requires Usable(u) && Schedule(|s.threads|, run) && x.t < |s.threads|
    ensures Schedule(|s.threads|, run + [x])
    ensures Run(mutex, u, s, run + [x]) == Step(mutex, u, Run(mutex, u, s, run), x)
    decreases |run|
  {
    if run == [] {
      assert [] + [x] == [x] && [x][1..] == [];
    } else {
      RunSnoc(mutex, u, Step(mutex, u, s, run[0]), run[1..], x);
      assert (run + [x])[1..] == run[1..] + [x];
    }
  }

  lemma Next(mutex: bool, u: Units, s: State, x: Turn, t: State)
    requires Usable(u) && Reaches(mutex, u, 2, s) && |s.threads| == 2 && x.t < 2 && Step(mutex, u, s, x) == t
    ensures Reaches(mutex, u, 2, t)
  {
    var run :| Schedule(2, run) && s == Run(mutex, u, Start(2), run);
    RunSnoc(mutex, u, Start(2), run, x);
  }

  const JOULE := EnergyUnits(1.0, 1.0)
  const UNIT := Units(JOULE, JOULE)

  /** An energy of n units on both counters, at time n. */
  function Spot(n: nat): Moment
    requires n < REVOLUTION
  {
    Moment(Time(n, 0), Energy(0, n), Energy(0, n))
  }

  lemma TwoPolls()
    ensures Growing([Spot(0)]) && Growing([Spot(0), Spot(10)])
    ensures Delta(JOULE, [Spot(0), Spot(10)]) == 10.0 && SumPkg(JOULE, ShownRun([Spot(0), Spot(10)])) == 10.0
  {
    var truth := [Spot(0), Spot(10)];
    var run := ShownRun(truth);
    EntriesOfRun(JOULE, run);
    EntriesOfRun(JOULE, run[..1]);
    assert run[..1][..0] == [];
    SumPkgIsSteps(JOULE, run);
    assert SumSteps(run[..1]) == 0;
  }

  lemma FirstPolled()
    ensures Reaches(false, UNIT, 2, State([Polled, Idle], Some(0), 0.0, [Spot(0)], [Spot(0)]))
  {
    assert Schedule(2, []) && Run(false, UNIT, Start(2), []) == Start(2);
    var s0 := State([Idle, Idle], None, 0.0, [], []);
    assert Start(2) == s0;
    var s1 := State([Entered, Idle], Some(0), 0.0, [], []);
    Next(false, UNIT, s0, Turn(0, Spot(0), Spot(0)), s1);
    assert [] + [Spot(0)] == [Spot(0)];
    Next(false, UNIT, s1, Turn(0, Spot(0), Spot(0)), State([Polled, Idle], Some(0), 0.0, [Spot(0)], [Spot(0)]));
  }

  /** Two threads that have both polled, one after the other. */
  lemma BothPolled()
    ensures Reaches(false, UNIT, 2, State([Polled, Polled], Some(1), 0.0, [Spot(0), Spot(10)], [Spot(0), Spot(10)]))
  {
    FirstPolled();
    var s2 := State([Polled, Idle], Some(0), 0.0, [Spot(0)], [Spot(0)]);
    var s3 := State([Polled, Entered], Some(1), 0.0, [Spot(0)], [Spot(0)]);
    Next(false, UNIT, s2, Turn(1, Spot(10), Spot(10)), s3);
    assert [Spot(0)] + [Spot(10)] == [Spot(0), Spot(10)];
    Next(false, UNIT, s3, Turn(1, Spot(10), Spot(10)),
         State([Polled, Polled], Some(1), 0.0, [Spot(0), Spot(10)], [Spot(0), Spot(10)]));
  }

  /** The mutex is needed: without it two threads can both add the second of two polls, and the total is
      more than what was reported. */
  lemma CountedTwice()
    ensures exists s :: Reaches(false, UNIT, 2, s) && s.threads == [Idle, Idle] && s.total > Reported(UNIT, s)
  {
    TwoPolls();
    BothPolled();
    var truth := [Spot(0), Spot(10)];
    var x, y := Turn(0, Spot(10), Spot(10)), Turn(1, Spot(10), Spot(10));
    var s4 := State([Polled, Polled], Some(1), 0.0, truth, truth);
    var s5 := State([Copied(10.0, 10.0), Polled], Some(1), 0.0, truth, truth);
    Next(false, UNIT, s4, x, s5);
    var s6 := State([Added, Polled], Some(1), 20.0, truth, truth);
    Next(false, UNIT, s5, x, s6);
    var s7 := State([Idle, Polled], None, 20.0, truth, truth);
    Next(false, UNIT, s6, x, s7);
    var s8 := State([Idle, Copied(10.0, 10.0)], None, 20.0, truth, truth);
    Next(false, UNIT, s7, y, s8);
    var s9 := State([Idle, Added], None, 40.0, truth, truth);
    Next(false, UNIT, s8, y, s9);
    Next(false, UNIT, s9, y, State([Idle, Idle], None, 40.0, truth, truth));
  }
}
