/** The CPU numbering of src/msr_core.c: the two index formulas of devidx, the map built by
    find_cpu_top, and the one-CPU test that chooses between the formulas. */
module Topology {
  import opened Arithmetic

  /** The result of core_config: sockets, cores per socket, threads per core. */
  datatype Topo = Topo(sockets: nat, cores: nat, threads: nat)
  {
    predicate Positive() {
      sockets > 0 && cores > 0 && threads > 0
    }

    function NumCores(): nat {
      sockets * cores
    }

    /** NUM_DEVS */
    function NumDevs(): nat {
      threads * NumCores()
    }
  }

  datatype Coord = Coord(socket: nat, core: nat, thread: nat)

  predicate InRange(t: Topo, p: Coord) {
    p.socket < t.sockets && p.core < t.cores && p.thread < t.threads
  }

  /** devidx: consecutive numbers go to the cores of one socket, or round the sockets. */
  function DevIdx(t: Topo, discontinuous: bool, p: Coord): nat {
    if !discontinuous then
      p.thread * t.NumCores() + (p.socket * t.cores + p.core)
    else
      p.thread * t.NumCores() + (p.core * t.sockets + p.socket)
  }

  /** The coordinates numbered d. */
  function CoordOf(t: Topo, discontinuous: bool, d: nat): Coord
    requires t.Positive()
  {
    Product(t.sockets, t.cores);
    var r := d % t.NumCores();
    if !discontinuous then
      Coord(r / t.cores, r % t.cores, d / t.NumCores())
    else
      Coord(r % t.sockets, r / t.sockets, d / t.NumCores())
  }

  // ----- the order of the numbers

  /** Continuous numbers count the cores of a socket, then the sockets, then the threads. */
  lemma ContinuousOrder(t: Topo, p: Coord)
    requires t.Positive() && InRange(t, p)
    ensures DevIdx(t, false, Coord(0, 0, 0)) == 0
    ensures p.core + 1 < t.cores ==> DevIdx(t, false, Coord(p.socket, p.core + 1, p.thread)) == DevIdx(t, false, p) + 1
    ensures p.core + 1 == t.cores ==> DevIdx(t, false, Coord(p.socket + 1, 0, p.thread)) == DevIdx(t, false, p) + 1
    ensures p.core + 1 == t.cores && p.socket + 1 == t.sockets ==>
      DevIdx(t, false, Coord(0, 0, p.thread + 1)) == DevIdx(t, false, p) + 1
  {
    NextProduct(p.socket, t.cores);
    NextProduct(p.thread, t.NumCores());
  }

  /** Discontinuous numbers go round the sockets, then count the cores, then the threads. */
  lemma DiscontinuousOrder(t: Topo, p: Coord)
    requires t.Positive() && InRange(t, p)
    ensures DevIdx(t, true, Coord(0, 0, 0)) == 0
    ensures p.socket + 1 < t.sockets ==> DevIdx(t, true, Coord(p.socket + 1, p.core, p.thread)) == DevIdx(t, true, p) + 1
    ensures p.socket + 1 == t.sockets ==> DevIdx(t, true, Coord(0, p.core + 1, p.thread)) == DevIdx(t, true, p) + 1
    ensures p.socket + 1 == t.sockets && p.core + 1 == t.cores ==>
      DevIdx(t, true, Coord(0, 0, p.thread + 1)) == DevIdx(t, true, p) + 1
  {
    NextProduct(p.core, t.sockets);
    NextProduct(p.thread, t.NumCores());
    assert t.cores * t.sockets == t.NumCores();
  }

  lemma NextProduct(a: nat, b: nat)
    ensures (a + 1) * b == a * b + b && 0 * b == 0
  {
  }

  // ----- the numbering is a bijection

  /** In-range coordinates get an in-range number, from which they are recovered. */
  lemma NumberOfCoord(t: Topo, discontinuous: bool, p: Coord)
    requires t.Positive() && InRange(t, p)
    ensures DevIdx(t, discontinuous, p) < t.NumDevs()
    ensures CoordOf(t, discontinuous, DevIdx(t, discontinuous, p)) == p
  {
    if discontinuous {
      Digits(p.core, p.socket, t.cores, t.sockets);
      Digits(p.thread, p.core * t.sockets + p.socket, t.threads, t.NumCores());
    } else {
      Digits(p.socket, p.core, t.sockets, t.cores);
      Digits(p.thread, p.socket * t.cores + p.core, t.threads, t.NumCores());
    }
  }

  /** Every in-range number is that of some in-range coordinates. */
  lemma CoordOfNumber(t: Topo, discontinuous: bool, d: nat)
    requires t.Positive() && d < t.NumDevs()
    ensures InRange(t, CoordOf(t, discontinuous, d))
    ensures DevIdx(t, discontinuous, CoordOf(t, discontinuous, d)) == d
  {
    Product(t.sockets, t.cores);
    JoinDigits(d, t.threads, t.NumCores());
    var r := d % t.NumCores();
    if discontinuous {
      JoinDigits(r, t.cores, t.sockets);
    } else {
      JoinDigits(r, t.sockets, t.cores);
    }
  }

  // ----- the one-CPU test

  /** The logical core number hwloc gives a coordinate. */
  function LogicalCore(t: Topo, p: Coord): nat {
    p.socket * t.cores + p.core
  }

  /** What the test concludes on a machine numbered by the formula `machine`: CPU 1 exists and is
      not on logical core 1. */
  function Detected(t: Topo, machine: bool): bool
    requires t.Positive()
  {
    t.NumDevs() > 1 && LogicalCore(t, CoordOf(t, machine, 1)) != 1
  }

  /** The formula the test selects numbers every CPU as the machine does, even where it is not the
      machine's own formula. */
  lemma TestSelectsMachine(t: Topo, machine: bool, p: Coord)
    requires t.Positive() && InRange(t, p)
    ensures DevIdx(t, Detected(t, machine), p) == DevIdx(t, machine, p)
  {
    if t.NumDevs() > 1 {
      CoordOfNumber(t, machine, 1);
      var q := CoordOf(t, machine, 1);
      if t.sockets > 1 && t.cores > 1 {
        Wide(t);
        SplitDigits(0, 1, t.NumCores());
        if machine {
          SplitDigits(0, 1, t.sockets);
          assert q == Coord(1, 0, 0);
        } else {
          SplitDigits(0, 1, t.cores);
          assert q == Coord(0, 1, 0);
        }
        assert Detected(t, machine) == machine;
      } else {
        OneWide(t, p);
      }
    } else {
      assert t.sockets == 1 && t.cores == 1 by { OneDevice(t); }
    }
  }

  lemma Wide(t: Topo)
    requires t.sockets > 1 && t.cores > 1
    ensures t.NumCores() > 1
  {
    ProductLe(2, t.sockets, t.cores);
  }

  lemma OneDevice(t: Topo)
    requires t.Positive() && t.NumDevs() <= 1
    ensures t.sockets == 1 && t.cores == 1
  {
    Product(t.sockets, t.cores);
    ProductLe(1, t.threads, t.NumCores());
    if t.sockets > 1 { ProductLe(2, t.sockets, t.cores); }
    if t.cores > 1 { ProductLe(2, t.cores, t.sockets); }
  }

  /** With one socket, or one core a socket, both formulas agree. */
  lemma OneWide(t: Topo, p: Coord)
    requires InRange(t, p) && (t.sockets == 1 || t.cores == 1)
    ensures DevIdx(t, true, p) == DevIdx(t, false, p)
  {
  }

  // ----- the least CPU of a socket and of a core

  /** The lowest-numbered CPU of a socket is its core 0, thread 0. */
  lemma LeastOfSocket(t: Topo, discontinuous: bool, p: Coord)
    requires InRange(t, p)
    ensures DevIdx(t, discontinuous, Coord(p.socket, 0, 0)) <= DevIdx(t, discontinuous, p)
  {
  }

  /** The lowest-numbered CPU of a core is its thread 0. */
  lemma LeastOfCore(t: Topo, discontinuous: bool, p: Coord)
    requires InRange(t, p)
    ensures DevIdx(t, discontinuous, Coord(p.socket, p.core, 0)) <= DevIdx(t, discontinuous, p)
  {
  }

  /** A logical core number names one socket and core. */
  lemma LogicalCoreUnique(t: Topo, p: Coord, q: Coord)
    requires InRange(t, p) && InRange(t, q) && LogicalCore(t, p) == LogicalCore(t, q)
    ensures p.socket == q.socket && p.core == q.core
  {
    DigitsUnique(p.socket, p.core, q.socket, q.core, t.cores);
  }

  // ----- the map built from hwloc

  /** A processing unit as hwloc lists it. */
  datatype Pu = Pu(osIndex: nat, core: nat, socket: nat, sibling: nat)

  /** struct hwthread */
  datatype HwThread = HwThread(apicId: nat, threadId: nat, coreId: nat, socketId: nat, sibling: nat)

  /** The map entry of the i-th processing unit. */
  function EntryOf(i: nat, pu: Pu): HwThread {
    HwThread(i, pu.osIndex, pu.core, pu.socket, pu.sibling)
  }

  /** A machine with a regular numbering: hwloc lists every coordinate once, in the order coords,
      and the kernel numbered them by one of the two formulas. */
  ghost predicate Regular(t: Topo, machine: bool, pus: seq<Pu>, coords: seq<Coord>) {
    && |pus| == |coords| == t.NumDevs()
    && (forall i :: 0 <= i < |coords| ==> InRange(t, coords[i]))
    && (forall i, j :: 0 <= i < j < |coords| ==> coords[i] != coords[j])
    && (forall p :: InRange(t, p) ==> p in coords)
    && (forall i :: 0 <= i < |pus| ==>
          pus[i].osIndex == DevIdx(t, machine, coords[i])
          && pus[i].core == LogicalCore(t, coords[i])
          && pus[i].socket == coords[i].socket)
  }

  class TopoList {
    var threadMap: array<HwThread>
    var discontinuous: bool

    constructor ()
      ensures !discontinuous && threadMap.Length == 0 && fresh(threadMap)
    {
      threadMap := new HwThread[0];
      discontinuous := false;
    }

    /** The map lists every CPU of the machine, and the index formula selected for it is right. */
    ghost predicate Agrees(t: Topo)
      reads this, threadMap
    {
      && threadMap.Length == t.NumDevs()
      && forall p :: InRange(t, p) ==> AgreesAt(t, p)
    }

    ghost predicate AgreesAt(t: Topo, p: Coord)
      reads this, threadMap
    {
      var d := DevIdx(t, discontinuous, p);
      d < threadMap.Length && threadMap[d].socketId == p.socket && threadMap[d].coreId == LogicalCore(t, p)
    }

    method FindCpuTop(t: Topo, pus: seq<Pu>)
      requires |pus| == t.NumDevs()
      requires forall i :: 0 <= i < |pus| ==> pus[i].osIndex < |pus|
      requires forall i, j :: 0 <= i < j < |pus| ==> pus[i].osIndex != pus[j].osIndex
      modifies this
      ensures fresh(threadMap) && threadMap.Length == |pus|
      ensures forall i :: 0 <= i < |pus| ==>
        threadMap[pus[i].osIndex] == HwThread(i, pus[i].osIndex, pus[i].core, pus[i].socket, pus[i].sibling)
      ensures discontinuous == (old(discontinuous) || exists i :: 0 <= i < |pus| && pus[i].osIndex == 1 && pus[i].core != 1)
    {
      threadMap := new HwThread[|pus|](_ => HwThread(0, 0, 0, 0, 0));
      var i := 0;
      while i < |pus|
        invariant 0 <= i <= |pus|
        invariant fresh(threadMap) && threadMap.Length == |pus|
        invariant forall k :: 0 <= k < i ==> threadMap[pus[k].osIndex] == EntryOf(k, pus[k])
        invariant discontinuous == (old(discontinuous) || exists k :: 0 <= k < i && pus[k].osIndex == 1 && pus[k].core != 1)
      {
        var os := pus[i].osIndex;
        threadMap[os] := EntryOf(i, pus[i]);
        if os == 1 {
          if os != threadMap[os].coreId {
            discontinuous := true;
          }
        }
        i := i + 1;
      }
    }

    /** On a machine of either regular numbering the first call leaves the index formula and the map
        in agreement, so that a CPU addressed by coordinates is the CPU found by searching. */
    method FindRegularTop(t: Topo, pus: seq<Pu>, ghost machine: bool, ghost coords: seq<Coord>)
      requires t.Positive() && Regular(t, machine, pus, coords) && !discontinuous
      modifies this
      ensures fresh(threadMap) && Agrees(t)
    {
      forall i | 0 <= i < |pus|
        ensures pus[i].osIndex < |pus| && CoordOf(t, machine, pus[i].osIndex) == coords[i]
      {
        NumberOfCoord(t, machine, coords[i]);
      }
      FindCpuTop(t, pus);
      DetectedByScan(t, machine, pus, coords);
      assert discontinuous == Detected(t, machine);
      forall p | InRange(t, p)
        ensures AgreesAt(t, p)
      {
        TestSelectsMachine(t, machine, p);
        var i :| 0 <= i < |coords| && coords[i] == p;
        assert threadMap[pus[i].osIndex] == EntryOf(i, pus[i]);
      }
    }
  }

  /** The scan of find_cpu_top reaches the conclusion Detected. */
  lemma DetectedByScan(t: Topo, machine: bool, pus: seq<Pu>, coords: seq<Coord>)
    requires t.Positive() && Regular(t, machine, pus, coords)
    ensures Detected(t, machine) <==> exists i :: 0 <= i < |pus| && pus[i].osIndex == 1 && pus[i].core != 1
  {
    if Detected(t, machine) {
      var p := CoordOf(t, machine, 1);
      CoordOfNumber(t, machine, 1);
      var i :| 0 <= i < |coords| && coords[i] == p;
      assert pus[i].osIndex == 1 && pus[i].core != 1;
    }
    if i :| 0 <= i < |pus| && pus[i].osIndex == 1 && pus[i].core != 1 {
      NumberOfCoord(t, machine, coords[i]);
    }
  }
}
