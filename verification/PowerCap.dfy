/** The power-cap controller of demoapps/powmon/power_wrapper_dynamic.c, which moves the requested cap
    down and up again in steps of 5 W, and set_rapl_power of demoapps/powmon/rapl2.c, which writes it to
    both sockets. */
module PowerCap {
  import opened Arithmetic
  import opened Words
  import opened BatchOps
  import opened Topology
  import opened MsrBatch
  import opened RaplUnits
  import opened RaplLimits

  // ----- the requested cap

  /** The controller's watts and poll_dir. */
  datatype Cap = Cap(watts: real, dir: real)

  /** One adjustment: both tests look at the same watts, and the second one decides. */
  function Adjust(wattCap: real, c: Cap): Cap {
    var down := if c.watts >= wattCap then -5.0 else c.dir;
    var dir := if c.watts <= 30.0 then 5.0 else down;
    Cap(c.watts + dir, dir)
  }

  function After(wattCap: real, adjustments: nat): Cap {
    if adjustments == 0 then Cap(wattCap, 5.0) else Adjust(wattCap, After(wattCap, adjustments - 1))
  }

  /** The least k with watts - 5k <= 30. */
  function StepsDown(watts: real): (k: nat)
    ensures watts - 5.0 * k as real <= 30.0
    ensures k > 0 ==> watts - 5.0 * (k - 1) as real > 30.0
    decreases if watts > 30.0 then watts.Floor else 0
  {
    if watts <= 30.0 then 0 else 1 + StepsDown(watts - 5.0)
  }

  /** How many steps below the cap the m-th adjustment of a period of 2k leaves the request. */
  function Depth(m: nat, k: nat): int {
    if m <= k then m else 2 * k - m
  }

  /** The request is a saw tooth below the cap: after n adjustments it is 5 W times the depth of the
      phase n mod 2k below it. */
  lemma {:induction false} SawTooth(wattCap: real, n: nat)
    requires wattCap > 30.0
    ensures var k := StepsDown(wattCap);
      && k > 0
      && After(wattCap, n).watts == wattCap - 5.0 * Depth(n % (2 * k), k) as real
      && (n > 0 ==> After(wattCap, n).dir == if 0 < n % (2 * k) <= k then -5.0 else 5.0)
    decreases n
  {
    var k := StepsDown(wattCap);
    if n == 0 {
      NextPhase(0, k);
    } else {
      SawTooth(wattCap, n - 1);
      NextPhase(n - 1, k);
      var m := (n - 1) % (2 * k);
      AboveFloor(wattCap, Depth(m, k), k);
    }
  }

  lemma NextPhase(n: nat, k: nat)
    requires k > 0
    ensures 0 % (2 * k) == 0
    ensures (n + 1) % (2 * k) == if n % (2 * k) == 2 * k - 1 then 0 else n % (2 * k) + 1
  {
    var d := 2 * k;
    var q, r := n / d, n % d;
    SplitDigits(0, 0, d);
    assert n == q * d + r;
    if r == d - 1 {
      assert n + 1 == (q + 1) * d + 0;
      SplitDigits(q + 1, 0, d);
    } else {
      SplitDigits(q, r + 1, d);
    }
  }

  /** The request reaches 30 W at the deepest step only. */
  lemma AboveFloor(wattCap: real, depth: int, k: nat)
    requires wattCap > 30.0 && k == StepsDown(wattCap) && 0 <= depth <= k
    ensures wattCap - 5.0 * depth as real <= 30.0 <==> depth == k
    ensures 25.0 < wattCap - 5.0 * depth as real <= wattCap
  {
  }

  /** The request stays in (25, wattCap] over every run, and is back at the cap every 2k adjustments. */
  lemma RequestBounded(wattCap: real, n: nat)
    requires wattCap > 30.0
    ensures 25.0 < After(wattCap, n).watts <= wattCap
    ensures n % (2 * StepsDown(wattCap)) == 0 ==> After(wattCap, n).watts == wattCap
    ensures After(wattCap, n + 2 * StepsDown(wattCap)).watts == After(wattCap, n).watts
  {
    var k := StepsDown(wattCap);
    SawTooth(wattCap, n);
    SawTooth(wattCap, n + 2 * k);
    SamePhase(n, 2 * k);
    var m := n % (2 * k);
    AboveFloor(wattCap, Depth(m, k), k);
  }

  lemma SamePhase(n: nat, d: nat)
    requires d > 0
    ensures (n + d) % d == n % d < d
  {
    var q, r := n / d, n % d;
    assert n + d == (q + 1) * d + r;
    SplitDigits(q + 1, r, d);
  }

  /** The cap bounds every request exactly when it is above 30 W; otherwise the first adjustment already
      exceeds it. */
  lemma CapBoundsExactly(wattCap: real)
    ensures (forall n :: After(wattCap, n).watts <= wattCap) <==> wattCap > 30.0
  {
    if wattCap > 30.0 {
      forall n: nat
        ensures After(wattCap, n).watts <= wattCap
      {
        RequestBounded(wattCap, n);
      }
    } else {
      assert After(wattCap, 0) == Cap(wattCap, 5.0);
      assert After(wattCap, 1).watts == wattCap + 5.0;
    }
  }

  // ----- writing the cap to both sockets

  /** What set_rapl_power asks for: a power, and a window of one second. */
  function Request(watts: real): Limit {
    Limit(Zero(), watts, 1.0)
  }

  /** The units are usable, and a window of one second has a code. */
  predicate Usual(u: Units) {
    ValidUnits(u) && u.seconds < MAX_UNITS
  }

  predicate FitsPower(u: Units, watts: real)
    requires ValidUnits(u)
  {
    watts >= 0.0 && WattsToBits(watts, u.watts) <= 32767
  }

  lemma RequestFits(u: Units, watts: real)
    requires Usual(u) && watts >= 0.0
    ensures Encodable(u, Request(watts), LOWER) && Encodable(u, Request(watts), UPPER)
    ensures FitsPower(u, watts) ==> FitsFields(u, Request(watts), LOWER) && FitsFields(u, Request(watts), UPPER)
    ensures Calculable(u, Some(Request(watts)), LOWER) <==> FitsPower(u, watts)
    ensures Calculable(u, Some(Request(watts)), UPPER) <==> FitsPower(u, watts)
  {
  }

  /** The word both package registers get. */
  function CapWord(u: Units, s0: real, s1: real): Word
    requires Usual(u) && FitsPower(u, s0) && FitsPower(u, s1)
  {
    RequestFits(u, s0);
    RequestFits(u, s1);
    PkgWord(u, Zero(), Some(Request(s0)), Some(Request(s1)))
  }

  /** Both limits it holds decode to no more than what was asked for, and to less than a unit less. */
  lemma CapWordDecodes(u: Units, s0: real, s1: real)
    requires Usual(u) && FitsPower(u, s0) && FitsPower(u, s1)
    ensures var word := CapWord(u, s0, s1);
      && word != Zero()
      && s0 - u.watts < FromBits(u, Limit(word, 0.0, 0.0), LOWER).watts <= s0
      && s1 - u.watts < FromBits(u, Limit(word, 0.0, 0.0), UPPER).watts <= s1
  {
    RequestFits(u, s0);
    RequestFits(u, s1);
    PkgRoundTrip(u, Zero(), Request(s0), Request(s1));
    WattsQuantised(s0, u.watts);
    WattsQuantised(s1, u.watts);
  }

  /** Both limits of the word are enabled and clamping; the lower window is within 7/8 and 1.127 of a second, and
      the upper one is one. */
  lemma CapWordWindows(u: Units, s0: real, s1: real)
    requires Usual(u) && FitsPower(u, s0) && FitsPower(u, s1)
    ensures var word := CapWord(u, s0, s1);
      && word[15] && word[16] && word[47] && word[48] && !word[63]
      && 0.875 < FromBits(u, Limit(word, 0.0, 0.0), LOWER).seconds < 1.127
      && FromBits(u, Limit(word, 0.0, 0.0), UPPER).seconds == 1.0
  {
    RequestFits(u, s0);
    RequestFits(u, s1);
    PkgWordBits(u, Zero(), Request(s0), Request(s1));
    PkgRoundTrip(u, Zero(), Request(s0), Request(s1));
    WindowAccurateExactly(1.0, u.seconds);
  }

  /** Processing a structure a second time keeps the bits it got the first time. */
  lemma SecondTimeSameBits(u: Units, l: Limit, offset: nat)
    requires Placed(offset) && FitsFields(u, l, offset)
    ensures var c := Result(u, l, offset);
      && (c.bits == Zero() ==> Encodable(u, c, offset))
      && Calculable(u, Some(c), offset) && Calc(u, c, offset).value.bits == c.bits
      && Contribution(u, Some(c), offset) == Contribution(u, Some(l), offset)
  {
    EncodedBits(u, l, offset);
  }

  // ----- what the kernel accepts

  /** The kernel's answers to one call of set_rapl_power: to the writes and to the reads on both sockets. */
  datatype Answers = Answers(write0: bool, write1: bool, read0: bool, read1: bool)
  {
    predicate Accepted(socket: nat) {
      if socket == 0 then write0 else write1
    }
  }

  /** The request of every adjustment has a code when the cap has one. */
  lemma EveryRequestFits(u: Units, wattCap: real, n: nat)
    requires ValidUnits(u) && wattCap > 30.0 && FitsPower(u, wattCap)
    ensures 25.0 < After(wattCap, n).watts <= wattCap && FitsPower(u, After(wattCap, n).watts)
  {
    RequestBounded(wattCap, n);
    SmallerFits(u, After(wattCap, n).watts, wattCap);
  }

  /** The word for the request after n adjustments. */
  function WordAfter(u: Units, wattCap: real, n: nat): Word
    requires Usual(u) && wattCap > 30.0 && FitsPower(u, wattCap)
  {
    EveryRequestFits(u, wattCap, n);
    CapWord(u, After(wattCap, n).watts, After(wattCap, n).watts)
  }

  /** Its power code. */
  function CodeAfter(u: Units, wattCap: real, n: nat): nat
    requires ValidUnits(u) && wattCap > 30.0 && FitsPower(u, wattCap)
  {
    EveryRequestFits(u, wattCap, n);
    WattsToBits(After(wattCap, n).watts, u.watts)
  }

  /** What a socket holds after the settings answered so far, setting n asking for the request after n
      adjustments: the word of the last one accepted. */
  function Held(u: Units, wattCap: real, was: Word, answers: seq<Answers>, socket: nat): Word
    requires Usual(u) && wattCap > 30.0 && FitsPower(u, wattCap)
    decreases |answers|
  {
    if answers == [] then was
    else
      var n := |answers| - 1;
      if answers[n].Accepted(socket) then WordAfter(u, wattCap, n) else Held(u, wattCap, was, answers[..n], socket)
  }

  /** The last setting that a socket accepted. */
  function LastAccepted(answers: seq<Answers>, socket: nat): (n: Option<nat>)
    ensures n.Some? ==> n.value < |answers| && answers[n.value].Accepted(socket)
    ensures forall i :: (if n.Some? then n.value + 1 else 0) <= i < |answers| ==> !answers[i].Accepted(socket)
    decreases |answers|
  {
    if answers == [] then None
    else
      var n := |answers| - 1;
      if answers[n].Accepted(socket) then Some(n) else LastAccepted(answers[..n], socket)
  }

  lemma {:induction false} HeldIsLast(u: Units, wattCap: real, was: Word, answers: seq<Answers>, socket: nat)
    requires Usual(u) && wattCap > 30.0 && FitsPower(u, wattCap)
    ensures Held(u, wattCap, was, answers, socket) ==
      match LastAccepted(answers, socket) case None => was case Some(n) => WordAfter(u, wattCap, n)
    decreases |answers|
  {
    if answers != [] {
      HeldIsLast(u, wattCap, was, answers[..|answers| - 1], socket);
    }
  }

  /** Two requests get the same word if and only if they have the same power code. */
  lemma SameWordSameCode(u: Units, w: real, v: real)
    requires Usual(u) && FitsPower(u, w) && FitsPower(u, v)
    ensures CapWord(u, w, w) == CapWord(u, v, v) <==> WattsToBits(w, u.watts) == WattsToBits(v, u.watts)
  {
    RequestFits(u, w);
    RequestFits(u, v);
    if WattsToBits(w, u.watts) == WattsToBits(v, u.watts) {
      SameCodeSameBits(u, w, v, LOWER);
      SameCodeSameBits(u, w, v, UPPER);
    }
    PkgRoundTrip(u, Zero(), Request(w), Request(w));
    PkgRoundTrip(u, Zero(), Request(v), Request(v));
    WattsRoundTrip(WattsToBits(w, u.watts), u.watts);
    WattsRoundTrip(WattsToBits(v, u.watts), u.watts);
  }

  lemma SameCodeSameBits(u: Units, w: real, v: real, offset: nat)
    requires Usual(u) && FitsPower(u, w) && FitsPower(u, v) && WattsToBits(w, u.watts) == WattsToBits(v, u.watts)
    requires Placed(offset) && Encodable(u, Request(w), offset) && Encodable(u, Request(v), offset)
    ensures ToBits(u, Request(w), offset).Some? && ToBits(u, Request(v), offset).Some?
    ensures ToBits(u, Request(w), offset).value.bits == ToBits(u, Request(v), offset).value.bits
  {
    assert SecondsField(u, Request(w), offset) == SecondsField(u, Request(v), offset);
  }

  /** After a run of settings both sockets hold the same word if and only if the last requests they accepted
      have the same power code; a socket that accepted none still has its old word. */
  lemma SameWordExactly(u: Units, wattCap: real, was0: Word, was1: Word, answers: seq<Answers>)
    requires Usual(u) && wattCap > 30.0 && FitsPower(u, wattCap)
    ensures Held(u, wattCap, was0, answers, 0) == Held(u, wattCap, was1, answers, 1) <==>
      match (LastAccepted(answers, 0), LastAccepted(answers, 1))
      case (None, None) => was0 == was1
      case (Some(n), None) => WordAfter(u, wattCap, n) == was1
      case (None, Some(m)) => was0 == WordAfter(u, wattCap, m)
      case (Some(n), Some(m)) => CodeAfter(u, wattCap, n) == CodeAfter(u, wattCap, m)
  {
    HeldIsLast(u, wattCap, was0, answers, 0);
    HeldIsLast(u, wattCap, was1, answers, 1);
    var l0, l1 := LastAccepted(answers, 0), LastAccepted(answers, 1);
    if l0.Some? && l1.Some? {
      EveryRequestFits(u, wattCap, l0.value);
      EveryRequestFits(u, wattCap, l1.value);
      SameWordSameCode(u, After(wattCap, l0.value).watts, After(wattCap, l1.value).watts);
    }
  }

  /** Neither limit of the word decodes to more than the cap. */
  predicate BelowCap(u: Units, wattCap: real, word: Word)
    requires ValidUnits(u)
  {
    && FromBits(u, Limit(word, 0.0, 0.0), LOWER).watts <= wattCap
    && FromBits(u, Limit(word, 0.0, 0.0), UPPER).watts <= wattCap
  }

  /** A socket is capped if and only if it accepted a setting, or was capped before. */
  lemma CappedExactly(u: Units, wattCap: real, was: Word, answers: seq<Answers>, socket: nat)
    requires Usual(u) && wattCap > 30.0 && FitsPower(u, wattCap)
    ensures BelowCap(u, wattCap, Held(u, wattCap, was, answers, socket))
      <==> LastAccepted(answers, socket).Some? || BelowCap(u, wattCap, was)
  {
    HeldIsLast(u, wattCap, was, answers, socket);
    var l := LastAccepted(answers, socket);
    if l.Some? {
      EveryRequestFits(u, wattCap, l.value);
      CapWordDecodes(u, After(wattCap, l.value).watts, After(wattCap, l.value).watts);
    }
  }

  class Controller {
    const rapl: Rapl
    const rlim0: RaplLimit
    const rlim1: RaplLimit
    const wattCap: real
    var watts: real
    var pollDir: real
    var pollNum: nat

    constructor (rapl: Rapl, wattCap: real)
      ensures this.rapl == rapl && this.wattCap == wattCap && fresh(rlim0) && fresh(rlim1) && rlim0 != rlim1
      ensures watts == wattCap && pollDir == 5.0 && pollNum == 0
    {
      this.rapl, this.wattCap := rapl, wattCap;
      rlim0 := new RaplLimit(Zero(), 0.0, 0.0);
      rlim1 := new RaplLimit(Zero(), 0.0, 0.0);
      watts, pollDir, pollNum := wattCap, 5.0, 0;
    }

    /** A machine with package limits on two sockets of the same units. */
    predicate Ready() {
      && rapl.Ready() && rapl.pkgLimit && rapl.topo.sockets >= 2 && rlim0 != rlim1
      && rapl.units[0] == rapl.units[1] && Usual(rapl.units[0])
    }

    function Reg0(): Reg
      requires Ready()
    {
      rapl.Register(0, MSR_PKG_POWER_LIMIT)
    }

    function Reg1(): Reg
      requires Ready()
    {
      rapl.Register(1, MSR_PKG_POWER_LIMIT)
    }

    lemma RegistersDiffer()
      requires Ready()
      ensures Reg0() != Reg1()
    {
      NumberOfCoord(rapl.topo, rapl.discontinuous, Coord(0, 0, 0));
      NumberOfCoord(rapl.topo, rapl.discontinuous, Coord(1, 0, 0));
    }

    /** The two calls of set_pkg_rapl_limit, whose answers are not looked at. The second one finds the
        structures as the first one left them. */
    method SetBoth(s0bound: real, s1bound: real, a: Answers)
      requires Ready() && s0bound >= 0.0 && s1bound >= 0.0
      modifies rlim0, rlim1, rapl.dev
      ensures rapl.dev.regs == NewRegs(old(rapl.dev.regs), s0bound, s1bound, a)
      ensures Encodable(rapl.units[0], rlim0.View(), LOWER) && Encodable(rapl.units[0], rlim1.View(), LOWER)
    {
      var r;
      ghost var u := rapl.units[0];
      ghost var l0, l1 := Request(s0bound), Request(s1bound);
      rlim0.bits, rlim0.watts, rlim0.seconds := Zero(), s0bound, 1.0;
      rlim1.bits, rlim1.watts, rlim1.seconds := Zero(), s1bound, 1.0;
      assert rlim0.View() == l0 && rlim1.View() == l1;
      RequestFits(u, s0bound);
      RequestFits(u, s1bound);
      r := rapl.SetPkgRaplLimit(0, rlim0, rlim1, Io(true, a.write0));
      SecondCall(u, s0bound, s1bound, rlim0.View(), rlim1.View());
      r := rapl.SetPkgRaplLimit(1, rlim0, rlim1, Io(true, a.write1));
    }

    /** Each register whose write is accepted gets the one word; none is written when a power code has more
        than fifteen bits. */
    function NewRegs(regs: Store, s0: real, s1: real, a: Answers): Store
      requires Ready() && s0 >= 0.0 && s1 >= 0.0
    {
      var u := rapl.units[0];
      if FitsPower(u, s0) && FitsPower(u, s1) then
        var first := if a.write0 then regs[Reg0() := CapWord(u, s0, s1)] else regs;
        if a.write1 then first[Reg1() := CapWord(u, s0, s1)] else first
      else regs
    }

    /** set_rapl_power. Afterwards both sockets hold the same word if and only if both writes were accepted, or
        one was and the other socket held that word already, or none was made or accepted and both held the
        same. */
    method SetRaplPower(s0bound: real, s1bound: real, a: Answers)
      requires Ready() && s0bound >= 0.0 && s1bound >= 0.0
      modifies rlim0, rlim1, rapl.dev
      ensures rapl.dev.regs == NewRegs(old(rapl.dev.regs), s0bound, s1bound, a)
      ensures var was0, was1 := Lookup(old(rapl.dev.regs), Reg0()), Lookup(old(rapl.dev.regs), Reg1());
        Lookup(rapl.dev.regs, Reg0()) == Lookup(rapl.dev.regs, Reg1()) <==>
        if FitsPower(rapl.units[0], s0bound) && FitsPower(rapl.units[0], s1bound) then
          (a.write0 || was0 == if a.write1 then CapWord(rapl.units[0], s0bound, s1bound) else was1)
          && (a.write1 || was1 == if a.write0 then CapWord(rapl.units[0], s0bound, s1bound) else was0)
        else was0 == was1
    {
      SetBoth(s0bound, s1bound, a);
      RegistersDiffer();
      ReadBack(a);
    }

    /** The two calls of get_pkg_rapl_limit that follow. */
    method ReadBack(a: Answers)
      requires Ready()
      requires Encodable(rapl.units[0], rlim0.View(), LOWER) && Encodable(rapl.units[0], rlim1.View(), LOWER)
      modifies rlim0, rlim1
    {
      ReadOne(0, rlim0, a.read0);
      ReadOne(1, rlim1, a.read1);
    }

    method ReadOne(socket: nat, limit: RaplLimit, readOk: bool)
      requires Ready() && socket < 2 && Encodable(rapl.units[0], limit.View(), LOWER)
      modifies limit
    {
      var r := rapl.GetPkgRaplLimit(socket, limit, null, Io(readOk, true), Io(readOk, true));
    }

    /** Each socket that accepts the write holds the word for w; the other keeps its own. */
    method Apply(w: real, a: Answers)
      requires Ready() && w >= 0.0 && FitsPower(rapl.units[0], w)
      modifies rlim0, rlim1, rapl.dev
      ensures Lookup(rapl.dev.regs, Reg0()) == if a.write0 then CapWord(rapl.units[0], w, w) else Lookup(old(rapl.dev.regs), Reg0())
      ensures Lookup(rapl.dev.regs, Reg1()) == if a.write1 then CapWord(rapl.units[0], w, w) else Lookup(old(rapl.dev.regs), Reg1())
    {
      RegistersDiffer();
      SetRaplPower(w, w, a);
    }

    /** The controller can run: a machine it knows, and a cap that has a code. */
    predicate Capping() {
      Ready() && wattCap > 30.0 && FitsPower(rapl.units[0], wattCap)
    }

    /** After the settings answered so far the request is where the saw tooth is, and each socket holds the
        word of the last setting it accepted. */
    ghost predicate Follows(was0: Word, was1: Word, answers: seq<Answers>)
      requires Capping() && answers != []
      reads this, rapl.dev
    {
      && Cap(watts, pollDir) == After(wattCap, |answers| - 1)
      && Lookup(rapl.dev.regs, Reg0()) == Held(rapl.units[0], wattCap, was0, answers, 0)
      && Lookup(rapl.dev.regs, Reg1()) == Held(rapl.units[0], wattCap, was1, answers, 1)
    }

    /** The adjustment made every fifth turn. */
    method AdjustCap(ghost was0: Word, ghost was1: Word, ghost answers: seq<Answers>, a: Answers)
      requires Capping() && answers != [] && Follows(was0, was1, answers)
      modifies this`watts, this`pollDir, rlim0, rlim1, rapl.dev
      ensures Follows(was0, was1, answers + [a])
    {
      if watts >= wattCap {
        pollDir := -5.0;
      }
      if watts <= 30.0 {
        pollDir := 5.0;
      }
      watts := watts + pollDir;
      EveryRequestFits(rapl.units[0], wattCap, |answers|);
      assert (answers + [a])[..|answers|] == answers;
      Apply(watts, a);
    }

    /** One turn of the loop, at which the sample is taken too. */
    method Turn(ghost was0: Word, ghost was1: Word, ghost answers: seq<Answers>, a: Answers) returns (ghost after: seq<Answers>)
      requires Capping() && answers != [] && Follows(was0, was1, answers)
      modifies this, rlim0, rlim1, rapl.dev
      ensures after == (if old(pollNum) % 5 == 0 then answers + [a] else answers)
      ensures Follows(was0, was1, after) && pollNum == old(pollNum) + 1
    {
      after := answers;
      if pollNum % 5 == 0 {
        AdjustCap(was0, was1, answers, a);
        after := answers + [a];
      }
      pollNum := pollNum + 1;
    }

    /** What power_set_measurement does before its loop. */
    method Begin(a: Answers)
      requires Capping() && pollDir == 5.0
      modifies this, rlim0, rlim1, rapl.dev
      ensures pollNum == 1
      ensures Follows(Lookup(old(rapl.dev.regs), Reg0()), Lookup(old(rapl.dev.regs), Reg1()), [a])
    {
      pollNum := 0;
      assert [a][..0] == [];
      EveryRequestFits(rapl.units[0], wattCap, 0);
      Apply(wattCap, a);
      watts := wattCap;
      pollNum := pollNum + 1;
    }

    /** power_set_measurement, for any number of turns of its loop and any answers of the kernel: the request
        follows the saw tooth, and each socket holds the word of the last setting it accepted, or its old word. */
    method PowerSetMeasurement(turns: nat, answers: seq<Answers>)
      requires Capping() && pollDir == 5.0 && |answers| == turns / 5 + 1
      modifies this, rlim0, rlim1, rapl.dev
      ensures pollNum == turns + 1
      ensures Follows(Lookup(old(rapl.dev.regs), Reg0()), Lookup(old(rapl.dev.regs), Reg1()), answers)
      ensures forall k :: 0 <= k < 2 && LastAccepted(answers, k).Some? ==>
        BelowCap(rapl.units[0], wattCap, Lookup(rapl.dev.regs, if k == 0 then Reg0() else Reg1()))
    {
      ghost var was0, was1 := Lookup(rapl.dev.regs, Reg0()), Lookup(rapl.dev.regs, Reg1());
      Begin(answers[0]);
      ghost var done := [answers[0]];
      var turn := 0;
      while turn < turns
        invariant 0 <= turn <= turns && pollNum == turn + 1
        invariant done == answers[..turn / 5 + 1] && Follows(was0, was1, done)
      {
        done := Turn(was0, was1, done, answers[(turn + 1) / 5]);
        turn := turn + 1;
      }
      assert done == answers;
      CappedExactly(rapl.units[0], wattCap, was0, answers, 0);
      CappedExactly(rapl.units[0], wattCap, was1, answers, 1);
    }
  }

  lemma SmallerFits(u: Units, w: real, wattCap: real)
    requires ValidUnits(u) && 0.0 <= w <= wattCap && FitsPower(u, wattCap)
    ensures FitsPower(u, w)
  {
    NonNegative(w, u.watts);
    NonNegative(wattCap, u.watts);
    if w < wattCap {
      DivideIff(w, wattCap, u.watts);
    }
  }

  /** What the first call leaves in the two structures. */
  ghost predicate LeftBehind(u: Units, s0: real, s1: real, v0: Limit, v1: Limit)
    requires Usual(u) && s0 >= 0.0 && s1 >= 0.0
  {
    RequestFits(u, s0);
    RequestFits(u, s1);
    && v0 == Result(u, Request(s0), LOWER)
    && v1 == if FitsPower(u, s0) && FitsPower(u, s1) then Result(u, Request(s1), UPPER) else Request(s1)
  }

  /** The second call then writes the same word as the first, or fails as the first did. */
  lemma SecondCall(u: Units, s0: real, s1: real, v0: Limit, v1: Limit)
    requires Usual(u) && s0 >= 0.0 && s1 >= 0.0 && LeftBehind(u, s0, s1, v0, v1)
    ensures Encoding(u, Some(v0), LOWER) && Encoding(u, Some(v1), UPPER)
    ensures Calculable(u, Some(v0), LOWER) && Calculable(u, Some(v1), UPPER) <==> FitsPower(u, s0) && FitsPower(u, s1)
    ensures FitsPower(u, s0) && FitsPower(u, s1) ==>
      forall current :: PkgWord(u, current, Some(v0), Some(v1)) == CapWord(u, s0, s1)
    ensures Encodable(u, Result(u, v0, LOWER), LOWER)
    ensures Encodable(u, if FitsPower(u, s0) && FitsPower(u, s1) then Result(u, v1, UPPER) else v1, LOWER)
  {
    RequestFits(u, s0);
    RequestFits(u, s1);
    if FitsPower(u, s0) {
      SecondTimeSameBits(u, Request(s0), LOWER);
    }
    if FitsPower(u, s0) && FitsPower(u, s1) {
      SecondTimeSameBits(u, Request(s1), UPPER);
      UpperAgain(u, s1, v1);
    }
    ProcessedEncodable(u, v0);
  }

  /** The structure of the upper limit, processed again, still asks for one second. */
  lemma UpperAgain(u: Units, s1: real, v1: Limit)
    requires Usual(u) && FitsPower(u, s1) && FitsFields(u, Request(s1), UPPER) && Encodable(u, Request(s1), UPPER)
    requires v1 == Result(u, Request(s1), UPPER)
    ensures v1.bits != Zero() && Encodable(u, Result(u, v1, UPPER), LOWER)
  {
    EncodedBits(u, Request(s1), UPPER);
    DecodedHalf(u, Request(s1), UPPER, v1.bits);
    assert WordOf(1)[0];
    assert v1.bits[49];
    WattsRoundTrip(WattsToBits(s1, u.watts), u.watts);
  }

  /** A processed lower limit has values that can be encoded again. */
  lemma ProcessedEncodable(u: Units, l: Limit)
    requires ValidUnits(u) && (l.bits == Zero() ==> Encodable(u, l, LOWER))
    ensures Encodable(u, Result(u, l, LOWER), LOWER)
  {
    if l.bits != Zero() {
      WindowAgain(MaskVal(l.bits, 23, 17), u.seconds);
      WattsRoundTrip(NatOf(MaskVal(l.bits, 14, 0)), u.watts);
    }
  }

  lemma WindowAgain(field: Word, t: real)
    requires t > 0.0
    ensures InTimeUnits(BitsToSeconds(field, t), t) >= 1.0
  {
    WindowAtLeastOne(field);
    AfterDividing(BitsToSeconds(field, t), DecodeWindow(field), t);
  }

  lemma WindowAtLeastOne(b: Word)
    ensures DecodeWindow(b) >= 1.0
  {
    MaskValIsField(b, 6, 5);
    Literals();
    PartsOf(1.0 + 0.25 * NatOf(MaskVal(b, 6, 5)) as real, NatOf(MaskVal(b, 4, 0)));
  }
}
