/** The interval timer of demoapps/powmon/ghighres.c, with its 32-bit step and the 32-bit product of step
    and interval: when the loop of a late call ends, when a call leaves the timer on its grid, and what a
    whole run of calls does. */
module MsTimer {
  import opened Arithmetic
  import opened Words

  const WIDTH: nat := 0x1_0000_0000

  /** The product of two C unsigned ints. */
  function Mul32(a: nat, b: nat): nat {
    (a * b) % WIDTH
  }

  /** struct mstimer */
  datatype Timer = Timer(startms: nat, step: nat, interval: nat, nextms: nat)

  /** The fields as the code keeps them. */
  predicate Coded(t: Timer) {
    t.step < WIDTH && t.interval < WIDTH && t.nextms == t.startms + Mul32(t.step, t.interval)
  }

  /** The timer fires at a whole number of intervals from its start. */
  predicate OnGrid(t: Timer) {
    t.interval > 0 && t.step >= 1 && t.nextms == t.startms + t.step * t.interval
  }

  /** The timer after c increments of its step. */
  function Turned(t: Timer, c: nat): Timer {
    var step := (t.step + c) % WIDTH;
    Timer(t.startms, step, t.interval, t.startms + Mul32(step, t.interval))
  }

  /** The loop of a late call ends with turn c. */
  predicate EndsWith(t: Timer, now: nat, c: nat) {
    c > 0 && Turned(t, c).nextms > now && forall j :: 0 < j < c ==> Turned(t, j).nextms <= now
  }

  /** Some turn of the loop leads past now. */
  ghost predicate Ends(t: Timer, now: nat) {
    exists c: nat :: c > 0 && Turned(t, c).nextms > now
  }

  /** A call at time now reports cadd and leaves the timer u: a late call turns until the timer fires after
      now, any other call sleeps and turns once. */
  predicate Called(t: Timer, now: nat, u: Timer, cadd: nat) {
    if now >= t.nextms then EndsWith(t, now, cadd) && u == Turned(t, cadd)
    else cadd == 0 && u == Turned(t, 1)
  }

  // ----- arithmetic

  lemma Associates(a: nat, b: nat, c: nat)
    ensures a * (b * c) == (a * b) * c == b * (a * c)
  {
  }

  lemma Distributes(a: nat, b: nat, c: nat)
    ensures (a + b) * c == a * c + b * c
  {
  }

  /** Reducing a factor leaves the reduced product as it is. */
  lemma FactorReduced(k: nat, i: nat)
    ensures Mul32(k % WIDTH, i) == Mul32(k, i)
  {
    var q, r := k / WIDTH, k % WIDTH;
    var p := r * i;
    assert k * i == (q * i) * WIDTH + p;
    assert p == (p / WIDTH) * WIDTH + p % WIDTH;
    assert k * i == (q * i + p / WIDTH) * WIDTH + p % WIDTH;
    SplitDigits(q * i + p / WIDTH, p % WIDTH, WIDTH);
  }

  lemma ModScaled(g: nat, x: nat, y: nat)
    requires g > 0 && y > 0
    ensures (g * x) % (g * y) == g * (x % y)
    ensures x % y < y
  {
    var q, r := x / y, x % y;
    Product(g, y);
    assert g * x == q * (g * y) + g * r by {
      assert x == q * y + r;
    }
    ProductLe(r + 1, y, g);
    SplitDigits(q, g * r, g * y);
  }

  /** The number of times two divides n. */
  function Twos(n: nat): nat
    requires n > 0
  {
    if n % 2 == 1 then 0 else 1 + Twos(n / 2)
  }

  lemma {:induction false} OddPart(n: nat) returns (m: nat)
    requires n > 0
    ensures m % 2 == 1 && n == Pow2(Twos(n)) * m
  {
    if n % 2 == 1 {
      m := n;
    } else {
      m := OddPart(n / 2);
      DoubleProduct(Pow2(Twos(n / 2)), m);
    }
  }

  /** An odd number has a multiple that is one less than a multiple of 2^e. */
  lemma {:induction false} MinusOne(m: nat, e: nat) returns (x: nat, q: nat)
    requires m % 2 == 1
    ensures x * m + 1 == q * Pow2(e) && q > 0
  {
    if e == 0 {
      x, q := 0, 1;
    } else {
      x, q := MinusOne(m, e - 1);
      x, q := OneMoreBit(m, Pow2(e - 1), x, q);
    }
  }

  lemma OneMoreBit(m: nat, p: nat, x: nat, q: nat) returns (y: nat, r: nat)
    requires m % 2 == 1 && x * m + 1 == q * p && q > 0
    ensures y * m + 1 == r * (2 * p) && r > 0
  {
    if q % 2 == 0 {
      y, r := x, q / 2;
      Associates(r, 2, p);
    } else {
      y, r := x + p, (q + m) / 2;
      Distributes(x, p, m);
      Distributes(q, m, p);
      Associates(r, 2, p);
    }
  }

  lemma {:induction false} Pow2Split(a: nat, b: nat)
    ensures Pow2(a + b) == Pow2(a) * Pow2(b)
  {
    if a > 0 {
      Pow2Split(a - 1, b);
      DoubleProduct(Pow2(a - 1), Pow2(b));
    }
  }

  lemma WidthIsPow2()
    ensures Pow2(32) == WIDTH
  {
    assert Pow2(8) == 256;
    assert Pow2(16) == 65536;
    assert Pow2(24) == 16777216;
  }

  // ----- when a late call ends

  /** The first elapsed time a firing never gets past: 2^32 less the largest power of two in the interval. */
  function Top(interval: nat): int {
    if interval == 0 then 0 else WIDTH - Pow2(Twos(interval))
  }

  /** With g the power of two in the interval, 2^32 = g * p, and products are multiples of g. */
  lemma Multiples(interval: nat) returns (p: nat, m: nat, e: nat)
    requires 0 < interval < WIDTH
    ensures var g := Pow2(Twos(interval));
      && p == Pow2(e) && m % 2 == 1 && interval == g * m && WIDTH == g * p
      && forall k: nat :: Mul32(k, interval) == g * ((k * m) % p)
  {
    var v := Twos(interval);
    var g := Pow2(v);
    m := OddPart(interval);
    ProductLe(1, m, g);
    WidthIsPow2();
    if v >= 32 {
      Pow2Split(32, v - 32);
      ProductLe(1, Pow2(v - 32), WIDTH);
    }
    e := 32 - v;
    p := Pow2(e);
    Pow2Split(v, e);
    forall k: nat
      ensures Mul32(k, interval) == g * ((k * m) % p)
    {
      Associates(k, g, m);
      ModScaled(g, k * m, p);
    }
  }

  lemma NoProductAbove(k: nat, interval: nat)
    requires 0 < interval < WIDTH
    ensures Mul32(k, interval) <= Top(interval)
  {
    var g := Pow2(Twos(interval));
    var p, m, e := Multiples(interval);
    ModScaled(g, k * m, p);
    ProductLe((k * m) % p + 1, p, g);
  }

  lemma TopIsReached(interval: nat) returns (k: nat)
    requires 0 < interval < WIDTH
    ensures Mul32(k, interval) == Top(interval)
  {
    var g := Pow2(Twos(interval));
    var p, m, e := Multiples(interval);
    var q;
    k, q := MinusOne(m, e);
    OneBelow(k * m, q, p);
    LastMultiple(g, p);
  }

  lemma LastMultiple(g: nat, p: nat)
    requires p > 0
    ensures g * (p - 1) == g * p - g
  {
  }

  lemma OneBelow(n: nat, q: nat, p: nat)
    requires n + 1 == q * p && q > 0 && p > 0
    ensures n % p == p - 1
  {
    Distributes(q - 1, 1, p);
    SplitDigits(q - 1, p - 1, p);
  }

  /** The loop of a call ends if and only if less time has gone by since the start than 2^32 ms less the
      largest power of two that divides the interval; with no interval it never ends. */
  lemma LoopEndsExactly(t: Timer, now: nat)
    requires Coded(t) && now >= t.startms
    ensures Ends(t, now) <==> now - t.startms < Top(t.interval)
  {
    if t.interval == 0 {
      assert forall c: nat :: Turned(t, c).nextms == t.startms;
    } else {
      if c: nat :| c > 0 && Turned(t, c).nextms > now {
        NoProductAbove((t.step + c) % WIDTH, t.interval);
      }
      if now - t.startms < Top(t.interval) {
        var k := TopIsReached(t.interval);
        var c := k % WIDTH + WIDTH - t.step;
        FactorReduced(k, t.interval);
        SplitDigits(1, k % WIDTH, WIDTH);
        assert Turned(t, c).nextms > now;
      }
    }
  }

  /** A loop that ends, ends with one turn only. */
  lemma {:induction false} FirstEnd(t: Timer, now: nat, c: nat) returns (d: nat)
    requires c > 0 && Turned(t, c).nextms > now
    ensures EndsWith(t, now, d)
    decreases c
  {
    if j :| 0 < j < c && Turned(t, j).nextms > now {
      d := FirstEnd(t, now, j);
    } else {
      d := c;
    }
  }

  lemma SomeEnd(t: Timer, now: nat)
    requires Coded(t) && t.startms <= now && now - t.startms < Top(t.interval)
    ensures exists c: nat :: EndsWith(t, now, c)
  {
    LoopEndsExactly(t, now);
    var end: nat :| end > 0 && Turned(t, end).nextms > now;
    var c := FirstEnd(t, now, end);
  }

  lemma EndIsUnique(t: Timer, now: nat, c: nat, d: nat)
    requires EndsWith(t, now, c) && EndsWith(t, now, d)
    ensures c == d
  {
  }

  // ----- one call, against a timer without the 32-bit product

  /** The number of the first firing after now. */
  function StepAfter(t: Timer, now: nat): nat
    requires OnGrid(t) && now >= t.nextms
  {
    assert t.step * t.interval >= 0;
    (now - t.startms) / t.interval + 1
  }

  /** The timer that never drifts: a late call moves it to the first firing after now, any other call to
      the next firing. */
  function Fired(t: Timer, now: nat): (u: Timer)
    requires OnGrid(t)
    ensures OnGrid(u) && u.step > t.step && u.interval == t.interval && u.startms == t.startms
  {
    var step := if now >= t.nextms then StepAfter(t, now) else t.step + 1;
    assert step > t.step by {
      if now >= t.nextms {
        BeforeStepAfter(t, now, t.step);
      }
    }
    Timer(t.startms, step, t.interval, t.startms + step * t.interval)
  }

  /** A firing is after now if and only if its number is that of the first one, or more. */
  lemma BeforeStepAfter(t: Timer, now: nat, k: nat)
    requires OnGrid(t) && now >= t.nextms
    ensures now >= t.startms
    ensures k * t.interval <= now - t.startms <==> k < StepAfter(t, now)
  {
    assert t.step * t.interval >= 0;
    QuotientBounds(now - t.startms, t.interval, k);
  }

  lemma QuotientBounds(n: nat, d: nat, k: nat)
    requires d > 0
    ensures k * d <= n <==> k < n / d + 1
  {
    var q := n / d;
    assert q * d <= n < (q + 1) * d by {
      assert n == q * d + n % d;
      assert (q + 1) * d == q * d + d;
    }
    if k <= q {
      ProductLe(k, q, d);
    } else {
      ProductLe(q + 1, k, d);
    }
  }

  lemma BelowProduct(k: nat, d: nat)
    requires d > 0
    ensures k <= k * d
  {
  }

  /** Where a turn is while the true product fits. */
  lemma TurnFits(t: Timer, c: nat)
    requires t.interval > 0 && (t.step + c) * t.interval < WIDTH
    ensures Turned(t, c) == Timer(t.startms, t.step + c, t.interval, t.startms + (t.step + c) * t.interval)
  {
    BelowProduct(t.step + c, t.interval);
  }

  /** Within 32 bits the call is the one of the timer that never drifts. */
  lemma CallFits(t: Timer, now: nat)
    requires Coded(t) && OnGrid(t) && Fired(t, now).step * t.interval < WIDTH
    ensures Called(t, now, Fired(t, now), if now >= t.nextms then Fired(t, now).step - t.step else 0)
  {
    var n := Fired(t, now).step;
    TurnFits(t, n - t.step);
    if now >= t.nextms {
      BeforeStepAfter(t, now, n);
      forall j | 0 < j < n - t.step
        ensures Turned(t, j).nextms <= now
      {
        ProductLe(t.step + j, n, t.interval);
        TurnFits(t, j);
        BeforeStepAfter(t, now, t.step + j);
      }
    }
  }

  /** A timer on its grid whose product fits, and only such a one, is coded and on its grid. */
  lemma GridFits(t: Timer)
    requires Coded(t) && t.interval > 0 && t.step >= 1
    ensures OnGrid(t) <==> t.step * t.interval < WIDTH
  {
  }

  lemma CallLeavesGrid(t: Timer, now: nat, u: Timer, cadd: nat)
    requires Coded(t) && OnGrid(t) && Called(t, now, u, cadd) && OnGrid(u)
    ensures Fired(t, now).step * t.interval < WIDTH
  {
    GridFits(u);
    if now >= t.nextms {
      BeforeStepAfter(t, now, u.step);
      ProductLe(StepAfter(t, now), u.step, t.interval);
    }
  }

  /** A call returns with the timer on its grid if and only if the firing it is due to move to is less than
      2^32 ms from the start. The timer is then the one that never drifts: a late call ends with
      now < nextms <= now + interval and reports the firings it passed. */
  lemma CallExactly(t: Timer, now: nat)
    requires Coded(t) && OnGrid(t)
    ensures (exists u: Timer, cadd: nat :: Called(t, now, u, cadd) && OnGrid(u)) <==> Fired(t, now).step * t.interval < WIDTH
    ensures forall u: Timer, cadd: nat :: Called(t, now, u, cadd) && OnGrid(u) ==>
      && u == Fired(t, now) && now < u.nextms
      && (now >= t.nextms ==> u.nextms <= now + t.interval && cadd == u.step - t.step)
      && (now < t.nextms ==> u.step == t.step + 1 && u.nextms == t.nextms + t.interval && cadd == 0)
  {
    if Fired(t, now).step * t.interval < WIDTH {
      CallFits(t, now);
    }
    forall u: Timer, cadd: nat | Called(t, now, u, cadd) && OnGrid(u)
      ensures Fired(t, now).step * t.interval < WIDTH
      ensures u == Fired(t, now) && now < u.nextms
      ensures now >= t.nextms ==> u.nextms <= now + t.interval && cadd == u.step - t.step
      ensures now < t.nextms ==> u.step == t.step + 1 && u.nextms == t.nextms + t.interval && cadd == 0
    {
      Distributes(t.step, 1, t.interval);
      CallLeavesGrid(t, now, u, cadd);
      CallFits(t, now);
      CallBound(t, now, u, cadd);
    }
  }

  lemma CallBound(t: Timer, now: nat, u: Timer, cadd: nat)
    requires Coded(t) && OnGrid(t) && Called(t, now, u, cadd)
    requires Called(t, now, Fired(t, now), if now >= t.nextms then Fired(t, now).step - t.step else 0)
    ensures u == Fired(t, now) && now < u.nextms
    ensures now >= t.nextms ==> u.nextms <= now + t.interval && cadd == u.step - t.step
  {
    if now >= t.nextms {
      EndIsUnique(t, now, cadd, Fired(t, now).step - t.step);
      BeforeStepAfter(t, now, u.step - 1);
      Distributes(u.step - 1, 1, t.interval);
    } else {
      Distributes(t.step, 1, t.interval);
    }
  }

  // ----- the timer, updated in place

  /** The call returns: it is not late, or its loop ends. */
  predicate Returns(t: Timer, now: nat) {
    now >= t.nextms ==> now - t.startms < Top(t.interval)
  }

  class Clock {
    var startms: nat
    var step: nat
    var interval: nat
    var nextms: nat

    function View(): Timer
      reads this
    {
      Timer(startms, step, interval, nextms)
    }

    /** init_msTimer, with the interval converted to an unsigned int. */
    constructor (msInterval: nat, now: nat)
      requires msInterval < WIDTH
      ensures View() == Timer(now, 1, msInterval, now + msInterval) && Coded(View())
      ensures OnGrid(View()) <==> msInterval > 0
    {
      step := 1;
      interval := msInterval;
      startms := now;
      nextms := now + Mul32(1, msInterval);
    }

    /** The increment of the step, and the time of its firing. */
    method Advance()
      requires Coded(View())
      modifies this
      ensures View() == Turned(old(View()), 1) && Coded(View())
    {
      step := (step + 1) % WIDTH;
      nextms := startms + Mul32(step, interval);
    }

    /** timer_sleep, called at time now. */
    method TimerSleep(now: nat) returns (cadd: nat)
      requires Coded(View()) && Returns(View(), now)
      modifies this
      ensures Coded(View()) && Called(old(View()), now, View(), cadd)
    {
      cadd := 0;
      if now >= nextms {
        ghost var t := View();
        LoopEndsExactly(t, now);
        ghost var end: nat :| end > 0 && Turned(t, end).nextms > now;
        NoTurn(t);
        while nextms <= now
          invariant Coded(View()) && View() == Turned(t, cadd)
          invariant forall j :: 0 <= j < cadd ==> Turned(t, j).nextms <= now
          invariant cadd <= end
          decreases end - cadd
        {
          NextTurn(t, cadd);
          cadd := cadd + 1;
          Advance();
        }
        return;
      }
      // sleep_ms(nextms - now)
      Advance();
      return 0;
    }

    /** A program that sleeps again and again, calling at the given times. */
    method SleepAll(nows: seq<nat>) returns (skips: nat)
      requires Coded(View()) && AllReturn(View(), nows)
      modifies this
      ensures Coded(View()) && View() == Run(old(View()), nows) && skips == SumSkipped(old(View()), nows)
    {
      ghost var t := View();
      skips := 0;
      var i := 0;
      assert nows[0..] == nows;
      while i < |nows|
        invariant 0 <= i <= |nows| && Coded(View()) && AllReturn(View(), nows[i..])
        invariant Run(View(), nows[i..]) == Run(t, nows)
        invariant skips + SumSkipped(View(), nows[i..]) == SumSkipped(t, nows)
      {
        ghost var before := View();
        var cadd := TimerSleep(nows[i]);
        CallIs(before, nows[i], View(), cadd);
        assert nows[i..][1..] == nows[i + 1..];
        skips := skips + cadd;
        i := i + 1;
      }
    }
  }

  lemma NoTurn(t: Timer)
    requires Coded(t)
    ensures Turned(t, 0) == t
  {
  }

  lemma NextTurn(t: Timer, c: nat)
    ensures Turned(Turned(t, c), 1) == Turned(t, c + 1)
  {
    ReducedSum(t.step + c, 1);
  }

  lemma ReducedSum(a: nat, b: nat)
    ensures (a % WIDTH + b) % WIDTH == (a + b) % WIDTH
  {
    var q, r := a / WIDTH, a % WIDTH;
    var k, s := (r + b) / WIDTH, (r + b) % WIDTH;
    assert a + b == (q + k) * WIDTH + s;
    SplitDigits(q + k, s, WIDTH);
  }

  // ----- whole runs, in the code's own steps

  /** The number of turns of a call that returns. */
  ghost function Turns(t: Timer, now: nat): (c: nat)
    requires Coded(t) && Returns(t, now)
    ensures now >= t.nextms ==> EndsWith(t, now, c)
    ensures now < t.nextms ==> c == 1
  {
    if now >= t.nextms then
      SomeEnd(t, now);
      var c: nat :| EndsWith(t, now, c);
      c
    else 1
  }

  ghost function After(t: Timer, now: nat): (u: Timer)
    requires Coded(t) && Returns(t, now)
    ensures Coded(u) && u.startms == t.startms && u.interval == t.interval
  {
    Turned(t, Turns(t, now))
  }

  lemma CallIs(t: Timer, now: nat, u: Timer, cadd: nat)
    requires Coded(t) && Returns(t, now) && Called(t, now, u, cadd)
    ensures u == After(t, now) && cadd == if now >= t.nextms then Turns(t, now) else 0
  {
    if now >= t.nextms {
      EndIsUnique(t, now, cadd, Turns(t, now));
    }
  }

  ghost predicate AllReturn(t: Timer, nows: seq<nat>)
    requires Coded(t)
    decreases |nows|
  {
    nows == [] || (Returns(t, nows[0]) && AllReturn(After(t, nows[0]), nows[1..]))
  }

  /** The timer after calls at the given times. */
  ghost function Run(t: Timer, nows: seq<nat>): (u: Timer)
    requires Coded(t) && AllReturn(t, nows)
    ensures Coded(u)
    decreases |nows|
  {
    if nows == [] then t else Run(After(t, nows[0]), nows[1..])
  }

  /** The intervals the calls report as slept through, summed. */
  ghost function SumSkipped(t: Timer, nows: seq<nat>): nat
    requires Coded(t) && AllReturn(t, nows)
    decreases |nows|
  {
    if nows == [] then 0
    else (if nows[0] >= t.nextms then Turns(t, nows[0]) else 0) + SumSkipped(After(t, nows[0]), nows[1..])
  }

  /** The calls that found the timer not yet expired, and slept. */
  ghost function OnTime(t: Timer, nows: seq<nat>): nat
    requires Coded(t) && AllReturn(t, nows)
    decreases |nows|
  {
    if nows == [] then 0
    else (if nows[0] >= t.nextms then 0 else 1) + OnTime(After(t, nows[0]), nows[1..])
  }

  /** Every call of the run returns, and leaves the timer on its grid. */
  ghost predicate StaysOnGrid(t: Timer, nows: seq<nat>)
    requires Coded(t)
    decreases |nows|
  {
    OnGrid(t) && (nows == [] || (Returns(t, nows[0]) && StaysOnGrid(After(t, nows[0]), nows[1..])))
  }

  /** The timer that never drifts, called at the given times. */
  function Ideal(t: Timer, nows: seq<nat>): (u: Timer)
    requires OnGrid(t)
    ensures OnGrid(u) && u.step >= t.step && u.interval == t.interval && u.startms == t.startms
    decreases |nows|
  {
    if nows == [] then t else Ideal(Fired(t, nows[0]), nows[1..])
  }

  /** One call of a run, in the code's own steps. */
  lemma CallOfRun(t: Timer, now: nat)
    requires Coded(t) && OnGrid(t)
    ensures Returns(t, now) && OnGrid(After(t, now)) <==> Fired(t, now).step * t.interval < WIDTH
    ensures Returns(t, now) && OnGrid(After(t, now)) ==> After(t, now) == Fired(t, now)
  {
    CallExactly(t, now);
    if Fired(t, now).step * t.interval < WIDTH {
      CallFits(t, now);
      if now >= t.nextms {
        LoopEndsExactly(t, now);
      }
      CallIs(t, now, Fired(t, now), if now >= t.nextms then Fired(t, now).step - t.step else 0);
    }
    if Returns(t, now) {
      assert Called(t, now, After(t, now), if now >= t.nextms then Turns(t, now) else 0);
    }
  }

  /** A whole run of calls returns and stays on the grid if and only if the firing that the timer which
      never drifts has reached at its end is less than 2^32 ms from the start; it is then that timer. */
  lemma {:induction false} RunExactly(t: Timer, nows: seq<nat>)
    requires Coded(t) && OnGrid(t)
    ensures StaysOnGrid(t, nows) <==> Ideal(t, nows).step * t.interval < WIDTH
    ensures StaysOnGrid(t, nows) ==> AllReturn(t, nows) && Run(t, nows) == Ideal(t, nows)
    decreases |nows|
  {
    GridFits(t);
    if nows != [] {
      CallOfRun(t, nows[0]);
      var u := Fired(t, nows[0]);
      ProductLe(u.step, Ideal(u, nows[1..]).step, t.interval);
      if u.step * t.interval < WIDTH {
        RunExactly(u, nows[1..]);
      }
    }
  }

  /** The increments of the calls of a run: reported skips, and on-time sleeps. */
  ghost function Increments(t: Timer, nows: seq<nat>): nat
    requires Coded(t) && AllReturn(t, nows)
  {
    SumSkipped(t, nows) + OnTime(t, nows)
  }

  lemma FirstIncrements(t: Timer, nows: seq<nat>)
    requires Coded(t) && nows != [] && AllReturn(t, nows)
    ensures Increments(t, nows) == Turns(t, nows[0]) + Increments(After(t, nows[0]), nows[1..])
  {
  }

  /** Over every run, on the grid or not, each increment of the 32-bit step is a reported skip or an
      on-time sleep. */
  lemma {:induction false} StepsAccounted(t: Timer, nows: seq<nat>)
    requires Coded(t) && AllReturn(t, nows)
    ensures Run(t, nows).step == (t.step + Increments(t, nows)) % WIDTH
    decreases |nows|
  {
    if nows != [] {
      var u := After(t, nows[0]);
      FirstIncrements(t, nows);
      StepsAccounted(u, nows[1..]);
      ReducedSum(t.step + Turns(t, nows[0]), Increments(u, nows[1..]));
    }
  }

  /** On the grid no increment was lost: the step has grown by exactly the skips and the sleeps. */
  lemma {:induction false} GridStepsAccounted(t: Timer, nows: seq<nat>)
    requires Coded(t) && StaysOnGrid(t, nows) && AllReturn(t, nows)
    ensures Run(t, nows).step - t.step == Increments(t, nows)
    ensures Run(t, nows).nextms == t.startms + Run(t, nows).step * t.interval
    decreases |nows|
  {
    if nows != [] {
      var u := After(t, nows[0]);
      CallOfRun(t, nows[0]);
      assert Called(t, nows[0], u, if nows[0] >= t.nextms then Turns(t, nows[0]) else 0);
      CallExactly(t, nows[0]);
      GridStepsAccounted(u, nows[1..]);
    }
  }
}
