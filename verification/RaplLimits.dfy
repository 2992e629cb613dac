/** Power limits of src/msr_rapl.c: the conversions between a rapl_limit structure and the bits of a
    limit register, and the read-modify-write of the two package limits in one register. */
module RaplLimits {
  import opened Words
  import opened BatchOps
  import opened Topology
  import opened MsrBatch
  import opened RaplUnits

  const MSR_PKG_POWER_LIMIT := 0x610
  const MSR_DRAM_POWER_LIMIT := 0x618

  /** The contents of a struct rapl_limit. */
  datatype Limit = Limit(bits: Word, watts: real, seconds: real)

  // Where the lower and the upper package limit start in the register.
  const LOWER := 0
  const UPPER := 32

  /** What the source demands of a limit to be encoded: a power and a time window whose casts to an
      unsigned integer are defined. */
  predicate Encodable(u: Units, l: Limit, offset: nat) {
    && ValidUnits(u) && l.watts >= 0.0
    && (if offset < 32 then InTimeUnits(l.seconds, u.seconds) > 0.5 else l.seconds >= 0.0)
  }

  /** The window field: a RAPL time window in the lower limit, a bare number in the upper one. */
  function SecondsField(u: Units, l: Limit, offset: nat): Word
    requires Encodable(u, l, offset)
  {
    if offset < 32 then SecondsToBits(l.seconds, u.seconds) else WordOf(l.seconds.Floor)
  }

  function SecondsOfField(u: Units, field: Word, offset: nat): real
    requires ValidUnits(u)
  {
    if offset < 32 then BitsToSeconds(field, u.seconds) else NatOf(field) as real
  }

  predicate Placed(offset: nat) {
    offset == LOWER || offset == UPPER
  }

  /** calc_rapl_from_bits */
  function FromBits(u: Units, l: Limit, offset: nat): Limit
    requires Placed(offset) && ValidUnits(u)
  {
    Limit(l.bits,
          BitsToWatts(NatOf(MaskVal(l.bits, 14 + offset, offset)), u.watts),
          SecondsOfField(u, MaskVal(l.bits, 23 + offset, 17 + offset), offset))
  }

  /** calc_rapl_bits; a power code over fifteen bits is an error. The window is not checked. */
  function ToBits(u: Units, l: Limit, offset: nat): Option<Limit>
    requires Placed(offset) && Encodable(u, l, offset)
  {
    var code := WattsToBits(l.watts, u.watts);
    if code > 32767 then None
    else Some(Limit(Or(Or(l.bits, Shl(WordOf(code), offset)), Shl(SecondsField(u, l, offset), 17 + offset)),
                    l.watts, l.seconds))
  }

  /** One limit of calc_pkg_rapl_limit: bits that are given decide, else the values do. */
  function Calc(u: Units, l: Limit, offset: nat): Option<Limit>
    requires Placed(offset) && ValidUnits(u) && (l.bits == Zero() ==> Encodable(u, l, offset))
  {
    if l.bits != Zero() then Some(FromBits(u, l, offset)) else ToBits(u, l, offset)
  }

  /** What a structure holds after it was processed; an error leaves it alone. */
  function Result(u: Units, l: Limit, offset: nat): Limit
    requires Placed(offset) && ValidUnits(u) && (l.bits == Zero() ==> Encodable(u, l, offset))
  {
    match Calc(u, l, offset)
    case Some(r) => r
    case None => l
  }

  /** A word with bit i set. */
  function BitAt(i: nat): Word {
    seq(64, k => k == i)
  }

  /** What one limit contributes to the package register: its bits, enabled and clamping. */
  function Enabled(l: Limit, offset: nat): Word {
    Or(Or(l.bits, BitAt(15 + offset)), BitAt(16 + offset))
  }

  /** The limit, when there is one, is encodable if it needs encoding. */
  predicate Encoding(u: Units, l: Option<Limit>, offset: nat) {
    ValidUnits(u) && (l.Some? && l.value.bits == Zero() ==> Encodable(u, l.value, offset))
  }

  /** An absent limit is never an error. */
  predicate Calculable(u: Units, l: Option<Limit>, offset: nat)
    requires Placed(offset) && Encoding(u, l, offset)
  {
    l.Some? ==> Calc(u, l.value, offset).Some?
  }

  function Contribution(u: Units, l: Option<Limit>, offset: nat): Word
    requires Placed(offset) && Encoding(u, l, offset) && Calculable(u, l, offset)
  {
    if l.Some? then Enabled(Calc(u, l.value, offset).value, offset) else Zero()
  }

  /** The half of the current register that set_pkg_rapl_limit keeps. */
  function Kept(current: Word, l1: Option<Limit>, l2: Option<Limit>): Word {
    if l1 == None then And(current, MaskRange(31, 0))
    else if l2 == None then And(current, MaskRange(63, 32))
    else Zero()
  }

  /** The word set_pkg_rapl_limit writes: the kept half, with what each limit contributes. */
  function PkgWord(u: Units, current: Word, l1: Option<Limit>, l2: Option<Limit>): Word
    requires Encoding(u, l1, LOWER) && Encoding(u, l2, UPPER) && Calculable(u, l1, LOWER) && Calculable(u, l2, UPPER)
  {
    Or(Or(Kept(current, l1, l2), Contribution(u, l1, LOWER)), Contribution(u, l2, UPPER))
  }

  // ----- the structures and the registers

  class RaplLimit {
    var bits: Word
    var watts: real
    var seconds: real

    constructor (bits: Word, watts: real, seconds: real)
      ensures View() == Limit(bits, watts, seconds)
    {
      this.bits, this.watts, this.seconds := bits, watts, seconds;
    }

    function View(): Limit
      reads this
    {
      Limit(bits, watts, seconds)
    }
  }

  /** The answers of the kernel to a read and to a write. */
  datatype Io = Io(readOk: bool, writeOk: bool)

  function Answer(ok: bool): int {
    if ok then 0 else -1
  }

  class Rapl {
    const dev: MsrDevice
    const topo: Topo
    const discontinuous: bool
    // The units of each socket, and which limit registers exist.
    const units: seq<Units>
    const pkgLimit: bool
    const dramLimit: bool

    constructor (dev: MsrDevice, topo: Topo, discontinuous: bool, units: seq<Units>, pkgLimit: bool, dramLimit: bool)
      requires topo.Positive() && |units| == topo.sockets && forall s :: 0 <= s < |units| ==> ValidUnits(units[s])
      ensures Ready() && this.dev == dev && this.topo == topo && this.discontinuous == discontinuous
      ensures this.units == units && this.pkgLimit == pkgLimit && this.dramLimit == dramLimit
    {
      this.dev, this.topo, this.discontinuous := dev, topo, discontinuous;
      this.units, this.pkgLimit, this.dramLimit := units, pkgLimit, dramLimit;
    }

    predicate Ready() {
      topo.Positive() && |units| == topo.sockets && forall s :: 0 <= s < |units| ==> ValidUnits(units[s])
    }

    /** The register of a socket, on its core 0, thread 0. */
    function Register(socket: nat, msr: nat): Reg {
      Reg(DevIdx(topo, discontinuous, Coord(socket, 0, 0)), msr)
    }

    /** read_msr_by_coord on core 0, thread 0; a failed read leaves the value alone. */
    method ReadMsr(socket: nat, msr: nat, val: Word, io: Io) returns (ret: int, out: Word)
      ensures io.readOk ==> ret == 0 && out == Lookup(dev.regs, Register(socket, msr))
      ensures !io.readOk ==> ret == -1 && out == val
    {
      if io.readOk {
        return 0, Lookup(dev.regs, Register(socket, msr));
      }
      return -1, val;
    }

    /** write_msr_by_coord on core 0, thread 0. */
    method WriteMsr(socket: nat, msr: nat, val: Word, io: Io) returns (ret: int)
      modifies dev
      ensures ret == if io.writeOk then 0 else -1
      ensures dev.regs == if io.writeOk then old(dev.regs)[Register(socket, msr) := val] else old(dev.regs)
    {
      if io.writeOk {
        dev.regs := dev.regs[Register(socket, msr) := val];
        return 0;
      }
      return -1;
    }

    method CalcRaplFromBits(socket: nat, limit: RaplLimit, offset: nat) returns (ret: int)
      requires Ready() && socket < topo.sockets && Placed(offset)
      modifies limit
      ensures ret == 0 && limit.View() == FromBits(units[socket], old(limit.View()), offset)
    {
      var wattsBits := MaskVal(limit.bits, 14 + offset, 0 + offset);
      var secondsBits := MaskVal(limit.bits, 23 + offset, 17 + offset);
      limit.watts := BitsToWatts(NatOf(wattsBits), units[socket].watts);
      if offset < 32 {
        limit.seconds := BitsToSeconds(secondsBits, units[socket].seconds);
      } else {
        limit.seconds := NatOf(secondsBits) as real;
      }
      return 0;
    }

    method CalcRaplBits(socket: nat, limit: RaplLimit, offset: nat) returns (ret: int)
      requires Ready() && socket < topo.sockets && Placed(offset) && Encodable(units[socket], limit.View(), offset)
      modifies limit
      ensures var r := ToBits(units[socket], old(limit.View()), offset);
        if r.Some? then ret == 0 && limit.View() == r.value else ret == -1 && limit.View() == old(limit.View())
    {
      var secondsBits: Word;
      if offset >= 32 {
        secondsBits := WordOf(limit.seconds.Floor);
      } else {
        secondsBits := SecondsToBits(limit.seconds, units[socket].seconds);
      }
      var code := WattsToBits(limit.watts, units[socket].watts);
      if code > 32767 {
        return -1;
      }
      var wattsBits := Shl(WordOf(code), 0 + offset);
      secondsBits := Shl(secondsBits, 17 + offset);
      limit.bits := Or(limit.bits, wattsBits);
      limit.bits := Or(limit.bits, secondsBits);
      return 0;
    }

    /** The limit, when there is one, can be processed. */
    predicate Usable(socket: nat, limit: RaplLimit?, offset: nat)
      requires Ready() && socket < topo.sockets
      reads limit
    {
      limit != null && limit.bits == Zero() ==> Encodable(units[socket], limit.View(), offset)
    }

    /** One half of calc_pkg_rapl_limit, and all of calc_std_rapl_limit. */
    method CalcLimit(socket: nat, limit: RaplLimit, offset: nat) returns (ret: int)
      requires Ready() && socket < topo.sockets && Placed(offset) && Usable(socket, limit, offset)
      modifies limit
      ensures var r := Calc(units[socket], old(limit.View()), offset);
        if r.Some? then ret == 0 && limit.View() == r.value else ret == -1 && limit.View() == old(limit.View())
    {
      if limit.bits != Zero() {
        ret := CalcRaplFromBits(socket, limit, offset);
      } else {
        ret := CalcRaplBits(socket, limit, offset);
      }
    }

    /** calc_pkg_rapl_limit: the lower limit first, stopping at the first error. */
    method CalcPkgRaplLimit(socket: nat, limit1: RaplLimit?, limit2: RaplLimit?) returns (ret: int)
      requires Ready() && socket < topo.sockets && (limit1 != null ==> limit1 != limit2)
      requires Usable(socket, limit1, LOWER) && Usable(socket, limit2, UPPER)
      modifies limit1, limit2
      ensures ret == 0 || ret == -1
      ensures ret == 0 <==> Calculable(units[socket], old(Seen(limit1)), LOWER) && Calculable(units[socket], old(Seen(limit2)), UPPER)
      ensures limit1 != null ==> limit1.View() == Result(units[socket], old(limit1.View()), LOWER)
      ensures limit2 != null ==>
        limit2.View() == if ret == 0 then Result(units[socket], old(limit2.View()), UPPER) else old(limit2.View())
    {
      ret := 0;
      if limit1 != null {
        ret := CalcLimit(socket, limit1, LOWER);
        if ret != 0 {
          return -1;
        }
      }
      if limit2 != null {
        ret := CalcLimit(socket, limit2, UPPER);
        if ret != 0 {
          return -1;
        }
      }
    }

    function Seen(limit: RaplLimit?): Option<Limit>
      reads limit
    {
      if limit == null then None else Some(limit.View())
    }

    /** The package register as read back; a failed read leaves the zero it started from. */
    function CurrentWord(socket: nat, io: Io): Word
      reads dev
    {
      if io.readOk then Lookup(dev.regs, Register(socket, MSR_PKG_POWER_LIMIT)) else Zero()
    }

    /** set_pkg_rapl_limit. When the read for the half to keep fails, that half is written as zero, and
        the answer says so. */
    method SetPkgRaplLimit(socket: nat, limit1: RaplLimit?, limit2: RaplLimit?, io: Io) returns (ret: int)
      requires Ready() && socket < topo.sockets && (limit1 != null ==> limit1 != limit2)
      requires Usable(socket, limit1, LOWER) && Usable(socket, limit2, UPPER)
      modifies dev, limit1, limit2
      ensures !pkgLimit ==> ret == -1 && dev.regs == old(dev.regs)
      ensures pkgLimit ==>
        var l1, l2 := old(Seen(limit1)), old(Seen(limit2));
        if !Calculable(units[socket], l1, LOWER) || !Calculable(units[socket], l2, UPPER) then
          && ret == -1 && dev.regs == old(dev.regs)
          && (limit1 != null ==> limit1.View() == Result(units[socket], l1.value, LOWER))
          && (limit2 != null ==> limit2.View() == l2.value)
        else
          && ret == Answer(io.readOk || (limit1 != null && limit2 != null)) + Answer(io.writeOk || (limit1 == null && limit2 == null))
          && (limit1 != null ==> limit1.View() == Result(units[socket], l1.value, LOWER))
          && (limit2 != null ==> limit2.View() == Result(units[socket], l2.value, UPPER))
          && dev.regs == (
               if (limit1 == null && limit2 == null) || !io.writeOk then old(dev.regs)
               else old(dev.regs)[Register(socket, MSR_PKG_POWER_LIMIT) :=
                 PkgWord(units[socket], old(CurrentWord(socket, io)), l1, l2)])
    {
      var pkgLimitBits := Zero();
      var currentval := Zero();
      ret := 0;
      if pkgLimit {
        if limit1 == null {
          ret, currentval := ReadMsr(socket, MSR_PKG_POWER_LIMIT, currentval, io);
          pkgLimitBits := Or(pkgLimitBits, And(currentval, MaskRange(31, 0)));
        } else if limit2 == null {
          ret, currentval := ReadMsr(socket, MSR_PKG_POWER_LIMIT, currentval, io);
          pkgLimitBits := Or(pkgLimitBits, And(currentval, MaskRange(63, 32)));
        }
        var failed := CalcPkgRaplLimit(socket, limit1, limit2);
        if failed != 0 {
          return -1;
        }
        if limit1 != null {
          pkgLimitBits := Or(pkgLimitBits, Or(Or(limit1.bits, BitAt(15)), BitAt(16)));
        }
        if limit2 != null {
          pkgLimitBits := Or(pkgLimitBits, Or(Or(limit2.bits, BitAt(47)), BitAt(48)));
        }
        if limit1 != null || limit2 != null {
          OrZero(Kept(CurrentWord(socket, io), old(Seen(limit1)), old(Seen(limit2))));
          OrZero(pkgLimitBits);
          var w := WriteMsr(socket, MSR_PKG_POWER_LIMIT, pkgLimitBits, io);
          ret := ret + w;
        }
      } else {
        return -1;
      }
    }

    /** The structure once the register has been read into its bits; a failed read leaves them. */
    function Refreshed(limit: RaplLimit?, socket: nat, msr: nat, io: Io): Option<Limit>
      reads limit, dev
    {
      if limit == null then None
      else Some(Limit(if io.readOk then Lookup(dev.regs, Register(socket, msr)) else limit.bits, limit.watts, limit.seconds))
    }

    /** get_pkg_rapl_limit; the answers of its two reads, and of the calculation, are not looked at. A
        register that reads zero is not decoded: its bits are computed from the old values instead. */
    method GetPkgRaplLimit(socket: nat, limit1: RaplLimit?, limit2: RaplLimit?, io1: Io, io2: Io) returns (ret: int)
      requires Ready() && socket < topo.sockets && (limit1 != null ==> limit1 != limit2)
      requires Encoding(units[socket], Refreshed(limit1, socket, MSR_PKG_POWER_LIMIT, io1), LOWER)
      requires Encoding(units[socket], Refreshed(limit2, socket, MSR_PKG_POWER_LIMIT, io2), UPPER)
      modifies limit1, limit2
      ensures ret == if pkgLimit then 0 else -1
      ensures !pkgLimit ==> Seen(limit1) == old(Seen(limit1)) && Seen(limit2) == old(Seen(limit2))
      ensures pkgLimit ==>
        var l1 := old(Refreshed(limit1, socket, MSR_PKG_POWER_LIMIT, io1));
        var l2 := old(Refreshed(limit2, socket, MSR_PKG_POWER_LIMIT, io2));
        && (limit1 != null ==> limit1.View() == Result(units[socket], l1.value, LOWER))
        && (limit2 != null ==>
              limit2.View() == if Calculable(units[socket], l1, LOWER) then Result(units[socket], l2.value, UPPER) else l2.value)
    {
      if pkgLimit {
        if limit1 != null {
          var r, w := ReadMsr(socket, MSR_PKG_POWER_LIMIT, limit1.bits, io1);
          limit1.bits := w;
        }
        if limit2 != null {
          var r, w := ReadMsr(socket, MSR_PKG_POWER_LIMIT, limit2.bits, io2);
          limit2.bits := w;
        }
        var failed := CalcPkgRaplLimit(socket, limit1, limit2);
        return 0;
      } else {
        return -1;
      }
    }

    /** set_dram_rapl_limit; the answer of the write is not looked at. */
    method SetDramRaplLimit(socket: nat, limit: RaplLimit?, io: Io) returns (ret: int)
      requires Ready() && socket < topo.sockets && Usable(socket, limit, LOWER)
      modifies dev, limit
      ensures ret == if dramLimit && Calculable(units[socket], old(Seen(limit)), LOWER) then 0 else -1
      ensures ret == 0 && limit != null ==> Some(limit.View()) == Calc(units[socket], old(limit.View()), LOWER)
      ensures dev.regs ==
        if ret == 0 && limit != null && io.writeOk
        then old(dev.regs)[Register(socket, MSR_DRAM_POWER_LIMIT) := Or(limit.bits, BitAt(15))]
        else old(dev.regs)
    {
      if dramLimit {
        if limit != null {
          var failed := CalcLimit(socket, limit, LOWER);
          if failed != 0 {
            return -1;
          }
          var w := WriteMsr(socket, MSR_DRAM_POWER_LIMIT, Or(limit.bits, BitAt(15)), io);
        }
        return 0;
      }
      return -1;
    }

    /** get_dram_rapl_limit */
    method GetDramRaplLimit(socket: nat, limit: RaplLimit?, io: Io) returns (ret: int)
      requires Ready() && socket < topo.sockets
      requires Encoding(units[socket], Refreshed(limit, socket, MSR_DRAM_POWER_LIMIT, io), LOWER)
      modifies limit
      ensures ret == if limit != null && !dramLimit then -1 else 0
      ensures limit != null ==>
        limit.View() == if dramLimit then Result(units[socket], old(Refreshed(limit, socket, MSR_DRAM_POWER_LIMIT, io)).value, LOWER)
                        else old(limit.View())
    {
      if limit != null && dramLimit {
        var r, w := ReadMsr(socket, MSR_DRAM_POWER_LIMIT, limit.bits, io);
        limit.bits := w;
        var failed := CalcLimit(socket, limit, LOWER);
      } else if limit != null {
        return -1;
      }
      return 0;
    }
  }

  /** What a get leaves in a structure when the register read is not zero: its old values do not matter. */
  lemma GotIsDecoded(u: Units, word: Word, watts: real, seconds: real, offset: nat)
    requires Placed(offset) && ValidUnits(u) && word != Zero()
    ensures Calculable(u, Some(Limit(word, watts, seconds)), offset)
    ensures Result(u, Limit(word, watts, seconds), offset) == FromBits(u, Limit(word, 0.0, 0.0), offset)
  {
  }

  lemma OrZero(a: Word)
    ensures Or(a, Zero()) == a && Or(Zero(), a) == a
  {
  }

  // ----- what the register holds afterwards

  /** Given as values, with codes that fit their fields. */
  predicate FitsFields(u: Units, l: Limit, offset: nat) {
    && l.bits == Zero() && Encodable(u, l, offset)
    && WattsToBits(l.watts, u.watts) <= 32767
    && (if offset < 32 then InTimeUnits(l.seconds, u.seconds) < MAX_UNITS else l.seconds < 128.0)
  }

  /** The power and the window a register can express for the request. */
  function Quantised(u: Units, l: Limit, offset: nat): (real, real)
    requires Encodable(u, l, offset)
  {
    (BitsToWatts(WattsToBits(l.watts, u.watts), u.watts),
     if offset < 32 then BitsToSeconds(SecondsToBits(l.seconds, u.seconds), u.seconds) else l.seconds.Floor as real)
  }

  lemma WindowFieldFits(u: Units, l: Limit, offset: nat)
    requires Placed(offset) && FitsFields(u, l, offset)
    ensures Fits(SecondsField(u, l, offset), 7)
    ensures SecondsOfField(u, SecondsField(u, l, offset), offset) == Quantised(u, l, offset).1
  {
    if offset < 32 {
      WindowCodeFits(l.seconds, u.seconds);
    } else {
      NumberFieldFits(l.seconds.Floor);
    }
  }

  lemma WindowCodeFits(seconds: real, t: real)
    requires 0.5 < InTimeUnits(seconds, t) < MAX_UNITS
    ensures Fits(SecondsToBits(seconds, t), 7)
  {
    AccurateExactly(InTimeUnits(seconds, t));
  }

  lemma PowerCodeFits(n: nat)
    requires n <= 32767
    ensures Fits(WordOf(n), 15)
  {
    assert Pow2(15) == 32768;
    SmallNumber(n, 15);
  }

  lemma NumberFieldFits(n: nat)
    requires n < 128
    ensures Fits(WordOf(n), 7) && NatOf(WordOf(n)) == n
  {
    Literals();
    SmallNumber(n, 7);
    NumberOfWord(n);
  }

  lemma NumberOfWord(n: nat)
    requires n < Pow2(7)
    ensures NatOf(WordOf(n)) == n
  {
    Pow2Grows(7, 64);
    NatOfBitsOf(n, 64);
  }

  lemma {:induction false} Pow2Grows(j: nat, k: nat)
    requires j <= k
    ensures Pow2(j) <= Pow2(k)
    decreases k
  {
    if j < k {
      Pow2Grows(j, k - 1);
    }
  }

  /** w holds the encoded limit: the power code in bits 0-14 of its half, the window in bits 17-23. */
  ghost predicate HoldsCodes(u: Units, l: Limit, offset: nat, w: Word)
    requires Placed(offset) && Encodable(u, l, offset)
  {
    && (forall i :: offset <= i < offset + 15 ==> w[i] == WordOf(WattsToBits(l.watts, u.watts))[i - offset])
    && (forall i :: offset + 17 <= i < offset + 24 ==> w[i] == SecondsField(u, l, offset)[i - offset - 17])
  }

  /** w has no bit outside the fields of the limit. */
  predicate OnlyFields(offset: nat, w: Word) {
    forall i :: 0 <= i < 64 && w[i] ==> offset <= i < offset + 15 || offset + 17 <= i < offset + 24
  }

  /** Where the encoded limit has its bits. */
  lemma EncodedBits(u: Units, l: Limit, offset: nat)
    requires Placed(offset) && FitsFields(u, l, offset)
    ensures ToBits(u, l, offset).Some?
    ensures HoldsCodes(u, l, offset, ToBits(u, l, offset).value.bits)
    ensures OnlyFields(offset, ToBits(u, l, offset).value.bits)
  {
    var code, window := WordOf(WattsToBits(l.watts, u.watts)), SecondsField(u, l, offset);
    WindowFieldFits(u, l, offset);
    PowerCodeFits(WattsToBits(l.watts, u.watts));
    FieldsApart(code, window, offset);
    assert ToBits(u, l, offset).value.bits == Or(Or(Zero(), Shl(code, offset)), Shl(window, 17 + offset));
  }

  lemma FieldsApart(code: Word, window: Word, offset: nat)
    requires Placed(offset) && Fits(code, 15) && Fits(window, 7)
    ensures var w := Or(Or(Zero(), Shl(code, offset)), Shl(window, 17 + offset));
      && OnlyFields(offset, w)
      && (forall i :: offset <= i < offset + 15 ==> w[i] == code[i - offset])
      && (forall i :: offset + 17 <= i < offset + 24 ==> w[i] == window[i - offset - 17])
  {
  }

  /** A half of a register that holds the encoded limit and its two enable bits decodes to the
      quantised request. */
  lemma DecodedHalf(u: Units, l: Limit, offset: nat, word: Word)
    requires Placed(offset) && FitsFields(u, l, offset) && HoldsCodes(u, l, offset, word)
    ensures FromBits(u, Limit(word, 0.0, 0.0), offset)
         == Limit(word, Quantised(u, l, offset).0, Quantised(u, l, offset).1)
  {
    PowerFieldRead(word, offset, WattsToBits(l.watts, u.watts));
    WindowFieldFits(u, l, offset);
    WindowFieldRead(word, offset, SecondsField(u, l, offset));
  }

  lemma PowerFieldRead(word: Word, offset: nat, code: nat)
    requires Placed(offset) && code <= 32767
    requires forall i :: offset <= i < offset + 15 ==> word[i] == WordOf(code)[i - offset]
    ensures NatOf(MaskVal(word, 14 + offset, offset)) == code
  {
    assert Pow2(15) == 32768;
    FieldOfNumber(word, 14 + offset, offset, code);
  }

  lemma WindowFieldRead(word: Word, offset: nat, field: Word)
    requires Placed(offset) && Fits(field, 7)
    requires forall i :: offset + 17 <= i < offset + 24 ==> word[i] == field[i - offset - 17]
    ensures MaskVal(word, 23 + offset, 17 + offset) == field
  {
  }

  /** Adding bits outside the fields, enable bits included, leaves the codes in place. */
  lemma CodesStay(u: Units, l: Limit, offset: nat, w: Word, word: Word)
    requires Placed(offset) && FitsFields(u, l, offset) && HoldsCodes(u, l, offset, w)
    requires forall i :: offset <= i < offset + 15 || offset + 17 <= i < offset + 24 ==> word[i] == w[i]
    ensures HoldsCodes(u, l, offset, word)
  {
  }

  /** Setting both package limits from values that fit, then reading the register back, gives the two
      quantised requests. */
  lemma PkgRoundTrip(u: Units, current: Word, l1: Limit, l2: Limit)
    requires FitsFields(u, l1, LOWER) && FitsFields(u, l2, UPPER)
    ensures Calculable(u, Some(l1), LOWER) && Calculable(u, Some(l2), UPPER)
    ensures var word := PkgWord(u, current, Some(l1), Some(l2));
      && word != Zero()
      && FromBits(u, Limit(word, 0.0, 0.0), LOWER) == Limit(word, Quantised(u, l1, LOWER).0, Quantised(u, l1, LOWER).1)
      && FromBits(u, Limit(word, 0.0, 0.0), UPPER) == Limit(word, Quantised(u, l2, UPPER).0, Quantised(u, l2, UPPER).1)
  {
    EncodedBits(u, l1, LOWER);
    EncodedBits(u, l2, UPPER);
    var w1, w2 := ToBits(u, l1, LOWER).value.bits, ToBits(u, l2, UPPER).value.bits;
    var word := PkgWord(u, current, Some(l1), Some(l2));
    BothHalves(w1, w2, word);
    CodesStay(u, l1, LOWER, w1, word);
    CodesStay(u, l2, UPPER, w2, word);
    DecodedHalf(u, l1, LOWER, word);
    DecodedHalf(u, l2, UPPER, word);
  }

  /** So set_pkg_rapl_limit followed by get_pkg_rapl_limit leaves the quantised requests in any two
      structures, whatever these held before. */
  lemma GetAfterSet(u: Units, current: Word, l1: Limit, l2: Limit, got1: Limit, got2: Limit)
    requires FitsFields(u, l1, LOWER) && FitsFields(u, l2, UPPER)
    requires Calculable(u, Some(l1), LOWER) && Calculable(u, Some(l2), UPPER)
    requires got1.bits == got2.bits == PkgWord(u, current, Some(l1), Some(l2))
    ensures got1.bits != Zero() && Calculable(u, Some(got1), LOWER)
    ensures Result(u, got1, LOWER) == Limit(got1.bits, Quantised(u, l1, LOWER).0, Quantised(u, l1, LOWER).1)
    ensures Result(u, got2, UPPER) == Limit(got2.bits, Quantised(u, l2, UPPER).0, Quantised(u, l2, UPPER).1)
  {
    PkgRoundTrip(u, current, l1, l2);
    GotIsDecoded(u, got1.bits, got1.watts, got1.seconds, LOWER);
    GotIsDecoded(u, got2.bits, got2.watts, got2.seconds, UPPER);
  }

  lemma BothHalves(w1: Word, w2: Word, word: Word)
    requires OnlyFields(LOWER, w1) && OnlyFields(UPPER, w2)
    requires word == Or(Or(Zero(), Or(Or(w1, BitAt(15)), BitAt(16))), Or(Or(w2, BitAt(47)), BitAt(48)))
    ensures word != Zero()
    ensures forall i :: 0 <= i < 15 || 17 <= i < 24 ==> word[i] == w1[i]
    ensures forall i :: 32 <= i < 47 || 49 <= i < 56 ==> word[i] == w2[i]
  {
    assert word[15];
  }

  // ----- setting one limit

  /** The exponent of a window of x time units. */
  function Exponent(x: real): nat {
    if x < 1.0 then 0 else FloorLog2(x)
  }

  /** What the caller asks for adds nothing to the upper half: given bits have none there that are not in the
      register, and a requested window's exponent none that reach it, from bit 17 on. */
  predicate KeepsUpper(u: Units, current: Word, l: Limit) {
    if l.bits != Zero() then forall i :: 32 <= i < 64 && l.bits[i] ==> current[i]
    else forall i :: 32 <= i < 64 && WordOf(Exponent(InTimeUnits(l.seconds, u.seconds)))[i - 17] ==> current[i]
  }

  /** Given bits have none in the lower half that are not in the register; values never do. */
  predicate KeepsLower(current: Word, l: Limit) {
    forall i :: 0 <= i < 32 && l.bits[i] ==> current[i]
  }

  /** Where an encoded lower limit reaches into the upper half. */
  lemma LowerSpill(u: Units, l: Limit)
    requires l.bits == Zero() && Encodable(u, l, LOWER) && WattsToBits(l.watts, u.watts) <= 32767
    ensures ToBits(u, l, LOWER).Some?
    ensures forall i :: 32 <= i < 64 ==>
      ToBits(u, l, LOWER).value.bits[i] == WordOf(Exponent(InTimeUnits(l.seconds, u.seconds)))[i - 17]
  {
    var x := InTimeUnits(l.seconds, u.seconds);
    var code, y := WordOf(WattsToBits(l.watts, u.watts)), WordOf(Exponent(x));
    PowerCodeFits(WattsToBits(l.watts, u.watts));
    var z := WordOf(if x < 1.0 then 0 else Multiplier(Mantissa(x)));
    MultiplierFits(if x < 1.0 then 0 else Multiplier(Mantissa(x)));
    assert SecondsField(u, l, LOWER) == Or(y, Shl(z, 5));
    SpillBits(code, y, z);
  }

  lemma MultiplierFits(z: nat)
    requires z <= 3
    ensures Fits(WordOf(z), 2)
  {
    Literals();
    SmallNumber(z, 2);
  }

  lemma SpillBits(code: Word, y: Word, z: Word)
    requires Fits(code, 15) && Fits(z, 2)
    ensures forall i :: 32 <= i < 64 ==>
      Or(Or(Zero(), Shl(code, 0)), Shl(Or(y, Shl(z, 5)), 17))[i] == y[i - 17]
  {
  }

  /** Setting the lower limit alone leaves the upper half of the register as it was if and only if what the
      caller asks for adds nothing there. */
  lemma LowerFrame(u: Units, current: Word, l: Limit)
    requires Encoding(u, Some(l), LOWER) && Calculable(u, Some(l), LOWER)
    ensures (forall i :: 32 <= i < 64 ==> PkgWord(u, current, Some(l), None)[i] == current[i]) <==> KeepsUpper(u, current, l)
  {
    var bits := Calc(u, l, LOWER).value.bits;
    var word := PkgWord(u, current, Some(l), None);
    assert forall i :: 32 <= i < 64 ==> word[i] == (current[i] || bits[i]);
    if l.bits == Zero() {
      LowerSpill(u, l);
    }
  }

  /** Setting the upper limit alone leaves the lower half as it was if and only if the given bits add nothing
      there; values never do. */
  lemma UpperFrame(u: Units, current: Word, l: Limit)
    requires Encoding(u, Some(l), UPPER) && Calculable(u, Some(l), UPPER)
    ensures (forall i :: 0 <= i < 32 ==> PkgWord(u, current, None, Some(l))[i] == current[i]) <==> KeepsLower(current, l)
    ensures l.bits == Zero() ==> KeepsLower(current, l)
  {
    var bits := Calc(u, l, UPPER).value.bits;
    var word := PkgWord(u, current, None, Some(l));
    assert forall i :: 0 <= i < 32 ==> bits[i] == l.bits[i];
    assert forall i :: 0 <= i < 32 ==> word[i] == (current[i] || bits[i]);
  }

  /** A limit given as values, of a power that has a code. */
  predicate AsValues(u: Units, l: Limit, offset: nat) {
    l.bits == Zero() && Encodable(u, l, offset) && WattsToBits(l.watts, u.watts) <= 32767
  }

  /** A lower limit given as values leaves the upper half bit for bit as it was when its window is shorter
      than 2^32768 units, as every double is; below 2^32 units the lower half decodes to the quantised
      request. */
  lemma LowerLimitOnly(u: Units, current: Word, l: Limit)
    requires AsValues(u, l, LOWER)
    ensures Calculable(u, Some(l), LOWER)
    ensures Exponent(InTimeUnits(l.seconds, u.seconds)) < 0x8000 ==>
      forall i :: 32 <= i < 64 ==> PkgWord(u, current, Some(l), None)[i] == current[i]
    ensures InTimeUnits(l.seconds, u.seconds) < MAX_UNITS ==>
      FromBits(u, Limit(PkgWord(u, current, Some(l), None), 0.0, 0.0), LOWER)
      == Limit(PkgWord(u, current, Some(l), None), Quantised(u, l, LOWER).0, Quantised(u, l, LOWER).1)
  {
    LowerFrame(u, current, l);
    if Exponent(InTimeUnits(l.seconds, u.seconds)) < 0x8000 {
      ExponentFitsField(Exponent(InTimeUnits(l.seconds, u.seconds)));
    }
    if InTimeUnits(l.seconds, u.seconds) < MAX_UNITS {
      LowerDecodes(u, current, l);
    }
  }

  lemma ExponentFitsField(y: nat)
    requires y < 0x8000
    ensures Fits(WordOf(y), 15)
  {
    assert Pow2(15) == 0x8000;
    SmallNumber(y, 15);
  }

  lemma LowerDecodes(u: Units, current: Word, l: Limit)
    requires FitsFields(u, l, LOWER) && Calculable(u, Some(l), LOWER)
    ensures var word := PkgWord(u, current, Some(l), None);
      FromBits(u, Limit(word, 0.0, 0.0), LOWER) == Limit(word, Quantised(u, l, LOWER).0, Quantised(u, l, LOWER).1)
  {
    EncodedBits(u, l, LOWER);
    CodesStay(u, l, LOWER, ToBits(u, l, LOWER).value.bits, PkgWord(u, current, Some(l), None));
    DecodedHalf(u, l, LOWER, PkgWord(u, current, Some(l), None));
  }

  /** An upper limit given as values always leaves the lower half bit for bit as it was; below 128 s the upper
      half decodes to the quantised request. */
  lemma UpperLimitOnly(u: Units, current: Word, l: Limit)
    requires AsValues(u, l, UPPER)
    ensures Calculable(u, Some(l), UPPER)
    ensures forall i :: 0 <= i < 32 ==> PkgWord(u, current, None, Some(l))[i] == current[i]
    ensures l.seconds < 128.0 ==>
      FromBits(u, Limit(PkgWord(u, current, None, Some(l)), 0.0, 0.0), UPPER)
      == Limit(PkgWord(u, current, None, Some(l)), Quantised(u, l, UPPER).0, Quantised(u, l, UPPER).1)
  {
    UpperFrame(u, current, l);
    if l.seconds < 128.0 {
      UpperDecodes(u, current, l);
    }
  }

  lemma UpperDecodes(u: Units, current: Word, l: Limit)
    requires FitsFields(u, l, UPPER) && Calculable(u, Some(l), UPPER)
    ensures var word := PkgWord(u, current, None, Some(l));
      FromBits(u, Limit(word, 0.0, 0.0), UPPER) == Limit(word, Quantised(u, l, UPPER).0, Quantised(u, l, UPPER).1)
  {
    EncodedBits(u, l, UPPER);
    CodesStay(u, l, UPPER, ToBits(u, l, UPPER).value.bits, PkgWord(u, current, None, Some(l)));
    DecodedHalf(u, l, UPPER, PkgWord(u, current, None, Some(l)));
  }

  /** Setting the DRAM limit from values that fit, then reading the register back. */
  lemma DramRoundTrip(u: Units, l: Limit)
    requires FitsFields(u, l, LOWER)
    ensures Calculable(u, Some(l), LOWER)
    ensures var word := Or(Calc(u, l, LOWER).value.bits, BitAt(15));
      && word != Zero()
      && FromBits(u, Limit(word, 0.0, 0.0), LOWER) == Limit(word, Quantised(u, l, LOWER).0, Quantised(u, l, LOWER).1)
  {
    EncodedBits(u, l, LOWER);
    var w := ToBits(u, l, LOWER).value.bits;
    assert Or(w, BitAt(15))[15];
    CodesStay(u, l, LOWER, w, Or(w, BitAt(15)));
    DecodedHalf(u, l, LOWER, Or(w, BitAt(15)));
  }

  // ----- every bit of the word written

  /** The half of the word from bit `offset` on, for a limit given as values: the power code in bits 0-14, enabled
      (15), clamping (16), the window in bits 17-23, and nothing else. */
  ghost predicate Layout(u: Units, l: Limit, offset: nat, w: Word)
    requires Placed(offset) && Encodable(u, l, offset)
  {
    forall i :: offset <= i < offset + 32 ==>
      w[i] ==
        if i < offset + 15 then WordOf(WattsToBits(l.watts, u.watts))[i - offset]
        else if i < offset + 17 then true
        else if i < offset + 24 then SecondsField(u, l, offset)[i - offset - 17]
        else false
  }

  /** Bits 15 and 16 of a half are its enable and its clamping bit. */
  lemma EnabledBits(bits: Word, offset: nat, w: Word)
    requires Placed(offset) && w == Or(Or(bits, BitAt(15 + offset)), BitAt(16 + offset))
    ensures forall i :: 0 <= i < 64 ==> w[i] == (i == offset + 15 || i == offset + 16 || bits[i])
  {
  }

  lemma HalfLayout(u: Units, l: Limit, offset: nat, half: Word, w: Word)
    requires Placed(offset) && FitsFields(u, l, offset) && ToBits(u, l, offset).Some?
    requires half == Enabled(ToBits(u, l, offset).value, offset)
    requires forall i :: offset <= i < offset + 32 ==> w[i] == half[i]
    ensures Layout(u, l, offset, w)
    ensures forall i :: 0 <= i < 64 && !(offset <= i < offset + 32) ==> !half[i]
  {
    var bits := ToBits(u, l, offset).value.bits;
    EncodedBits(u, l, offset);
    EnabledBits(bits, offset, half);
    forall i | offset <= i < offset + 32
      ensures w[i] == (i == offset + 15 || i == offset + 16 || bits[i])
    {
    }
  }

  /** Two limits that fit: each half of the word is laid out as the register has it, whatever it held. */
  lemma PkgWordBits(u: Units, current: Word, l1: Limit, l2: Limit)
    requires FitsFields(u, l1, LOWER) && FitsFields(u, l2, UPPER)
    ensures Calculable(u, Some(l1), LOWER) && Calculable(u, Some(l2), UPPER)
    ensures var word := PkgWord(u, current, Some(l1), Some(l2)); Layout(u, l1, LOWER, word) && Layout(u, l2, UPPER, word)
  {
    EncodedBits(u, l1, LOWER);
    EncodedBits(u, l2, UPPER);
    var half1, half2 := Enabled(ToBits(u, l1, LOWER).value, LOWER), Enabled(ToBits(u, l2, UPPER).value, UPPER);
    HalfLayout(u, l1, LOWER, half1, half1);
    HalfLayout(u, l2, UPPER, half2, half2);
    var word := PkgWord(u, current, Some(l1), Some(l2));
    assert forall i :: 0 <= i < 64 ==> word[i] == (half1[i] || half2[i]);
    HalfLayout(u, l1, LOWER, half1, word);
    HalfLayout(u, l2, UPPER, half2, word);
  }

  /** One limit that fits: its own half is so laid out, and the other half is the register's. */
  lemma LowerWordBits(u: Units, current: Word, l: Limit)
    requires FitsFields(u, l, LOWER)
    ensures Calculable(u, Some(l), LOWER)
    ensures var word := PkgWord(u, current, Some(l), None);
      Layout(u, l, LOWER, word) && forall i :: 32 <= i < 64 ==> word[i] == current[i]
  {
    EncodedBits(u, l, LOWER);
    var half, word := Enabled(ToBits(u, l, LOWER).value, LOWER), PkgWord(u, current, Some(l), None);
    HalfLayout(u, l, LOWER, half, half);
    assert forall i :: 0 <= i < 64 ==> word[i] == (half[i] || (i >= 32 && current[i]));
    HalfLayout(u, l, LOWER, half, word);
  }

  lemma UpperWordBits(u: Units, current: Word, l: Limit)
    requires FitsFields(u, l, UPPER)
    ensures Calculable(u, Some(l), UPPER)
    ensures var word := PkgWord(u, current, None, Some(l));
      Layout(u, l, UPPER, word) && forall i :: 0 <= i < 32 ==> word[i] == current[i]
  {
    EncodedBits(u, l, UPPER);
    var half, word := Enabled(ToBits(u, l, UPPER).value, UPPER), PkgWord(u, current, None, Some(l));
    HalfLayout(u, l, UPPER, half, half);
    assert forall i :: 0 <= i < 64 ==> word[i] == (half[i] || (i < 32 && current[i]));
    HalfLayout(u, l, UPPER, half, word);
  }

  /** Limits given as bits: the two enable and the two clamping bits are set, and every other bit is set if
      either limit gives it. */
  lemma GivenWordBits(u: Units, current: Word, l1: Limit, l2: Limit)
    requires ValidUnits(u) && l1.bits != Zero() && l2.bits != Zero()
    ensures Calculable(u, Some(l1), LOWER) && Calculable(u, Some(l2), UPPER)
    ensures var word := PkgWord(u, current, Some(l1), Some(l2));
      forall i :: 0 <= i < 64 ==> word[i] == (i == 15 || i == 16 || i == 47 || i == 48 || l1.bits[i] || l2.bits[i])
  {
    EnabledBits(l1.bits, LOWER, Enabled(l1, LOWER));
    EnabledBits(l2.bits, UPPER, Enabled(l2, UPPER));
  }

  /** One limit given as bits: beside it, its own enable and clamping bit, and the other half of the register. */
  lemma GivenLowerBits(u: Units, current: Word, l: Limit)
    requires ValidUnits(u) && l.bits != Zero()
    ensures Calculable(u, Some(l), LOWER)
    ensures var word := PkgWord(u, current, Some(l), None);
      forall i :: 0 <= i < 64 ==> word[i] == (i == 15 || i == 16 || l.bits[i] || (i >= 32 && current[i]))
  {
    EnabledBits(l.bits, LOWER, Enabled(l, LOWER));
  }

  lemma GivenUpperBits(u: Units, current: Word, l: Limit)
    requires ValidUnits(u) && l.bits != Zero()
    ensures Calculable(u, Some(l), UPPER)
    ensures var word := PkgWord(u, current, None, Some(l));
      forall i :: 0 <= i < 64 ==> word[i] == (i == 47 || i == 48 || l.bits[i] || (i < 32 && current[i]))
  {
    EnabledBits(l.bits, UPPER, Enabled(l, UPPER));
  }

  /** The word of the DRAM limit: enabled, and not clamping. */
  lemma DramWordBits(u: Units, l: Limit)
    requires FitsFields(u, l, LOWER)
    ensures Calculable(u, Some(l), LOWER)
    ensures var word := Or(Calc(u, l, LOWER).value.bits, BitAt(15));
      forall i :: 0 <= i < 64 ==>
        word[i] ==
          if i < 15 then WordOf(WattsToBits(l.watts, u.watts))[i]
          else if i == 15 then true
          else if 17 <= i < 24 then SecondsField(u, l, LOWER)[i - 17]
          else false
  {
    EncodedBits(u, l, LOWER);
  }

  /** A limit given as values is an error if and only if its power code has more than fifteen bits. */
  lemma ErrorExactly(u: Units, l: Limit, offset: nat)
    requires Placed(offset) && l.bits == Zero() && Encodable(u, l, offset)
    ensures Calculable(u, Some(l), offset) <==> WattsToBits(l.watts, u.watts) < Pow2(15)
  {
    assert Pow2(15) == 32768;
  }

  // ----- the calls, on one socket

  function PkgReg(rapl: Rapl, socket: nat): Reg {
    ByCoord(rapl.topo, rapl.discontinuous, Coord(socket, 0, 0), MSR_PKG_POWER_LIMIT)
  }

  /** set_pkg_rapl_limit and then get_pkg_rapl_limit on a socket, with accepted accesses: the register of that
      socket and no other changes, both limits are laid out in it, and both structures read are what was asked
      for, quantised. */
  method SetThenGet(rapl: Rapl, socket: nat, limit1: RaplLimit, limit2: RaplLimit, got1: RaplLimit, got2: RaplLimit)
    requires rapl.Ready() && rapl.pkgLimit && socket < rapl.topo.sockets
    requires limit1 != limit2 && got1 != got2 && {limit1, limit2} !! {got1, got2}
    requires FitsFields(rapl.units[socket], limit1.View(), LOWER) && FitsFields(rapl.units[socket], limit2.View(), UPPER)
    modifies rapl.dev, limit1, limit2, got1, got2
    ensures var u, l1, l2 := rapl.units[socket], old(limit1.View()), old(limit2.View());
      var word := Lookup(rapl.dev.regs, PkgReg(rapl, socket));
      && rapl.dev.regs == old(rapl.dev.regs)[PkgReg(rapl, socket) := word]
      && Layout(u, l1, LOWER, word) && Layout(u, l2, UPPER, word)
      && got1.View() == Limit(word, Quantised(u, l1, LOWER).0, Quantised(u, l1, LOWER).1)
      && got2.View() == Limit(word, Quantised(u, l2, UPPER).0, Quantised(u, l2, UPPER).1)
  {
    ghost var u, l1, l2 := rapl.units[socket], limit1.View(), limit2.View();
    ghost var current := Lookup(rapl.dev.regs, PkgReg(rapl, socket));
    PkgWordBits(u, current, l1, l2);
    var ret := SetBoth(rapl, socket, limit1, limit2);
    PkgRoundTrip(u, current, l1, l2);
    GetBoth(rapl, socket, got1, got2);
    GetAfterSet(u, current, l1, l2, Limit(got1.bits, 0.0, 0.0), Limit(got2.bits, 0.0, 0.0));
  }

  method SetBoth(rapl: Rapl, socket: nat, limit1: RaplLimit, limit2: RaplLimit) returns (ret: int)
    requires rapl.Ready() && rapl.pkgLimit && socket < rapl.topo.sockets && limit1 != limit2
    requires FitsFields(rapl.units[socket], limit1.View(), LOWER) && FitsFields(rapl.units[socket], limit2.View(), UPPER)
    modifies rapl.dev, limit1, limit2
    ensures ret == 0
    ensures var u, l1, l2 := rapl.units[socket], old(limit1.View()), old(limit2.View());
      var current := Lookup(old(rapl.dev.regs), PkgReg(rapl, socket));
      && Calculable(u, Some(l1), LOWER) && Calculable(u, Some(l2), UPPER)
      && rapl.dev.regs == old(rapl.dev.regs)[PkgReg(rapl, socket) := PkgWord(u, current, Some(l1), Some(l2))]
  {
    PkgWordBits(rapl.units[socket], Zero(), limit1.View(), limit2.View());
    ret := rapl.SetPkgRaplLimit(socket, limit1, limit2, Io(true, true));
  }

  method GetBoth(rapl: Rapl, socket: nat, got1: RaplLimit, got2: RaplLimit)
    requires rapl.Ready() && rapl.pkgLimit && socket < rapl.topo.sockets && got1 != got2
    requires Lookup(rapl.dev.regs, PkgReg(rapl, socket)) != Zero()
    modifies got1, got2
    ensures var u, word := rapl.units[socket], Lookup(rapl.dev.regs, PkgReg(rapl, socket));
      got1.View() == FromBits(u, Limit(word, 0.0, 0.0), LOWER) && got2.View() == FromBits(u, Limit(word, 0.0, 0.0), UPPER)
  {
    ghost var u, word := rapl.units[socket], Lookup(rapl.dev.regs, PkgReg(rapl, socket));
    GotIsDecoded(u, word, got1.watts, got1.seconds, LOWER);
    GotIsDecoded(u, word, got2.watts, got2.seconds, UPPER);
    var ret := rapl.GetPkgRaplLimit(socket, got1, got2, Io(true, true), Io(true, true));
  }

  /** A lower limit alone, on a socket: its half of that socket's register is laid out, the other half and every
      other register is what it was. */
  method SetLowerAlone(rapl: Rapl, socket: nat, limit: RaplLimit) returns (ret: int)
    requires rapl.Ready() && rapl.pkgLimit && socket < rapl.topo.sockets
    requires FitsFields(rapl.units[socket], limit.View(), LOWER)
    modifies rapl.dev, limit
    ensures var word := Lookup(rapl.dev.regs, PkgReg(rapl, socket));
      && ret == 0 && rapl.dev.regs == old(rapl.dev.regs)[PkgReg(rapl, socket) := word]
      && Layout(rapl.units[socket], old(limit.View()), LOWER, word)
      && forall i :: 32 <= i < 64 ==> word[i] == Lookup(old(rapl.dev.regs), PkgReg(rapl, socket))[i]
  {
    LowerWordBits(rapl.units[socket], Lookup(rapl.dev.regs, PkgReg(rapl, socket)), limit.View());
    ret := rapl.SetPkgRaplLimit(socket, limit, null, Io(true, true));
  }

  /** The same for an upper limit. */
  method SetUpperAlone(rapl: Rapl, socket: nat, limit: RaplLimit) returns (ret: int)
    requires rapl.Ready() && rapl.pkgLimit && socket < rapl.topo.sockets
    requires FitsFields(rapl.units[socket], limit.View(), UPPER)
    modifies rapl.dev, limit
    ensures var word := Lookup(rapl.dev.regs, PkgReg(rapl, socket));
      && ret == 0 && rapl.dev.regs == old(rapl.dev.regs)[PkgReg(rapl, socket) := word]
      && Layout(rapl.units[socket], old(limit.View()), UPPER, word)
      && forall i :: 0 <= i < 32 ==> word[i] == Lookup(old(rapl.dev.regs), PkgReg(rapl, socket))[i]
  {
    UpperWordBits(rapl.units[socket], Lookup(rapl.dev.regs, PkgReg(rapl, socket)), limit.View());
    ret := rapl.SetPkgRaplLimit(socket, null, limit, Io(true, true));
  }

  /** set_dram_rapl_limit and then get_dram_rapl_limit on a socket. */
  method SetThenGetDram(rapl: Rapl, socket: nat, limit: RaplLimit, got: RaplLimit)
    requires rapl.Ready() && rapl.dramLimit && socket < rapl.topo.sockets && limit != got
    requires FitsFields(rapl.units[socket], limit.View(), LOWER)
    modifies rapl.dev, limit, got
    ensures var u, l := rapl.units[socket], old(limit.View());
      var reg := ByCoord(rapl.topo, rapl.discontinuous, Coord(socket, 0, 0), MSR_DRAM_POWER_LIMIT);
      var word := Lookup(rapl.dev.regs, reg);
      && rapl.dev.regs == old(rapl.dev.regs)[reg := word]
      && got.View() == Limit(word, Quantised(u, l, LOWER).0, Quantised(u, l, LOWER).1)
  {
    DramRoundTrip(rapl.units[socket], limit.View());
    var ret := rapl.SetDramRaplLimit(socket, limit, Io(true, true));
    GotIsDecoded(rapl.units[socket], Or(limit.bits, BitAt(15)), got.watts, got.seconds, LOWER);
    ret := rapl.GetDramRaplLimit(socket, got, Io(true, true));
  }
}
