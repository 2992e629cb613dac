/** The RAPL unit conversions of src/msr_rapl.c (translate), over exact reals: the floor-quantised
    power code and the time-window code 2^Y * (1 + Z/4). */
module RaplUnits {
  import opened Arithmetic
  import opened Words

  // ----- powers of two over the reals

  function RPow2(k: nat): (r: real)
    ensures r >= 1.0
  {
    if k == 0 then 1.0 else 2.0 * RPow2(k - 1)
  }

  lemma {:induction false} RPow2Monotone(j: nat, k: nat)
    requires j <= k
    ensures RPow2(j) <= RPow2(k)
    decreases k - j
  {
    if j < k {
      RPow2Monotone(j + 1, k);
    }
  }

  /** (uint64_t) log2(x), for x >= 1. */
  function FloorLog2(x: real): (y: nat)
    requires x >= 1.0
    ensures RPow2(y) <= x < 2.0 * RPow2(y)
    decreases x.Floor
  {
    if x < 2.0 then 0 else 1 + FloorLog2(x / 2.0)
  }

  /** 2 to the fractional part of log2(x). */
  function Mantissa(x: real): (m: real)
    requires x >= 1.0
    ensures 1.0 <= m < 2.0
    decreases x.Floor
  {
    if x < 2.0 then x else Mantissa(x / 2.0)
  }

  function Power(m: real, e: nat): real
    decreases e, m
  {
    if e == 0 then 1.0 else m * Power(m, e - 1)
  }

  lemma {:induction false} PowerMonotone(a: real, b: real, e: nat)
    requires 0.0 <= a <= b
    ensures 0.0 <= Power(a, e) <= Power(b, e)
  {
    if e > 0 {
      PowerMonotone(a, b, e - 1);
      ProductMonotone(a, b, Power(a, e - 1), Power(b, e - 1));
    }
  }

  lemma ProductMonotone(a: real, b: real, c: real, d: real)
    requires 0.0 <= a <= b && 0.0 <= c <= d
    ensures 0.0 <= a * c <= b * d
  {
    assert a * c <= b * c <= b * d;
  }

  // ----- the time window

  /** Z, chosen from the mantissa m of x = m * 2^Y, 1 <= m < 2. The source compares log2 m with
      0.15, 0.45 and 0.7; over exact reals log2 m > 3/20 says m^20 > 2^3, and so on. */
  function Multiplier(m: real): (z: nat)
    ensures z <= 3
  {
    if Power(m, 20) <= 8.0 then 0
    else if Power(m, 20) <= 512.0 then 1
    else if Power(m, 10) <= 128.0 then 2
    else 3
  }

  /** f * 2^y, doubled one place at a time. */
  function Scaled(f: real, y: nat): real {
    if y == 0 then f else 2.0 * Scaled(f, y - 1)
  }

  lemma {:induction false} ScaledIsProduct(f: real, y: nat)
    ensures Scaled(f, y) == f * RPow2(y)
  {
    if y > 0 {
      ScaledIsProduct(f, y - 1);
    }
  }

  /** (1 + Z/4) * 2^Y */
  function Window(y: nat, z: nat): real {
    Scaled(1.0 + 0.25 * z as real, y)
  }

  /** The encoder, for a request of x time units. Between half a unit and a unit the logarithm lies between
      -1 and 0: the cast cuts it to 0, and the remainder is below every threshold. */
  function EncodeWindow(x: real): Word
    requires x > 0.5
  {
    if x < 1.0 then Code(0, 0) else Code(FloorLog2(x), Multiplier(Mantissa(x)))
  }

  /** The decoder, in time units: Y is bits & 0x1F, Z is (bits & 0x60) >> 5. */
  function DecodeWindow(b: Word): (x: real)
  {
    Window(NatOf(MaskVal(b, 4, 0)), NatOf(MaskVal(b, 6, 5)))
  }

  /** A time in units. */
  function InTimeUnits(u: real, t: real): real {
    u * t
  }

  /** SECONDS_TO_BITS_STD. The unit t is 2^TU, the number of time units in a second. At half a unit and
      below the source casts a logarithm of -1 or less to an unsigned integer, which C leaves undefined. */
  function SecondsToBits(u: real, t: real): Word
    requires InTimeUnits(u, t) > 0.5
  {
    EncodeWindow(InTimeUnits(u, t))
  }

  /** BITS_TO_SECONDS_STD */
  function BitsToSeconds(b: Word, t: real): real
    requires t > 0.0
  {
    DecodeWindow(b) / t
  }

  /** b is a code of k bits. */
  predicate Fits(b: Word, k: nat) {
    forall i :: k <= i < 64 ==> !b[i]
  }

  // The mantissas of the four multipliers fall between the thresholds.
  lemma MultiplierOfExact(z: nat)
    requires z <= 3
    ensures Multiplier(1.0 + 0.25 * z as real) == z
  {
    if z == 0 {
      PowerOfOne(20);
    } else if z == 1 {
      PowerBySquares(1.25);
    } else if z == 2 {
      PowerBySquares(1.5);
    } else {
      PowerBySquares(1.75);
    }
  }

  lemma {:induction false} PowerOfOne(e: nat)
    ensures Power(1.0, e) == 1.0
  {
    if e > 0 {
      PowerOfOne(e - 1);
    }
  }

  lemma PowerBySquares(m: real)
    ensures Power(m, 10) == ((m * m) * (m * m) * m) * ((m * m) * (m * m) * m)
    ensures Power(m, 20) == Power(m, 10) * Power(m, 10)
  {
    PowerAdd(m, 2, 2);
    PowerAdd(m, 4, 1);
    PowerAdd(m, 5, 5);
    PowerAdd(m, 10, 10);
  }

  lemma {:induction false} PowerAdd(m: real, i: nat, j: nat)
    ensures Power(m, i + j) == Power(m, i) * Power(m, j)
  {
    if i > 0 {
      PowerAdd(m, i - 1, j);
    }
  }

  /** Z grows with the mantissa. */
  lemma MultiplierMonotone(m: real, n: real)
    requires 0.0 <= m <= n
    ensures Multiplier(m) <= Multiplier(n)
  {
    PowerMonotone(m, n, 20);
    PowerMonotone(m, n, 10);
    PowerAdd(m, 10, 10);
    PowerAdd(n, 10, 10);
    TenthPowers(Power(m, 10));
    TenthPowers(Power(n, 10));
  }

  // m^10 > 2^7 puts m^20 beyond the second threshold.
  lemma TenthPowers(p: real)
    requires p >= 0.0
    ensures p > 128.0 ==> p * p > 512.0
  {
    if p > 128.0 {
      ProductMonotone(128.0, p, 128.0, p);
    }
  }

  /** Z is at least 1, 2 or 3 exactly when the logarithm of the mantissa is above 0.15, 0.45 or 0.7. */
  lemma ThresholdsExactly(m: real)
    requires 1.0 <= m
    ensures Multiplier(m) >= 1 <==> Power(m, 20) > Power(2.0, 3)
    ensures Multiplier(m) >= 2 <==> Power(m, 20) > Power(2.0, 9)
    ensures Multiplier(m) >= 3 <==> Power(m, 10) > Power(2.0, 7)
  {
    assert Power(2.0, 3) == 8.0 && Power(2.0, 7) == 128.0 && Power(2.0, 9) == 512.0;
    PowerMonotone(1.0, m, 10);
    PowerAdd(m, 10, 10);
    TenthPowers(Power(m, 10));
  }

  /** Each multiplier is within the advertised band of every mantissa it stands for. */
  lemma MultiplierBand(m: real)
    requires 1.0 <= m < 2.0
    ensures 0.875 * m < 1.0 + 0.25 * Multiplier(m) as real < 1.127 * m
  {
    PassedThresholds(m);
    MissedThresholds(m);
  }

  /** Lower bounds on the mantissa, from the threshold it passed. */
  lemma PassedThresholds(m: real)
    requires 1.0 <= m
    ensures Multiplier(m) >= 1 ==> m > 1.1093
    ensures Multiplier(m) >= 2 ==> m > 1.36
    ensures Multiplier(m) == 3 ==> m > 1.62
  {
    if m <= 1.1093 { PowerMonotone(m, 1.1093, 20); TwentiethPower(1.1093); }
    if m <= 1.36 { PowerMonotone(m, 1.36, 20); TwentiethPower(1.36); }
    if m <= 1.62 { PowerMonotone(m, 1.62, 10); TenthPower(1.62); }
  }

  /** Upper bounds, from the threshold it did not pass. */
  lemma MissedThresholds(m: real)
    requires 1.0 <= m
    ensures Multiplier(m) == 0 ==> m < 1.11
    ensures Multiplier(m) <= 1 ==> m < 1.367
    ensures Multiplier(m) <= 2 ==> m < 1.625
  {
    if m >= 1.11 { PowerMonotone(1.11, m, 20); TwentiethPower(1.11); }
    if m >= 1.367 { PowerMonotone(1.367, m, 20); TwentiethPower(1.367); }
    if m >= 1.625 { PowerMonotone(1.625, m, 10); TenthPower(1.625); }
    MultiplierMonotone(1.0, m);
  }

  lemma TwentiethPower(c: real)
    ensures c == 1.1093 ==> Power(c, 20) <= 8.0
    ensures c == 1.36 ==> Power(c, 20) <= 512.0
    ensures c == 1.11 ==> Power(c, 20) > 8.0
    ensures c == 1.367 ==> Power(c, 20) > 512.0
  {
    PowerBySquares(c);
  }

  lemma TenthPower(c: real)
    ensures c == 1.62 ==> Power(c, 10) <= 128.0
    ensures c == 1.625 ==> Power(c, 10) > 128.0
  {
    PowerBySquares(c);
  }

  // ----- the code as a word

  /** timeval_y | (timeval_z << 5) */
  function Code(y: nat, z: nat): Word {
    Or(WordOf(y), Shl(WordOf(z), 5))
  }

  lemma SmallNumber(v: nat, k: nat)
    requires v < Pow2(k)
    ensures Fits(WordOf(v), k)
  {
    forall i | k <= i < 64
      ensures !WordOf(v)[i]
    {
      HighBitsClear(v, k, 64, i);
    }
  }

  lemma Literals()
    ensures Pow2(5) == 32 && Pow2(2) == 4 && Pow2(7) == 128
  {
  }

  lemma CodeBits(y: nat, z: nat)
    requires y < Pow2(5) && z < Pow2(2)
    ensures Fits(Code(y, z), 7)
    ensures forall i :: 0 <= i < 5 ==> Code(y, z)[i] == WordOf(y)[i]
    ensures forall i :: 5 <= i < 7 ==> Code(y, z)[i] == WordOf(z)[i - 5]
  {
    SmallNumber(y, 5);
    SmallNumber(z, 2);
  }

  lemma LowField(b: Word, y: nat)
    requires y < Pow2(5)
    requires forall i :: 0 <= i < 5 ==> b[i] == WordOf(y)[i]
    ensures NatOf(MaskVal(b, 4, 0)) == y
  {
    FieldOfNumber(b, 4, 0, y);
  }

  lemma HighField(b: Word, z: nat)
    requires z < Pow2(2)
    requires forall i :: 5 <= i < 7 ==> b[i] == WordOf(z)[i - 5]
    ensures NatOf(MaskVal(b, 6, 5)) == z
  {
    FieldOfNumber(b, 6, 5, z);
  }

  /** The fields of an encoded window. */
  lemma CodeFields(y: nat, z: nat, b: Word)
    requires y < 32 && z < 4 && b == Code(y, z)
    ensures Fits(b, 7)
    ensures NatOf(MaskVal(b, 4, 0)) == y
    ensures NatOf(MaskVal(b, 6, 5)) == z
  {
    Literals();
    CodeBits(y, z);
    LowField(b, y);
    HighField(b, z);
  }

  /** A seven-bit word is determined by its two fields. */
  lemma CodeFromFields(b: Word, y: nat, z: nat)
    requires Fits(b, 7) && y == NatOf(MaskVal(b, 4, 0)) && z == NatOf(MaskVal(b, 6, 5))
    ensures y < 32 && z < 4 && Code(y, z) == b
  {
    MaskValIsField(b, 4, 0);
    MaskValIsField(b, 6, 5);
    Literals();
    BitsOfNatOf(MaskVal(b, 4, 0));
    BitsOfNatOf(MaskVal(b, 6, 5));
    FieldsJoin(b);
  }

  lemma FieldsJoin(b: Word)
    requires Fits(b, 7)
    ensures Or(MaskVal(b, 4, 0), Shl(MaskVal(b, 6, 5), 5)) == b
  {
    var low, high := MaskVal(b, 4, 0), Shl(MaskVal(b, 6, 5), 5);
    forall i | 0 <= i < 64
      ensures (low[i] || high[i]) == b[i]
    {
    }
  }

  // ----- multiplying and dividing reals

  lemma Scale(a: real, b: real, p: real)
    requires p > 0.0 && a < b
    ensures a * p < b * p
  {
  }

  lemma ScaleIff(a: real, b: real, p: real)
    requires p > 0.0
    ensures a < b <==> a * p < b * p
  {
    if a < b { Scale(a, b, p); }
    if b < a { Scale(b, a, p); }
  }

  lemma DivideIff(a: real, b: real, p: real)
    requires p > 0.0
    ensures a < b <==> a / p < b / p
  {
    Cancel(a, p);
    Cancel(b, p);
    ScaleIff(a / p, b / p, p);
  }

  // ----- the codec, in time units

  /** Y and the mantissa are the only such parts of a number. */
  lemma {:induction false} PartsOf(f: real, y: nat)
    requires 1.0 <= f < 2.0
    ensures Scaled(f, y) >= 1.0 && FloorLog2(Scaled(f, y)) == y && Mantissa(Scaled(f, y)) == f
  {
    if y > 0 {
      PartsOf(f, y - 1);
    }
  }

  lemma EncodeOfWindow(y: nat, z: nat)
    requires z < 4
    ensures Window(y, z) >= 1.0 && EncodeWindow(Window(y, z)) == Code(y, z)
  {
    PartsOf(1.0 + 0.25 * z as real, y);
    MultiplierOfExact(z);
  }

  /** Encoding the window of any seven-bit code gives the code back. */
  lemma EncodeOfDecode(b: Word)
    requires Fits(b, 7)
    ensures DecodeWindow(b) >= 1.0 && EncodeWindow(DecodeWindow(b)) == b
  {
    var y, z := NatOf(MaskVal(b, 4, 0)), NatOf(MaskVal(b, 6, 5));
    CodeFromFields(b, y, z);
    EncodeOfWindow(y, z);
  }

  /** What the encoder's code stands for, while Y fits its five bits. */
  lemma DecodeOfEncode(x: real, y: nat, z: nat)
    requires x >= 1.0 && y == FloorLog2(x) < 32 && z == Multiplier(Mantissa(x))
    ensures Fits(EncodeWindow(x), 7) && DecodeWindow(EncodeWindow(x)) == Window(y, z)
  {
    CodeFields(y, z, EncodeWindow(x));
  }

  const MAX_UNITS := 4294967296.0

  lemma MaxUnits()
    ensures RPow2(31) == 2147483648.0 && RPow2(32) == MAX_UNITS
  {
    assert RPow2(8) == 256.0;
    assert RPow2(12) == 4096.0;
    assert RPow2(16) == 65536.0;
    assert RPow2(20) == 1048576.0;
    assert RPow2(24) == 16777216.0;
    assert RPow2(28) == 268435456.0;
    assert RPow2(31) == 2147483648.0;
  }

  lemma {:induction false} ExponentBelow(x: real, k: nat)
    requires x >= 1.0
    ensures FloorLog2(x) < k <==> x < RPow2(k)
    decreases k
  {
    if k > 0 && x >= 2.0 {
      ExponentBelow(x / 2.0, k - 1);
    }
  }

  lemma ExponentFits(x: real)
    requires x >= 1.0
    ensures FloorLog2(x) < 32 <==> x < MAX_UNITS
  {
    MaxUnits();
    ExponentBelow(x, 32);
  }

  /** The encoder's choices stay within 7/8 and 1.127 of the request. */
  lemma {:induction false} ChoicesBand(x: real)
    requires x >= 1.0
    ensures 0.875 * x < Window(FloorLog2(x), Multiplier(Mantissa(x))) < 1.127 * x
    decreases x.Floor
  {
    if x < 2.0 {
      MultiplierBand(x);
    } else {
      ChoicesBand(x / 2.0);
    }
  }

  /** The largest window a register can hold: later bits of the code are not looked at. */
  lemma LargestWindow(b: Word)
    ensures DecodeWindow(b) <= 0.875 * MAX_UNITS
  {
    MaskValIsField(b, 4, 0);
    MaskValIsField(b, 6, 5);
    Literals();
    MaxUnits();
    ScaledMonotone(1.0 + 0.25 * NatOf(MaskVal(b, 6, 5)) as real, NatOf(MaskVal(b, 4, 0)), 1.75, 31);
    ScaledIsProduct(1.75, 31);
  }

  lemma {:induction false} ScaledMonotone(f: real, y: nat, g: real, q: nat)
    requires 1.0 <= f < 2.0 && 1.0 <= g < 2.0 && (y < q || (y == q && f <= g))
    ensures Scaled(f, y) <= Scaled(g, q)
  {
    if y > 0 {
      ScaledMonotone(f, y - 1, g, q - 1);
    } else if q > 0 {
      PartsOf(g, q - 1);
    }
  }

  lemma AccurateExactly(x: real)
    requires x > 0.5
    ensures 0.875 * x < DecodeWindow(EncodeWindow(x)) < 1.127 * x <==> 1.0 < 1.127 * x && x < MAX_UNITS
    ensures x < MAX_UNITS ==> Fits(EncodeWindow(x), 7)
  {
    if x < 1.0 {
      CodeFields(0, 0, EncodeWindow(x));
    } else if x < MAX_UNITS {
      ExponentFits(x);
      DecodeOfEncode(x, FloorLog2(x), Multiplier(Mantissa(x)));
      ChoicesBand(x);
    } else {
      LargestWindow(EncodeWindow(x));
    }
  }

  lemma {:induction false} MantissaMonotone(x: real, w: real)
    requires 1.0 <= x <= w
    ensures FloorLog2(x) <= FloorLog2(w)
    ensures FloorLog2(x) == FloorLog2(w) ==> Mantissa(x) <= Mantissa(w)
    decreases x.Floor
  {
    if x >= 2.0 {
      MantissaMonotone(x / 2.0, w / 2.0);
    }
  }

  lemma DecodedMonotone(x: real, w: real)
    requires 0.5 < x <= w < MAX_UNITS
    ensures DecodeWindow(EncodeWindow(x)) <= DecodeWindow(EncodeWindow(w))
  {
    if x < 1.0 {
      CodeFields(0, 0, EncodeWindow(x));
      if w >= 1.0 {
        DecodedAtLeastOne(w);
      }
    } else {
      DecodedMonotoneAboveOne(x, w);
    }
  }

  lemma DecodedAtLeastOne(w: real)
    requires 1.0 <= w < MAX_UNITS
    ensures DecodeWindow(EncodeWindow(w)) >= 1.0
  {
    ExponentFits(w);
    DecodeOfEncode(w, FloorLog2(w), Multiplier(Mantissa(w)));
    EncodeOfWindow(FloorLog2(w), Multiplier(Mantissa(w)));
  }

  lemma DecodedMonotoneAboveOne(x: real, w: real)
    requires 1.0 <= x <= w < MAX_UNITS
    ensures DecodeWindow(EncodeWindow(x)) <= DecodeWindow(EncodeWindow(w))
  {
    ExponentFits(x);
    ExponentFits(w);
    DecodeOfEncode(x, FloorLog2(x), Multiplier(Mantissa(x)));
    DecodeOfEncode(w, FloorLog2(w), Multiplier(Mantissa(w)));
    ChoicesMonotone(x, w);
  }

  lemma ChoicesMonotone(x: real, w: real)
    requires 1.0 <= x <= w
    ensures Window(FloorLog2(x), Multiplier(Mantissa(x))) <= Window(FloorLog2(w), Multiplier(Mantissa(w)))
  {
    var z, r := Multiplier(Mantissa(x)), Multiplier(Mantissa(w));
    MantissaMonotone(x, w);
    if FloorLog2(x) == FloorLog2(w) {
      MultiplierMonotone(Mantissa(x), Mantissa(w));
    }
    ScaledMonotone(1.0 + 0.25 * z as real, FloorLog2(x), 1.0 + 0.25 * r as real, FloorLog2(w));
  }

  // ----- the codec, in seconds

  /** Encoding the window of any seven-bit code gives the code back. */
  lemma WindowRoundTrip(b: Word, t: real, u: real)
    requires Fits(b, 7) && t > 0.0 && u == BitsToSeconds(b, t)
    ensures InTimeUnits(u, t) >= 1.0 && SecondsToBits(u, t) == b
  {
    EncodeOfDecode(b);
    AfterDividing(u, DecodeWindow(b), t);
  }

  lemma AfterDividing(s: real, x: real, t: real)
    requires x >= 1.0 && t > 0.0 && s == x / t
    ensures InTimeUnits(s, t) >= 1.0 && SecondsToBits(s, t) == EncodeWindow(x)
  {
    Cancel(x, t);
    InUnits(s, t, x);
  }

  lemma InUnits(u: real, t: real, x: real)
    requires InTimeUnits(u, t) == x > 0.5
    ensures SecondsToBits(u, t) == EncodeWindow(x)
  {
  }

  /** A request of more than half a unit is encoded to a window strictly within 7/8 and 1.127 of it
      exactly when it is more than 1/1.127 units, as every request of a whole unit is, and below 2^32 units;
      the code then has seven bits. The source's bounds check on the window is commented out; past 2^32
      units Y spills into the bits of Z. */
  lemma WindowAccurateExactly(u: real, t: real)
    requires t > 0.0 && InTimeUnits(u, t) > 0.5
    ensures 0.875 * u < BitsToSeconds(SecondsToBits(u, t), t) < 1.127 * u
      <==> 1.0 < 1.127 * InTimeUnits(u, t) && InTimeUnits(u, t) < MAX_UNITS
    ensures InTimeUnits(u, t) < MAX_UNITS ==> Fits(SecondsToBits(u, t), 7)
  {
    var x := InTimeUnits(u, t);
    AccurateExactly(x);
    InSeconds(u, t, x, DecodeWindow(EncodeWindow(x)));
  }

  lemma InSeconds(u: real, t: real, x: real, d: real)
    requires t > 0.0 && u * t == x
    ensures 0.875 * u < d / t < 1.127 * u <==> 0.875 * x < d < 1.127 * x
  {
    Cancel(d, t);
    Factor(0.875, u, t);
    Factor(1.127, u, t);
    ScaleIff(0.875 * u, d / t, t);
    ScaleIff(d / t, 1.127 * u, t);
  }

  lemma Factor(c: real, u: real, t: real)
    ensures c * u * t == c * (u * t)
  {
  }

  /** Longer requests never get shorter windows. */
  lemma WindowMonotone(u: real, v: real, t: real)
    requires t > 0.0 && u <= v && InTimeUnits(u, t) > 0.5 && InTimeUnits(v, t) < MAX_UNITS
    ensures InTimeUnits(v, t) > 0.5
    ensures BitsToSeconds(SecondsToBits(u, t), t) <= BitsToSeconds(SecondsToBits(v, t), t)
  {
    var x, w := InTimeUnits(u, t), InTimeUnits(v, t);
    LongerInUnits(u, v, t);
    DecodedMonotone(x, w);
    QuotientMonotone(DecodeWindow(EncodeWindow(x)), DecodeWindow(EncodeWindow(w)), t);
  }

  lemma LongerInUnits(u: real, v: real, t: real)
    requires t > 0.0 && u <= v
    ensures InTimeUnits(u, t) <= InTimeUnits(v, t)
  {
    ScaleIff(v, u, t);
  }

  lemma QuotientMonotone(a: real, b: real, t: real)
    requires t > 0.0 && a <= b
    ensures a / t <= b / t
  {
    DivideIff(b, a, t);
  }

  // ----- power

  /** WATTS_TO_BITS: the cast rounds down. A negative power would be cast to an unsigned integer,
      which C leaves undefined. */
  function WattsToBits(watts: real, unit: real): nat
    requires watts >= 0.0 && unit > 0.0
  {
    NonNegative(watts, unit);
    (watts / unit).Floor
  }

  lemma NonNegative(a: real, b: real)
    requires a >= 0.0 && b > 0.0
    ensures a / b >= 0.0
  {
  }

  function BitsToWatts(code: nat, unit: real): real {
    code as real * unit
  }

  lemma RoundedDown(r: real, d: real, p: real, w: real)
    requires 0.0 <= d < 1.0 && p > 0.0 && (r + d) * p == w
    ensures w - p < r * p <= w
  {
    Fraction(d, p);
    assert (r + d) * p == r * p + d * p;
  }

  lemma Fraction(d: real, p: real)
    requires 0.0 <= d < 1.0 && p > 0.0
    ensures 0.0 <= d * p < p
  {
  }

  /** The power code rounds down by less than one unit. */
  lemma WattsQuantised(watts: real, unit: real)
    requires watts >= 0.0 && unit > 0.0
    ensures watts - unit < BitsToWatts(WattsToBits(watts, unit), unit) <= watts
  {
    NonNegative(watts, unit);
    Cancel(watts, unit);
    var q := watts / unit;
    RoundedDown(q.Floor as real, q - q.Floor as real, unit, watts);
  }

  /** Encoding a quantised power gives its code back. */
  lemma WattsRoundTrip(code: nat, unit: real)
    requires unit > 0.0
    ensures BitsToWatts(code, unit) >= 0.0
    ensures WattsToBits(BitsToWatts(code, unit), unit) == code
  {
    var c := code as real;
    Cancel(c, unit);
    assert c.Floor == code;
    assert BitsToWatts(code, unit) / unit == c;
  }

  // ----- the unit register

  /** The units of one socket: watts in a power unit, energy units in a joule, time units in a
      second. */
  datatype Units = Units(watts: real, joules: real, seconds: real)

  predicate ValidUnits(u: Units) {
    u.watts > 0.0 && u.joules >= 1.0 && u.seconds >= 1.0
  }

  /** get_rapl_power_unit for one socket: MSR_RAPL_POWER_UNIT holds the power unit in bits 3:0, the
      energy unit in 12:8, the time unit in 19:16. (An energy field of 31 shifts a C int into its
      sign bit, which C leaves undefined.) */
  function UnitsOf(w: Word): (u: Units)
    ensures ValidUnits(u)
  {
    Positive(RPow2(NatOf(MaskVal(w, 3, 0))));
    Units(1.0 / RPow2(NatOf(MaskVal(w, 3, 0))),
          RPow2(NatOf(MaskVal(w, 12, 8))),
          RPow2(NatOf(MaskVal(w, 19, 16))))
  }

  lemma Positive(p: real)
    requires p >= 1.0
    ensures 1.0 / p > 0.0
  {
  }

  /** The units are those that the fields of the register write: bits 3 down to 0 are the power unit's exponent,
      12 down to 8 the energy unit's, 19 down to 16 the time unit's. */
  predicate Describes(w: Word, u: Units) {
    && Reciprocal(u.watts, RPow2(NatOf(w[0..4])))
    && u.joules == RPow2(NatOf(w[8..13]))
    && u.seconds == RPow2(NatOf(w[16..20]))
  }

  /** The units of every register are those its fields write. */
  lemma UnitsOfRegister(w: Word)
    ensures Describes(w, UnitsOf(w))
  {
    MaskValIsField(w, 3, 0);
    MaskValIsField(w, 12, 8);
    MaskValIsField(w, 19, 16);
    Inverse(RPow2(NatOf(w[0..4])));
  }

  predicate Reciprocal(a: real, b: real) {
    a * b == 1.0
  }

  lemma Inverse(p: real)
    requires p >= 1.0
    ensures Reciprocal(1.0 / p, p)
  {
  }

  /** A register that was given these three exponents. */
  lemma UnitsOfFields(w: Word, p: nat, e: nat, y: nat)
    requires p < 16 && e < 32 && y < 16
    requires forall i :: 0 <= i <= 3 ==> w[i] == WordOf(p)[i]
    requires forall i :: 8 <= i <= 12 ==> w[i] == WordOf(e)[i - 8]
    requires forall i :: 16 <= i <= 19 ==> w[i] == WordOf(y)[i - 16]
    ensures Reciprocal(UnitsOf(w).watts, RPow2(p)) && UnitsOf(w).joules == RPow2(e) && UnitsOf(w).seconds == RPow2(y)
  {
    Exponents(w, p, e, y);
    UnitsOfRegister(w);
  }

  lemma Exponents(w: Word, p: nat, e: nat, y: nat)
    requires p < 16 && e < 32 && y < 16
    requires forall i :: 0 <= i <= 3 ==> w[i] == WordOf(p)[i]
    requires forall i :: 8 <= i <= 12 ==> w[i] == WordOf(e)[i - 8]
    requires forall i :: 16 <= i <= 19 ==> w[i] == WordOf(y)[i - 16]
    ensures NatOf(w[0..4]) == p && NatOf(w[8..13]) == e && NatOf(w[16..20]) == y
  {
    assert Pow2(4) == 16 && Pow2(5) == 32;
    SliceOfNumber(w, 3, 0, p);
    SliceOfNumber(w, 12, 8, e);
    SliceOfNumber(w, 19, 16, y);
  }

  lemma SliceOfNumber(w: Word, m: nat, n: nat, v: nat)
    requires n <= m <= 63 && v < Pow2(m - n + 1)
    requires forall i :: n <= i <= m ==> w[i] == WordOf(v)[i - n]
    ensures NatOf(w[n..m + 1]) == v
  {
    FieldOfNumber(w, m, n, v);
    MaskValIsField(w, m, n);
  }
}
