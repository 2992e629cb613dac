/** 64-bit register words and the C operators applied to them: masks, shifts, the bitwise
    operators, the field-extraction macros of include/cpuid.h, and the conversions between words
    and numbers that C performs implicitly. */
module Words {

  datatype Option<+T> = None | Some(value: T)

  /** A uint64_t as its 64 bits, bit 0 first. */
  type Word = w: seq<bool> | |w| == 64 witness seq(64, i => false)

  function Zero(): Word {
    seq(64, i => false)
  }

  function Or(a: Word, b: Word): Word {
    seq(64, i requires 0 <= i < 64 => a[i] || b[i])
  }

  function And(a: Word, b: Word): Word {
    seq(64, i requires 0 <= i < 64 => a[i] && b[i])
  }

  function Not(a: Word): Word {
    seq(64, i requires 0 <= i < 64 => !a[i])
  }

  function Shl(a: Word, k: nat): Word {
    seq(64, i requires 0 <= i < 64 => i >= k && a[i - k])
  }

  function Shr(a: Word, k: nat): Word {
    seq(64, i requires 0 <= i < 64 => i + k < 64 && a[i + k])
  }

  /** MASK_RANGE(m, n): ones in bits m down to n. */
  function MaskRange(m: nat, n: nat): Word
    requires n <= m <= 63
  {
    seq(64, i => n <= i <= m)
  }

  /** MASK_VAL(x, m, n): the field of x in bits m down to n, moved to bit 0. */
  function MaskVal(x: Word, m: nat, n: nat): Word
    requires n <= m <= 63
  {
    Shr(And(x, MaskRange(m, n)), n)
  }

  // ----- words as numbers, numbers as words

  function Pow2(k: nat): (p: nat)
    ensures p > 0
  {
    if k == 0 then 1 else 2 * Pow2(k - 1)
  }

  /** The number written by the bits s, bit 0 first. */
  function NatOf(s: seq<bool>): nat {
    if s == [] then 0 else (if s[0] then 1 else 0) + 2 * NatOf(s[1..])
  }

  /** The low k bits of n. */
  function BitsOf(n: nat, k: nat): (s: seq<bool>)
    ensures |s| == k
    decreases k, n
  {
    if k == 0 then [] else [n % 2 == 1] + BitsOf(n / 2, k - 1)
  }

  /** (uint64_t) n: the low 64 bits of n. */
  function WordOf(n: nat): Word {
    BitsOf(n, 64)
  }

  lemma {:induction false} NatOfBitsOf(n: nat, k: nat)
    requires n < Pow2(k)
    ensures NatOf(BitsOf(n, k)) == n
  {
    if k > 0 {
      NatOfBitsOf(n / 2, k - 1);
      assert BitsOf(n, k)[1..] == BitsOf(n / 2, k - 1);
    }
  }

  lemma {:induction false} BitsOfNatOf(s: seq<bool>)
    ensures NatOf(s) < Pow2(|s|)
    ensures BitsOf(NatOf(s), |s|) == s
  {
    if s != [] {
      BitsOfNatOf(s[1..]);
    }
  }

  /** A number below 2^k has no bit at or above k. */
  lemma {:induction false} HighBitsClear(n: nat, k: nat, width: nat, i: nat)
    requires n < Pow2(k) && k <= i < width
    ensures !BitsOf(n, width)[i]
  {
    if k > 0 {
      HighBitsClear(n / 2, k - 1, width - 1, i - 1);
    } else if i > 0 {
      HighBitsClear(n / 2, 0, width - 1, i - 1);
    }
  }

  lemma {:induction false} NatOfPadded(s: seq<bool>, t: seq<bool>)
    requires forall i :: 0 <= i < |t| ==> !t[i]
    ensures NatOf(s + t) == NatOf(s)
  {
    if s != [] {
      NatOfPadded(s[1..], t);
      assert (s + t)[1..] == s[1..] + t;
    } else if t != [] {
      assert s + t == t;
      NatOfPadded([], t[1..]);
      assert [] + t[1..] == t[1..];
    } else {
      assert s + t == [];
    }
  }

  /** The meaning of MASK_VAL, for every field the header allows: the number that bits n..m of x
      write, which fits m - n + 1 bits. */
  lemma MaskValIsField(x: Word, m: nat, n: nat)
    requires n <= m <= 63
    ensures NatOf(MaskVal(x, m, n)) == NatOf(x[n..m + 1]) < Pow2(m - n + 1)
  {
    var pad := seq(63 - (m - n), i => false);
    assert MaskVal(x, m, n) == x[n..m + 1] + pad;
    NatOfPadded(x[n..m + 1], pad);
    BitsOfNatOf(x[n..m + 1]);
  }

  /** A field written as a k-bit number reads back as that number. */
  lemma FieldOfNumber(x: Word, m: nat, n: nat, v: nat)
    requires n <= m <= 63 && v < Pow2(m - n + 1)
    requires forall i :: n <= i <= m ==> x[i] == WordOf(v)[i - n]
    ensures NatOf(MaskVal(x, m, n)) == v
  {
    var k := m - n + 1;
    MaskValIsField(x, m, n);
    BitsOfPrefix(v, k, 64);
    assert x[n..m + 1] == BitsOf(v, k);
    NatOfBitsOf(v, k);
  }

  lemma {:induction false} BitsOfPrefix(n: nat, k: nat, width: nat)
    requires k <= width
    ensures BitsOf(n, width)[..k] == BitsOf(n, k)
  {
    if k > 0 {
      BitsOfPrefix(n / 2, k - 1, width - 1);
      assert BitsOf(n, width)[..k] == [n % 2 == 1] + BitsOf(n / 2, width - 1)[..k - 1];
    }
  }

  lemma {:induction false} NatOfShifted(n: nat, s: seq<bool>)
    ensures NatOf(seq(n, i => false) + s) == Pow2(n) * NatOf(s)
  {
    var zeros := seq(n, i => false);
    if n == 0 {
      assert zeros + s == s;
    } else {
      NatOfShifted(n - 1, s);
      assert (zeros + s)[1..] == seq(n - 1, i => false) + s;
      DoubleProduct(Pow2(n - 1), NatOf(s));
    }
  }

  lemma DoubleProduct(a: nat, b: nat)
    ensures 2 * (a * b) == (2 * a) * b
  {
  }

  lemma {:induction false} NatOfOnes(k: nat)
    ensures NatOf(seq(k, i => true)) == Pow2(k) - 1
  {
    if k > 0 {
      NatOfOnes(k - 1);
      assert seq(k, i => true)[1..] == seq(k - 1, i => true);
    }
  }

  /** The mask is the number the macro computes, ((1 << (m-n+1)) - 1) << n. (For m - n = 63 the
      macro itself shifts by 64, which C leaves undefined.) */
  lemma MaskRangeIsMacro(m: nat, n: nat)
    requires n <= m <= 63
    ensures NatOf(MaskRange(m, n)) == Pow2(n) * (Pow2(m - n + 1) - 1)
  {
    var ones := seq(m - n + 1, i => true);
    var pad := seq(63 - m, i => false);
    assert MaskRange(m, n) == (seq(n, i => false) + ones) + pad;
    NatOfPadded(seq(n, i => false) + ones, pad);
    NatOfShifted(n, ones);
    NatOfOnes(m - n + 1);
  }
}
