/** Facts about products and quotients that several parts need. */
module Arithmetic {

  // ----- two-digit numbers in a mixed radix

  lemma Product(a: nat, b: nat)
    requires a > 0 && b > 0
    ensures a * b > 0
  {
  }

  lemma DigitsBelow(hi: nat, lo: nat, high: nat, radix: nat)
    requires hi < high && lo < radix
    ensures hi * radix + lo < high * radix
  {
    assert (hi + 1) * radix <= high * radix by {
      ProductLe(hi + 1, high, radix);
    }
  }

  lemma ProductLe(a: nat, b: nat, c: nat)
    requires a <= b
    ensures a * c <= b * c
  {
  }

  lemma SplitDigits(hi: nat, lo: nat, radix: nat)
    requires lo < radix
    ensures (hi * radix + lo) / radix == hi && (hi * radix + lo) % radix == lo
  {
    var n := hi * radix + lo;
    DigitsUnique(hi, lo, n / radix, n % radix, radix);
  }

  lemma Digits(hi: nat, lo: nat, high: nat, radix: nat)
    requires hi < high && lo < radix
    ensures hi * radix + lo < high * radix
    ensures (hi * radix + lo) / radix == hi && (hi * radix + lo) % radix == lo
  {
    DigitsBelow(hi, lo, high, radix);
    SplitDigits(hi, lo, radix);
  }

  lemma DigitsUnique(a: nat, b: nat, c: nat, d: nat, radix: nat)
    requires b < radix && d < radix && a * radix + b == c * radix + d
    ensures a == c && b == d
  {
    if a < c {
      ProductLe(a + 1, c, radix);
    } else if c < a {
      ProductLe(c + 1, a, radix);
    }
  }

  lemma JoinDigits(n: nat, high: nat, radix: nat)
    requires radix > 0 && n < high * radix
    ensures (n / radix) * radix + n % radix == n && n / radix < high && n % radix < radix
  {
    if n / radix >= high {
      ProductLe(high, n / radix, radix);
    }
  }

  // ----- reals

  lemma Cancel(a: real, p: real)
    requires p > 0.0
    ensures a * p / p == a && a / p * p == a
  {
  }
}
