/** JavaScript's numbers, as far as the cranker uses them: which integers they hold, and how they divide. */
module Doubles {
  import opened Arithmetic

  const TWO_TO_THE_52: nat := 4_503_599_627_370_496
  const TWO_TO_THE_53: nat := 9_007_199_254_740_992

  /** The integers `toNumber` converts; on any other it throws. */
  predicate Safe(x: int) {
    0 < TWO_TO_THE_53 + x < 2 * TWO_TO_THE_53
  }

  /** The nearest integer to `x / d`, the even one on a tie. */
  function RoundHalfEven(x: nat, d: nat): nat
    requires d > 0
  {
    var q, r := x / d, x % d;
    if 2 * r < d || (2 * r == d && q % 2 == 0) then q else q + 1
  }

  lemma RoundedToNearest(x: nat, d: nat)
    requires d > 0
    ensures var m := RoundHalfEven(x, d);
            && 2 * x <= 2 * (d * m) + d && 2 * (d * m) <= 2 * x + d
            && (x % d == 0 ==> d * m == x)
  {
    var q, r, m := x / d, x % d, RoundHalfEven(x, d);
    assert x == d * q + r && 0 <= r < d;
    assert (m == q && 2 * r <= d) || (m == q + 1 && 2 * r >= d);
    hide RoundHalfEven;
    assert d * (q + 1) == d * q + d;
  }

  /** How often `x / d` has to be doubled to fill a mantissa of 53 bits. */
  function Doublings(x: nat, d: nat): nat
    requires x > 0 && d > 0
    decreases if x >= TWO_TO_THE_52 * d then 0 else TWO_TO_THE_52 * d - x
  {
    if x >= TWO_TO_THE_52 * d then 0 else 1 + Doublings(2 * x, d)
  }

  /** The quotient of two integers as a double: a mantissa of 53 bits, rounded to nearest, over a power of two. */
  function Quotient(x: nat, d: nat): real
    requires d > 0
  {
    if x == 0 then 0.0
    else
      var power := Pow(2, Doublings(x, d));
      PowExpMono(2, 0, Doublings(x, d));
      RoundHalfEven(x * power, d) as real / power as real
  }

  lemma {:induction false} DoubledEnough(x: nat, d: nat)
    requires 0 < x < TWO_TO_THE_53 * d
    ensures TWO_TO_THE_52 * d <= x * Pow(2, Doublings(x, d)) < TWO_TO_THE_53 * d
    decreases if x >= TWO_TO_THE_52 * d then 0 else TWO_TO_THE_52 * d - x
  {
    if x >= TWO_TO_THE_52 * d {
      assert x * 1 == x;
    } else {
      DoubledEnough(2 * x, d);
      var power := Pow(2, Doublings(2 * x, d));
      assert Pow(2, Doublings(x, d)) == 2 * power;
      assert x * (2 * power) == 2 * x * power;
    }
  }

  /** A correctly rounded quotient: exact if it is an integer, and otherwise off by a 2^53rd part at most. */
  predicate Rounded(quotient: real, x: nat, d: nat)
    requires d > 0
  {
    var exact := x as real / d as real;
    && (x % d == 0 ==> quotient == exact)
    && (exact - quotient) * 9_007_199_254_740_992.0 <= exact
    && (quotient - exact) * 9_007_199_254_740_992.0 <= exact
  }

  /** Below 2^53 the quotient has a 53-bit mantissa and is correctly rounded. */
  lemma QuotientRounded(x: nat, d: nat)
    requires d > 0 && x < 9_007_199_254_740_992
    ensures x > 0 ==> 4_503_599_627_370_496 <= RoundHalfEven(x * Pow(2, Doublings(x, d)), d) <= 9_007_199_254_740_992
    ensures Rounded(Quotient(x, d), x, d)
  {
    if x > 0 {
      var power := Pow(2, Doublings(x, d));
      PowExpMono(2, 0, Doublings(x, d));
      MulMono(TWO_TO_THE_53, TWO_TO_THE_53, 1, d);
      DoubledEnough(x, d);
      hide Doublings, RoundHalfEven, Pow;
      var y, m := x * power, RoundHalfEven(x * power, d);
      RoundedToNearest(y, d);
      MantissaFits(y, d, m);
      if x % d == 0 {
        MultipleOf(x, d, power);
      }
      ScaledRounding(x, d, power, m);
    }
  }

  lemma MantissaFits(y: nat, d: nat, m: nat)
    requires d > 0 && TWO_TO_THE_52 * d <= y < TWO_TO_THE_53 * d
    requires 2 * y <= 2 * (d * m) + d && 2 * (d * m) <= 2 * y + d
    ensures TWO_TO_THE_52 <= m <= TWO_TO_THE_53
  {
    assert d * TWO_TO_THE_52 < d * (m + 1);
    MulCancel(d, TWO_TO_THE_52, m + 1);
    assert d * m < d * (TWO_TO_THE_53 + 1);
    MulCancel(d, m, TWO_TO_THE_53 + 1);
  }

  lemma MultipleOf(x: nat, d: nat, power: nat)
    requires d > 0 && x % d == 0
    ensures (x * power) % d == 0
  {
    var q := x / d;
    assert x == d * q;
    assert x * power == d * (q * power);
    DivUnique(x * power, d, q * power);
  }

  lemma ScaledRounding(x: nat, d: nat, power: nat, m: nat)
    requires d > 0 && power > 0 && TWO_TO_THE_52 * d <= x * power
    requires 2 * (x * power) <= 2 * (d * m) + d && 2 * (d * m) <= 2 * (x * power) + d
    requires x % d == 0 ==> d * m == x * power
    ensures Rounded(m as real / power as real, x, d)
  {
    var y, z := x * power, d * m;
    RealProducts(x, power);
    RealProducts(d, m);
    RealRounding(x as real, d as real, power as real, m as real, y as real, z as real);
  }

  lemma RealProducts(a: nat, b: nat)
    ensures (a * b) as real == a as real * b as real
  {
  }

  lemma RealRounding(x: real, d: real, power: real, m: real, y: real, z: real)
    requires d > 0.0 && power > 0.0 && y == x * power && z == d * m
    requires 2.0 * y <= 2.0 * z + d && 2.0 * z <= 2.0 * y + d && TWO_TO_THE_52 as real * d <= y
    ensures (x / d - m / power) * TWO_TO_THE_53 as real <= x / d
    ensures (m / power - x / d) * TWO_TO_THE_53 as real <= x / d
    ensures y == z ==> m / power == x / d
  {
    var exact, rounded := x / d, m / power;
    ScaleCancels(x, d, power, exact);
    ScaleCancels(m, power, d, rounded);
    RoundedByScale(exact, rounded, d * power, y, z, d);
    if y == z {
      SameByScale(exact, rounded, d * power);
    }
  }

  lemma ScaleCancels(a: real, b: real, other: real, q: real)
    requires b > 0.0 && other > 0.0 && q == a / b
    ensures b * other > 0.0 && q * (b * other) == a * other
  {
    assert q * b == a;
    assert q * (b * other) == (q * b) * other;
  }

  lemma RoundedByScale(exact: real, rounded: real, scale: real, y: real, z: real, d: real)
    requires scale > 0.0 && exact * scale == y && rounded * scale == z
    requires 2.0 * y <= 2.0 * z + d && 2.0 * z <= 2.0 * y + d && TWO_TO_THE_52 as real * d <= y
    ensures (exact - rounded) * TWO_TO_THE_53 as real <= exact
    ensures (rounded - exact) * TWO_TO_THE_53 as real <= exact
  {
    ScaledAtMost((exact - rounded) * TWO_TO_THE_53 as real, exact, scale) by {
      assert ((exact - rounded) * TWO_TO_THE_53 as real) * scale == (y - z) * TWO_TO_THE_53 as real;
    }
    ScaledAtMost((rounded - exact) * TWO_TO_THE_53 as real, exact, scale) by {
      assert ((rounded - exact) * TWO_TO_THE_53 as real) * scale == (z - y) * TWO_TO_THE_53 as real;
    }
  }

  lemma ScaledAtMost(a: real, b: real, scale: real)
    requires scale > 0.0 && a * scale <= b * scale
    ensures a <= b
  {
  }

  lemma SameByScale(a: real, b: real, scale: real)
    requires scale > 0.0 && a * scale == b * scale
    ensures a == b
  {
  }

  /** Rounding never carries a quotient over an integer. */
  lemma RoundedBetween(x: nat, d: nat, q: nat, rounded: real)
    requires d > 0 && x < TWO_TO_THE_53 && Rounded(rounded, x, d) && q == x / d
    ensures q as real <= rounded < (q + 1) as real
  {
    var exact := x as real / d as real;
    if x % d == 0 {
      DivBounds(x, d);
      RealQuotient(x, d, q, exact);
    } else {
      RealGap(x, d, q);
      RealProduct(x, d, exact);
      ErrorBelowOne(exact, rounded, d as real, x as real);
      Between(q as real, rounded, (q + 1) as real, d as real, x as real);
    }
  }

  lemma RealQuotient(x: nat, d: nat, q: nat, r: real)
    requires d > 0 && r == x as real / d as real && d * q <= x < d * (q + 1)
    ensures q as real <= r < (q + 1) as real
  {
    var dr := d as real;
    assert r * dr == x as real;
    assert (d * q) as real == dr * q as real;
    assert (d * (q + 1)) as real == dr * (q + 1) as real;
    ScaledAtMost(q as real, r, dr);
    RealCancelStrict(r, (q + 1) as real, dr);
  }

  lemma RealCancelStrict(a: real, b: real, d: real)
    requires d > 0.0 && a * d < b * d
    ensures a < b
  {
  }

  lemma RealProduct(x: nat, d: nat, r: real)
    requires d > 0 && r == x as real / d as real
    ensures r * d as real == x as real
  {
  }

  lemma Between(lo: real, r: real, hi: real, d: real, x: real)
    requires d > 0.0 && lo * d <= x - 1.0 && x + 1.0 <= hi * d && x - 1.0 < r * d < x + 1.0
    ensures lo < r < hi
  {
    RealCancelStrict(lo, r, d);
    RealCancelStrict(r, hi, d);
  }

  lemma RealGap(x: nat, d: nat, q: nat)
    requires d > 0 && q == x / d && x % d != 0
    ensures q as real * d as real <= x as real - 1.0 && x as real + 1.0 <= (q + 1) as real * d as real
  {
    assert d * q + 1 <= x && x + 1 <= d * (q + 1);
    assert (d * q) as real == q as real * d as real;
    assert (d * (q + 1)) as real == (q + 1) as real * d as real;
  }

  /** A relative error of 2^-53 on a quotient is less than one unit of the dividend. */
  lemma ErrorBelowOne(exact: real, rounded: real, d: real, x: real)
    requires d > 0.0 && exact * d == x && 0.0 <= x < TWO_TO_THE_53 as real
    requires (exact - rounded) * TWO_TO_THE_53 as real <= exact && (rounded - exact) * TWO_TO_THE_53 as real <= exact
    ensures x - 1.0 < rounded * d < x + 1.0
  {
    assert ((exact - rounded) * TWO_TO_THE_53 as real) * d <= exact * d;
    assert ((rounded - exact) * TWO_TO_THE_53 as real) * d <= exact * d;
    assert ((exact - rounded) * TWO_TO_THE_53 as real) * d == (x - rounded * d) * TWO_TO_THE_53 as real;
    assert ((rounded - exact) * TWO_TO_THE_53 as real) * d == (rounded * d - x) * TWO_TO_THE_53 as real;
  }
}
