/** Powers, floors and Rust's truncating division. */
module Arithmetic {

  function Pow(base: nat, exp: nat): nat {
    if exp == 0 then 1 else base * Pow(base, exp - 1)
  }

  /** Rust's `/` on signed integers: rounds toward zero (Dafny's rounds the remainder to be non-negative). */
  function TruncDiv(x: int, y: int): int
    requires y > 0
  {
    if x >= 0 then x / y else -((-x) / y)
  }

  lemma MulMono(x: nat, x': nat, y: nat, y': nat)
    requires x <= x' && y <= y'
    ensures x * y <= x' * y'
  {
    assert x * y <= x' * y by { assert (x' - x) * y >= 0; }
    assert x' * y <= x' * y' by { assert x' * (y' - y) >= 0; }
  }

  lemma MulCancel(d: nat, x: int, y: int)
    requires d > 0 && d * x < d * y
    ensures x < y
  {
    assert d * (y - x) > 0;
  }

  lemma DivBounds(x: nat, d: nat)
    requires d > 0
    ensures 0 <= x / d && d * (x / d) <= x < d * (x / d + 1)
  {
  }

  /** Floor division is characterised by its two-sided bound. */
  lemma DivUnique(x: nat, d: nat, q: nat)
    requires d > 0 && d * q <= x < d * (q + 1)
    ensures x / d == q
  {
    var p := x / d;
    assert d * p <= x < d * (p + 1);
    MulCancel(d, p, q + 1);
    MulCancel(d, q, p + 1);
  }

  /** `x / d` is the greatest `q` with `d * q <= x`. */
  lemma DivGreatest(x: nat, d: nat, q: nat)
    requires d > 0 && d * q <= x
    ensures q <= x / d
  {
    assert x < d * (x / d + 1);
    MulCancel(d, q, x / d + 1);
  }

  lemma DivMono(x: nat, y: nat, d: nat)
    requires d > 0 && x <= y
    ensures x / d <= y / d
  {
    assert d * (x / d) <= x;
    DivGreatest(y, d, x / d);
  }

  lemma DivCancel(x: nat, m: nat, d: nat)
    requires m > 0 && d > 0
    ensures m * d > 0 && (m * x) / (m * d) == x / d
  {
    var q := x / d;
    MulMono(1, m, 1, d);
    assert d * q <= x <= d * (q + 1) - 1;
    MulMono(m, m, d * q, x);
    MulMono(m, m, x, d * (q + 1) - 1);
    assert m * (d * q) == (m * d) * q;
    assert m * (d * (q + 1) - 1) == (m * d) * (q + 1) - m;
    DivUnique(m * x, m * d, q);
  }

  /** A difference of floors is the floor of the difference, or one more. */
  lemma FloorDifference(x: nat, y: nat, d: nat)
    requires d > 0 && x <= y
    ensures (y - x) / d <= y / d - x / d <= (y - x) / d + 1
  {
    var p, q, r := x / d, y / d, (y - x) / d;
    assert d * p <= x < d * (p + 1);
    assert d * q <= y < d * (q + 1);
    assert d * r <= y - x < d * (r + 1);
    MulCancel(d, p + r, q + 1);
    assert d * (p + 1) + d * (r + 1) == d * (p + r + 2);
    MulCancel(d, q, p + r + 2);
  }

  lemma {:induction false} PowMono(x: nat, y: nat, e: nat)
    requires x <= y
    ensures Pow(x, e) <= Pow(y, e)
  {
    if e == 0 {
    } else {
      PowMono(x, y, e - 1);
      MulMono(x, y, Pow(x, e - 1), Pow(y, e - 1));
    }
  }

  lemma {:induction false} PowExpMono(x: nat, d: nat, e: nat)
    requires x >= 1 && d <= e
    ensures 1 <= Pow(x, d) <= Pow(x, e)
  {
    if e == 0 {
    } else {
      if d == e {
        PowExpMono(x, d - 1, e - 1);
        MulMono(1, x, 1, Pow(x, e - 1));
      } else {
        PowExpMono(x, d, e - 1);
        MulMono(1, x, Pow(x, e - 1), Pow(x, e - 1));
      }
    }
  }

  /** The growth of `k^(n+1)` over one step lies between the derivative at its two ends. */
  lemma {:induction false} PowStep(k: nat, n: nat)
    ensures (n + 1) * Pow(k, n) <= Pow(k + 1, n + 1) - Pow(k, n + 1) <= (n + 1) * Pow(k + 1, n)
  {
    if n == 0 {
      assert Pow(k, 1) == k * Pow(k, 0);
      assert Pow(k + 1, 1) == (k + 1) * Pow(k + 1, 0);
    } else {
      PowStep(k, n - 1);
      PowMono(k, k + 1, n);
      PowStepOnce(k, n, Pow(k, n - 1), Pow(k + 1, n - 1), Pow(k, n), Pow(k + 1, n));
      assert Pow(k, n + 1) == k * Pow(k, n);
      assert Pow(k + 1, n + 1) == (k + 1) * Pow(k + 1, n);
    }
  }

  lemma PowStepOnce(k: nat, n: nat, lo: nat, hi: nat, p: nat, q: nat)
    requires p == k * lo && q == (k + 1) * hi && p <= q
    requires n * lo <= q - p <= n * hi
    ensures (n + 1) * p <= (k + 1) * q - k * p <= (n + 1) * q
  {
    assert (k + 1) * q - k * p == k * (q - p) + q;
    MulMono(k, k, n * lo, q - p);
    assert k * (n * lo) == n * p;
    MulMono(k, k + 1, q - p, n * hi);
    assert (k + 1) * (n * hi) == n * q;
  }

  /** Powers are convex: a stretch of length `t` gains no less when it starts later. */
  lemma {:induction false} PowConvex(x: nat, y: nat, t: nat, e: nat)
    requires x <= y
    ensures Pow(x + t, e) >= Pow(x, e) && Pow(y + t, e) >= Pow(y, e)
    ensures Pow(x + t, e) - Pow(x, e) <= Pow(y + t, e) - Pow(y, e)
  {
    PowMono(x, x + t, e);
    PowMono(y, y + t, e);
    if e == 0 {
    } else {
      PowConvex(x, y, t, e - 1);
      PowMono(x + t, y + t, e - 1);
      var dx := Pow(x + t, e - 1) - Pow(x, e - 1);
      var dy := Pow(y + t, e - 1) - Pow(y, e - 1);
      assert Pow(x + t, e) - Pow(x, e) == x * dx + t * Pow(x + t, e - 1);
      assert Pow(y + t, e) - Pow(y, e) == y * dy + t * Pow(y + t, e - 1);
      MulMono(x, y, dx, dy);
      MulMono(t, t, Pow(x + t, e - 1), Pow(y + t, e - 1));
    }
  }
}
