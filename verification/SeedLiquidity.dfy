/** The arithmetic that seeds the DEX pool at graduation: Newton's integer square root in u128,
    the Q64.64 square-root price and the initial liquidity. */
module SeedLiquidity {
  import opened Common
  import opened Arithmetic

  const Q32: nat := 0x1_0000_0000
  const Q64: nat := 0x1_0000_0000_0000_0000
  const Q128: nat := 0x1_0000_0000_0000_0000_0000_0000_0000_0000

  const MIN_SQRT_PRICE: nat := 4_295_048_016
  const MAX_SQRT_PRICE: nat := 79_226_673_521_066_979_257_578_248_091

  /** The first reserve whose price for a single token is beyond that maximum. */
  const TOO_MUCH_FOR_ONE_TOKEN: nat := 18_446_050_713_735_950_761

  // ---------- Integer square root ----------

  ghost predicate IsRoot(r: nat, n: nat) {
    r * r <= n < (r + 1) * (r + 1)
  }

  /** The floor square root, found by counting up. */
  function Root(n: nat): (r: nat)
    ensures IsRoot(r, n)
  {
    if n == 0 then 0
    else
      var r := Root(n - 1);
      if (r + 1) * (r + 1) <= n then r + 1 else r
  }

  lemma RootUnique(r: nat, n: nat)
    requires IsRoot(r, n)
    ensures r == Root(n)
  {
    var s := Root(n);
    if r < s {
      MulMono(r + 1, s, r + 1, s);
    } else if s < r {
      MulMono(s + 1, r, s + 1, r);
    }
  }

  lemma RootPositive(n: nat)
    requires n >= 1
    ensures Root(n) >= 1
  {
    assert n < (Root(n) + 1) * (Root(n) + 1);
  }

  /** A Newton step from any `x` lands on or above the root. */
  lemma NewtonStaysAbove(x: nat, r: nat, n: nat)
    requires x > 0 && r * r <= n
    ensures r <= (x + n / x) / 2
  {
    DivBounds(n, x);
    if 2 * r >= x {
      ProductBelowSquare(x, r);
      DivGreatest(n, x, 2 * r - x);
    }
  }

  lemma ProductBelowSquare(x: int, r: int)
    ensures x * (2 * r - x) <= r * r
  {
    assert r * r - x * (2 * r - x) == (r - x) * (r - x);
    assert (r - x) * (r - x) >= 0;
  }

  /** Neither `x + 1` nor `x + n / x` leaves the range `0..n + 1`. */
  lemma NewtonFits(x: nat, n: nat)
    requires 1 <= x <= n
    ensures x + n / x <= n + 1
  {
    DivBounds(n, x);
    DivGreatest(n, x, 1);
    SumBelowProduct(x, n / x);
  }

  lemma SumBelowProduct(x: nat, q: nat)
    requires x >= 1 && q >= 1
    ensures x + q <= x * q + 1
  {
    assert (x - 1) * (q - 1) == x * q - x - q + 1;
  }

  lemma NewtonStops(x: nat, r: nat, n: nat)
    requires x > 0 && IsRoot(r, n) && r <= x <= (x + n / x) / 2
    ensures x == r
  {
    assert x <= n / x;
    MulMono(x, x, x, n / x);
    if r < x {
      MulMono(r + 1, x, r + 1, x);
    }
  }

  /** Newton's method in u128. It overflows on the single input u128::MAX, where `x + 1` does. */
  method IsqrtU128(n: nat) returns (r: Result<nat>)
    requires n <= U128_MAX
    ensures r == if n == U128_MAX then Err(MathOverflow) else Ok(Root(n))
  {
    if n <= 1 {
      RootUnique(n, n);
      return Ok(n);
    }
    var x := n;
    if x + 1 > U128_MAX {
      return Err(MathOverflow);
    }
    ghost var root := Root(n);
    RootPositive(n);
    var y := (x + 1) / 2;
    assert n / x == 1;
    NewtonStaysAbove(x, root, n);
    while y < x
      invariant 1 <= y && 1 <= x <= n
      invariant root <= x
      invariant y == (x + n / x) / 2
      decreases x
    {
      NewtonStaysAbove(x, root, n);
      x := y;
      NewtonFits(x, n);
      assert x + n / x <= U128_MAX;
      NewtonStaysAbove(x, root, n);
      y := (x + n / x) / 2;
    }
    NewtonStops(x, root, n);
    return Ok(x);
  }

  // ---------- Square-root price ----------

  /** `checked_shl(32)` and `checked_shl(64)` only test the shift amount, so neither ever falls back
      to the maximum; what they drop is the bits beyond 128. */
  function Shl(x: nat, factor: nat): nat {
    x * factor % Q128
  }

  function SqrtPriceQ64(sol: nat, tok: nat): nat {
    if tok == 0 || sol == 0 then Q64
    else Max(Shl(Root(Shl(sol, Q64) / tok), Q32), 1)
  }

  /** The root is never taken of u128::MAX, so the computed price is `SqrtPriceQ64` and never a failure. */
  method ComputeSqrtPriceQ64(sol: nat, tok: nat) returns (r: Result<nat>)
    requires sol <= U64_MAX && tok <= U64_MAX
    ensures r == Ok(SqrtPriceQ64(sol, tok))
  {
    if tok == 0 || sol == 0 {
      return Ok(Q64);
    }
    var scaled := Shl(sol, Q64) / tok;
    assert sol * Q64 < U128_MAX;
    DivByPositive(Shl(sol, Q64), tok);
    var root := IsqrtU128(scaled);
    return Ok(Max(Shl(root.value, Q32), 1));
  }

  lemma DivByPositive(x: nat, d: nat)
    requires d > 0
    ensures x / d <= x
  {
    MulMono(1, d, x / d, x / d);
  }

  /** No bit is lost on the way: the price is the root of `sol * 2^64 / tok`, shifted left by 32. */
  lemma SqrtPriceExact(sol: nat, tok: nat)
    requires 0 < sol <= U64_MAX && 0 < tok <= U64_MAX
    ensures 1 <= Root(sol * Q64 / tok) < Q64
    ensures SqrtPriceQ64(sol, tok) == Root(sol * Q64 / tok) * Q32
  {
    RootRange(sol * Q64, tok);
    ShlExact(sol, Q64);
    ShlExact(Root(sol * Q64 / tok), Q32);
  }

  lemma RootRange(x: nat, d: nat)
    requires 1 <= d <= x <= U128_MAX
    ensures 1 <= Root(x / d) < Q64
  {
    DivGreatest(x, d, 1);
    DivByPositive(x, d);
    RootPositive(x / d);
    var r := Root(x / d);
    if r >= Q64 { MulMono(Q64, r, Q64, r); }
  }

  lemma ShlExact(x: nat, factor: nat)
    requires x * factor < Q128
    ensures Shl(x, factor) == x * factor
  {
  }

  /** The Q64.64 bracket: `P` is `2^64 * sqrt(sol / tok)` rounded down to a multiple of `2^32`. */
  lemma SqrtPriceBracket(sol: nat, tok: nat)
    requires 0 < sol <= U64_MAX && 0 < tok <= U64_MAX
    ensures var P := SqrtPriceQ64(sol, tok);
            P * P * tok <= sol * Q128 < (P + Q32) * (P + Q32) * tok
  {
    SqrtPriceExact(sol, tok);
    var q := sol * Q64 / tok;
    DivBounds(sol * Q64, tok);
    ScaledRoot(sol * Q64, tok, q, Root(q));
    BracketScales(Root(q), tok, sol);
  }

  lemma ScaledRoot(x: nat, d: nat, q: nat, r: nat)
    requires d * q <= x < d * (q + 1) && IsRoot(r, q)
    ensures d * (r * r) <= x < d * ((r + 1) * (r + 1))
  {
    MulMono(d, d, r * r, q);
    MulMono(d, d, q + 1, (r + 1) * (r + 1));
  }

  lemma BracketScales(r: nat, tok: nat, sol: nat)
    requires tok * (r * r) <= sol * Q64 < tok * ((r + 1) * (r + 1))
    ensures (r * Q32) * (r * Q32) * tok <= sol * Q128
            < (r * Q32 + Q32) * (r * Q32 + Q32) * tok
  {
    assert (r * Q32) * (r * Q32) * tok == tok * (r * r) * Q64;
    assert (r * Q32 + Q32) * (r * Q32 + Q32) * tok == tok * ((r + 1) * (r + 1)) * Q64;
  }

  lemma SqrtPriceMultiple(sol: nat, tok: nat)
    requires 0 < sol <= U64_MAX && 0 < tok <= U64_MAX
    ensures SqrtPriceQ64(sol, tok) % Q32 == 0
  {
    SqrtPriceExact(sol, tok);
    hide SqrtPriceQ64, Root;
  }

  /** The price exceeds the pool's maximum exactly when there is a single token for a reserve within 0.004%
      of all that u64 holds. */
  lemma SqrtPriceAboveMaximumExactly(sol: nat, tok: nat)
    requires 0 < sol <= U64_MAX && 0 < tok <= U64_MAX
    ensures SqrtPriceQ64(sol, tok) > MAX_SQRT_PRICE <==> tok == 1 && sol >= TOO_MUCH_FOR_ONE_TOKEN
  {
    var first := MAX_SQRT_PRICE / Q32 + 1;
    SqrtPriceExact(sol, tok);
    var q := sol * Q64 / tok;
    var r := Root(q);
    DivBounds(sol * Q64, tok);
    ScaledRoot(sol * Q64, tok, q, r);
    RootAtLeast(sol * Q64, tok, r, first);
    hide Root, SqrtPriceQ64;
    if tok >= 2 {
      MulMono(2, tok, first * first, first * first);
    }
  }

  /** Every graduation seeds its pool inside the DEX's price range, but for that one case. */
  lemma SqrtPriceInPoolRange(sol: nat, tok: nat)
    requires 100_000_000 <= sol <= U64_MAX
    requires 1 <= tok <= TOTAL_SUPPLY_PER_SIDE
    ensures MIN_SQRT_PRICE <= SqrtPriceQ64(sol, tok)
    ensures SqrtPriceQ64(sol, tok) <= MAX_SQRT_PRICE <==> tok > 1 || sol < TOO_MUCH_FOR_ONE_TOKEN
  {
    var P := SqrtPriceQ64(sol, tok);
    SqrtPriceBracket(sol, tok);
    SqrtPriceAboveMaximumExactly(sol, tok);
    hide SqrtPriceQ64;
    if P < MIN_SQRT_PRICE {
      MulMono(P + Q32, MIN_SQRT_PRICE + Q32, P + Q32, MIN_SQRT_PRICE + Q32);
      MulMono((P + Q32) * (P + Q32), (MIN_SQRT_PRICE + Q32) * (MIN_SQRT_PRICE + Q32), tok, TOTAL_SUPPLY_PER_SIDE);
    }
  }

  lemma RootAtLeast(x: nat, d: nat, r: nat, k: nat)
    requires d > 0 && d * (r * r) <= x < d * ((r + 1) * (r + 1))
    ensures r >= k <==> x >= d * (k * k)
  {
    if r >= k {
      MulMono(k, r, k, r);
      MulMono(d, d, k * k, r * r);
    } else {
      MulMono(r + 1, k, r + 1, k);
      MulMono(d, d, (r + 1) * (r + 1), k * k);
    }
  }

  // ---------- Initial liquidity ----------

  function SaturatingMul(x: nat, y: nat): nat {
    if x * y <= U128_MAX then x * y else U128_MAX
  }

  function InitialLiquidity(sol: nat, tok: nat, sqrtPrice: nat): nat {
    var fromA := SaturatingMul(tok, sqrtPrice) / Q64;
    var fromB := SaturatingMul(sol, Q64) / Max(sqrtPrice, 1);
    Max(Min(fromA, fromB), 1)
  }

  /** The product of tokens and price fits u128 because the price came from the root, for all u64 seeds. */
  lemma NoSaturation(sol: nat, tok: nat)
    requires 0 < sol <= U64_MAX && 0 < tok <= U64_MAX
    ensures tok * SqrtPriceQ64(sol, tok) <= U128_MAX
    ensures sol * Q64 <= U128_MAX
  {
    SqrtPriceBracket(sol, tok);
    ProductFits(sol, tok, SqrtPriceQ64(sol, tok));
  }

  lemma ProductFits(sol: nat, tok: nat, P: nat)
    requires sol < Q64 && tok < Q64 && P * P * tok <= sol * Q128
    ensures tok * P < Q128
  {
    MulMono(tok, tok, P * P * tok, sol * Q128);
    assert (tok * P) * (tok * P) == tok * (P * P * tok);
    MulMono(tok, Q64 - 1, sol * Q128, (Q64 - 1) * Q128);
    if tok * P >= Q128 {
      MulMono(Q128, tok * P, Q128, tok * P);
    }
  }

  /** The token side is always the smaller one, so liquidity is `tok * P / 2^64` (or 1). */
  lemma TokenSideIsMinimum(sol: nat, tok: nat)
    requires 0 < sol <= U64_MAX && 0 < tok <= U64_MAX
    ensures var P := SqrtPriceQ64(sol, tok);
            P >= 1 && tok * P / Q64 <= sol * Q64 / P &&
            InitialLiquidity(sol, tok, P) == Max(tok * P / Q64, 1)
  {
    var P := SqrtPriceQ64(sol, tok);
    SqrtPriceBracket(sol, tok);
    NoSaturation(sol, tok);
    SqrtPriceExact(sol, tok);
    TokenSideSmaller(sol, tok, P, tok * P / Q64);
    DivGreatest(sol * Q64, P, tok * P / Q64);
  }

  lemma TokenSideSmaller(sol: nat, tok: nat, P: nat, a: nat)
    requires P * P * tok <= sol * Q128 && Q64 * a <= tok * P
    ensures P * a <= sol * Q64
  {
    MulMono(P, P, Q64 * a, tok * P);
    assert P * (tok * P) == P * P * tok;
    assert P * (Q64 * a) == Q64 * (P * a);
    assert sol * Q128 == Q64 * (sol * Q64);
  }

  /** Seed liquidity is the geometric mean of the two amounts, rounded down: with `g = ceil(tok / 2^32)`
      it is short of it by less than `1 + g`. */
  lemma LiquidityIsGeometricMean(sol: nat, tok: nat)
    requires 0 < sol <= U64_MAX && 0 < tok <= U64_MAX
    ensures var L := InitialLiquidity(sol, tok, SqrtPriceQ64(sol, tok));
            var g := (tok + Q32 - 1) / Q32;
            L * L <= sol * tok < (L + 1 + g) * (L + 1 + g)
  {
    var P := SqrtPriceQ64(sol, tok);
    SqrtPriceBracket(sol, tok);
    TokenSideIsMinimum(sol, tok);
    var a := tok * P / Q64;
    var g := (tok + Q32 - 1) / Q32;
    LiquidityBelow(sol, tok, P, a);
    LiquidityAbove(sol, tok, P, a, g);
    var L := Max(a, 1);
    MulMono(1, sol, 1, tok);
    MulMono(a + 1 + g, L + 1 + g, a + 1 + g, L + 1 + g);
  }

  lemma LiquidityBelow(sol: nat, tok: nat, P: nat, a: nat)
    requires P * P * tok <= sol * Q128 && a == tok * P / Q64
    ensures a * a <= sol * tok
  {
    assert Q64 * a <= tok * P;
    MulMono(Q64 * a, tok * P, Q64 * a, tok * P);
    assert (Q64 * a) * (Q64 * a) == Q128 * (a * a);
    assert (tok * P) * (tok * P) == tok * (P * P * tok);
    MulMono(tok, tok, P * P * tok, sol * Q128);
    assert tok * (sol * Q128) == Q128 * (sol * tok);
  }

  lemma LiquidityAbove(sol: nat, tok: nat, P: nat, a: nat, g: nat)
    requires tok > 0 && sol * Q128 < (P + Q32) * (P + Q32) * tok
    requires a == tok * P / Q64 && g == (tok + Q32 - 1) / Q32
    ensures sol * tok < (a + 1 + g) * (a + 1 + g)
  {
    var u := tok * (P + Q32);
    assert tok * P <= Q64 * (a + 1);
    assert tok <= Q32 * g;
    assert u == tok * P + tok * Q32;
    assert tok * Q32 <= Q64 * g;
    assert u <= Q64 * (a + 1 + g);
    MulMono(u, Q64 * (a + 1 + g), u, Q64 * (a + 1 + g));
    assert (Q64 * (a + 1 + g)) * (Q64 * (a + 1 + g)) == Q128 * ((a + 1 + g) * (a + 1 + g));
    assert u * u == tok * ((P + Q32) * (P + Q32) * tok);
    assert tok * (sol * Q128) == Q128 * (sol * tok);
    assert tok * (sol * Q128) < tok * ((P + Q32) * (P + Q32) * tok) by {
      assert tok * ((P + Q32) * (P + Q32) * tok - sol * Q128) > 0;
    }
  }

  /** At the program's own token supply the gap is below two. */
  lemma SeedLiquidityWithinTwo(sol: nat, tok: nat)
    requires 0 < sol <= U64_MAX && 1 <= tok <= TOTAL_SUPPLY_PER_SIDE
    ensures var L := InitialLiquidity(sol, tok, SqrtPriceQ64(sol, tok));
            L * L <= sol * tok < (L + 2) * (L + 2)
  {
    LiquidityIsGeometricMean(sol, tok);
    assert (tok + Q32 - 1) / Q32 == 1;
  }

  /** The liquidity is what the tokens are worth at the price, rounded down but at least 1; at graduation it is
      never rounded up to that. */
  lemma LiquidityAtPrice(sol: nat, tok: nat)
    requires 0 < sol <= U64_MAX && 0 < tok <= U64_MAX
    ensures var P := SqrtPriceQ64(sol, tok);
            var L := InitialLiquidity(sol, tok, P);
            && 1 <= L && tok * P < (L + 1) * 0x1_0000_0000_0000_0000
            && (L * 0x1_0000_0000_0000_0000 <= tok * P || (L == 1 && tok * P < 0x1_0000_0000_0000_0000))
            && (sol >= 100_000_000 && tok <= 1_000_000_000 ==> L * 0x1_0000_0000_0000_0000 <= tok * P)
  {
    hide SqrtPriceQ64, InitialLiquidity;
    var P := SqrtPriceQ64(sol, tok);
    TokenSideIsMinimum(sol, tok);
    DivBounds(tok * P, Q64);
    if sol >= 100_000_000 && tok <= 1_000_000_000 {
      SeedLiquidityWithinTwo(sol, tok);
      MulMono(100_000_000, sol, 1, tok);
      assert InitialLiquidity(sol, tok, P) == tok * P / Q64;
    }
  }
}
