/** Oracle prices: from the decoded (price, confidence, exponent) of a feed to a u64 scaled by 10^9. */
module Oracle {
  import opened Common
  import opened Arithmetic

  /** A decoded price feed. */
  datatype PriceFeed = PriceFeed(price: i64, conf: u64, expo: i32)

  function ValidatePythPrice(price: int, conf: nat): Result<()> {
    var _ :- Require(price > 0, InvalidOracle);
    var product :- CheckedMul(price, MAX_CONFIDENCE_PCT, U64_MAX);
    Require(conf <= product / 100, OracleConfidenceTooWide)
  }

  function CheckedPow10(exp: nat): Result<nat> {
    if Pow(10, exp) <= U64_MAX then Ok(Pow(10, exp)) else Err(MathOverflow)
  }

  function ScalePrice(price: int, expo: int): Result<nat> {
    var _ :- Require(price > 0, InvalidOracle);
    if expo >= 0 then
      var factor :- CheckedPow10(expo);
      var v :- CheckedMul(price, factor, U64_MAX);
      CheckedMul(v, PRICE_SCALE, U64_MAX)
    else if -expo <= 9 then
      var factor :- CheckedPow10(9 + expo);
      CheckedMul(price, factor, U64_MAX)
    else
      var divisor :- CheckedPow10(-expo - 9);
      CheckedDiv(price, divisor)
  }

  function GetOraclePrice(feed: PriceFeed): Result<nat> {
    var _ :- ValidatePythPrice(feed.price, feed.conf);
    ScalePrice(feed.price, feed.expo)
  }

  /** `v` is `price * 10^e`, rounded down. */
  ghost predicate IsScaled(v: nat, price: nat, e: int) {
    if e >= 0 then v == price * Pow(10, e)
    else Pow(10, -e) * v <= price < Pow(10, -e) * (v + 1)
  }

  lemma ScaledUnique(v: nat, w: nat, price: nat, e: int)
    requires IsScaled(v, price, e) && IsScaled(w, price, e)
    ensures v == w
  {
    if e < 0 {
      PowExpMono(10, 0, -e);
      MulCancel(Pow(10, -e), v, w + 1);
      MulCancel(Pow(10, -e), w, v + 1);
    }
  }

  lemma {:induction false} PowAdd(base: nat, d: nat, e: nat)
    ensures Pow(base, d + e) == Pow(base, d) * Pow(base, e)
  {
    if d == 0 {
    } else {
      PowAdd(base, d - 1, e);
      assert base * (Pow(base, d - 1) * Pow(base, e)) == (base * Pow(base, d - 1)) * Pow(base, e);
    }
  }

  lemma TenToThe(k: nat)
    ensures Pow(10, 9) == PRICE_SCALE
    ensures Pow(10, k) <= U64_MAX <==> k <= 19
  {
    assert Pow(10, 19) == 10_000_000_000_000_000_000 && Pow(10, 20) == 100_000_000_000_000_000_000;
    if k <= 19 { PowExpMono(10, k, 19); } else { PowExpMono(10, 20, k); }
  }

  /** Scaling is exact: down to exponent -28 it returns `floor(price * 10^(9 + expo))` if that fits
      u64 and fails otherwise. */
  lemma ScalePriceExact(price: nat, expo: int, v: nat)
    requires 0 < price <= I64_MAX && expo >= -28
    requires IsScaled(v, price, 9 + expo)
    ensures ScalePrice(price, expo) == if v <= U64_MAX then Ok(v) else Err(MathOverflow)
  {
    if expo >= 0 {
      ScaleUp(price, expo);
    } else if expo >= -9 {
      TenToThe(9 + expo);
    } else {
      TenToThe(-expo - 9);
      PowExpMono(10, 0, -expo - 9);
      DivUnique(price, Pow(10, -expo - 9), v);
      assert v <= Pow(10, -expo - 9) * v by { MulMono(1, Pow(10, -expo - 9), v, v); }
    }
  }

  lemma ScaleUp(price: nat, expo: nat)
    requires price > 0
    ensures var v := price * Pow(10, 9 + expo);
            ScalePrice(price, expo) == if v <= U64_MAX then Ok(v) else Err(MathOverflow)
  {
    var f := Pow(10, expo);
    PowAdd(10, 9, expo);
    TenToThe(9);
    PowExpMono(10, 0, expo);
    assert price * Pow(10, 9 + expo) == (price * f) * PRICE_SCALE;
    MulMono(1, price, f, f);
    MulMono(price * f, price * f, 1, PRICE_SCALE);
  }

  /** Below -28 the divisor itself overflows, so a price that rounds to 0 is refused instead. */
  lemma ScalePriceTooSmall(price: nat, expo: int)
    requires 0 < price <= I64_MAX && expo < -28
    ensures ScalePrice(price, expo) == Err(MathOverflow)
    ensures IsScaled(0, price, 9 + expo)
  {
    TenToThe(-expo - 9);
  }

  /** There is exactly one scaled price, so `ScalePriceExact` speaks about every input. */
  lemma ScaledExists(price: nat, e: int) returns (v: nat)
    ensures IsScaled(v, price, e)
    ensures forall w: nat :: IsScaled(w, price, e) ==> w == v
  {
    if e >= 0 {
      v := price * Pow(10, e);
    } else {
      PowExpMono(10, 0, -e);
      v := price / Pow(10, -e);
      DivBounds(price, Pow(10, -e));
    }
    forall w: nat | IsScaled(w, price, e) ensures w == v {
      ScaledUnique(v, w, price, e);
    }
  }

  /** A higher price at the same exponent never scales lower, and never stops failing. */
  lemma ScalePriceMono(p: nat, q: nat, expo: int)
    requires 0 < p <= q <= I64_MAX && ScalePrice(q, expo).Ok?
    ensures ScalePrice(p, expo).Ok? && ScalePrice(p, expo).value <= ScalePrice(q, expo).value
  {
    if expo < -28 {
      ScalePriceTooSmall(q, expo);
    } else {
      var v := ScaledExists(p, 9 + expo);
      var w := ScaledExists(q, 9 + expo);
      ScalePriceExact(p, expo, v);
      ScalePriceExact(q, expo, w);
      ScaledMono(p, q, 9 + expo, v, w);
    }
  }

  lemma ScaledMono(p: nat, q: nat, e: int, v: nat, w: nat)
    requires p <= q && IsScaled(v, p, e) && IsScaled(w, q, e)
    ensures v <= w
  {
    if e >= 0 {
      MulMono(p, q, Pow(10, e), Pow(10, e));
    } else {
      PowExpMono(10, 0, -e);
      MulCancel(Pow(10, -e), v, w + 1);
    }
  }

  lemma ScaledShift(v: nat, price: nat, e: int)
    requires IsScaled(v, price, e)
    ensures IsScaled(v, 10 * price, e - 1)
  {
    if e >= 1 {
      assert Pow(10, e) == 10 * Pow(10, e - 1);
      assert (10 * price) * Pow(10, e - 1) == price * (10 * Pow(10, e - 1));
    } else {
      ScaledShiftDown(v, price, Pow(10, -e));
      assert Pow(10, -(e - 1)) == 10 * Pow(10, -e);
    }
  }

  lemma ScaledShiftDown(v: nat, price: nat, d: nat)
    requires d * v <= price < d * (v + 1)
    ensures (10 * d) * v <= 10 * price < (10 * d) * (v + 1)
  {
    assert (10 * d) * v == 10 * (d * v);
    assert (10 * d) * (v + 1) == 10 * (d * (v + 1));
  }

  /** Moving a decimal place between price and exponent does not change the scaled price. */
  lemma ScaleInvariance(price: nat, expo: int)
    requires 0 < price && 10 * price <= I64_MAX
    requires ScalePrice(price, expo).Ok? && ScalePrice(10 * price, expo - 1).Ok?
    ensures ScalePrice(price, expo) == ScalePrice(10 * price, expo - 1)
  {
    if expo - 1 < -28 {
      ScalePriceTooSmall(10 * price, expo - 1);
    } else {
      var v := ScaledExists(price, 9 + expo);
      ScaledShift(v, price, 9 + expo);
      ScalePriceExact(price, expo, v);
      ScalePriceExact(10 * price, expo - 1, v);
    }
  }

  lemma ScaleFits(price: i64, expo: int)
    requires ScalePrice(price, expo).Ok?
    ensures ScalePrice(price, expo).value <= U64_MAX
  {
    if expo < -9 {
      hide Pow;
      QuotientFits(price, Pow(10, -expo - 9));
    }
  }

  lemma QuotientFits(x: nat, d: nat)
    ensures CheckedDiv(x, d).Ok? ==> CheckedDiv(x, d).value <= x
  {
    if d > 0 {
      DivBounds(x, d);
      MulMono(1, d, x / d, x / d);
    }
  }

  lemma ScalePositive(price: i64, expo: int)
    requires ScalePrice(price, expo).Ok? && expo >= -9
    ensures ScalePrice(price, expo).value > 0
  {
    if expo >= 0 {
      ScaleUp(price, expo);
      PowExpMono(10, 0, 9 + expo);
      MulMono(1, price, 1, Pow(10, 9 + expo));
    } else {
      PowExpMono(10, 0, 9 + expo);
      MulMono(1, price, 1, Pow(10, 9 + expo));
    }
  }

  /** An accepted price has a confidence band within a tenth of it, fits u64 and, from exponent -9 up,
      is positive. */
  lemma AcceptedPrice(feed: PriceFeed)
    requires GetOraclePrice(feed).Ok?
    ensures feed.price > 0 && 10 * feed.conf <= feed.price
    ensures GetOraclePrice(feed).value <= U64_MAX
    ensures feed.expo >= -9 ==> GetOraclePrice(feed).value > 0
  {
    hide ScalePrice;
    ScaleFits(feed.price, feed.expo);
    if feed.expo >= -9 {
      ScalePositive(feed.price, feed.expo);
    }
  }

  /** `v` is the price the program takes from a feed: the feed's price scaled by 10^9, from a positive price with
      a confidence band of at most a tenth, if no step leaves u64. */
  ghost predicate Quotes(feed: PriceFeed, v: nat) {
    && 0 < 10 * feed.price <= 0xFFFF_FFFF_FFFF_FFFF
    && 100 * feed.conf <= 10 * feed.price
    && feed.expo >= -28
    && v <= 0xFFFF_FFFF_FFFF_FFFF
    && IsScaled(v, feed.price, 9 + feed.expo)
  }

  /** Exactly which feeds are accepted, and with what price. */
  lemma OraclePriceExactly(feed: PriceFeed, v: nat)
    ensures GetOraclePrice(feed) == Ok(v) <==> Quotes(feed, v)
  {
    ValidExactly(feed.price, feed.conf);
    hide ValidatePythPrice, ScalePrice;
    if feed.price > 0 {
      var w := ScaledExists(feed.price, 9 + feed.expo);
      if feed.expo >= -28 {
        ScalePriceExact(feed.price, feed.expo, w);
      } else {
        ScalePriceTooSmall(feed.price, feed.expo);
      }
    }
  }

  lemma ValidExactly(price: int, conf: nat)
    ensures ValidatePythPrice(price, conf) ==
            if price <= 0 then Err(InvalidOracle)
            else if 10 * price > 0xFFFF_FFFF_FFFF_FFFF then Err(MathOverflow)
            else if 100 * conf > 10 * price then Err(OracleConfidenceTooWide)
            else Ok(())
  {
  }

  /** With which error a feed is refused. */
  lemma OracleErrors(feed: PriceFeed)
    requires GetOraclePrice(feed).Err?
    ensures GetOraclePrice(feed) ==
            if feed.price <= 0 then Err(InvalidOracle)
            else if 10 * feed.price <= 0xFFFF_FFFF_FFFF_FFFF && 100 * feed.conf > 10 * feed.price
            then Err(OracleConfidenceTooWide)
            else Err(MathOverflow)
  {
    ValidExactly(feed.price, feed.conf);
    hide ValidatePythPrice;
  }
}
