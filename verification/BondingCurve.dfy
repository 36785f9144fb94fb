/** The bonding curve: a floored polynomial price, the floored reserve integral, and the two
    conversions between quote tokens and curve tokens, in checked u128/u64 arithmetic. */
module BondingCurve {
  import opened Common
  import opened Arithmetic

  datatype CurveParams = CurveParams(a: nat, n: nat, b: nat)

  function DefaultParams(): CurveParams {
    CurveParams(1, 2, 1)
  }

  // ---------- Exact values ----------

  function Price(k: nat, p: CurveParams): nat {
    p.a * Pow(k, p.n) / CURVE_SCALE + p.b
  }

  function ReserveDivisor(p: CurveParams): nat {
    (p.n + 1) * CURVE_SCALE
  }

  function Reserve(k: nat, p: CurveParams): nat {
    p.a * Pow(k, p.n + 1) / ReserveDivisor(p) + p.b * k
  }

  lemma ReserveMono(j: nat, k: nat, p: CurveParams)
    requires j <= k
    ensures Reserve(j, p) <= Reserve(k, p)
  {
    PowMono(j, k, p.n + 1);
    MulMono(p.a, p.a, Pow(j, p.n + 1), Pow(k, p.n + 1));
    DivMono(p.a * Pow(j, p.n + 1), p.a * Pow(k, p.n + 1), ReserveDivisor(p));
    MulMono(p.b, p.b, j, k);
  }

  /** What the curve charges for `t` tokens when `c` circulate. */
  function Cost(c: nat, t: nat, p: CurveParams): nat {
    ReserveMono(c, c + t, p);
    Reserve(c + t, p) - Reserve(c, p)
  }

  lemma CostMono(c: nat, t: nat, u: nat, p: CurveParams)
    requires t <= u
    ensures Cost(c, t, p) <= Cost(c, u, p)
  {
    ReserveMono(c + t, c + u, p);
  }

  /** The greatest `t <= available` that `sol` pays for, found by counting down. */
  function BestBuy(sol: nat, c: nat, available: nat, p: CurveParams): (t: nat)
    ensures t <= available
    ensures Cost(c, t, p) <= sol
    ensures forall u :: t < u <= available ==> Cost(c, u, p) > sol
  {
    if available == 0 then 0
    else if Cost(c, available, p) <= sol then available
    else BestBuy(sol, c, available - 1, p)
  }

  /** `BestBuy` is the only number of tokens that is affordable, in stock and not improvable by one. */
  lemma BestBuyUnique(sol: nat, c: nat, available: nat, p: CurveParams, t: nat)
    requires t <= available && Cost(c, t, p) <= sol
    requires t == available || Cost(c, t + 1, p) > sol
    ensures t == BestBuy(sol, c, available, p)
  {
    var best := BestBuy(sol, c, available, p);
    if t < best {
      CostMono(c, t + 1, best, p);
    }
  }

  /** What is affordable is exactly what does not exceed the best buy. */
  lemma Affordable(sol: nat, c: nat, available: nat, p: CurveParams, t: nat)
    requires t <= available
    ensures Cost(c, t, p) <= sol <==> t <= BestBuy(sol, c, available, p)
  {
    var best := BestBuy(sol, c, available, p);
    if t <= best {
      CostMono(c, t, best, p);
    }
  }

  // ---------- The program's checked arithmetic ----------

  function CheckedPow(base: nat, exp: nat): Result<nat> {
    if Pow(base, exp) <= U128_MAX then Ok(Pow(base, exp)) else Err(MathOverflow)
  }

  /** The loop stops at the first product that leaves u128, and does so exactly when the power does. */
  method PowU128(base: nat, exp: nat) returns (r: Result<nat>)
    ensures r == CheckedPow(base, exp)
  {
    var result := 1;
    for i := 0 to exp
      invariant result == Pow(base, i) <= U128_MAX
    {
      if result * base > U128_MAX {
        assert Pow(base, i + 1) == base * result;
        PowExpMono(base, i + 1, exp);
        return Err(MathOverflow);
      }
      result := result * base;
    }
    return Ok(result);
  }

  function PriceOf(supply: nat, p: CurveParams): Result<nat> {
    var kPowN :- CheckedPow(supply, p.n);
    var product :- CheckedMul(p.a, kPowN, U128_MAX);
    var result :- CheckedAdd(product / CURVE_SCALE, p.b, U128_MAX);
    var _ :- Require(result <= U64_MAX, MathOverflow);
    Ok(result)
  }

  function ReserveIntegral(supply: nat, p: CurveParams): Result<nat> {
    var _ :- Require(p.n < U8_MAX, MathOverflow);
    var kPowN1 :- CheckedPow(supply, p.n + 1);
    var divisor :- CheckedMul(p.n + 1, CURVE_SCALE, U128_MAX);
    var product :- CheckedMul(p.a, kPowN1, U128_MAX);
    var term1 :- CheckedDiv(product, divisor);
    var term2 :- CheckedMul(p.b, supply, U128_MAX);
    CheckedAdd(term1, term2, U128_MAX)
  }

  /** Whether every intermediate value of the reserve integral at `k` fits its machine type. */
  predicate ReserveFits(k: nat, p: CurveParams) {
    ReserveIntegral(k, p).Ok?
  }

  lemma ReserveIntegralExact(k: nat, p: CurveParams)
    requires ReserveFits(k, p)
    ensures ReserveIntegral(k, p) == Ok(Reserve(k, p))
  {
  }

  /** Exactly where the reserve exists: where its power, its two products and their sum fit u128, below exponent 255. */
  lemma ReserveFitsExactly(k: nat, p: CurveParams)
    ensures ReserveFits(k, p) <==>
            && p.n < 255 && Pow(k, p.n + 1) <= 0xFFFF_FFFF_FFFF_FFFF_FFFF_FFFF_FFFF_FFFF
            && p.a * Pow(k, p.n + 1) <= 0xFFFF_FFFF_FFFF_FFFF_FFFF_FFFF_FFFF_FFFF
            && Reserve(k, p) <= 0xFFFF_FFFF_FFFF_FFFF_FFFF_FFFF_FFFF_FFFF
    ensures !ReserveFits(k, p) ==> ReserveIntegral(k, p) == Err(MathOverflow)
  {
    hide Pow;
  }

  /** Exactly where the price exists, and that it is the exact one. */
  lemma PriceExactly(k: nat, p: CurveParams)
    ensures PriceOf(k, p) ==
            if Pow(k, p.n) <= 0xFFFF_FFFF_FFFF_FFFF_FFFF_FFFF_FFFF_FFFF
               && p.a * Pow(k, p.n) <= 0xFFFF_FFFF_FFFF_FFFF_FFFF_FFFF_FFFF_FFFF
               && Price(k, p) <= 0xFFFF_FFFF_FFFF_FFFF
            then Ok(Price(k, p)) else Err(MathOverflow)
  {
    hide Pow;
  }

  /** An overflow at some supply means an overflow at every larger one. */
  lemma ReserveFitsDownward(j: nat, k: nat, p: CurveParams)
    requires j <= k && ReserveFits(k, p)
    ensures ReserveFits(j, p)
  {
    ReserveMono(j, k, p);
    PowMono(j, k, p.n + 1);
    MulMono(p.a, p.a, Pow(j, p.n + 1), Pow(k, p.n + 1));
    MulMono(p.b, p.b, j, k);
  }

  /** What `sol` buys from a stock of `total - c`: nothing for nothing, even where the curve is free. */
  function Bought(sol: nat, c: nat, total: nat, p: CurveParams): (t: nat)
    ensures Cost(c, t, p) <= sol
    ensures c <= total ==> c + t <= total
  {
    if sol == 0 || c > total then 0 else BestBuy(sol, c, total - c, p)
  }

  function Midpoint(lo: nat, hi: nat): (mid: nat)
    requires lo <= hi
    ensures lo <= mid <= hi
  {
    lo + (hi - lo) / 2
  }

  /** The largest number of tokens the binary search tries on its way to `t`: its first midpoint beyond `t`. */
  function LargestProbe(lo: nat, hi: nat, t: nat): (probe: nat)
    requires lo <= hi
    ensures Midpoint(lo, hi) <= probe <= hi
    ensures t < hi ==> probe > t
    decreases hi - lo
  {
    var mid := Midpoint(lo, hi);
    if mid > t || mid == hi then mid else LargestProbe(mid + 1, hi, t)
  }

  /** The program's answer to a buy, for every curve: what the money buys, unless the supply is oversold or
      the reserve overflows at the largest supply the search looks at. */
  function TokensOut(sol: nat, c: nat, total: nat, p: CurveParams): Result<nat> {
    var bought := Bought(sol, c, total, p);
    if sol == 0 || c == total then Ok(bought)
    else if c > total || !ReserveFits(c + LargestProbe(0, total - c, bought), p) then Err(MathOverflow)
    else Ok(bought)
  }

  /** A curve that does not overflow at its total supply always has an answer. */
  lemma TokensOutFits(sol: nat, c: nat, total: nat, p: CurveParams)
    requires c <= total && ReserveFits(total, p)
    ensures TokensOut(sol, c, total, p) == Ok(Bought(sol, c, total, p))
  {
    if c < total {
      ReserveFitsDownward(c + LargestProbe(0, total - c, Bought(sol, c, total, p)), total, p);
    }
  }

  /** The binary search computes exactly that answer. */
  method TokensOutSearch(sol: nat, c: nat, total: nat, p: CurveParams) returns (r: Result<nat>)
    ensures r == TokensOut(sol, c, total, p)
  {
    hide ReserveIntegral, Reserve, BestBuy, Midpoint;
    if sol == 0 {
      return Ok(0);
    }
    if c > total {
      return Err(MathOverflow);
    }
    var available := total - c;
    if available == 0 {
      return Ok(0);
    }
    ghost var t := BestBuy(sol, c, available, p);
    ghost var largest := LargestProbe(0, available, t);
    var rCurrent := ReserveIntegral(c, p);
    if rCurrent.Err? {
      if ReserveFits(c + largest, p) { ReserveFitsDownward(c, c + largest, p); }
      return Err(MathOverflow);
    }
    var lo, hi, best := 0, available, 0;
    while lo <= hi
      invariant 0 <= lo <= hi + 1 <= available + 1
      invariant best == if lo == 0 then 0 else lo - 1
      invariant best <= t && (hi < available ==> t <= hi)
      invariant hi == available ==> lo <= hi && largest == LargestProbe(lo, hi, t)
      invariant hi < available ==> hi < largest && ReserveFits(c + largest, p)
      decreases hi + 1 - lo
    {
      var mid := Midpoint(lo, hi);
      var rNew := ReserveIntegral(c + mid, p);
      if rNew.Err? {
        if ReserveFits(c + largest, p) { ReserveFitsDownward(c + mid, c + largest, p); }
        return Err(MathOverflow);
      }
      ReserveIntegralExact(c, p);
      ReserveIntegralExact(c + mid, p);
      ReserveMono(c, c + mid, p);
      var cost := rNew.value - rCurrent.value;
      Affordable(sol, c, available, p, mid);
      if cost <= sol {
        best := mid;
        if mid == hi {
          break;
        }
        lo := mid + 1;
      } else {
        if mid == 0 {
          break;
        }
        hi := mid - 1;
      }
    }
    return Ok(best);
  }

  function SolOut(tokens: nat, c: nat, p: CurveParams): Result<nat> {
    if tokens == 0 then Ok(0)
    else
      var _ :- Require(c >= tokens, InsufficientTokenBalance);
      var rCurrent :- ReserveIntegral(c, p);
      var rNew :- ReserveIntegral(c - tokens, p);
      var result :- CheckedSub(rCurrent, rNew);
      var _ :- Require(result <= U64_MAX, MathOverflow);
      Ok(result)
  }
}
