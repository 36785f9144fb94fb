/** What traders can rely on: the floored reserve is the integral of the floored price up to
    rounding, and is convex up to one unit, for every curve `a*k^n/SCALE + b`. */
module CurveProperties {
  import opened Common
  import opened Arithmetic
  import opened BondingCurve

  /** If `y - x` lies between `m * lo` and `m * hi`, then the step of `_ / (m * s)` from `x` to `y`
      lies between `lo / s` and `hi / s + 1`. */
  lemma FlooredStep(lo: nat, hi: nat, x: nat, y: nat, m: nat, s: nat)
    requires m > 0 && s > 0 && x <= y
    requires m * lo <= y - x <= m * hi
    ensures m * s > 0
    ensures lo / s <= y / (m * s) - x / (m * s) <= hi / s + 1
  {
    DivCancel(lo, m, s);
    DivCancel(hi, m, s);
    FloorDifference(x, y, m * s);
    DivMono(m * lo, y - x, m * s);
    DivMono(y - x, m * hi, m * s);
  }

  /** `PowStep` scaled by the steepness `a`. */
  lemma TermStep(k: nat, p: CurveParams)
    ensures p.a * Pow(k, p.n + 1) <= p.a * Pow(k + 1, p.n + 1)
    ensures (p.n + 1) * (p.a * Pow(k, p.n)) <= p.a * Pow(k + 1, p.n + 1) - p.a * Pow(k, p.n + 1)
            <= (p.n + 1) * (p.a * Pow(k + 1, p.n))
  {
    var m := p.n + 1;
    var lo, hi, x, y := Pow(k, p.n), Pow(k + 1, p.n), Pow(k, m), Pow(k + 1, m);
    PowStep(k, p.n);
    PowMono(k, k + 1, m);
    MulMono(p.a, p.a, m * lo, y - x);
    MulMono(p.a, p.a, y - x, m * hi);
    assert p.a * (y - x) == p.a * y - p.a * x;
    assert p.a * (m * lo) == m * (p.a * lo);
    assert p.a * (m * hi) == m * (p.a * hi);
  }

  /** One more token costs at least the price before it and at most one unit over the price after it. */
  lemma MarginalCost(k: nat, p: CurveParams)
    ensures Price(k, p) <= Cost(k, 1, p) <= Price(k + 1, p) + 1
  {
    TermStep(k, p);
    FlooredStep(p.a * Pow(k, p.n), p.a * Pow(k + 1, p.n),
                p.a * Pow(k, p.n + 1), p.a * Pow(k + 1, p.n + 1), p.n + 1, CURVE_SCALE);
    assert p.b * (k + 1) == p.b * k + p.b;
  }

  function PriceSum(c: nat, t: nat, p: CurveParams): nat {
    if t == 0 then 0 else PriceSum(c, t - 1, p) + Price(c + t - 1, p)
  }

  /** The reserve is the integral of the price: a purchase costs between its left Riemann sum and
      its right Riemann sum plus one unit a token. */
  lemma {:induction false} CostIsPriceIntegral(c: nat, t: nat, p: CurveParams)
    ensures PriceSum(c, t, p) <= Cost(c, t, p) <= PriceSum(c + 1, t, p) + t
  {
    if t == 0 {
    } else {
      CostIsPriceIntegral(c, t - 1, p);
      MarginalCost(c + t - 1, p);
    }
  }

  lemma PriceMono(j: nat, k: nat, p: CurveParams)
    requires j <= k
    ensures Price(j, p) <= Price(k, p)
  {
    PowMono(j, k, p.n);
    MulMono(p.a, p.a, Pow(j, p.n), Pow(k, p.n));
    DivMono(p.a * Pow(j, p.n), p.a * Pow(k, p.n), CURVE_SCALE);
  }

  /** `PowConvex` scaled by the steepness `a`. */
  lemma TermConvex(c: nat, later: nat, t: nat, a: nat, m: nat)
    requires c <= later
    ensures a * Pow(c, m) <= a * Pow(c + t, m) && a * Pow(later, m) <= a * Pow(later + t, m)
    ensures a * Pow(c + t, m) - a * Pow(c, m) <= a * Pow(later + t, m) - a * Pow(later, m)
  {
    PowConvex(c, later, t, m);
    TermConvexScales(a, Pow(c, m), Pow(c + t, m), Pow(later, m), Pow(later + t, m));
  }

  lemma TermConvexScales(a: nat, x: nat, x': nat, y: nat, y': nat)
    requires x <= x' && y <= y' && x' - x <= y' - y
    ensures a * x <= a * x' && a * y <= a * y' && a * x' - a * x <= a * y' - a * y
  {
    assert a * x' - a * x == a * (x' - x);
    assert a * y' - a * y == a * (y' - y);
    MulMono(a, a, x' - x, y' - y);
  }

  lemma FlooredConvex(x: nat, x': nat, y: nat, y': nat, d: nat)
    requires d > 0 && x <= x' && y <= y' && x' - x <= y' - y
    ensures x' / d - x / d <= y' / d - y / d + 1
  {
    FloorDifference(x, x', d);
    FloorDifference(y, y', d);
    DivMono(x' - x, y' - y, d);
  }

  /** Floors break convexity, but by one unit at most: buying `t` tokens later is cheaper by no more than 1. */
  lemma NearConvexity(c: nat, later: nat, t: nat, p: CurveParams)
    requires c <= later
    ensures Cost(c, t, p) <= Cost(later, t, p) + 1
  {
    var m := p.n + 1;
    TermConvex(c, later, t, p.a, m);
    FlooredConvex(p.a * Pow(c, m), p.a * Pow(c + t, m), p.a * Pow(later, m), p.a * Pow(later + t, m),
                  ReserveDivisor(p));
    assert p.b * (c + t) - p.b * c == p.b * t == p.b * (later + t) - p.b * later;
  }

  /** The unit is really lost on the program's own curve, and with it the order of sequential buyers: at a
      supply of 1442 two lamports buy one token, and straight afterwards two lamports buy two. */
  lemma NearConvexityIsTight(total: nat)
    requires 1446 <= total <= TOTAL_SUPPLY_PER_SIDE
    ensures Cost(1442, 1, DefaultParams()) == Cost(1443, 1, DefaultParams()) + 1
    ensures TokensOut(2, 1442, total, DefaultParams()) == Ok(1)
    ensures TokensOut(2, 1442 + 1, total, DefaultParams()) == Ok(2)
  {
    hide TokensOut, BestBuy, Cost;
    QuadraticCost(1442, 1, 1);
    QuadraticCost(1443, 1, 1);
    DefaultTokensOut(2, 1442, total);
    DefaultTokensOut(2, 1442 + 1, total);
    QuadraticBuy(2, 1442, 1, total, 1);
    QuadraticBuy(2, 1443, 2, total, 1);
  }

  function Cubed(k: nat): nat {
    k * k * k
  }

  lemma QuadraticReserve(k: nat, b: nat)
    ensures Reserve(k, CurveParams(1, 2, b)) == Cubed(k) / 3_000_000_000 + b * k
  {
    assert Pow(k, 1) == k * Pow(k, 0) == k;
    assert Pow(k, 2) == k * k;
    assert k * (k * k) == k * k * k;
  }

  lemma QuadraticCost(c: nat, t: nat, b: nat)
    ensures Cost(c, t, CurveParams(1, 2, b)) == Cubed(c + t) / 3_000_000_000 - Cubed(c) / 3_000_000_000 + b * t
  {
    hide Cubed;
    QuadraticReserve(c, b);
    QuadraticReserve(c + t, b);
    assert b * (c + t) == b * c + b * t;
    hide Reserve;
  }

  /** A purchase on a quadratic curve. */
  lemma QuadraticBuy(sol: nat, c: nat, t: nat, total: nat, b: nat)
    requires c + t < total
    requires Cubed(c + t) / 3_000_000_000 - Cubed(c) / 3_000_000_000 + b * t <= sol
    requires Cubed(c + t + 1) / 3_000_000_000 - Cubed(c) / 3_000_000_000 + b * (t + 1) > sol
    ensures BestBuy(sol, c, total - c, CurveParams(1, 2, b)) == t
  {
    hide Cubed, Cost;
    QuadraticCost(c, t, b);
    QuadraticCost(c, t + 1, b);
    BestBuyUnique(sol, c, total - c, CurveParams(1, 2, b), t);
  }

  /** Exactly when a later buyer gets more tokens for the same money: when the earlier buyer was a single
      unit short of one more token, and the floors let the later buyer off that unit. */
  lemma LaterBuyerGainsExactly(sol: nat, c: nat, later: nat, total: nat, p: CurveParams)
    requires c <= later <= total
    ensures var t := Bought(sol, c, total, p);
            Bought(sol, later, total, p) > t <==>
            && sol > 0 && later + t < total
            && Cost(later, t + 1, p) == sol && Cost(c, t + 1, p) == sol + 1
  {
    if sol > 0 {
      var t, u := Bought(sol, c, total, p), Bought(sol, later, total, p);
      NearConvexity(c, later, t + 1, p);
      if later + t < total {
        Affordable(sol, later, total - later, p, t + 1);
        Affordable(sol, c, total - c, p, t + 1);
      }
    }
  }

  /** With a positive base price the later buyer's gain is one token at most. */
  lemma LaterBuyerGainsAtMostOne(sol: nat, c: nat, later: nat, total: nat, p: CurveParams)
    requires c <= later <= total && p.b >= 1
    ensures Bought(sol, later, total, p) <= Bought(sol, c, total, p) + 1
  {
    var t, u := Bought(sol, c, total, p), Bought(sol, later, total, p);
    NearConvexity(c, later, t + 1, p);
    CostAtLeastBase(later + t + 1, 1, p);
    assert Cost(later, t + 2, p) == Cost(later, t + 1, p) + Cost(later + t + 1, 1, p);
    if u >= t + 2 {
      CostMono(later, t + 2, u, p);
    }
  }

  lemma CostAtLeastBase(c: nat, t: nat, p: CurveParams)
    ensures Cost(c, t, p) >= p.b * t
  {
    PowMono(c, c + t, p.n + 1);
    MulMono(p.a, p.a, Pow(c, p.n + 1), Pow(c + t, p.n + 1));
    DivMono(p.a * Pow(c, p.n + 1), p.a * Pow(c + t, p.n + 1), ReserveDivisor(p));
    assert p.b * (c + t) == p.b * c + p.b * t;
  }

  /** How far apart two purchases of `t` tokens have to be on the program's own curve for its rise to outweigh
      the floors: by one rise the later one is not cheaper, by two it costs more. */
  lemma ConvexWhenApart(c: nat, later: nat, t: nat, rises: nat)
    requires c <= later && t * (later - c) * (later + c + t) >= rises * CURVE_SCALE
    ensures Cost(c, t, DefaultParams()) + rises <= Cost(later, t, DefaultParams()) + 1
  {
    QuadraticCost(c, t, 1);
    QuadraticCost(later, t, 1);
    CubesApart(c, later, t);
    hide Cubed, Cost;
    FlooredApart(Cubed(c), Cubed(c + t), Cubed(later), Cubed(later + t), 3_000_000_000, rises);
  }

  lemma CubesApart(c: nat, later: nat, t: nat)
    requires c <= later
    ensures Cubed(c) <= Cubed(c + t)
    ensures Cubed(later + t) - Cubed(later) == Cubed(c + t) - Cubed(c) + 3 * (t * (later - c) * (later + c + t))
  {
    hide Cubed, Slope;
    CubeStep(c, t);
    CubeStep(later, t);
    SlopesApart(c, later, t);
    SlopeScales(t, Slope(c, t), Slope(later, t), later - c, later + c + t);
  }

  function Slope(k: nat, t: nat): nat {
    3 * k * k + 3 * k * t + t * t
  }

  lemma CubeStep(k: nat, t: nat)
    ensures Cubed(k + t) - Cubed(k) == t * Slope(k, t) >= 0
  {
  }

  lemma SlopesApart(c: nat, later: nat, t: nat)
    requires c <= later
    ensures Slope(later, t) == Slope(c, t) + 3 * ((later - c) * (later + c + t))
  {
  }

  lemma SlopeScales(t: nat, x: nat, x': nat, y: nat, z: nat)
    requires x' == x + 3 * (y * z)
    ensures t * x' == t * x + 3 * (t * y * z)
  {
    assert t * x' == t * x + 3 * (t * (y * z));
    assert t * (y * z) == t * y * z;
  }

  lemma FlooredApart(x: nat, x': nat, y: nat, y': nat, d: nat, rises: nat)
    requires d > 0 && x <= x' && y <= y' && x' - x + d * rises <= y' - y
    ensures x' / d - x / d + rises <= y' / d - y / d + 1
  {
    FloorDifference(x, x', d);
    FloorDifference(y, y', d);
    var q := (x' - x) / d;
    assert d * (q + rises) == d * q + d * rises;
    DivGreatest(y' - y, d, q + rises);
  }

  lemma LaterBuyersInOrder(sol: nat, c: nat, later: nat, total: nat)
    requires c <= later <= total
    requires (Bought(sol, c, total, DefaultParams()) + 1) * (later - c)
             * (later + c + Bought(sol, c, total, DefaultParams()) + 1) >= CURVE_SCALE
    ensures Bought(sol, later, total, DefaultParams()) <= Bought(sol, c, total, DefaultParams())
  {
    ConvexWhenApart(c, later, Bought(sol, c, total, DefaultParams()) + 1, 1);
    LaterBuyerGainsExactly(sol, c, later, total, DefaultParams());
  }

  /** So equal sequential buys on the program's own curve yield no more tokens each time, from purchases of
      794 tokens on. */
  lemma SequentialBuys(sol: nat, c: nat, total: nat, t: nat)
    requires c <= total && t == Bought(sol, c, total, DefaultParams()) && t >= 794
    ensures Bought(sol, c + t, total, DefaultParams()) <= t
  {
    assert (t + 1) * t * (2 * c + 2 * t + 1) >= CURVE_SCALE by {
      MulMono(795, t + 1, 794, t);
      MulMono(795 * 794, (t + 1) * t, 1589, 2 * c + 2 * t + 1);
    }
    LaterBuyersInOrder(sol, c, c + t, total);
  }

  /** A positive base price is needed: on the same curve without one, moving one token later
      gains a buyer of one lamport 262 tokens. */
  lemma BasePriceNeeded(total: nat)
    requires total > 2080
    ensures var free := CurveParams(1, 2, 0);
            BestBuy(1, 1442, total - 1442, free) == 375 && BestBuy(1, 1443, total - 1443, free) == 637
  {
    QuadraticBuy(1, 1442, 375, total, 0);
    QuadraticBuy(1, 1443, 637, total, 0);
  }

  /** Path independence within one token: splitting a spend in two buys as many tokens, or one fewer. It
      buys as many exactly if a part is empty, the stock runs out, or the change left over from the two
      purchases does not pay for the next token. */
  lemma PathIndependence(s1: nat, s2: nat, c: nat, total: nat, p: CurveParams, t1: nat, t2: nat, t: nat)
    requires c <= total && t1 == Bought(s1, c, total, p) && t2 == Bought(s2, c + t1, total, p)
    requires t == Bought(s1 + s2, c, total, p)
    ensures t1 + t2 <= t <= t1 + t2 + 1
    ensures t == t1 + t2 <==>
            || s1 == 0 || s2 == 0 || c + t1 + t2 == total
            || (s1 - Cost(c, t1, p)) + (s2 - Cost(c + t1, t2, p)) < Cost(c + t1 + t2, 1, p)
  {
    assert Cost(c, t1 + t2, p) == Cost(c, t1, p) + Cost(c + t1, t2, p);
    if s1 > 0 && s2 > 0 && t1 + t2 < total - c {
      NearConvexity(c + t1, c + t1 + t2 + 1, 1, p);
      assert Cost(c, t1 + 1, p) == Cost(c, t1, p) + Cost(c + t1, 1, p);
      assert Cost(c, t1 + t2 + 1, p) == Cost(c, t1 + t2, p) + Cost(c + t1 + t2, 1, p);
      assert Cost(c, t1 + t2 + 2, p) ==
             Cost(c, t1, p) + Cost(c + t1, t2 + 1, p) + Cost(c + t1 + t2 + 1, 1, p);
      Affordable(s1 + s2, c, total - c, p, t1 + t2 + 1);
      if t > t1 + t2 + 1 {
        CostMono(c, t1 + t2 + 2, t, p);
      }
    }
  }

  /** Tokens bought by spending the amounts one after another. */
  function BuyAll(spends: seq<nat>, c: nat, total: nat, p: CurveParams): (t: nat)
    requires c <= total
    ensures c + t <= total
    ensures Cost(c, t, p) <= SumOf(spends)
  {
    if spends == [] then 0
    else
      var first := Bought(spends[0], c, total, p);
      first + BuyAll(spends[1..], c + first, total, p)
  }

  function SumOf(spends: seq<nat>): nat {
    if spends == [] then 0 else spends[0] + SumOf(spends[1..])
  }

  lemma NextAffordable(sol: nat, c: nat, total: nat, p: CurveParams, n: nat)
    requires sol > 0 && c + n < total && Cost(c, n, p) <= sol
    ensures Bought(sol, c, total, p) > n <==> sol - Cost(c, n, p) >= Cost(c + n, 1, p)
  {
    Affordable(sol, c, total - c, p, n + 1);
    assert Cost(c, n + 1, p) == Cost(c, n, p) + Cost(c + n, 1, p);
  }

  /** Path independence for any split: buying at once gains at most one token for each further part, and
      gains nothing exactly if the stock runs out or the change of all parts does not pay for a token. */
  lemma {:induction false} SplitBuys(spends: seq<nat>, c: nat, total: nat, p: CurveParams)
    requires c <= total && spends != []
    ensures var n, t := BuyAll(spends, c, total, p), Bought(SumOf(spends), c, total, p);
            && n <= t <= n + |spends| - 1
            && (t == n <==> SumOf(spends) == 0 || c + n == total || SumOf(spends) - Cost(c, n, p) < Cost(c + n, 1, p))
    decreases |spends|
  {
    hide BestBuy, Bought, Reserve;
    var first, n := Bought(spends[0], c, total, p), BuyAll(spends, c, total, p);
    if |spends| == 1 {
      assert spends[1..] == [];
    } else {
      var rest := Bought(SumOf(spends[1..]), c + first, total, p);
      SplitBuys(spends[1..], c + first, total, p);
      PathIndependence(spends[0], SumOf(spends[1..]), c, total, p, first, rest, Bought(SumOf(spends), c, total, p));
    }
    if SumOf(spends) > 0 && c + n < total {
      NextAffordable(SumOf(spends), c, total, p, n);
    }
  }

  /** Both bounds are met on the program's own curve: where a token costs 11, two spends of 17 buy two
      tokens and one of 34 buys three; three spends of 21 buy three and one of 63 buys five. */
  lemma SplitBuysIsTight(total: nat)
    requires total > 100_006
    ensures var p, c := DefaultParams(), 100_000;
            && BuyAll([17, 17], c, total, p) == 2 && Bought(34, c, total, p) == 3
            && BuyAll([21, 21, 21], c, total, p) == 3 && Bought(63, c, total, p) == 5
  {
    hide Bought, BuyAll, Cost, SumOf;
    Elevens(0, 34, 3, total);
    Elevens(0, 63, 5, total);
    TwoElevens(0, 17, total);
    TwoElevens(1, 21, total);
    Elevens(0, 21, 1, total);
    BuyAllNext(21, [21, 21], 100_000, total, DefaultParams());
    assert [21] + [21, 21] == [21, 21, 21];
  }

  lemma TwoElevens(i: nat, sol: nat, total: nat)
    requires i <= 3 && total > 100_006 && 11 <= sol < 22
    ensures BuyAll([sol, sol], 100_000 + i, total, DefaultParams()) == 2
  {
    hide Bought, BuyAll, Cost, SumOf;
    Elevens(i, sol, 1, total);
    Elevens(i + 1, sol, 1, total);
    BuyAllNext(sol, [sol], 100_000 + i, total, DefaultParams());
    BuyAllNext(sol, [], 100_000 + i + 1, total, DefaultParams());
    BuyAllNothing(100_000 + i + 2, total, DefaultParams());
    assert [sol] + [sol] == [sol, sol] && [sol] + [] == [sol];
  }

  lemma BuyAllNext(sol: nat, rest: seq<nat>, c: nat, total: nat, p: CurveParams)
    requires c <= total
    ensures BuyAll([sol] + rest, c, total, p)
            == Bought(sol, c, total, p) + BuyAll(rest, c + Bought(sol, c, total, p), total, p)
  {
    hide Bought;
    assert ([sol] + rest)[1..] == rest;
  }

  lemma BuyAllNothing(c: nat, total: nat, p: CurveParams)
    requires c <= total
    ensures BuyAll([], c, total, p) == 0
  {
  }

  lemma Elevens(i: nat, sol: nat, t: nat, total: nat)
    requires i + t <= 5 && total > 100_006 && 11 * t <= sol < 11 * (t + 1)
    ensures Bought(sol, 100_000 + i, total, DefaultParams()) == t
  {
    AroundHundredThousand(i);
    AroundHundredThousand(i + t);
    AroundHundredThousand(i + t + 1);
    hide Reserve, BestBuy;
    if sol > 0 {
      BestBuyUnique(sol, 100_000 + i, total - 100_000 - i, DefaultParams(), t);
    }
  }

  lemma AroundHundredThousand(k: nat)
    requires k <= 6
    ensures Reserve(100_000 + k, DefaultParams()) == 433_333 + 11 * k
  {
    hide Reserve;
    QuadraticReserve(100_000 + k, 1);
    assert k == 0 || k == 1 || k == 2 || k == 3 || k == 4 || k == 5 || k == 6;
  }

  /** A lamport less buys at most a token less, if no token is free. */
  lemma FewerLamports(sol: nat, less: nat, c: nat, total: nat, p: CurveParams)
    requires c <= total && less <= sol && p.b >= 1
    ensures Bought(sol - less, c, total, p) <= Bought(sol, c, total, p) <= Bought(sol - less, c, total, p) + less
  {
    var t, u := Bought(sol, c, total, p), Bought(sol - less, c, total, p);
    if sol > 0 {
      Affordable(sol, c, total - c, p, u);
    }
    if t > less {
      CostAtLeastBase(c + t - less, less, p);
      CostAtLeastBase(c, t - less, p);
      MulMono(1, p.b, less, less);
      MulMono(1, p.b, t - less, t - less);
      assert Cost(c, t, p) == Cost(c, t - less, p) + Cost(c + t - less, less, p);
      Affordable(sol - less, c, total - c, p, t - less);
    }
  }

  /** Sales are exactly path independent, however they are split. */
  lemma SalesSplit(t1: nat, t2: nat, c: nat, p: CurveParams)
    requires t1 + t2 <= c && SolOut(t1 + t2, c, p).Ok? && ReserveFits(c, p)
    ensures SolOut(t1, c, p).Ok? && SolOut(t2, c - t1, p).Ok?
    ensures SolOut(t1, c, p).value + SolOut(t2, c - t1, p).value == SolOut(t1 + t2, c, p).value
  {
    ReserveFitsDownward(c - t1, c, p);
    ReserveFitsDownward(c - t1 - t2, c, p);
    ReserveMono(c - t1, c, p);
    ReserveMono(c - t1 - t2, c - t1, p);
  }

  lemma DefaultSale(t: nat, c: nat)
    requires t <= c <= TOTAL_SUPPLY_PER_SIDE
    ensures SolOut(t, c, DefaultParams()) == Ok(Cost(c - t, t, DefaultParams()))
  {
    DefaultSolOut(t, c);
  }

  /** What the floors add to and take from the difference of two equal sales in a row. */
  function FloorsOfSales(t: nat, c: nat): int
    requires 2 * t <= c
  {
    Cubed(c) % 3_000_000_000 - 2 * (Cubed(c - t) % 3_000_000_000) + Cubed(c - 2 * t) % 3_000_000_000
  }

  /** By how much the first of two equal sales pays more than the second, exactly. */
  lemma SaleGap(t: nat, c: nat)
    requires 2 * t <= c
    ensures 3_000_000_000 * (Cost(c - t, t, DefaultParams()) - Cost(c - 2 * t, t, DefaultParams()))
            == 6 * (t * t * (c - t)) - FloorsOfSales(t, c)
  {
    hide Cubed, Cost;
    QuadraticCost(c - t, t, 1);
    QuadraticCost(c - 2 * t, t, 1);
    CubesApart(c - 2 * t, c - t, t);
    TwiceProduct(t * t, c - t);
    FloorsApart(Cubed(c - 2 * t), Cubed(c - t), Cubed(c));
  }

  lemma TwiceProduct(x: nat, y: nat)
    ensures x * (2 * y) == 2 * (x * y)
  {
  }

  lemma FloorsApart(x: nat, y: nat, z: nat)
    ensures 3_000_000_000 * ((z / 3_000_000_000 - y / 3_000_000_000) - (y / 3_000_000_000 - x / 3_000_000_000))
            == (z - 2 * y + x) - (z % 3_000_000_000 - 2 * (y % 3_000_000_000) + x % 3_000_000_000)
  {
  }

  /** Of two equal sales in a row the second pays less exactly if the tokens sold, twice over the supply left by
      the first, outweigh the floors; it pays at most a unit more. From a product of 10^9 on it pays less. */
  lemma SequentialSales(t: nat, c: nat)
    requires 2 * t <= c <= TOTAL_SUPPLY_PER_SIDE
    ensures SolOut(t, c, DefaultParams()).Ok? && SolOut(t, c - t, DefaultParams()).Ok?
    ensures SolOut(t, c - t, DefaultParams()).value <= SolOut(t, c, DefaultParams()).value + 1
    ensures SolOut(t, c - t, DefaultParams()).value < SolOut(t, c, DefaultParams()).value
            <==> 6 * (t * t * (c - t)) > FloorsOfSales(t, c)
    ensures t * t * (c - t) >= CURVE_SCALE ==>
              SolOut(t, c - t, DefaultParams()).value < SolOut(t, c, DefaultParams()).value
  {
    hide SolOut, Cost, FloorsOfSales;
    DefaultSale(t, c);
    DefaultSale(t, c - t);
    NearConvexity(c - 2 * t, c - t, t, DefaultParams());
    SaleGap(t, c);
    if t * t * (c - t) >= CURVE_SCALE {
      TwiceProduct(t * t, c - t);
      ConvexWhenApart(c - 2 * t, c - t, t, 2);
    }
  }

  /** The second sale can pay more: around a supply of 1443 one token sells for one lamport, the next for two. */
  lemma SequentialSalesCanRise()
    ensures SolOut(1, 1444, DefaultParams()) == Ok(1)
    ensures SolOut(1, 1444 - 1, DefaultParams()) == Ok(2)
  {
    hide SolOut, Cost;
    DefaultSale(1, 1444);
    DefaultSale(1, 1444 - 1);
    QuadraticCost(1442, 1, 1);
    QuadraticCost(1443, 1, 1);
  }

  /** Buying and selling straight back never profits, and loses less than one token's price
      unless the purchase emptied the stock. */
  lemma RoundTrip(sol: nat, c: nat, total: nat, p: CurveParams, t: nat)
    requires c <= total && ReserveFits(total, p) && sol <= U64_MAX
    requires TokensOut(sol, c, total, p) == Ok(t)
    ensures SolOut(t, c + t, p).Ok?
    ensures SolOut(t, c + t, p).value <= sol
    ensures c + t < total ==> sol - SolOut(t, c + t, p).value <= Price(c + t + 1, p)
  {
    TokensOutFits(sol, c, total, p);
    ReserveFitsDownward(c, total, p);
    ReserveFitsDownward(c + t, total, p);
    SolOutIsCost(t, c, p);
    if c + t < total {
      MarginalCost(c + t, p);
      assert Cost(c, t + 1, p) == Cost(c, t, p) + Cost(c + t, 1, p);
    }
  }

  /** A sale pays exactly what the curve charged for the same tokens. */
  lemma SolOutIsCost(t: nat, c: nat, p: CurveParams)
    requires ReserveFits(c, p) && ReserveFits(c + t, p)
    ensures SolOut(t, c + t, p) ==
            if Cost(c, t, p) <= U64_MAX then Ok(Cost(c, t, p)) else Err(MathOverflow)
  {
    ReserveIntegralExact(c, p);
    ReserveIntegralExact(c + t, p);
  }

  // ---------- The program's own curve ----------

  lemma DefaultCurve(k: nat)
    requires k <= 1_000_000_000
    ensures ReserveIntegral(k, DefaultParams()) == Ok(Reserve(k, DefaultParams()))
    ensures k <= Reserve(k, DefaultParams()) <= 333_333_334_333_333_333
    ensures PriceOf(k, DefaultParams()) == Ok(Price(k, DefaultParams()))
    ensures 1 <= Price(k, DefaultParams()) <= 1_000_000_001
  {
    var p := DefaultParams();
    ReserveMono(k, TOTAL_SUPPLY_PER_SIDE, p);
    PriceMono(k, TOTAL_SUPPLY_PER_SIDE, p);
    assert Pow(TOTAL_SUPPLY_PER_SIDE, 3) == 1_000_000_000_000_000_000_000_000_000;
    assert ReserveFits(TOTAL_SUPPLY_PER_SIDE, p);
    ReserveFitsDownward(k, TOTAL_SUPPLY_PER_SIDE, p);
    PowMono(k, TOTAL_SUPPLY_PER_SIDE, 2);
  }

  /** The program's own curve: a token costs `k^2 / 10^9 + 1` at a supply of `k`, and all of them together
      `k^3 / (3 * 10^9) + k`, each fraction rounded down. */
  lemma DefaultCurveIs(k: nat)
    ensures Price(k, DefaultParams()) == k * k / 1_000_000_000 + 1
    ensures Reserve(k, DefaultParams()) == k * k * k / 3_000_000_000 + k
  {
    QuadraticReserve(k, 1);
    assert Pow(k, 1) == k * Pow(k, 0) == k;
    assert Pow(k, 2) == k * k;
    hide Reserve;
  }

  /** On the program's own curve every buy has an answer. */
  lemma DefaultTokensOut(sol: nat, c: nat, total: nat)
    requires c <= total <= TOTAL_SUPPLY_PER_SIDE
    ensures TokensOut(sol, c, total, DefaultParams()) == Ok(Bought(sol, c, total, DefaultParams()))
  {
    DefaultCurve(total);
    TokensOutFits(sol, c, total, DefaultParams());
  }

  /** No curve function overflows on the program's own curve: a sale of tokens that circulate
      always has an answer, the reserve difference. */
  lemma DefaultSolOut(tokens: nat, c: nat)
    requires c <= TOTAL_SUPPLY_PER_SIDE
    ensures SolOut(tokens, c, DefaultParams()) ==
            if tokens == 0 || tokens <= c then Ok(Reserve(c, DefaultParams()) - Reserve(c - tokens, DefaultParams()))
            else Err(InsufficientTokenBalance)
  {
    DefaultCurve(c);
    if tokens <= c {
      DefaultCurve(c - tokens);
      ReserveMono(c - tokens, c, DefaultParams());
    }
  }
}
