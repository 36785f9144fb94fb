/** The off-chain curve simulator works on unbounded bigints and never fails; on the program's
    domain it is the checked curve. */
module CurveSim {
  import opened Common
  import opened Arithmetic
  import opened BondingCurve
  import opened CurveProperties

  datatype CurveConfig = CurveConfig(a: nat, n: nat, b: nat, totalSupply: nat) {
    function Params(): CurveParams {
      CurveParams(a, n, b)
    }
  }

  method PowBig(base: nat, exp: nat) returns (result: nat)
    ensures result == Pow(base, exp)
  {
    result := 1;
    for i := 0 to exp
      invariant result == Pow(base, i)
    {
      result := result * base;
    }
  }

  /** bigint division truncates, which on these non-negative operands is Dafny's `/`. */
  function ReserveIntegralBig(k: nat, config: CurveConfig): nat {
    config.a * Pow(k, config.n + 1) / ((config.n + 1) * CURVE_SCALE) + config.b * k
  }

  /** The simulator's answer, including its early return of 0 on an oversold supply, where the
      program fails instead; it has no special case for a zero amount. */
  function TokensOutBig(sol: nat, c: nat, config: CurveConfig): nat {
    if c >= config.totalSupply then 0
    else BestBuy(sol, c, config.totalSupply - c, config.Params())
  }

  method SimulatorTokensOut(sol: nat, c: nat, config: CurveConfig) returns (t: nat)
    ensures t == TokensOutBig(sol, c, config)
  {
    if c >= config.totalSupply {
      return 0;
    }
    var available := config.totalSupply - c;
    var rCurrent := ReserveIntegralBig(c, config);
    var lo, hi, best := 0, available, 0;
    while lo <= hi
      invariant 0 <= lo <= hi + 1 <= available + 1
      invariant best == if lo == 0 then 0 else lo - 1
      invariant Cost(c, best, config.Params()) <= sol
      invariant hi < available ==> Cost(c, hi + 1, config.Params()) > sol
      decreases hi + 1 - lo
    {
      var mid := lo + (hi - lo) / 2;
      var rNew := ReserveIntegralBig(c + mid, config);
      ReserveMono(c, c + mid, config.Params());
      if rNew - rCurrent <= sol {
        best := mid;
        if mid == hi {
          break;
        }
        lo := mid + 1;
      } else {
        if mid == 0 {
          break;
        }
        hi := mid - 1;
      }
    }
    BestBuyUnique(sol, c, available, config.Params(), best);
    return best;
  }

  /** Exactly when the program gives the simulator's answer. For a zero amount: the stock is gone or oversold,
      or the next token is not free. For any other: the stock is gone, or it is not oversold and the reserve
      fits at the largest supply the program's search looks at. */
  lemma SimulatorAgrees(sol: nat, c: nat, config: CurveConfig)
    ensures var p, total := config.Params(), config.totalSupply;
            TokensOut(sol, c, total, p) == Ok(TokensOutBig(sol, c, config)) <==>
            if sol == 0 then c >= total || Cost(c, 1, p) > 0
            else c == total || (c < total && ReserveFits(c + LargestProbe(0, total - c, Bought(sol, c, total, p)), p))
  {
    var p, total := config.Params(), config.totalSupply;
    if sol == 0 && c < total {
      Affordable(0, c, total - c, p, 1);
    }
  }

  /** So they agree on every positive amount if the curve does not overflow at its total supply. */
  lemma SimulatorAgreesWhereTheCurveFits(sol: nat, c: nat, config: CurveConfig)
    requires sol > 0 && c <= config.totalSupply && ReserveFits(config.totalSupply, config.Params())
    ensures TokensOut(sol, c, config.totalSupply, config.Params()) == Ok(TokensOutBig(sol, c, config))
  {
    TokensOutFits(sol, c, config.totalSupply, config.Params());
  }

  /** An overflow tells them apart: on a quartic curve with a stock of 2 * 10^8 or more, the first buyer's
      lamport buys a token in the simulator and fails in the program. */
  lemma SimulatorMissesOverflow(total: nat)
    requires total >= 200_000_000
    ensures TokensOutBig(1, 0, CurveConfig(1, 4, 1, total)) == 1
    ensures TokensOut(1, 0, total, CurveParams(1, 4, 1)) == Err(MathOverflow)
  {
    hide BestBuy, LargestProbe, ReserveFits, Cost;
    var p := CurveParams(1, 4, 1);
    QuarticCosts(p);
    BestBuyUnique(1, 0, total, p, 1);
    QuarticOverflows(LargestProbe(0, total, 1), p);
    HalfwayProbe(total);
    assert Bought(1, 0, total, p) == 1;
  }

  lemma QuarticCosts(p: CurveParams)
    requires p == CurveParams(1, 4, 1)
    ensures Cost(0, 1, p) == 1 && Cost(0, 2, p) == 2
  {
    hide Reserve;
    QuarticReserve(0, 0, p);
    QuarticReserve(1, 1, p);
    QuarticReserve(2, 32, p);
  }

  lemma QuarticReserve(k: nat, power: nat, p: CurveParams)
    requires p == CurveParams(1, 4, 1) && power == Pow(k, 5)
    ensures Reserve(k, p) == power / 5_000_000_000 + k
  {
    hide Pow;
    assert ReserveDivisor(p) == 5_000_000_000;
  }

  lemma QuarticOverflows(k: nat, p: CurveParams)
    requires p == CurveParams(1, 4, 1)
    ensures k >= 100_000_000 ==> !ReserveFits(k, p)
  {
    if k >= 100_000_000 {
      PowMono(100_000_000, k, 5);
      assert Pow(100_000_000, 5) > U128_MAX;
    }
  }

  lemma HalfwayProbe(total: nat)
    requires total >= 200_000_000
    ensures LargestProbe(0, total, 1) >= 100_000_000
  {
    hide LargestProbe;
  }

  /** With a positive base price nothing is free, and no reserve up to the full supply overflows, so on the
      program's own curve they agree everywhere. */
  lemma SimulatorAgreesOnDefaultCurve(sol: nat, c: nat)
    requires c <= TOTAL_SUPPLY_PER_SIDE
    ensures TokensOut(sol, c, TOTAL_SUPPLY_PER_SIDE, DefaultParams())
            == Ok(TokensOutBig(sol, c, CurveConfig(1, 2, 1, TOTAL_SUPPLY_PER_SIDE)))
  {
    hide TokensOut, ReserveFits;
    var config := CurveConfig(1, 2, 1, TOTAL_SUPPLY_PER_SIDE);
    DefaultCurve(TOTAL_SUPPLY_PER_SIDE);
    MarginalCost(c, config.Params());
    SimulatorAgrees(sol, c, config);
    DefaultTokensOut(sol, c, TOTAL_SUPPLY_PER_SIDE);
  }
}
