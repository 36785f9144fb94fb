/** What several trades of one market come to: a purchase split into many, and two equal sales in a row. */
module MarketTrades {
  import opened Common
  import opened Arithmetic
  import opened BondingCurve
  import opened CurveProperties
  import opened Ledger
  import opened Config
  import opened MarketSpec
  import opened MarketInvariant
  import opened MarketRuns

  // ---------- One purchase or many ----------

  function BuyInTurn(s: MarketState, now: int, orders: seq<Order>): Result<MarketState>
    decreases |orders|
  {
    if orders == [] then Ok(s)
    else
      var next :- Buy(s, now, orders[0]);
      BuyInTurn(next, now, orders[1..])
  }

  function GrossOf(orders: seq<Order>): nat {
    if orders == [] then 0 else orders[0].amount + GrossOf(orders[1..])
  }

  function NetsOf(orders: seq<Order>, config: Settings): (nets: seq<nat>)
    ensures |nets| == |orders|
  {
    if orders == [] then [] else [FeesOf(orders[0].amount, config).net] + NetsOf(orders[1..], config)
  }

  /** The fee on two amounts together is the sum of their fees, or one more. */
  lemma FeesNearlyAdd(x: nat, y: nat, config: Settings)
    requires x + y <= U64_MAX && InBounds(config)
    ensures FeesOf(x + y, config).net <= FeesOf(x, config).net + FeesOf(y, config).net <= FeesOf(x + y, config).net + 1
  {
    hide TradeFees;
    FeesSplitExactly(x, config);
    FeesSplitExactly(y, config);
    FeesSplitExactly(x + y, config);
    assert (x + y) * config.tradeFeeBps - x * config.tradeFeeBps == y * config.tradeFeeBps;
    FloorDifference(x * config.tradeFeeBps, (x + y) * config.tradeFeeBps, BPS_DENOMINATOR);
  }

  lemma {:induction false} NetsNearlyAdd(orders: seq<Order>, config: Settings)
    requires orders != [] && GrossOf(orders) <= U64_MAX && InBounds(config)
    ensures var net := FeesOf(GrossOf(orders), config).net;
            net <= SumOf(NetsOf(orders, config)) <= net + |orders| - 1
  {
    hide FeesOf;
    var nets := NetsOf(orders, config);
    assert nets[1..] == NetsOf(orders[1..], config);
    if |orders| == 1 {
      assert orders[1..] == [] && nets[1..] == [];
    } else {
      NetsNearlyAdd(orders[1..], config);
      FeesNearlyAdd(orders[0].amount, GrossOf(orders[1..]), config);
    }
  }

  lemma BuyAdds(s: MarketState, now: int, o: Order, side: Side)
    requires Inv(s) && SideOf(o.side) == Ok(side) && Buy(s, now, o).Ok?
    ensures var next := Buy(s, now, o).value;
            && Inv(next) && next.config == s.config
            && next.SideAt(side).circulating == s.SideAt(side).circulating
               + Bought(FeesOf(o.amount, s.config).net, s.SideAt(side).circulating, TOTAL_SUPPLY_PER_SIDE, DefaultParams())
  {
    hide Inv, Buy, FeesOf, Bought, Later;
    BuyKeeps(s, now, o);
    BuyEffect(s, now, o, side, Vault(side));
  }

  lemma BuyAllNets(orders: seq<Order>, config: Settings, c: nat, total: nat)
    requires orders != [] && c <= total
    ensures var first := Bought(FeesOf(orders[0].amount, config).net, c, total, DefaultParams());
            BuyAll(NetsOf(orders, config), c, total, DefaultParams())
            == first + BuyAll(NetsOf(orders[1..], config), c + first, total, DefaultParams())
  {
    hide Bought, FeesOf, Cost, SumOf;
    assert NetsOf(orders, config)[1..] == NetsOf(orders[1..], config);
  }

  lemma {:induction false} BuyInTurnBuysAll(s: MarketState, now: int, orders: seq<Order>, side: Side)
    requires Inv(s) && BuyInTurn(s, now, orders).Ok?
    requires forall i :: 0 <= i < |orders| ==> SideOf(orders[i].side) == Ok(side)
    ensures s.SideAt(side).circulating <= TOTAL_SUPPLY_PER_SIDE
    ensures BuyInTurn(s, now, orders).value.SideAt(side).circulating == s.SideAt(side).circulating
            + BuyAll(NetsOf(orders, s.config), s.SideAt(side).circulating, TOTAL_SUPPLY_PER_SIDE, DefaultParams())
    decreases |orders|
  {
    CirculationBound(s, side);
    if orders == [] {
    } else {
      hide Inv, Buy, SideOf, FeesOf, Bought, BuyAll, Cost;
      BuyAdds(s, now, orders[0], side);
      BuyAllNets(orders, s.config, s.SideAt(side).circulating, TOTAL_SUPPLY_PER_SIDE);
      var rest := orders[1..];
      assert forall i :: 0 <= i < |rest| ==> rest[i] == orders[i + 1];
      BuyInTurnBuysAll(Buy(s, now, orders[0]).value, now, rest, side);
    }
  }

  /** Path independence of real purchases, fees and their rounding included: any number of purchases in turn
      and one purchase of the same gross amount buy the same number of tokens, up to one for each further
      purchase either way. They buy exactly as many if the change the purchases in turn leave pays for what
      the fees' rounding costs the single one, and the rest of it does not pay for another token. */
  lemma SplitPurchases(s: MarketState, now: int, orders: seq<Order>, whole: Order, side: Side)
    requires Inv(s) && orders != [] && whole.amount == GrossOf(orders)
    requires SideOf(whole.side) == Ok(side) && forall i :: 0 <= i < |orders| ==> SideOf(orders[i].side) == Ok(side)
    requires BuyInTurn(s, now, orders).Ok? && Buy(s, now, whole).Ok?
    ensures var split, one := BuyInTurn(s, now, orders).value.SideAt(side).circulating,
                              Buy(s, now, whole).value.SideAt(side).circulating;
            var c, nets := s.SideAt(side).circulating, SumOf(NetsOf(orders, s.config));
            && split - (|orders| - 1) <= one <= split + (|orders| - 1)
            && c <= split <= TOTAL_SUPPLY_PER_SIDE
            && (one == split <==> Neutral(c, split - c, nets, FeesOf(whole.amount, s.config).net))
  {
    hide Inv, Buy, BuyInTurn, SideOf, FeesOf, Bought, GrossOf, SumOf, BuyAll, NetsOf, Cost, Neutral;
    CirculationBound(s, side);
    BuyInTurnBuysAll(s, now, orders, side);
    BuyAdds(s, now, whole, side);
    NetsNearlyAdd(orders, s.config);
    SplitCurve(NetsOf(orders, s.config), FeesOf(whole.amount, s.config).net, s.SideAt(side).circulating);
  }

  /** From a supply of `c`, `spent` has bought `n` tokens: `less` money buys as many. */
  predicate Neutral(c: nat, n: nat, spent: nat, less: nat) {
    var change, lost := spent - Cost(c, n, DefaultParams()), spent - less;
    lost <= change && (c + n == TOTAL_SUPPLY_PER_SIDE || change - lost < Cost(c + n, 1, DefaultParams()))
  }

  lemma SplitCurve(nets: seq<nat>, net: nat, c: nat)
    requires nets != [] && c <= TOTAL_SUPPLY_PER_SIDE && net <= SumOf(nets) <= net + |nets| - 1
    ensures var n := BuyAll(nets, c, TOTAL_SUPPLY_PER_SIDE, DefaultParams());
            && n - (|nets| - 1) <= Bought(net, c, TOTAL_SUPPLY_PER_SIDE, DefaultParams()) <= n + (|nets| - 1)
            && (Bought(net, c, TOTAL_SUPPLY_PER_SIDE, DefaultParams()) == n <==> Neutral(c, n, SumOf(nets), net))
  {
    hide Bought, SumOf, BuyAll, Cost, Neutral;
    SplitBuys(nets, c, TOTAL_SUPPLY_PER_SIDE, DefaultParams());
    FewerLamports(SumOf(nets), SumOf(nets) - net, c, TOTAL_SUPPLY_PER_SIDE, DefaultParams());
    NeutralExactly(c, BuyAll(nets, c, TOTAL_SUPPLY_PER_SIDE, DefaultParams()), SumOf(nets), net);
  }

  lemma NeutralExactly(c: nat, n: nat, spent: nat, net: nat)
    requires c + n <= TOTAL_SUPPLY_PER_SIDE && Cost(c, n, DefaultParams()) <= spent && net <= spent
    ensures Bought(net, c, TOTAL_SUPPLY_PER_SIDE, DefaultParams()) == n <==> Neutral(c, n, spent, net)
  {
    hide Cost, BestBuy;
    var p := DefaultParams();
    CostAtLeastBase(c, n, p);
    CostAtLeastBase(c + n, 1, p);
    CostOfNext(c, n, p);
    if net > 0 {
      Affordable(net, c, TOTAL_SUPPLY_PER_SIDE - c, p, n);
      if c + n < TOTAL_SUPPLY_PER_SIDE {
        Affordable(net, c, TOTAL_SUPPLY_PER_SIDE - c, p, n + 1);
      }
    }
  }

  lemma CostOfNext(c: nat, n: nat, p: CurveParams)
    ensures Cost(c, n + 1, p) == Cost(c, n, p) + Cost(c + n, 1, p)
  {
    hide Reserve;
  }

  /** Splitting can also gain, through the fees: at a fee of one percent 50 lamports pay none and 100 pay one. */
  lemma SplittingCanGain(config: Settings, total: nat)
    requires config.tradeFeeBps == 100 && total > 100 && InBounds(config)
    ensures FeesOf(50, config).net == 50 && FeesOf(100, config).net == 99
    ensures BuyAll([50, 50], 0, total, DefaultParams()) == 100 && Bought(99, 0, total, DefaultParams()) == 99
  {
    hide BestBuy, Cost;
    FeesSplitExactly(50, config);
    FeesSplitExactly(100, config);
    QuadraticBuy(50, 0, 50, total, 1);
    QuadraticBuy(50, 50, 50, total, 1);
    QuadraticBuy(99, 0, 99, total, 1);
    assert [50, 50][1..] == [50] && [50][1..] == [];
    assert BuyAll([50], 50, total, DefaultParams()) == 50;
  }

  function Repeat(amount: nat, times: nat): seq<nat> {
    if times == 0 then [] else [amount] + Repeat(amount, times - 1)
  }

  /** Up to a supply of 1442 a token costs one lamport. */
  lemma EarlyPurchase(sol: nat, c: nat, total: nat)
    requires c + sol <= 1442 < total
    ensures Bought(sol, c, total, DefaultParams()) == sol
  {
    hide BestBuy, Cost;
    EarlyCube(c);
    EarlyCube(c + sol);
    if sol > 0 {
      QuadraticBuy(sol, c, sol, total, 1);
    }
  }

  lemma EarlyCube(k: nat)
    requires k <= 1442
    ensures Cubed(k) / 3_000_000_000 == 0
    ensures Cubed(k + 1) / 3_000_000_000 >= 0
  {
    MulMono(k, 1442, k, 1442);
    MulMono(k * k, 1442 * 1442, k, 1442);
  }

  lemma {:induction false} EarlyPurchases(sol: nat, times: nat, c: nat, total: nat)
    requires c + sol * times <= 1442 < total
    ensures BuyAll(Repeat(sol, times), c, total, DefaultParams()) == sol * times
  {
    hide Bought, Cost, SumOf;
    if times == 0 {
    } else {
      assert sol * times == sol + sol * (times - 1);
      MulMono(0, sol, 0, times - 1);
      EarlyPurchase(sol, c, total);
      EarlyPurchases(sol, times - 1, c + sol, total);
      BuyAllNext(sol, Repeat(sol, times - 1), c, total, DefaultParams());
    }
  }

  /** And it gains a token for each further purchase: at a fee of 4.99% any number of purchases of 20 lamports, up
      to 72, pay no fee, where one purchase of them all pays a lamport for each but the first. */
  lemma SplittingGainsForEach(parts: nat, config: Settings, total: nat)
    requires 1 <= parts <= 72 && config.tradeFeeBps == 499 && InBounds(config) && total > 1442
    ensures FeesOf(20, config).net == 20 && FeesOf(20 * parts, config).net == 20 * parts - (parts - 1)
    ensures BuyAll(Repeat(20, parts), 0, total, DefaultParams()) == 20 * parts
    ensures Bought(20 * parts - (parts - 1), 0, total, DefaultParams()) == 20 * parts - (parts - 1)
  {
    hide TradeFees, Bought, Cost;
    FeesSplitExactly(20, config);
    FeesSplitExactly(20 * parts, config);
    EarlyPurchases(20, parts, 0, total);
    EarlyPurchase(20 * parts - (parts - 1), 0, total);
  }

  // ---------- Two equal purchases ----------

  /** Two equal purchases in a row: the second buys at most one token more, and exactly when it does; never from a
      first purchase of 794 tokens on. */
  lemma SequentialPurchases(s: MarketState, now: int, later: int, o: Order, side: Side)
    requires Inv(s) && SideOf(o.side) == Ok(side)
    requires Buy(s, now, o).Ok? && Buy(Buy(s, now, o).value, later, o).Ok?
    ensures var c, net := s.SideAt(side).circulating, FeesOf(o.amount, s.config).net;
            var between, after := Buy(s, now, o).value.SideAt(side).circulating,
                                  Buy(Buy(s, now, o).value, later, o).value.SideAt(side).circulating;
            var first := between - c;
            && c <= between && after - between <= first + 1
            && (after - between > first <==>
                && between + first < TOTAL_SUPPLY_PER_SIDE
                && Cost(between, first + 1, DefaultParams()) == net && Cost(c, first + 1, DefaultParams()) == net + 1)
            && (first >= 794 ==> after - between <= first)
  {
    hide Inv, Buy, FeesOf, Bought, Cost;
    var c, net, next := s.SideAt(side).circulating, FeesOf(o.amount, s.config).net, Buy(s, now, o).value;
    CirculationBound(s, side);
    BuyAdds(s, now, o, side);
    CirculationBound(next, side);
    BuyAdds(next, later, o, side);
    CostAtLeastBase(next.SideAt(side).circulating, next.SideAt(side).circulating - c + 1, DefaultParams());
    LaterBuyerGainsExactly(net, c, next.SideAt(side).circulating, TOTAL_SUPPLY_PER_SIDE, DefaultParams());
    LaterBuyerGainsAtMostOne(net, c, next.SideAt(side).circulating, TOTAL_SUPPLY_PER_SIDE, DefaultParams());
    if next.SideAt(side).circulating - c >= 794 {
      SequentialBuys(net, c, TOTAL_SUPPLY_PER_SIDE, next.SideAt(side).circulating - c);
    }
  }

  // ---------- Two equal sales ----------

  /** What the owner of `x` receives from a curve price of `raw` paid to `x`: the proceeds after fees, and the
      fees if `x` is a fee account. */
  function Receipts(raw: nat, config: Settings, creatorFee: Account, x: Account): nat {
    var fees := FeesOf(raw, config);
    fees.net + (if x == config.protocolFee then fees.protocol else 0) + (if x == creatorFee then fees.creator else 0)
  }

  lemma SaleReceipts(s: MarketState, now: int, o: Order, side: Side)
    requires Inv(s) && SideOf(o.side) == Ok(side) && Sell(s, now, o).Ok? && o.dest.Wallet?
    ensures var t, c := Sell(s, now, o).value, s.SideAt(side).circulating;
            && Inv(t) && t.config == s.config && t.creatorFee == s.creatorFee
            && o.amount <= c <= TOTAL_SUPPLY_PER_SIDE && t.SideAt(side).circulating == c - o.amount
            && Cost(c - o.amount, o.amount, DefaultParams()) <= U64_MAX
            && Balance(t.wsol, o.dest) == Balance(s.wsol, o.dest)
               + Receipts(Cost(c - o.amount, o.amount, DefaultParams()), s.config, s.creatorFee, o.dest)
  {
    hide Inv, Sell, FeesOf, Cost, Later, SolOut, SaleNet, Balance;
    CirculationBound(s, side);
    SellKeeps(s, now, o);
    SellEffect(s, now, o, side, o.dest);
    var _, _ := SaleFees(s, side, o.amount);
    SaleLeaves(s, now, o);
  }

  lemma SaleLeaves(s: MarketState, now: int, o: Order)
    requires Sell(s, now, o).Ok?
    ensures Sell(s, now, o).value.config == s.config && Sell(s, now, o).value.creatorFee == s.creatorFee
  {
    hide SettleSale;
  }

  /** Each part of an amount grows with it. */
  lemma PartsGrow(x: nat, y: nat, config: Settings)
    requires x <= y <= U64_MAX && InBounds(config)
    ensures var f, g := FeesOf(x, config), FeesOf(y, config);
            && f.net <= g.net && f.protocol <= g.protocol && f.creator <= g.creator
            && f.net + f.protocol + f.creator == x && g.net + g.protocol + g.creator == y
    ensures y >= x + 2 ==> FeesOf(x, config).net < FeesOf(y, config).net
  {
    var b, split := config.tradeFeeBps, config.creatorFeeSplitBps;
    hide FeesOf;
    Fractions(x, config);
    Fractions(y, config);
    FractionGrows(x, y, b);
    FractionGrows(x * b / BPS_DENOMINATOR, y * b / BPS_DENOMINATOR, split);
    if y >= x + 2 {
      FractionSlow(x, y, b);
    }
  }

  lemma Fractions(x: nat, config: Settings)
    requires x <= U64_MAX && InBounds(config)
    ensures var f, trade := FeesOf(x, config), x * config.tradeFeeBps / BPS_DENOMINATOR;
            && f.net == x - trade && f.creator == trade * config.creatorFeeSplitBps / BPS_DENOMINATOR
            && f.protocol == trade - f.creator
  {
    FeesSplitExactly(x, config);
    BpsExact(x, config.tradeFeeBps);
    BpsExact(x * config.tradeFeeBps / BPS_DENOMINATOR, config.creatorFeeSplitBps);
  }

  /** A fraction of an amount grows no faster than the amount. */
  lemma FractionGrows(x: nat, y: nat, bps: nat)
    requires x <= y && bps <= BPS_DENOMINATOR
    ensures 0 <= y * bps / BPS_DENOMINATOR - x * bps / BPS_DENOMINATOR <= y - x
  {
    MulMono(x, y, bps, bps);
    assert y * bps - x * bps == (y - x) * bps;
    MulMono(y - x, y - x, bps, BPS_DENOMINATOR);
    DivMono(x * bps, y * bps, BPS_DENOMINATOR);
    DivMono(y * bps, x * bps + (y - x) * BPS_DENOMINATOR, BPS_DENOMINATOR);
  }

  /** A fee of at most 5% takes less than any two further units. */
  lemma FractionSlow(x: nat, y: nat, bps: nat)
    requires x + 2 <= y && bps <= MAX_TRADE_FEE_BPS
    ensures y * bps / BPS_DENOMINATOR - x * bps / BPS_DENOMINATOR < y - x
  {
    MulMono(x, y, bps, bps);
    assert y * bps - x * bps == (y - x) * bps;
    MulMono(y - x, y - x, bps, MAX_TRADE_FEE_BPS);
    FloorDifference(x * bps, y * bps, BPS_DENOMINATOR);
    DivMono((y - x) * bps, (y - x) * MAX_TRADE_FEE_BPS, BPS_DENOMINATOR);
  }

  /** Whether the owner of `x` receives the last unit of a price of `raw`: it goes to the proceeds unless the
      trade fee has just grown, and then to the creator's part if that has just grown, or else the protocol's. */
  predicate LastUnitReceived(raw: nat, config: Settings, creatorFee: Account, x: Account) {
    var trade := raw * config.tradeFeeBps / BPS_DENOMINATOR;
    if raw * config.tradeFeeBps % BPS_DENOMINATOR >= config.tradeFeeBps then true
    else if trade * config.creatorFeeSplitBps % BPS_DENOMINATOR >= config.creatorFeeSplitBps then x == config.protocolFee
    else x == creatorFee
  }

  lemma FractionSteps(x: nat, bps: nat)
    requires bps <= BPS_DENOMINATOR
    ensures (x + 1) * bps / BPS_DENOMINATOR ==
            x * bps / BPS_DENOMINATOR + if (x + 1) * bps % BPS_DENOMINATOR >= bps then 0 else 1
  {
    assert (x + 1) * bps == x * bps + bps;
  }

  /** One more unit of price goes to exactly one of the three parts. */
  lemma UnitGoesSomewhere(x: nat, config: Settings, creatorFee: Account, owner: Account)
    requires x + 1 <= U64_MAX && InBounds(config)
    ensures Receipts(x + 1, config, creatorFee, owner) ==
            Receipts(x, config, creatorFee, owner) + if LastUnitReceived(x + 1, config, creatorFee, owner) then 1 else 0
  {
    hide FeesOf;
    var b, split := config.tradeFeeBps, config.creatorFeeSplitBps;
    Fractions(x, config);
    Fractions(x + 1, config);
    FractionSteps(x, b);
    FractionSteps(x * b / BPS_DENOMINATOR, split);
  }

  /** Receipts grow with the price, by no more than it, and by at least one unit for two. */
  lemma ReceiptsGrow(x: nat, y: nat, config: Settings, creatorFee: Account, owner: Account)
    requires x <= y <= U64_MAX && InBounds(config)
    ensures var r, r' := Receipts(x, config, creatorFee, owner), Receipts(y, config, creatorFee, owner);
            r <= r' && (y >= x + 2 ==> r < r')
  {
    hide FeesOf;
    PartsGrow(x, y, config);
  }

  /** Exactly when a lower price means lower receipts. */
  lemma ReceiptsCompare(first: nat, second: nat, config: Settings, creatorFee: Account, owner: Account)
    requires first <= U64_MAX && second <= first + 1 && second <= U64_MAX && InBounds(config)
    ensures var r1, r2 := Receipts(first, config, creatorFee, owner), Receipts(second, config, creatorFee, owner);
            && r2 <= r1 + 1
            && (r2 < r1 <==>
                first > second + 1 || (first == second + 1 && LastUnitReceived(first, config, creatorFee, owner)))
  {
    hide Receipts, LastUnitReceived;
    if first == second + 1 {
      UnitGoesSomewhere(second, config, creatorFee, owner);
    } else if second == first + 1 {
      UnitGoesSomewhere(first, config, creatorFee, owner);
    } else if first > second {
      ReceiptsGrow(second, first, config, creatorFee, owner);
    }
  }

  /** Two equal sales in a row, as the seller's account sees them, fee accounts included. The second brings at most
      a unit more. It brings less exactly if the curve's price has fallen by two units, or by one that the seller
      would have received; and that is so whenever the tokens sold, twice over the supply left by the first sale,
      come to one and a half times 10^9. */
  lemma SequentialReceipts(s: MarketState, now: int, later: int, o: Order, side: Side)
    requires Inv(s) && SideOf(o.side) == Ok(side) && o.dest.Wallet?
    requires Sell(s, now, o).Ok? && Sell(Sell(s, now, o).value, later, o).Ok?
    ensures 2 * o.amount <= s.SideAt(side).circulating
    ensures var c, t, next := s.SideAt(side).circulating, o.amount, Sell(s, now, o).value;
            var before, between, after := Balance(s.wsol, o.dest), Balance(next.wsol, o.dest),
                                          Balance(Sell(next, later, o).value.wsol, o.dest);
            var first, second := Cost(c - t, t, DefaultParams()), Cost(c - 2 * t, t, DefaultParams());
            && after - between <= between - before + 1
            && (after - between < between - before <==>
                first > second + 1
                || (first == second + 1 && LastUnitReceived(first, s.config, s.creatorFee, o.dest)))
            && (2 * (t * t * (c - t)) >= 3 * CURVE_SCALE ==> after - between < between - before)
  {
    hide Inv, Sell, Cost, Receipts, LastUnitReceived, Balance;
    var c, t, next := s.SideAt(side).circulating, o.amount, Sell(s, now, o).value;
    CirculationBound(s, side);
    SaleReceipts(s, now, o, side);
    SaleReceipts(next, later, o, side);
    NearConvexity(c - 2 * t, c - t, t, DefaultParams());
    ReceiptsCompare(Cost(c - t, t, DefaultParams()), Cost(c - 2 * t, t, DefaultParams()), s.config, s.creatorFee, o.dest);
    if 2 * (t * t * (c - t)) >= 3 * CURVE_SCALE {
      TwiceProduct(t * t, c - t);
      ConvexWhenApart(c - 2 * t, c - t, t, 3);
    }
  }

  /** The guard on the curve's price alone is not enough: at a fee of one percent two sales of 491 tokens from a
      supply of 4654 are priced 500 and 499 and bring 495 each. */
  lemma SequentialReceiptsCanTie(s: MarketState, now: int, o: Order, side: Side)
    requires Inv(s) && SideOf(o.side) == Ok(side) && Sell(s, now, o).Ok? && s.config.tradeFeeBps == 100
    requires s.SideAt(side).circulating == 4654 && o.amount == 491
    ensures 491 * 491 * (4654 - 491) >= CURVE_SCALE
    ensures SaleNet(s, side, 491) == 495 && SaleNet(Sell(s, now, o).value, side, 491) == 495
  {
    hide Inv, Sell, Cost, FeesOf, SolOut;
    CirculationBound(s, side);
    QuadraticCost(4654 - 491, 491, 1);
    QuadraticCost(4654 - 491 - 491, 491, 1);
    Fractions(500, s.config);
    Fractions(499, s.config);
    SellEffect(s, now, o, side, o.dest);
    SaleLeaves(s, now, o);
  }

  /** Nor is it for a seller who owns the creator's account: at 1.25%, half of it the creator's, two sales of 381
      tokens from a supply of 7271 are priced 400 and 399 and bring 397 each. */
  lemma CreatorReceiptsCanTie(config: Settings, creatorFee: Account)
    requires InBounds(config) && config.tradeFeeBps == 125 && config.creatorFeeSplitBps == 5000
    requires creatorFee != config.protocolFee
    ensures 381 * 381 * (7271 - 381) >= CURVE_SCALE
    ensures Receipts(Cost(7271 - 381, 381, DefaultParams()), config, creatorFee, creatorFee) == 397
    ensures Receipts(Cost(7271 - 2 * 381, 381, DefaultParams()), config, creatorFee, creatorFee) == 397
  {
    hide Cost, FeesOf;
    QuadraticCost(7271 - 381, 381, 1);
    QuadraticCost(7271 - 2 * 381, 381, 1);
    Fractions(400, config);
    Fractions(399, config);
  }
}
