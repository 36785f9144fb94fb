/** Theorems about whole runs of a Mode 1 market, under any interleaving of instructions by anyone. */
module MarketRuns {
  import opened Common
  import opened BondingCurve
  import opened CurveProperties
  import opened Ledger
  import opened Config
  import opened Twap
  import opened MarketSpec
  import opened MarketInvariant

  // ---------- Every run ----------

  lemma ApplyKeeps(s: MarketState, e: Event)
    requires Inv(s)
    ensures Inv(Apply(s, e)) && Later(s, Apply(s, e))
  {
    hide Step, Reserve, Total, Sum;
    if Step(s, s.clock + e.wait, e.action).Ok? {
      StepKeeps(s, s.clock + e.wait, e.action);
    }
  }

  lemma LaterTransitive(s: MarketState, t: MarketState, u: MarketState)
    requires Inv(s) && Inv(t) && Later(s, t) && Later(t, u)
    ensures Later(s, u)
  {
    hide Reserve, Total, Sum;
  }

  /** The central theorem of Mode 1: after any run the invariant holds, every mint's total is what it
      was, and until graduation no side's surplus over the curve's liability has shrunk. */
  lemma {:induction false} RunKeeps(s: MarketState, events: seq<Event>)
    requires Inv(s)
    ensures Inv(Run(s, events)) && Later(s, Run(s, events))
    decreases |events|
  {
    hide Apply, Reserve, Total, Sum;
    if events == [] {
    } else {
      var next := Apply(s, events[0]);
      ApplyKeeps(s, events[0]);
      RunKeeps(next, events[1..]);
      LaterTransitive(s, next, Run(next, events[1..]));
    }
  }

  /** The same for every market from its creation on. */
  lemma MarketsStaySolvent(now: int, deadline: int, twapWindow: u64, twapInterval: u64, creatorFee: Account,
                           wsol: Balances, holders: set<nat>, config: Settings, lamports: nat, events: seq<Event>, side: Side)
    requires now > 0 && deadline <= I64_MAX && InBounds(config) && Total(wsol) <= U64_MAX
    requires NewMarket(now, deadline, twapWindow, twapInterval, creatorFee, wsol, holders, config, lamports).Ok?
    ensures var s := Run(NewMarket(now, deadline, twapWindow, twapInterval, creatorFee,
                                   wsol, holders, config, lamports).value, events);
            && Inv(s) && Total(s.wsol) == Total(wsol)
            && (s.winner == None ==> s.QuoteVault(side) >= Liability(s, side))
  {
    hide NewMarket, Run, Reserve, Total, Sum;
    NewMarketInv(now, deadline, twapWindow, twapInterval, creatorFee, wsol, holders, config, lamports);
    var s := NewMarket(now, deadline, twapWindow, twapInterval, creatorFee, wsol, holders, config, lamports).value;
    RunKeeps(s, events);
  }

  lemma {:induction false} RunAppend(s: MarketState, events: seq<Event>, e: Event)
    ensures Run(s, events + [e]) == Apply(Run(s, events), e)
    decreases |events|
  {
    hide Apply;
    if events == [] {
      assert Run(s, [e]) == Run(Apply(s, e), []);
    } else {
      assert (events + [e])[1..] == events[1..] + [e];
      RunAppend(Apply(s, events[0]), events[1..], e);
    }
  }

  // ---------- Solvency ----------

  lemma CirculationBound(s: MarketState, side: Side)
    requires Inv(s)
    ensures s.SideAt(side).circulating <= 1_000_000_000 && InBounds(s.config)
  {
    hide Total, Sum, Reserve;
  }

  /** The accounts a trade names exist: the program's vaults always do until resolution, so this is
      about the trader's accounts and the fee accounts. */
  predicate AccountsExist(s: MarketState, side: Side, quote: Account, token: Account) {
    && quote in s.wsol && token in s.SideAt(side).tokens
    && s.config.protocolFee in s.wsol && s.creatorFee in s.wsol
  }

  /** When a sale goes through, in terms a seller can check beforehand. */
  predicate CanSell(s: MarketState, now: int, o: Order, side: Side) {
    && s.status != Resolved && !s.config.paused && now < s.deadline
    && AccountsExist(s, side, o.dest, Wallet(o.wallet))
    && 0 < o.amount <= Balance(s.SideAt(side).tokens, Wallet(o.wallet))
    && SaleNet(s, side, o.amount) >= o.minOut
  }

  lemma SaleFees(s: MarketState, side: Side, tokens: nat) returns (raw: nat, fees: Fees)
    requires Inv(s) && tokens <= s.SideAt(side).circulating
    ensures SolOut(tokens, s.SideAt(side).circulating, DefaultParams()) == Ok(raw)
    ensures TradeFees(raw, s.config) == Ok(fees) && fees.net + fees.protocol + fees.creator == raw
    ensures SaleNet(s, side, tokens) == fees.net && FeesOf(raw, s.config) == fees
    ensures raw == Cost(s.SideAt(side).circulating - tokens, tokens, DefaultParams())
    ensures raw <= U64_MAX && (s.winner == None ==> raw <= s.QuoteVault(side))
  {
    hide Total, Sum, TradeFees, Reserve, Cost, SolOut;
    var c := s.SideAt(side).circulating;
    DefaultSale(tokens, c);
    SaleWithinLiability(tokens, c);
    raw := Cost(c - tokens, tokens, DefaultParams());
    FeesSplitExactly(raw, s.config);
    fees := TradeFees(raw, s.config).value;
  }

  lemma SaleWithinLiability(tokens: nat, c: nat)
    requires tokens <= c <= TOTAL_SUPPLY_PER_SIDE
    ensures Cost(c - tokens, tokens, DefaultParams()) <= Reserve(c, DefaultParams()) <= U64_MAX
  {
    hide Reserve;
    DefaultCurve(c);
  }

  lemma SellSucceeds(s: MarketState, now: int, o: Order, side: Side)
    requires Inv(s) && SideOf(o.side) == Ok(side) && CanSell(s, now, o, side)
    ensures Sell(s, now, o).Ok?
  {
    hide Total, Sum, SaleNet, Transfer, TransferIfPositive, TradeFees, Reserve, SolOut, PriceOf;
    var acct := s.SideAt(side);
    HeldWithinCirculation(s, side, o.wallet);
    var raw, fees := SaleFees(s, side, o.amount);
    PaymentsSucceed(s.wsol, Vault(side), o.dest, s.config.protocolFee, s.creatorFee, fees);
    TransferSucceeds(acct.tokens, Wallet(o.wallet), Vault(side), o.amount);
    DefaultCurve(acct.circulating - o.amount);
  }

  /** A holder can always sell before the deadline: a sale succeeds exactly when the market is open,
      the accounts exist, the seller has the tokens and the price asked is met. */
  lemma SellSucceedsExactly(s: MarketState, now: int, o: Order, side: Side)
    requires Inv(s) && SideOf(o.side) == Ok(side)
    ensures Sell(s, now, o).Ok? <==> CanSell(s, now, o, side)
  {
    hide Total, Sum, SaleNet, Transfer, TransferIfPositive, TradeFees, Reserve, SolOut, PriceOf, CanSell;
    if CanSell(s, now, o, side) {
      SellSucceeds(s, now, o, side);
    } else if Sell(s, now, o).Ok? {
      SellOnlyIf(s, now, o, side);
    }
  }

  lemma SellOnlyIf(s: MarketState, now: int, o: Order, side: Side)
    requires Inv(s) && SideOf(o.side) == Ok(side) && Sell(s, now, o).Ok?
    ensures CanSell(s, now, o, side)
  {
    hide Total, Sum, SaleNet, Reserve, Sell, TransferIfPositive, TradeFees, SolOut, PriceOf;
    var side', raw, fees, w1, w2, w3, held := SellParts(s, now, o);
    var raw', fees' := SaleFees(s, side, o.amount);
    SellAccounts(s, now, o, side);
  }

  lemma SellAccounts(s: MarketState, now: int, o: Order, side: Side)
    requires SideOf(o.side) == Ok(side) && Sell(s, now, o).Ok?
    ensures AccountsExist(s, side, o.dest, Wallet(o.wallet))
  {
  }

  /** Neither an empty vault nor an overflow ever stops a sale. */
  lemma SellErrors(s: MarketState, now: int, o: Order)
    requires Inv(s)
    ensures Sell(s, now, o) != Err(InsufficientReserve) && Sell(s, now, o) != Err(MathOverflow)
  {
    hide Total, Sum, SaleNet, Transfer, TransferIfPositive, TradeFees, Reserve, SolOut, PriceOf;
    if SideOf(o.side).Ok? {
      var side := SideOf(o.side).value;
      var acct := s.SideAt(side);
      DefaultSolOut(o.amount, acct.circulating);
      if o.amount <= acct.circulating {
        var raw, fees := SaleFees(s, side, o.amount);
        DefaultCurve(acct.circulating - o.amount);
        SaleTransferErrors(s, o, side, fees);
      }
    }
  }

  lemma SaleTransferErrors(s: MarketState, o: Order, side: Side, fees: Fees)
    requires Inv(s)
    ensures var held := Transfer(s.SideAt(side).tokens, Wallet(o.wallet), Vault(side), o.amount);
            held.Err? ==> held == Err(AccountMissing) || held == Err(InsufficientFunds)
    ensures var w1 := Transfer(s.wsol, Vault(side), o.dest, fees.net);
            && (w1.Err? ==> w1 == Err(AccountMissing) || w1 == Err(InsufficientFunds))
            && (w1.Ok? ==>
                  var w2 := TransferIfPositive(w1.value, Vault(side), s.config.protocolFee, fees.protocol);
                  && (w2.Err? ==> w2 == Err(AccountMissing) || w2 == Err(InsufficientFunds))
                  && (w2.Ok? ==>
                        var w3 := TransferIfPositive(w2.value, Vault(side), s.creatorFee, fees.creator);
                        w3.Err? ==> w3 == Err(AccountMissing) || w3 == Err(InsufficientFunds)))
  {
    hide Total, Sum, Transfer, TransferIfPositive, Reserve;
    TransferErrors(s.SideAt(side).tokens, Wallet(o.wallet), Vault(side), o.amount);
    var w1 := Transfer(s.wsol, Vault(side), o.dest, fees.net);
    TransferErrors(s.wsol, Vault(side), o.dest, fees.net);
    if w1.Ok? {
      TransferMoves(s.wsol, Vault(side), o.dest, fees.net);
      TransferErrors(w1.value, Vault(side), s.config.protocolFee, fees.protocol);
      OptionalTransferMoves(w1.value, Vault(side), s.config.protocolFee, fees.protocol);
      var w2 := TransferIfPositive(w1.value, Vault(side), s.config.protocolFee, fees.protocol);
      if w2.Ok? {
        TransferErrors(w2.value, Vault(side), s.creatorFee, fees.creator);
      }
    }
  }

  /** What a sale of `tokens` pays the seller after fees. */
  function SaleNet(s: MarketState, side: Side, tokens: nat): nat {
    var c := s.SideAt(side).circulating;
    if tokens > c then 0 else FeesOf(Cost(c - tokens, tokens, DefaultParams()), s.config).net
  }

  /** Nobody holds more tokens of a side than circulate. */
  lemma HeldWithinCirculation(s: MarketState, side: Side, wallet: nat)
    requires Inv(s) && s.winner == None
    ensures Balance(s.SideAt(side).tokens, Wallet(wallet)) <= s.SideAt(side).circulating
  {
    var m := s.SideAt(side).tokens;
    BalanceBound(m, Wallet(wallet));
    if Vault(side) in m && Wallet(wallet) in m {
      TotalBounds(m, Vault(side), Wallet(wallet));
    }
  }

  /** An account that holds the three parts of an amount can pay them out one by one. */
  lemma PaymentsSucceed(m: Balances, from: Account, d0: Account, d1: Account, d2: Account, fees: Fees)
    requires Total(m) <= U64_MAX && from in m && d0 in m && d1 in m && d2 in m
    requires fees.net + fees.protocol + fees.creator <= Balance(m, from)
    ensures Transfer(m, from, d0, fees.net).Ok?
    ensures var w1 := Transfer(m, from, d0, fees.net).value;
            && TransferIfPositive(w1, from, d1, fees.protocol).Ok?
            && TransferIfPositive(TransferIfPositive(w1, from, d1, fees.protocol).value, from, d2, fees.creator).Ok?
  {
    hide Total;
    TransferSucceeds(m, from, d0, fees.net);
    TransferMoves(m, from, d0, fees.net);
    var w1 := Transfer(m, from, d0, fees.net).value;
    TransferSucceeds(w1, from, d1, fees.protocol);
    OptionalTransferMoves(w1, from, d1, fees.protocol);
    var w2 := TransferIfPositive(w1, from, d1, fees.protocol).value;
    TransferSucceeds(w2, from, d2, fees.creator);
  }

  // ---------- Buying ----------

  /** What `amount` buys after fees. */
  function Purchase(s: MarketState, side: Side, amount: nat): nat {
    Bought(FeesOf(amount, s.config).net, s.SideAt(side).circulating, TOTAL_SUPPLY_PER_SIDE, DefaultParams())
  }

  /** What a buyer must have: the whole amount, except that the owner of the protocol's fee account gets the
      protocol's part straight back. (A creator's part is paid last, so its owner needs it all the same.) */
  function FundsNeeded(s: MarketState, o: Order): nat {
    var fees := FeesOf(o.amount, s.config);
    if Wallet(o.wallet) == s.config.protocolFee then fees.net + Max(fees.protocol, fees.creator) else o.amount
  }

  predicate CanBuy(s: MarketState, now: int, o: Order, side: Side) {
    && s.status != Resolved && !s.config.paused && now < s.deadline
    && AccountsExist(s, side, Wallet(o.wallet), o.dest)
    && FundsNeeded(s, o) <= Balance(s.wsol, Wallet(o.wallet))
    && Purchase(s, side, o.amount) >= Max(o.minOut, 1)
  }

  lemma PurchaseFees(s: MarketState, side: Side, amount: u64) returns (fees: Fees, tokens: nat)
    requires Inv(s)
    ensures TradeFees(amount, s.config) == Ok(fees) && fees.net + fees.protocol + fees.creator == amount
    ensures FeesOf(amount, s.config) == fees
    ensures TokensOut(fees.net, s.SideAt(side).circulating, TOTAL_SUPPLY_PER_SIDE, DefaultParams()) == Ok(tokens)
    ensures tokens == Purchase(s, side, amount)
            == Bought(fees.net, s.SideAt(side).circulating, TOTAL_SUPPLY_PER_SIDE, DefaultParams())
    ensures Cost(s.SideAt(side).circulating, tokens, DefaultParams()) <= fees.net
    ensures tokens > 0 ==> amount > 0
    ensures s.winner == None ==> tokens <= s.TokenVault(side)
    ensures s.SideAt(side).circulating + tokens <= TOTAL_SUPPLY_PER_SIDE
  {
    hide Total, Sum, TradeFees, TokensOut, Cost, BestBuy;
    FeesSplitExactly(amount, s.config);
    fees := TradeFees(amount, s.config).value;
    var c := s.SideAt(side).circulating;
    DefaultTokensOut(fees.net, c, TOTAL_SUPPLY_PER_SIDE);
    tokens := Bought(fees.net, c, TOTAL_SUPPLY_PER_SIDE, DefaultParams());
  }

  /** The three payments of a trade, one after another. */
  function Payments(m: Balances, from: Account, d0: Account, d1: Account, d2: Account, fees: Fees): Result<Balances> {
    var w1 :- Transfer(m, from, d0, fees.net);
    var w2 :- TransferIfPositive(w1, from, d1, fees.protocol);
    TransferIfPositive(w2, from, d2, fees.creator)
  }

  /** They go through exactly if the payer has what the first of them leaves owing at its worst moment. */
  lemma PaymentsSucceedExactly(m: Balances, from: Account, d0: Account, d1: Account, d2: Account, fees: Fees)
    requires Total(m) <= U64_MAX && from in m && d0 in m && d1 in m && d2 in m && from != d0
    ensures Payments(m, from, d0, d1, d2, fees).Ok? <==>
            fees.net + (if from == d1 then Max(fees.protocol, fees.creator) else fees.protocol + fees.creator)
            <= Balance(m, from)
  {
    hide Total;
    TransferSucceeds(m, from, d0, fees.net);
    TransferMoves(m, from, d0, fees.net);
    if fees.net <= Balance(m, from) {
      var w1 := Transfer(m, from, d0, fees.net).value;
      TransferSucceeds(w1, from, d1, fees.protocol);
      OptionalTransferMoves(w1, from, d1, fees.protocol);
      if TransferIfPositive(w1, from, d1, fees.protocol).Ok? {
        var w2 := TransferIfPositive(w1, from, d1, fees.protocol).value;
        TransferSucceeds(w2, from, d2, fees.creator);
      }
    }
  }

  lemma BuyPayments(s: MarketState, o: Order, side: Side)
    requires Inv(s) && AccountsExist(s, side, Wallet(o.wallet), o.dest) && Vault(side) in s.wsol
    ensures Payments(s.wsol, Wallet(o.wallet), Vault(side), s.config.protocolFee, s.creatorFee,
                     FeesOf(o.amount, s.config)).Ok?
            <==> FundsNeeded(s, o) <= Balance(s.wsol, Wallet(o.wallet))
  {
    hide Total, Sum, Payments, Purchase, TokensOut, Reserve, Cost;
    var fees, _ := PurchaseFees(s, side, o.amount);
    PaymentsSucceedExactly(s.wsol, Wallet(o.wallet), Vault(side), s.config.protocolFee, s.creatorFee, fees);
  }

  lemma BuySucceeds(s: MarketState, now: int, o: Order, side: Side)
    requires Inv(s) && SideOf(o.side) == Ok(side) && CanBuy(s, now, o, side)
    ensures Buy(s, now, o).Ok?
  {
    hide Total, Sum, Purchase, FundsNeeded, Transfer, TransferIfPositive, TradeFees, TokensOut, Reserve, PriceOf;
    var acct := s.SideAt(side);
    var fees, tokens := PurchaseFees(s, side, o.amount);
    BuyPayments(s, o, side);
    TransferSucceeds(acct.tokens, Vault(side), o.dest, tokens);
    DefaultCurve(acct.circulating + tokens);
  }

  /** A purchase succeeds exactly when the market is open, the accounts exist, the buyer has the money
      and the money buys at least one token and the number asked for. The stock never runs short of
      what the curve sells. */
  lemma BuySucceedsExactly(s: MarketState, now: int, o: Order, side: Side)
    requires Inv(s) && SideOf(o.side) == Ok(side)
    ensures Buy(s, now, o).Ok? <==> CanBuy(s, now, o, side)
  {
    hide Buy, CanBuy, Total, Sum;
    if CanBuy(s, now, o, side) {
      BuySucceeds(s, now, o, side);
    } else if Buy(s, now, o).Ok? {
      BuyOnlyIf(s, now, o, side);
    }
  }

  lemma BuyOnlyIf(s: MarketState, now: int, o: Order, side: Side)
    requires Inv(s) && SideOf(o.side) == Ok(side) && Buy(s, now, o).Ok?
    ensures CanBuy(s, now, o, side)
  {
    hide Total, Sum, Buy, Purchase, FundsNeeded, Transfer, TransferIfPositive, TradeFees, TokensOut, Reserve, PriceOf;
    var side', fees, tokens, w1, w2, w3, held := BuyParts(s, now, o);
    var fees', tokens' := PurchaseFees(s, side, o.amount);
    BuyAccounts(s, now, o, side);
    BuyPayments(s, o, side);
  }

  lemma BuyAccounts(s: MarketState, now: int, o: Order, side: Side)
    requires SideOf(o.side) == Ok(side) && Buy(s, now, o).Ok?
    ensures AccountsExist(s, side, Wallet(o.wallet), o.dest)
  {
  }

  /** What three payments do to any one balance, whichever of the accounts coincide. */
  lemma PaymentsExact(m: Balances, from: Account, d0: Account, d1: Account, d2: Account, fees: Fees,
                      w1: Balances, w2: Balances, w3: Balances, x: Account)
    requires Transfer(m, from, d0, fees.net) == Ok(w1)
    requires TransferIfPositive(w1, from, d1, fees.protocol) == Ok(w2)
    requires TransferIfPositive(w2, from, d2, fees.creator) == Ok(w3)
    ensures w3.Keys == m.Keys
    ensures Balance(w3, x) + (if x == from then fees.net + fees.protocol + fees.creator else 0) ==
            Balance(m, x) + (if x == d0 then fees.net else 0)
            + (if x == d1 then fees.protocol else 0) + (if x == d2 then fees.creator else 0)
  {
    hide Total, Transfer, TransferIfPositive, Balance;
    TransferMoves(m, from, d0, fees.net);
    OptionalTransferMoves(w1, from, d1, fees.protocol);
    OptionalTransferMoves(w2, from, d2, fees.creator);
    MovedBalance(m, from, d0, fees.net, w1, x);
    MovedBalance(w1, from, d1, fees.protocol, w2, x);
    MovedBalance(w2, from, d2, fees.creator, w3, x);
  }

  lemma TradedParts(s: MarketState, side: Side, circulating: nat, tokens: Balances, wsol: Balances)
    ensures var s' := Traded(s, side, circulating, tokens, wsol);
            && s'.wsol == wsol && s'.SideAt(side).tokens == tokens && s'.SideAt(side).circulating == circulating
            && (wsol.Keys == s.wsol.Keys && tokens.Keys == s.SideAt(side).tokens.Keys ==> OnlyTraded(s, side, s'))
  {
  }

  /** Where everything goes in a purchase: the buyer's payment splits into the vault's part and the two fees,
      the tokens are the most the net payment buys, and nothing else moves. The accounts may coincide: then
      their parts add up. */
  lemma BuyEffect(s: MarketState, now: int, o: Order, side: Side, x: Account)
    requires Inv(s) && SideOf(o.side) == Ok(side) && Buy(s, now, o).Ok?
    ensures var s', fees, tokens := Buy(s, now, o).value, FeesOf(o.amount, s.config), Purchase(s, side, o.amount);
            && Balance(s'.wsol, x) + (if x == Wallet(o.wallet) then o.amount else 0) ==
               Balance(s.wsol, x) + (if x == Vault(side) then fees.net else 0)
               + (if x == s.config.protocolFee then fees.protocol else 0)
               + (if x == s.creatorFee then fees.creator else 0)
            && Balance(s'.SideAt(side).tokens, x) + (if x == Vault(side) then tokens else 0) ==
               Balance(s.SideAt(side).tokens, x) + (if x == o.dest then tokens else 0)
            && s'.SideAt(side).circulating == s.SideAt(side).circulating + tokens
            && OnlyTraded(s, side, s')
  {
    hide Total, Sum, Buy, Purchase, Transfer, TransferIfPositive, TradeFees, TokensOut, Reserve, Balance, Inv;
    hide OnlyTraded;
    var side', fees, tokens, w1, w2, w3, held := BuyParts(s, now, o);
    var fees', tokens' := PurchaseFees(s, side, o.amount);
    PaymentsExact(s.wsol, Wallet(o.wallet), Vault(side), s.config.protocolFee, s.creatorFee, fees, w1, w2, w3, x);
    TransferMoves(s.SideAt(side).tokens, Vault(side), o.dest, tokens);
    MovedBalance(s.SideAt(side).tokens, Vault(side), o.dest, tokens, held, x);
    TradedParts(s, side, s.SideAt(side).circulating + tokens, held, w3);
    hide Traded, TokensOut, SideOf;
  }

  /** The same for a sale: the curve's price for the tokens splits into the seller's proceeds and the two fees. */
  lemma SellEffect(s: MarketState, now: int, o: Order, side: Side, x: Account)
    requires Inv(s) && SideOf(o.side) == Ok(side) && Sell(s, now, o).Ok?
    ensures o.amount <= s.SideAt(side).circulating
    ensures var s' := Sell(s, now, o).value;
            var c := s.SideAt(side).circulating;
            var raw := Cost(c - o.amount, o.amount, DefaultParams());
            var fees := FeesOf(raw, s.config);
            && fees.net + fees.protocol + fees.creator == raw
            && Balance(s'.wsol, x) + (if x == Vault(side) then raw else 0) ==
               Balance(s.wsol, x) + (if x == o.dest then fees.net else 0)
               + (if x == s.config.protocolFee then fees.protocol else 0)
               + (if x == s.creatorFee then fees.creator else 0)
            && Balance(s'.SideAt(side).tokens, x) + (if x == Wallet(o.wallet) then o.amount else 0) ==
               Balance(s.SideAt(side).tokens, x) + (if x == Vault(side) then o.amount else 0)
            && s'.SideAt(side).circulating == c - o.amount
            && OnlyTraded(s, side, s')
  {
    hide Total, Sum, Sell, Transfer, TransferIfPositive, TradeFees, Reserve, SolOut, Cost, Balance, Inv, FeesOf, SaleNet;
    hide OnlyTraded;
    var side', raw, fees, w1, w2, w3, held := SellParts(s, now, o);
    var raw', fees' := SaleFees(s, side, o.amount);
    PaymentsExact(s.wsol, Vault(side), o.dest, s.config.protocolFee, s.creatorFee, fees, w1, w2, w3, x);
    TransferMoves(s.SideAt(side).tokens, Wallet(o.wallet), Vault(side), o.amount);
    MovedBalance(s.SideAt(side).tokens, Wallet(o.wallet), Vault(side), o.amount, held, x);
    TradedParts(s, side, s.SideAt(side).circulating - o.amount, held, w3);
    hide Traded, SideOf;
  }

  /** Buying and selling straight back never profits the trader, whatever the fees do in between, and whoever
      owns the fee accounts. */
  lemma RoundTripNeverProfits(s: MarketState, buyAt: int, buy: Order, config: Settings,
                              sellAt: int, sell: Order, side: Side)
    requires Inv(s) && InBounds(config) && SideOf(buy.side) == Ok(side) && sell.side == buy.side
    requires sell.dest == Wallet(buy.wallet)
    requires Buy(s, buyAt, buy).Ok? && Sell(Buy(s, buyAt, buy).value.(config := config), sellAt, sell).Ok?
    requires sell.amount <= Purchase(s, side, buy.amount)
    ensures Balance(Sell(Buy(s, buyAt, buy).value.(config := config), sellAt, sell).value.wsol, Wallet(buy.wallet))
            <= Balance(s.wsol, Wallet(buy.wallet))
  {
    hide Inv, Later, Total, Sum, Buy, Sell, Purchase, Reserve, TradeFees, TokensOut, SolOut, SaleNet, Cost, FeesOf;
    var x := Wallet(buy.wallet);
    BuyEffect(s, buyAt, buy, side, x);
    BuyKeeps(s, buyAt, buy);
    var bought := Buy(s, buyAt, buy).value;
    ConfigKeepsInv(bought, config);
    var t := bought.(config := config);
    SellEffect(t, sellAt, sell, side, x);
    var fees, tokens := PurchaseFees(s, side, buy.amount);
    RoundTripCost(s.SideAt(side).circulating, tokens, sell.amount, fees.net);
  }

  /** Nor does it lose much: at most a tenth of the amount, which is the highest fee twice, and the price of the
      token after the last one bought, if the purchase has not emptied the stock. */
  lemma RoundTripLosesLittle(s: MarketState, buyAt: int, buy: Order, config: Settings,
                             sellAt: int, sell: Order, side: Side)
    requires Inv(s) && InBounds(config) && SideOf(buy.side) == Ok(side) && sell.side == buy.side
    requires sell.dest == Wallet(buy.wallet)
    requires Buy(s, buyAt, buy).Ok? && Sell(Buy(s, buyAt, buy).value.(config := config), sellAt, sell).Ok?
    requires sell.amount == Purchase(s, side, buy.amount)
    requires s.SideAt(side).circulating + sell.amount < TOTAL_SUPPLY_PER_SIDE
    ensures var after := Sell(Buy(s, buyAt, buy).value.(config := config), sellAt, sell).value;
            10 * Balance(s.wsol, Wallet(buy.wallet)) <=
            10 * Balance(after.wsol, Wallet(buy.wallet)) + buy.amount
            + 10 * Price(s.SideAt(side).circulating + sell.amount + 1, DefaultParams())
  {
    hide Inv, Later, Buy, Sell, Purchase, Cost, Price, Balance;
    var c := s.SideAt(side).circulating;
    var bought := Buy(s, buyAt, buy).value;
    BuySpends(s, buyAt, buy, side);
    BuyKeeps(s, buyAt, buy);
    ConfigKeepsInv(bought, config);
    SellEarns(bought.(config := config), sellAt, sell, side);
  }

  lemma BuySpends(s: MarketState, now: int, o: Order, side: Side)
    requires Inv(s) && SideOf(o.side) == Ok(side) && Buy(s, now, o).Ok?
    ensures var s', c, tokens := Buy(s, now, o).value, s.SideAt(side).circulating, Purchase(s, side, o.amount);
            && Balance(s'.wsol, Wallet(o.wallet)) + o.amount >= Balance(s.wsol, Wallet(o.wallet))
            && s'.SideAt(side).circulating == c + tokens
            && Cost(c, tokens, DefaultParams()) <= o.amount
            && (c + tokens < TOTAL_SUPPLY_PER_SIDE ==>
                  20 * Cost(c, tokens, DefaultParams()) + 20 * Price(c + tokens + 1, DefaultParams()) >= 19 * o.amount)
  {
    hide Inv, Buy, Purchase, TokensOut, Cost, Price, Bought, TradeFees, FeesOf, Balance;
    BuyEffect(s, now, o, side, Wallet(o.wallet));
    var fees, tokens := PurchaseFees(s, side, o.amount);
    FeeAtMostTwentieth(s, o.amount, fees);
    if s.SideAt(side).circulating + tokens < TOTAL_SUPPLY_PER_SIDE {
      SpentOnCurve(fees.net, s.SideAt(side).circulating, tokens);
    }
  }

  lemma SellEarns(s: MarketState, now: int, o: Order, side: Side)
    requires Inv(s) && SideOf(o.side) == Ok(side) && Sell(s, now, o).Ok? && o.dest.Wallet?
    ensures o.amount <= s.SideAt(side).circulating
    ensures var raw := Cost(s.SideAt(side).circulating - o.amount, o.amount, DefaultParams());
            20 * Balance(Sell(s, now, o).value.wsol, o.dest) >= 20 * Balance(s.wsol, o.dest) + 19 * raw
  {
    hide Inv, Sell, SolOut, SaleNet, Cost, TradeFees, FeesOf, Balance;
    SellEffect(s, now, o, side, o.dest);
    var raw, fees := SaleFees(s, side, o.amount);
    FeeAtMostTwentieth(s, raw, fees);
  }

  lemma FeeAtMostTwentieth(s: MarketState, gross: nat, fees: Fees)
    requires Inv(s) && gross <= U64_MAX && TradeFees(gross, s.config) == Ok(fees)
    ensures 20 * (fees.protocol + fees.creator) <= gross
  {
    hide Total, Sum, Reserve, TradeFees;
    FeesSplitExactly(gross, s.config);
  }

  /** A purchase that leaves stock spends all but less than the next token costs. */
  lemma SpentOnCurve(sol: nat, c: nat, t: nat)
    requires t == Bought(sol, c, TOTAL_SUPPLY_PER_SIDE, DefaultParams()) && c + t < TOTAL_SUPPLY_PER_SIDE
    ensures Cost(c, t, DefaultParams()) <= sol <= Cost(c, t, DefaultParams()) + Price(c + t + 1, DefaultParams())
  {
    hide Price;
    MarginalCost(c + t, DefaultParams());
    assert Cost(c, t + 1, DefaultParams()) == Cost(c, t, DefaultParams()) + Cost(c + t, 1, DefaultParams());
  }

  lemma ConfigKeepsInv(s: MarketState, config: Settings)
    requires Inv(s) && InBounds(config)
    ensures Inv(s.(config := config))
  {
    hide Total, Sum, Reserve;
  }

  lemma RoundTripCost(c: nat, bought: nat, sold: nat, paid: nat)
    requires sold <= bought
    requires Cost(c, bought, DefaultParams()) <= paid
    ensures Cost(c + bought - sold, sold, DefaultParams()) <= paid
  {
    ReserveMono(c, c + bought - sold, DefaultParams());
  }
}
