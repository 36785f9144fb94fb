/** What every instruction of Mode 1 keeps, in every state: solvency, conservation, the sampling
    schedule and the one-way status. */
module MarketInvariant {
  import opened Common
  import opened Arithmetic
  import opened BondingCurve
  import opened CurveProperties
  import opened Ledger
  import opened Config
  import opened Twap
  import opened MarketSpec

  /** The curve's liability: what all circulating tokens of a side would sell for. */
  function Liability(s: MarketState, side: Side): nat {
    Reserve(s.SideAt(side).circulating, DefaultParams())
  }

  /** What a side's quote vault holds beyond that liability. */
  function Surplus(s: MarketState, side: Side): int {
    s.QuoteVault(side) - Liability(s, side)
  }

  /** Tokens returned to a vault as a gift, which circulate for the curve although nobody holds them. */
  function Gifts(s: MarketState, side: Side): int {
    s.TokenVault(side) + s.SideAt(side).circulating - TOTAL_SUPPLY_PER_SIDE
  }

  function SupplyAt(x: Sample, side: Side): nat {
    if side.A? then x.supplyA else x.supplyB
  }

  /** The prices a side was sampled at. */
  function Prices(samples: seq<Sample>, side: Side): seq<nat> {
    seq(|samples|, i requires 0 <= i < |samples| => Price(SupplyAt(samples[i], side), DefaultParams()))
  }

  ghost predicate SideInv(s: MarketState, side: Side) {
    && s.SideAt(side).circulating <= 1_000_000_000
    && Total(s.SideAt(side).tokens) == 1_000_000_000
    && Vault(side.Other()) !in s.SideAt(side).tokens
    && s.SideAt(side).accumulator == Sum(Prices(s.samples, side))
    && (s.winner == None ==> Surplus(s, side) >= 0 && Gifts(s, side) >= 0)
    && (s.status != Resolved ==> Vault(side) in s.wsol && Vault(side) in s.SideAt(side).tokens)
    && (s.winner == None && s.SideAt(side).circulating > 0 ==> Vault(side) in s.wsol)
  }

  ghost predicate Inv(s: MarketState) {
    && s.clock > 0
    && InBounds(s.config)
    && !s.locked
    && Total(s.wsol) <= U64_MAX
    && SideInv(s, A) && SideInv(s, B)
    && OnSchedule(s.deadline, s.twapWindow, s.twapInterval, s.samplesCount, s.lastSampleTs)
    && 10 <= s.twapInterval <= 300
    && s.emergencyWindow == 86_400
    && s.samplesCount == |s.samples| && s.samplesCount <= U32_MAX
    && (forall i :: 0 <= i < |s.samples| ==>
          s.samples[i].supplyA <= 1_000_000_000 && s.samples[i].supplyB <= 1_000_000_000)
    && (s.status == Active ==> s.samplesCount == 0)
    && (s.status == TwapObservation ==> s.samplesCount > 0)
    && (s.winner != None ==> s.status == Resolved)
  }

  ghost predicate SurplusGrows(s: MarketState, s': MarketState, side: Side) {
    s'.winner == None ==> Surplus(s', side) >= Surplus(s, side) && Gifts(s', side) >= Gifts(s, side)
  }

  /** How two states of one run relate, the earlier first. */
  ghost predicate Later(s: MarketState, s': MarketState) {
    && s'.deadline == s.deadline && s'.twapWindow == s.twapWindow && s'.twapInterval == s.twapInterval
    && s'.emergencyWindow == s.emergencyWindow && s'.creatorFee == s.creatorFee
       // Conservation in every mint
    && Total(s'.wsol) == Total(s.wsol)
    && Total(s'.a.tokens) == Total(s.a.tokens) && Total(s'.b.tokens) == Total(s.b.tokens)
       // Surpluses only grow until graduation
    && SurplusGrows(s, s', A) && SurplusGrows(s, s', B)
       // Status goes forward, and a resolution is final
    && s.status.Rank() <= s'.status.Rank()
    && (s.status == Resolved ==>
          s'.winner == s.winner && s'.finalTwapA == s.finalTwapA && s'.finalTwapB == s.finalTwapB && s'.pool == s.pool)
    && s.samples <= s'.samples
    && (s.status == Resolved ==> s'.samples == s.samples)
  }

  /** Nothing differs but the quote ledger and one side's supply and ledger, and no account was opened or closed. */
  predicate OnlyTraded(s: MarketState, side: Side, s': MarketState) {
    && s' == s.(wsol := s'.wsol, a := if side.A? then s'.a else s.a, b := if side.B? then s'.b else s.b)
    && s'.SideAt(side).accumulator == s.SideAt(side).accumulator
    && s'.wsol.Keys == s.wsol.Keys && s'.SideAt(side).tokens.Keys == s.SideAt(side).tokens.Keys
  }

  // ---------- Creation ----------

  lemma MintedTotal(side: Side, holders: set<nat>)
    ensures Total(Minted(side, holders)) == TOTAL_SUPPLY_PER_SIDE
    ensures Balance(Minted(side, holders), Vault(side)) == TOTAL_SUPPLY_PER_SIDE
  {
    ZeroTotal(Empty(holders));
    TotalInsert(Empty(holders), Vault(side), TOTAL_SUPPLY_PER_SIDE);
  }

  /** Every market the program creates starts in a state that satisfies the invariant, before its sampling
      window, with nothing circulating and no surplus. */
  lemma NewMarketInv(now: int, deadline: int, twapWindow: u64, twapInterval: u64, creatorFee: Account,
                     wsol: Balances, holders: set<nat>, config: Settings, lamports: nat)
    requires now > 0 && deadline <= I64_MAX && InBounds(config) && Total(wsol) <= U64_MAX
    requires NewMarket(now, deadline, twapWindow, twapInterval, creatorFee, wsol, holders, config, lamports).Ok?
    ensures var s := NewMarket(now, deadline, twapWindow, twapInterval, creatorFee, wsol, holders, config, lamports).value;
            && Inv(s) && Total(s.wsol) == Total(wsol)
            && s.status == Active && s.clock < s.deadline - s.twapWindow && s.samples == []
            && forall side :: s.SideAt(side).circulating == 0 && Surplus(s, side) == 0 && Gifts(s, side) == 0
  {
    MintedTotal(A, holders);
    MintedTotal(B, holders);
    TotalInsert(wsol, Vault(A), 0);
    TotalInsert(wsol[Vault(A) := 0], Vault(B), 0);
    DefaultCurveAtZero();
  }

  /** What creation stores: every parameter is the caller's, the settings are those in force, the whole supply of
      each side is in its token vault, and everything else starts from nothing. */
  lemma CreatedMarket(now: int, deadline: int, twapWindow: u64, twapInterval: u64, creatorFee: Account,
                      wsol: Balances, holders: set<nat>, config: Settings, lamports: nat)
    requires NewMarket(now, deadline, twapWindow, twapInterval, creatorFee, wsol, holders, config, lamports).Ok?
    ensures var s := NewMarket(now, deadline, twapWindow, twapInterval, creatorFee, wsol, holders, config, lamports).value;
            && s.clock == now && s.deadline == deadline && s.twapWindow == twapWindow && s.twapInterval == twapInterval
            && s.emergencyWindow == 86_400 && s.creatorFee == creatorFee && s.config == config
            && s.status == Active && s.samplesCount == 0 && s.lastSampleTs == 0 && s.samples == []
            && s.winner == None && s.finalTwapA == 0 && s.finalTwapB == 0 && s.pool == None && !s.locked
            && s.wsol.Keys == wsol.Keys + {Vault(A), Vault(B)}
            && (forall x: Account :: Balance(s.wsol, x) == if x.Vault? then 0 else Balance(wsol, x))
            && (forall side: Side ::
                  && s.SideAt(side).circulating == 0 && s.SideAt(side).accumulator == 0
                  && s.SideAt(side).tokens.Keys == Wallets(holders) + {Vault(side)}
                  && (forall x: Account ::
                        Balance(s.SideAt(side).tokens, x) == if x == Vault(side) then 1_000_000_000 else 0))
  {
    var s := NewMarket(now, deadline, twapWindow, twapInterval, creatorFee, wsol, holders, config, lamports).value;
    forall x: Account ensures Balance(s.wsol, x) == if x.Vault? then 0 else Balance(wsol, x) {
      if x.Vault? {
        assert x == Vault(A) || x == Vault(B) by { assert x.side == A || x.side == B; }
      }
    }
  }

  /** A market is created exactly for a deadline at least the configured duration away, a window strictly
      inside it and an interval of 10 seconds to 5 minutes, while the program is not paused, by a creator who
      names a fee account and can pay the creation fee. */
  lemma MarketCreatedExactly(now: i64, deadline: i64, twapWindow: u64, twapInterval: u64, creatorFee: Account,
                             wsol: Balances, holders: set<nat>, config: Settings, lamports: nat)
    requires now > 0 && InBounds(config) && Vault(A) !in wsol && Vault(B) !in wsol
    ensures NewMarket(now, deadline, twapWindow, twapInterval, creatorFee, wsol, holders, config, lamports).Ok? <==>
            && !config.paused
            && now + config.minMarketDuration <= deadline
            && now < deadline - twapWindow < deadline
            && 10 <= twapInterval <= 300
            && creatorFee != NO_ACCOUNT && config.marketCreationFee <= lamports
  {
  }

  /** With which error a creation is refused. */
  lemma CreationRefused(now: i64, deadline: i64, twapWindow: u64, twapInterval: u64, creatorFee: Account,
                        wsol: Balances, holders: set<nat>, config: Settings, lamports: nat)
    requires now > 0 && InBounds(config)
    requires NewMarket(now, deadline, twapWindow, twapInterval, creatorFee, wsol, holders, config, lamports).Err?
    ensures NewMarket(now, deadline, twapWindow, twapInterval, creatorFee, wsol, holders, config, lamports).error ==
            if Vault(A) in wsol || Vault(B) in wsol then AccountInUse
            else if config.paused then ProtocolPaused
            else if creatorFee == NO_ACCOUNT then InvalidFeeConfig
            else if now + config.minMarketDuration <= deadline && now < deadline - twapWindow < deadline
                    && 10 <= twapInterval <= 300 then InsufficientFunds
            else InvalidMarketConfig
  {
  }

  lemma DefaultCurveAtZero()
    ensures Reserve(0, DefaultParams()) == 0
  {
    assert Pow(0, 3) == 0 * Pow(0, 2);
  }

  // ---------- Instructions ----------

  /** The state after the ledgers and one side's supply have changed. */
  function Traded(s: MarketState, side: Side, circulating: nat, tokens: Balances, wsol: Balances): MarketState {
    s.WithSide(side, s.SideAt(side).(circulating := circulating, tokens := tokens)).(wsol := wsol)
  }

  /** What a change of ledgers and supply has to respect. */
  lemma TradeKeeps(s: MarketState, side: Side, circulating: nat, tokens: Balances, wsol: Balances)
    requires Inv(s) && circulating <= TOTAL_SUPPLY_PER_SIDE
    requires Total(tokens) == Total(s.SideAt(side).tokens) && Total(wsol) == Total(s.wsol)
    requires tokens.Keys <= s.SideAt(side).tokens.Keys
    requires s.status != Resolved ==> tokens.Keys == s.SideAt(side).tokens.Keys
    requires s.winner == None && (s.status != Resolved || circulating > 0) ==> Vault(side) in wsol
    requires s.winner == None && Vault(side.Other()) in s.wsol ==> Vault(side.Other()) in wsol
    requires s.winner == None ==>
               && Balance(tokens, Vault(side)) + circulating >= s.TokenVault(side) + s.SideAt(side).circulating
               && Balance(wsol, Vault(side)) - Reserve(circulating, DefaultParams()) >= Surplus(s, side)
               && Balance(wsol, Vault(side.Other())) >= s.QuoteVault(side.Other())
    ensures Inv(Traded(s, side, circulating, tokens, wsol))
    ensures Later(s, Traded(s, side, circulating, tokens, wsol))
  {
    hide Reserve, Total, Sum;
    match side
    case A =>
    case B =>
  }

  /** Three payments from one account: nobody else's vault loses, and the payer loses at most their sum. */
  lemma PaymentsMove(m: Balances, from: Account, d0: Account, a0: nat, d1: Account, a1: nat, d2: Account, a2: nat,
                     w1: Balances, w2: Balances, w3: Balances)
    requires Transfer(m, from, d0, a0) == Ok(w1)
    requires TransferIfPositive(w1, from, d1, a1) == Ok(w2)
    requires TransferIfPositive(w2, from, d2, a2) == Ok(w3)
    ensures w3.Keys == m.Keys && Total(w3) == Total(m)
    ensures forall x :: x != from ==> Balance(w3, x) >= Balance(m, x)
    ensures from != d0 ==> Balance(w3, d0) >= Balance(m, d0) + a0
    ensures Balance(w3, from) >= Balance(m, from) - a0 - a1 - a2
  {
    TransferMoves(m, from, d0, a0);
    OptionalTransferMoves(w1, from, d1, a1);
    OptionalTransferMoves(w2, from, d2, a2);
    assert forall x :: x != from ==> Balance(w1, x) >= Balance(m, x);
    assert forall x :: x != from ==> Balance(w2, x) >= Balance(w1, x);
    assert forall x :: x != from ==> Balance(w3, x) >= Balance(w2, x);
  }

  /** The steps of a successful buy. */
  lemma BuyParts(s: MarketState, now: int, o: Order)
    returns (side: Side, fees: Fees, tokens: nat, w1: Balances, w2: Balances, w3: Balances, held: Balances)
    requires Buy(s, now, o).Ok?
    ensures s.status != Resolved && now < s.deadline && !s.config.paused
    ensures SideOf(o.side) == Ok(side) && TradeFees(o.amount, s.config) == Ok(fees)
    ensures var acct := s.SideAt(side);
            && TokensOut(fees.net, acct.circulating, TOTAL_SUPPLY_PER_SIDE, DefaultParams()) == Ok(tokens)
            && tokens >= o.minOut && tokens > 0
            && Transfer(s.wsol, Wallet(o.wallet), Vault(side), fees.net) == Ok(w1)
            && TransferIfPositive(w1, Wallet(o.wallet), s.config.protocolFee, fees.protocol) == Ok(w2)
            && TransferIfPositive(w2, Wallet(o.wallet), s.creatorFee, fees.creator) == Ok(w3)
            && Transfer(acct.tokens, Vault(side), o.dest, tokens) == Ok(held)
            && Buy(s, now, o) == Ok(Traded(s, side, acct.circulating + tokens, held, w3))
  {
    side := SideOf(o.side).value;
    var acct := s.SideAt(side);
    fees := TradeFees(o.amount, s.config).value;
    tokens := TokensOut(fees.net, acct.circulating, TOTAL_SUPPLY_PER_SIDE, DefaultParams()).value;
    w1 := Transfer(s.wsol, Wallet(o.wallet), Vault(side), fees.net).value;
    w2 := TransferIfPositive(w1, Wallet(o.wallet), s.config.protocolFee, fees.protocol).value;
    w3 := TransferIfPositive(w2, Wallet(o.wallet), s.creatorFee, fees.creator).value;
    held := Transfer(acct.tokens, Vault(side), o.dest, tokens).value;
  }

  lemma BuyKeeps(s: MarketState, now: int, o: Order)
    requires Inv(s) && Buy(s, now, o).Ok?
    ensures Inv(Buy(s, now, o).value) && Later(s, Buy(s, now, o).value)
  {
    hide Buy, Transfer, TransferIfPositive, TradeFees, Traded, Reserve, Total, Sum;
    var side, fees, tokens, w1, w2, w3, held := BuyParts(s, now, o);
    var acct := s.SideAt(side);
    PaymentsMove(s.wsol, Wallet(o.wallet), Vault(side), fees.net, s.config.protocolFee, fees.protocol,
                 s.creatorFee, fees.creator, w1, w2, w3);
    TransferMoves(acct.tokens, Vault(side), o.dest, tokens);
    assert Cost(acct.circulating, tokens, DefaultParams()) <= fees.net;
    TradeKeeps(s, side, acct.circulating + tokens, held, w3);
  }

  /** The steps of a successful sale. */
  lemma SellParts(s: MarketState, now: int, o: Order)
    returns (side: Side, raw: nat, fees: Fees, w1: Balances, w2: Balances, w3: Balances, held: Balances)
    requires Sell(s, now, o).Ok?
    ensures s.status != Resolved && now < s.deadline && !s.config.paused && o.amount > 0
    ensures SideOf(o.side) == Ok(side)
    ensures var acct := s.SideAt(side);
            && SolOut(o.amount, acct.circulating, DefaultParams()) == Ok(raw)
            && TradeFees(raw, s.config) == Ok(fees) && fees.net >= o.minOut
            && Transfer(acct.tokens, Wallet(o.wallet), Vault(side), o.amount) == Ok(held)
            && Transfer(s.wsol, Vault(side), o.dest, fees.net) == Ok(w1)
            && TransferIfPositive(w1, Vault(side), s.config.protocolFee, fees.protocol) == Ok(w2)
            && TransferIfPositive(w2, Vault(side), s.creatorFee, fees.creator) == Ok(w3)
            && o.amount <= acct.circulating
            && Sell(s, now, o) == Ok(Traded(s, side, acct.circulating - o.amount, held, w3))
  {
    side := SideOf(o.side).value;
    var acct := s.SideAt(side);
    raw := SolOut(o.amount, acct.circulating, DefaultParams()).value;
    fees := TradeFees(raw, s.config).value;
    held := Transfer(acct.tokens, Wallet(o.wallet), Vault(side), o.amount).value;
    w1 := Transfer(s.wsol, Vault(side), o.dest, fees.net).value;
    w2 := TransferIfPositive(w1, Vault(side), s.config.protocolFee, fees.protocol).value;
    w3 := TransferIfPositive(w2, Vault(side), s.creatorFee, fees.creator).value;
  }

  lemma SellKeeps(s: MarketState, now: int, o: Order)
    requires Inv(s) && Sell(s, now, o).Ok?
    ensures Inv(Sell(s, now, o).value) && Later(s, Sell(s, now, o).value)
  {
    hide Sell, Transfer, TransferIfPositive, SolOut, TradeFees, Traded, Reserve, Total, Sum;
    var side, raw, fees, w1, w2, w3, held := SellParts(s, now, o);
    var acct := s.SideAt(side);
    DefaultSolOut(o.amount, acct.circulating);
    DefaultCurve(acct.circulating);
    FeesSplitExactly(raw, s.config);
    PaymentsMove(s.wsol, Vault(side), o.dest, fees.net, s.config.protocolFee, fees.protocol,
                 s.creatorFee, fees.creator, w1, w2, w3);
    TransferMoves(acct.tokens, Wallet(o.wallet), Vault(side), o.amount);
    TradeKeeps(s, side, acct.circulating - o.amount, held, w3);
  }

  /** The steps of a successful sale after a draw. */
  lemma SellPostParts(s: MarketState, o: Order)
    returns (side: Side, quote: nat, w1: Balances, held: Balances)
    requires SellPostResolution(s, o).Ok?
    ensures s.status == Resolved && s.winner == None && o.amount > 0
    ensures SideOf(o.side) == Ok(side)
    ensures var acct := s.SideAt(side);
            && SolOut(o.amount, acct.circulating, DefaultParams()) == Ok(quote)
            && Transfer(acct.tokens, Wallet(o.wallet), Vault(side), o.amount) == Ok(held)
            && Transfer(s.wsol, Vault(side), o.dest, quote) == Ok(w1)
            && o.amount <= acct.circulating
            && SellPostResolution(s, o) == Ok(Traded(s, side, acct.circulating - o.amount, held, w1))
  {
    side := SideOf(o.side).value;
    var acct := s.SideAt(side);
    quote := SolOut(o.amount, acct.circulating, DefaultParams()).value;
    held := Transfer(acct.tokens, Wallet(o.wallet), Vault(side), o.amount).value;
    w1 := Transfer(s.wsol, Vault(side), o.dest, quote).value;
  }

  lemma SellPostResolutionKeeps(s: MarketState, o: Order)
    requires Inv(s) && SellPostResolution(s, o).Ok?
    ensures Inv(SellPostResolution(s, o).value) && Later(s, SellPostResolution(s, o).value)
  {
    hide SellPostResolution, SolOut, Transfer, Traded, Reserve, Total, Sum;
    var side, quote, w1, held := SellPostParts(s, o);
    var acct := s.SideAt(side);
    DefaultSolOut(o.amount, acct.circulating);
    TransferMoves(acct.tokens, Wallet(o.wallet), Vault(side), o.amount);
    TransferMoves(s.wsol, Vault(side), o.dest, quote);
    TradeKeeps(s, side, acct.circulating - o.amount, held, w1);
  }

  lemma RecordSampleKeeps(s: MarketState, now: int)
    requires Inv(s) && now > 0 && RecordSample(s, now).Ok?
    ensures Inv(RecordSample(s, now).value) && Later(s, RecordSample(s, now).value)
  {
    SampleKeepsSchedule(now, s.deadline, s.twapWindow, s.twapInterval, s.samplesCount, s.lastSampleTs);
    DefaultCurve(s.a.circulating);
    DefaultCurve(s.b.circulating);
    var x := Sample(now, s.a.circulating, s.b.circulating);
    forall side {
      PricesAppend(s.samples, x, side);
    }
  }

  lemma PricesAppend(samples: seq<Sample>, x: Sample, side: Side)
    ensures Sum(Prices(samples + [x], side)) == Sum(Prices(samples, side)) + Price(SupplyAt(x, side), DefaultParams())
  {
    SumAppend(Prices(samples, side), Price(SupplyAt(x, side), DefaultParams()));
    assert Prices(samples + [x], side) == Prices(samples, side) + [Price(SupplyAt(x, side), DefaultParams())];
  }

  /** The steps of a successful graduation. */
  lemma GraduateParts(s: MarketState, now: int, expected: nat, tokenDest: Account, wsolDest: Account)
    returns (winner: Side, twapA: nat, twapB: nat, w1: Balances, w2: Balances, held: Balances)
    requires Graduate(s, now, expected, tokenDest, wsolDest).Ok?
    ensures s.status != Resolved && now >= s.deadline
    ensures MinSamples(s.twapWindow, s.twapInterval).Ok?
            && s.samplesCount >= MinSamples(s.twapWindow, s.twapInterval).value
    ensures FinalTwap(s.a.accumulator, s.samplesCount) == Ok(twapA)
    ensures FinalTwap(s.b.accumulator, s.samplesCount) == Ok(twapB)
    ensures winner == PickWinner(twapA, twapB, s.QuoteVault(A), s.QuoteVault(B)) && winner.Index() == expected
    ensures TransferIfPositive(s.wsol, Vault(winner.Other()), Vault(winner), s.QuoteVault(winner.Other())) == Ok(w1)
    ensures var sol, tokens, acct := Balance(w1, Vault(winner)), s.TokenVault(winner), s.SideAt(winner);
            && sol >= MIN_GRADUATION_RESERVE && tokens > 0
            && Transfer(acct.tokens, Vault(winner), tokenDest, tokens) == Ok(held)
            && Transfer(w1, Vault(winner), wsolDest, sol) == Ok(w2)
            && Graduate(s, now, expected, tokenDest, wsolDest)
               == Ok(Graduated(s, winner, twapA, twapB, SeededPool(sol, tokens), w2, held))
  {
    hide SeededPool;
    twapA := FinalTwap(s.a.accumulator, s.samplesCount).value;
    twapB := FinalTwap(s.b.accumulator, s.samplesCount).value;
    winner := PickWinner(twapA, twapB, s.QuoteVault(A), s.QuoteVault(B));
    w1 := TransferIfPositive(s.wsol, Vault(winner.Other()), Vault(winner), s.QuoteVault(winner.Other())).value;
    held := Transfer(s.SideAt(winner).tokens, Vault(winner), tokenDest, s.TokenVault(winner)).value;
    w2 := Transfer(w1, Vault(winner), wsolDest, Balance(w1, Vault(winner))).value;
  }

  lemma GraduatedKeeps(s: MarketState, winner: Side, twapA: nat, twapB: nat, pool: Pool, wsol: Balances, held: Balances)
    requires Inv(s) && s.status != Resolved
    requires Total(wsol) == Total(s.wsol) && Total(held) == Total(s.SideAt(winner).tokens)
    requires held.Keys == s.SideAt(winner).tokens.Keys
    ensures Inv(Graduated(s, winner, twapA, twapB, pool, wsol, held))
    ensures Later(s, Graduated(s, winner, twapA, twapB, pool, wsol, held))
  {
    hide Reserve, Total, Sum;
    match winner
    case A =>
    case B =>
  }

  lemma GraduateKeeps(s: MarketState, now: int, expected: nat, tokenDest: Account, wsolDest: Account)
    requires Inv(s) && Graduate(s, now, expected, tokenDest, wsolDest).Ok?
    ensures var s' := Graduate(s, now, expected, tokenDest, wsolDest).value; Inv(s') && Later(s, s')
  {
    hide Graduate, Transfer, TransferIfPositive, Reserve, Total, Sum, Graduated, PickWinner, FinalTwap, MinSamples;
    var winner, twapA, twapB, w1, w2, held := GraduateParts(s, now, expected, tokenDest, wsolDest);
    OptionalTransferMoves(s.wsol, Vault(winner.Other()), Vault(winner), s.QuoteVault(winner.Other()));
    TransferMoves(w1, Vault(winner), wsolDest, Balance(w1, Vault(winner)));
    TransferMoves(s.SideAt(winner).tokens, Vault(winner), tokenDest, s.TokenVault(winner));
    GraduatedKeeps(s, winner, twapA, twapB, SeededPool(Balance(w1, Vault(winner)), s.TokenVault(winner)), w2, held);
  }

  lemma CloseVaultsKeeps(s: MarketState, sideIndex: nat)
    requires Inv(s) && CloseVaults(s, sideIndex).Ok?
    ensures Inv(CloseVaults(s, sideIndex).value) && Later(s, CloseVaults(s, sideIndex).value)
  {
    hide Reserve, Total, Sum;
    var side := SideOf(sideIndex).value;
    var acct := s.SideAt(side);
    CloseEffect(s.wsol, Vault(side));
    CloseEffect(acct.tokens, Vault(side));
    if s.winner == None && acct.circulating > 0 {
      DefaultCurve(acct.circulating);
    }
    TradeKeeps(s, side, acct.circulating, CloseIfEmpty(acct.tokens, Vault(side)), CloseIfEmpty(s.wsol, Vault(side)));
  }

  lemma ExternalTransferKeeps(s: MarketState, asset: Asset, wallet: nat, dest: Account, amount: nat)
    requires Inv(s) && ExternalTransfer(s, asset, wallet, dest, amount).Ok?
    ensures var s' := ExternalTransfer(s, asset, wallet, dest, amount).value; Inv(s') && Later(s, s')
  {
    hide Transfer, Reserve, Total, Sum;
    match asset
    case Wsol =>
      TransferMoves(s.wsol, Wallet(wallet), dest, amount);
      TradeKeeps(s, A, s.a.circulating, s.a.tokens, Transfer(s.wsol, Wallet(wallet), dest, amount).value);
    case Token(side) =>
      var acct := s.SideAt(side);
      TransferMoves(acct.tokens, Wallet(wallet), dest, amount);
      TradeKeeps(s, side, acct.circulating, Transfer(acct.tokens, Wallet(wallet), dest, amount).value, s.wsol);
  }

  lemma StepKeeps(s: MarketState, now: int, action: Action)
    requires Inv(s) && now > 0 && Step(s, now, action).Ok?
    ensures Inv(Step(s, now, action).value) && Later(s, Step(s, now, action).value)
  {
    hide Buy, Sell, SellPostResolution, RecordSample, Graduate, CloseVaults, ExternalTransfer, Reserve, Total, Sum;
    match action
    case BuyTokens(o) => BuyKeeps(s, now, o);
    case SellTokens(o) => SellKeeps(s, now, o);
    case SellAfterDraw(o) => SellPostResolutionKeeps(s, o);
    case TakeSample => RecordSampleKeeps(s, now);
    case ResolveAndGraduate(expected, tokenDest, wsolDest) => GraduateKeeps(s, now, expected, tokenDest, wsolDest);
    case EmergencyResolve =>
    case UpdateConfig(signer, update) =>
    case CloseQuoteVault(side) => CloseVaultsKeeps(s, side);
    case HolderTransfer(asset, wallet, dest, amount) => ExternalTransferKeeps(s, asset, wallet, dest, amount);
  }
}
