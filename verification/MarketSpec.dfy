/** Mode 1 as a state machine: a market of two bonding-curve tokens, from creation through trading and
    price samples to graduation or an emergency draw. Each instruction is a function from a state to
    the next state or an error; an instruction that fails changes nothing. */
module MarketSpec {
  import opened Common
  import opened BondingCurve
  import opened SeedLiquidity
  import opened Ledger
  import opened Config
  import opened Twap

  /** One side's account and the ledger of its own token. */
  datatype SideState = SideState(circulating: nat, accumulator: nat, tokens: Balances)

  /** A recorded sample: when it was taken and the two supplies it was taken at. */
  datatype Sample = Sample(time: int, supplyA: nat, supplyB: nat)

  /** What graduation hands to the DEX. */
  datatype Pool = Pool(sol: nat, tokens: nat, sqrtPrice: nat, liquidity: nat)

  datatype MarketState = MarketState(
    clock: int,
    deadline: int,
    twapWindow: u64,
    twapInterval: u64,
    emergencyWindow: u64,
    creatorFee: Account,
    status: Status,
    samplesCount: nat,
    lastSampleTs: int,
    winner: Option<Side>,
    finalTwapA: nat,
    finalTwapB: nat,
    locked: bool,
    a: SideState,
    b: SideState,
    wsol: Balances,
    config: Settings,
    pool: Option<Pool>,
    samples: seq<Sample>)
  {
    function SideAt(side: Side): SideState {
      if side.A? then a else b
    }

    function WithSide(side: Side, s: SideState): MarketState {
      if side.A? then this.(a := s) else this.(b := s)
    }

    function QuoteVault(side: Side): nat {
      Balance(wsol, Vault(side))
    }

    function TokenVault(side: Side): nat {
      Balance(SideAt(side).tokens, Vault(side))
    }
  }

  // ---------- Creation ----------

  /** `lamports` is what the creator has for the creation fee, which is not paid in the quote mint. */
  function NewMarket(now: int, deadline: int, twapWindow: u64, twapInterval: u64, creatorFee: Account,
                     wsol: Balances, holders: set<nat>, config: Settings, lamports: nat): Result<MarketState>
  {
    var _ :- Require(Vault(A) !in wsol && Vault(B) !in wsol, AccountInUse);
    var _ :- Require(!config.paused, ProtocolPaused);
    var _ :- Require(creatorFee != NO_ACCOUNT, InvalidFeeConfig);
    var _ :- Require(deadline > now, InvalidMarketConfig);
    var duration :- CheckedI64(deadline - now);
    var _ :- Require(duration >= config.minMarketDuration, InvalidMarketConfig);
    var _ :- Require(0 < twapWindow < duration, InvalidMarketConfig);
    var _ :- Require(MIN_TWAP_INTERVAL <= twapInterval <= MAX_TWAP_INTERVAL, InvalidMarketConfig);
    var _ :- Require(config.marketCreationFee <= lamports, InsufficientFunds);
    Ok(MarketState(
         now, deadline, twapWindow, twapInterval, DEFAULT_EMERGENCY_WINDOW, creatorFee,
         Active, 0, 0, None, 0, 0, false,
         SideState(0, 0, Minted(A, holders)), SideState(0, 0, Minted(B, holders)),
         wsol[Vault(A) := 0][Vault(B) := 0], config, None, []))
  }

  /** A side's whole supply starts in its token vault. */
  function Minted(side: Side, holders: set<nat>): Balances {
    Empty(holders)[Vault(side) := TOTAL_SUPPLY_PER_SIDE]
  }

  function Wallets(holders: set<nat>): set<Account> {
    set id | id in holders :: Wallet(id)
  }

  function Empty(holders: set<nat>): Balances {
    map x | x in Wallets(holders) :: 0
  }

  // ---------- Trading ----------

  /** `wallet` pays or delivers; `dest` receives and may be any account of the mint. */
  datatype Order = Order(wallet: nat, side: nat, amount: u64, minOut: u64, dest: Account)

  function Buy(s: MarketState, now: int, o: Order): Result<MarketState> {
    var _ :- Require(s.status != Resolved, MarketAlreadyResolved);
    var side :- SideOf(o.side);
    var acct := s.SideAt(side);
    var _ :- Require(Vault(side) in s.wsol && Wallet(o.wallet) in s.wsol && Vault(side) in acct.tokens
                     && o.dest in acct.tokens, AccountMissing);
    var _ :- Require(s.config.protocolFee in s.wsol && s.creatorFee in s.wsol, AccountMissing);
    var _ :- Require(!s.config.paused, ProtocolPaused);
    var _ :- Require(now < s.deadline, MarketExpired);
    var _ :- Require(o.amount > 0, InsufficientSolAmount);
    var _ :- Require(!s.locked, ReentrancyLocked);
    var settled :- SettlePurchase(acct, s.wsol, side, o, s.creatorFee, s.config);
    Ok(s.WithSide(side, settled.0).(wsol := settled.1))
  }

  /** The part of a purchase that runs under the re-entrancy lock. */
  function SettlePurchase(acct: SideState, wsol: Balances, side: Side, o: Order, creatorFee: Account, config: Settings)
    : Result<(SideState, Balances)>
  {
    var fees :- TradeFees(o.amount, config);
    var tokens :- TokensOut(fees.net, acct.circulating, TOTAL_SUPPLY_PER_SIDE, DefaultParams());
    var _ :- Require(tokens >= o.minOut, SlippageExceeded);
    var _ :- Require(tokens > 0, InsufficientSolAmount);
    var w1 :- Transfer(wsol, Wallet(o.wallet), Vault(side), fees.net);
    var w2 :- TransferIfPositive(w1, Wallet(o.wallet), config.protocolFee, fees.protocol);
    var w3 :- TransferIfPositive(w2, Wallet(o.wallet), creatorFee, fees.creator);
    var held :- Transfer(acct.tokens, Vault(side), o.dest, tokens);
    var circulating :- CheckedAdd(acct.circulating, tokens, U64_MAX);
    var _ :- PriceOf(circulating, DefaultParams());
    Ok((acct.(circulating := circulating, tokens := held), w3))
  }

  function Sell(s: MarketState, now: int, o: Order): Result<MarketState> {
    var _ :- Require(s.status != Resolved, MarketAlreadyResolved);
    var side :- SideOf(o.side);
    var acct := s.SideAt(side);
    var _ :- Require(Vault(side) in s.wsol && o.dest in s.wsol && Vault(side) in acct.tokens
                     && Wallet(o.wallet) in acct.tokens, AccountMissing);
    var _ :- Require(s.config.protocolFee in s.wsol && s.creatorFee in s.wsol, AccountMissing);
    var _ :- Require(!s.config.paused, ProtocolPaused);
    var _ :- Require(now < s.deadline, MarketExpired);
    var _ :- Require(o.amount > 0, InsufficientTokenBalance);
    var _ :- Require(!s.locked, ReentrancyLocked);
    var settled :- SettleSale(acct, s.wsol, side, o, s.creatorFee, s.config);
    Ok(s.WithSide(side, settled.0).(wsol := settled.1))
  }

  function SettleSale(acct: SideState, wsol: Balances, side: Side, o: Order, creatorFee: Account, config: Settings)
    : Result<(SideState, Balances)>
  {
    var raw :- SolOut(o.amount, acct.circulating, DefaultParams());
    var fees :- TradeFees(raw, config);
    var _ :- Require(fees.net >= o.minOut, SlippageExceeded);
    var _ :- Require(Balance(wsol, Vault(side)) >= raw, InsufficientReserve);
    var held :- Transfer(acct.tokens, Wallet(o.wallet), Vault(side), o.amount);
    var w1 :- Transfer(wsol, Vault(side), o.dest, fees.net);
    var w2 :- TransferIfPositive(w1, Vault(side), config.protocolFee, fees.protocol);
    var w3 :- TransferIfPositive(w2, Vault(side), creatorFee, fees.creator);
    var circulating :- CheckedSub(acct.circulating, o.amount);
    var _ :- PriceOf(circulating, DefaultParams());
    Ok((acct.(circulating := circulating, tokens := held), w3))
  }

  /** The fee-free exit from a drawn market. */
  function SellPostResolution(s: MarketState, o: Order): Result<MarketState> {
    var _ :- Require(s.status == Resolved, MarketNotResolved);
    var _ :- Require(s.winner == None, EmergencyOnlyOperation);
    var _ :- Require(!s.locked, ReentrancyLocked);
    var side :- SideOf(o.side);
    var acct := s.SideAt(side);
    var _ :- Require(Vault(side) in s.wsol && o.dest in s.wsol && Vault(side) in acct.tokens
                     && Wallet(o.wallet) in acct.tokens, AccountMissing);
    var _ :- Require(!s.config.paused, ProtocolPaused);
    var _ :- Require(o.amount > 0, InsufficientTokenBalance);
    var settled :- SettleExit(acct, s.wsol, side, o);
    Ok(s.WithSide(side, settled.0).(wsol := settled.1))
  }

  function SettleExit(acct: SideState, wsol: Balances, side: Side, o: Order): Result<(SideState, Balances)> {
    var quote :- SolOut(o.amount, acct.circulating, DefaultParams());
    var _ :- Require(quote >= o.minOut, SlippageExceeded);
    var _ :- Require(Balance(wsol, Vault(side)) >= quote, InsufficientReserve);
    var held :- Transfer(acct.tokens, Wallet(o.wallet), Vault(side), o.amount);
    var w1 :- Transfer(wsol, Vault(side), o.dest, quote);
    var circulating :- CheckedSub(acct.circulating, o.amount);
    var _ :- PriceOf(circulating, DefaultParams());
    Ok((acct.(circulating := circulating, tokens := held), w1))
  }

  // ---------- Sampling and resolution ----------

  function RecordSample(s: MarketState, now: int): Result<MarketState> {
    var _ :- Require(s.status != Resolved, MarketAlreadyResolved);
    var _ :- SampleGuard(now, s.deadline, s.twapWindow, s.twapInterval, s.lastSampleTs);
    var priceA :- PriceOf(s.a.circulating, DefaultParams());
    var priceB :- PriceOf(s.b.circulating, DefaultParams());
    var accA :- CheckedAdd(s.a.accumulator, priceA, U128_MAX);
    var accB :- CheckedAdd(s.b.accumulator, priceB, U128_MAX);
    var count :- CheckedAdd(s.samplesCount, 1, U32_MAX);
    Ok(s.(a := s.a.(accumulator := accA), b := s.b.(accumulator := accB),
          samplesCount := count, lastSampleTs := now, status := TwapObservation,
          samples := s.samples + [Sample(now, s.a.circulating, s.b.circulating)]))
  }

  /** The higher average wins; on an exact tie the larger reserve, and side A if those tie too. */
  function PickWinner(twapA: nat, twapB: nat, reserveA: nat, reserveB: nat): Side {
    if twapA > twapB then A
    else if twapB > twapA then B
    else if reserveA >= reserveB then A else B
  }

  /** The winner and the two averages, if the deadline, the quorum and the caller's expectation allow it. */
  function Decide(s: MarketState, now: int, expected: nat): Result<(nat, nat, Side)> {
    var _ :- Require(now >= s.deadline, MarketNotExpired);
    var quorum :- MinSamples(s.twapWindow, s.twapInterval);
    var _ :- Require(s.samplesCount >= quorum, NoTwapSamples);
    var twapA :- FinalTwap(s.a.accumulator, s.samplesCount);
    var twapB :- FinalTwap(s.b.accumulator, s.samplesCount);
    var winner := PickWinner(twapA, twapB, s.QuoteVault(A), s.QuoteVault(B));
    var _ :- Require(winner.Index() == expected, WinnerMismatch);
    Ok((twapA, twapB, winner))
  }

  function Graduate(s: MarketState, now: int, expected: nat, tokenDest: Account, wsolDest: Account): Result<MarketState> {
    var _ :- Require(s.status != Resolved, MarketAlreadyResolved);
    var _ :- Require(Vault(A) in s.wsol && Vault(B) in s.wsol && Vault(A) in s.a.tokens && Vault(B) in s.b.tokens,
                     AccountMissing);
    var decided :- Decide(s, now, expected);
    var (twapA, twapB, winner) := decided;
    var seeded :- SeedOutcome(s.wsol, s.SideAt(winner).tokens, winner, tokenDest, wsolDest);
    Ok(Graduated(s, winner, twapA, twapB, seeded.2, seeded.0, seeded.1))
  }

  /** Moves the loser's reserve to the winner's vault, and all the winner's vaults hold to the pool's seeds. */
  function SeedOutcome(wsol: Balances, tokens: Balances, winner: Side, tokenDest: Account, wsolDest: Account)
    : Result<(Balances, Balances, Pool)>
  {
    var w1 :- TransferIfPositive(wsol, Vault(winner.Other()), Vault(winner), Balance(wsol, Vault(winner.Other())));
    var sol := Balance(w1, Vault(winner));
    var _ :- Require(sol >= MIN_GRADUATION_RESERVE, InsufficientReserveForGraduation);
    var stock := Balance(tokens, Vault(winner));
    var _ :- Require(stock > 0, InsufficientTokenBalance);
    var held :- Transfer(tokens, Vault(winner), tokenDest, stock);
    var w2 :- Transfer(w1, Vault(winner), wsolDest, sol);
    Ok((w2, held, SeededPool(sol, stock)))
  }

  function SeededPool(sol: nat, tokens: nat): Pool {
    var sqrtPrice := SqrtPriceQ64(sol, tokens);
    Pool(sol, tokens, sqrtPrice, InitialLiquidity(sol, tokens, sqrtPrice))
  }

  function Graduated(s: MarketState, winner: Side, twapA: nat, twapB: nat, pool: Pool,
                     wsol: Balances, held: Balances): MarketState
  {
    s.WithSide(winner, s.SideAt(winner).(tokens := held)).(
    wsol := wsol, pool := Some(pool),
    status := Resolved, winner := Some(winner), finalTwapA := twapA, finalTwapB := twapB)
  }

  function EmergencyDraw(s: MarketState, now: int): Result<MarketState> {
    var _ :- Require(s.status != Resolved, MarketAlreadyResolved);
    var _ :- Require(now >= s.deadline, MarketNotExpired);
    var emergencyDeadline :- CheckedI64(s.deadline + AsI64(s.emergencyWindow));
    var _ :- Require(now >= emergencyDeadline, EmergencyResolveTooEarly);
    Ok(s.(status := Resolved, winner := None, finalTwapA := 0, finalTwapB := 0))
  }

  /** Closes whichever of a side's two vaults is empty. */
  function CloseVaults(s: MarketState, sideIndex: nat): Result<MarketState> {
    var _ :- Require(s.status == Resolved, MarketNotResolved);
    var side :- SideOf(sideIndex);
    var acct := s.SideAt(side);
    var _ :- Require(Vault(side) in s.wsol && Vault(side) in acct.tokens, AccountMissing);
    Ok(s.WithSide(side, acct.(tokens := CloseIfEmpty(acct.tokens, Vault(side)))).(
       wsol := CloseIfEmpty(s.wsol, Vault(side))))
  }

  // ---------- Runs ----------

  /** Which mint a transfer outside the program concerns. */
  datatype Asset = Wsol | Token(side: Side)

  /** A transfer any holder can make without the program, gifts to a vault included. */
  function ExternalTransfer(s: MarketState, asset: Asset, wallet: nat, dest: Account, amount: nat): Result<MarketState> {
    match asset
    case Wsol =>
      var w :- Transfer(s.wsol, Wallet(wallet), dest, amount);
      Ok(s.(wsol := w))
    case Token(side) =>
      var held :- Transfer(s.SideAt(side).tokens, Wallet(wallet), dest, amount);
      Ok(s.WithSide(side, s.SideAt(side).(tokens := held)))
  }

  datatype Action =
    | BuyTokens(order: Order)
    | SellTokens(order: Order)
    | SellAfterDraw(order: Order)
    | TakeSample
    | ResolveAndGraduate(expected: nat, tokenDest: Account, wsolDest: Account)
    | EmergencyResolve
    | UpdateConfig(signer: nat, update: Update)
    | CloseQuoteVault(side: nat)
    | HolderTransfer(asset: Asset, wallet: nat, dest: Account, amount: nat)

  function Step(s: MarketState, now: int, action: Action): Result<MarketState> {
    match action
    case BuyTokens(o) => Buy(s, now, o)
    case SellTokens(o) => Sell(s, now, o)
    case SellAfterDraw(o) => SellPostResolution(s, o)
    case TakeSample => RecordSample(s, now)
    case ResolveAndGraduate(expected, tokenDest, wsolDest) => Graduate(s, now, expected, tokenDest, wsolDest)
    case EmergencyResolve => EmergencyDraw(s, now)
    case UpdateConfig(signer, update) =>
      var config :- Updated(s.config, signer, update);
      Ok(s.(config := config))
    case CloseQuoteVault(side) => CloseVaults(s, side)
    case HolderTransfer(asset, wallet, dest, amount) => ExternalTransfer(s, asset, wallet, dest, amount)
  }

  /** An event is an instruction some time after the previous one, so the clock never goes back. */
  datatype Event = Event(wait: nat, action: Action)

  function Apply(s: MarketState, e: Event): MarketState {
    var now := s.clock + e.wait;
    match Step(s, now, e.action)
    case Ok(next) => next.(clock := now)
    case Err(_) => s.(clock := now)
  }

  function Run(s: MarketState, events: seq<Event>): MarketState
    decreases |events|
  {
    if events == [] then s else Run(Apply(s, events[0]), events[1..])
  }
}
