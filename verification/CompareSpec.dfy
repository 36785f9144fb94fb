/** Mode 2 as a state machine: a compare duel pools deposits on two existing tokens, samples their oracle
    prices, and pays the pool to the side whose token performed better. Each instruction is a function
    from a state to the next state or an error; an instruction that fails changes nothing. */
module CompareSpec {
  import opened Common
  import opened Ledger
  import opened Config
  import opened Oracle
  import opened Performance
  import opened Twap

  datatype DepositRecord = DepositRecord(side: Side, amount: nat, withdrawn: bool)

  datatype PriceSample = PriceSample(time: int, priceA: nat, priceB: nat)

  datatype DuelState = DuelState(
    clock: int,
    deadline: int,
    twapWindow: u64,
    twapInterval: u64,
    emergencyWindow: u64,
    minDeposit: nat,
    creatorFee: Account,
    protocolFee: Account,
    status: Status,
    totalA: nat,
    totalB: nat,
    startPriceA: nat,
    startPriceB: nat,
    accumulatorA: nat,
    accumulatorB: nat,
    samplesCount: nat,
    lastSampleTs: int,
    winner: Option<Side>,
    netPool: nat,
    deposits: map<nat, DepositRecord>,
    wsol: Balances,
    config: Settings,
    samples: seq<PriceSample>)
  {
    function TotalOf(side: Side): nat {
      if side.A? then totalA else totalB
    }

    function PoolVault(side: Side): nat {
      Balance(wsol, Vault(side))
    }
  }

  // ---------- Creation ----------

  /** `lamports` is what the creator has for the creation fee, which is not paid in the quote mint. */
  function NewDuel(now: int, deadline: int, twapWindow: u64, twapInterval: u64, minDeposit: u64,
                   mintA: nat, mintB: nat, creatorFee: Account, protocolFee: Account,
                   wsol: Balances, config: Settings, lamports: nat): Result<DuelState>
  {
    var _ :- Require(Vault(A) !in wsol && Vault(B) !in wsol, AccountInUse);
    var _ :- Require(!config.paused, ProtocolPaused);
    var _ :- Require(protocolFee == config.protocolFee, InvalidFeeConfig);
    var _ :- Require(creatorFee != NO_ACCOUNT, InvalidFeeConfig);
    var _ :- Require(deadline > now, InvalidMarketConfig);
    var duration :- CheckedI64(deadline - now);
    var _ :- Require(duration >= config.minMarketDuration, InvalidMarketConfig);
    var _ :- Require(0 < twapWindow < duration, InvalidMarketConfig);
    var _ :- Require(MIN_TWAP_INTERVAL <= twapInterval <= MAX_TWAP_INTERVAL, InvalidMarketConfig);
    var _ :- Require(mintA != mintB, InvalidMarketConfig);
    var _ :- Require(config.marketCreationFee <= lamports, InsufficientFunds);
    Ok(DuelState(
         now, deadline, twapWindow, twapInterval, DEFAULT_EMERGENCY_WINDOW,
         if minDeposit > 0 then minDeposit else DEFAULT_MIN_DEPOSIT, creatorFee, protocolFee,
         Active, 0, 0, 0, 0, 0, 0, 0, 0, None, 0, map[], wsol[Vault(A) := 0][Vault(B) := 0], config, []))
  }

  // ---------- Deposits ----------

  /** One deposit per depositor, before the sampling window opens. */
  function Deposit(s: DuelState, now: int, depositor: nat, wallet: nat, sideIndex: nat, amount: u64, vault: Account): Result<DuelState> {
    var _ :- Require(s.status == Active, MarketAlreadyResolved);
    var _ :- Require(depositor !in s.deposits, AccountInUse);
    var _ :- Require(vault in s.wsol && Wallet(wallet) in s.wsol, AccountMissing);
    var _ :- Require(vault.Vault?, InvalidSide);
    var _ :- Require(!s.config.paused, ProtocolPaused);
    var side :- SideOf(sideIndex);
    var _ :- Require(amount >= s.minDeposit, DepositTooSmall);
    var cutoff :- CheckedI64(s.deadline - AsI64(s.twapWindow));
    var _ :- Require(now < cutoff, DepositPeriodEnded);
    var _ :- Require(vault == Vault(side), InvalidSide);
    var wsol :- Transfer(s.wsol, Wallet(wallet), vault, amount);
    var total :- CheckedAdd(s.TotalOf(side), amount, U64_MAX);
    Ok(Deposited(s, depositor, side, amount, total, wsol))
  }

  function Deposited(s: DuelState, depositor: nat, side: Side, amount: nat, total: nat, wsol: Balances): DuelState {
    s.(totalA := if side.A? then total else s.totalA,
    totalB := if side.B? then total else s.totalB,
    deposits := s.deposits[depositor := DepositRecord(side, amount, false)],
    wsol := wsol)
  }

  // ---------- Sampling ----------

  function RecordPrices(s: DuelState, now: int, feedA: PriceFeed, feedB: PriceFeed): Result<DuelState> {
    var _ :- Require(s.status != Resolved, MarketAlreadyResolved);
    var _ :- SampleGuard(now, s.deadline, s.twapWindow, s.twapInterval, s.lastSampleTs);
    var priceA :- GetOraclePrice(feedA);
    var priceB :- GetOraclePrice(feedB);
    Accumulate(s, now, priceA, priceB)
  }

  /** The first sample also fixes the starting prices. */
  function Accumulate(s: DuelState, now: int, priceA: nat, priceB: nat): Result<DuelState> {
    var accA :- CheckedAdd(s.accumulatorA, priceA, U128_MAX);
    var accB :- CheckedAdd(s.accumulatorB, priceB, U128_MAX);
    var count :- CheckedAdd(s.samplesCount, 1, U32_MAX);
    Ok(s.(startPriceA := if s.samplesCount == 0 then priceA else s.startPriceA,
          startPriceB := if s.samplesCount == 0 then priceB else s.startPriceB,
          accumulatorA := accA, accumulatorB := accB,
          samplesCount := count, lastSampleTs := now, status := TwapObservation,
          samples := s.samples + [PriceSample(now, priceA, priceB)]))
  }

  // ---------- Resolution ----------

  /** Who won, if the deadline, the quorum, the deposits and the prices allow a resolution. */
  function DecideDuel(s: DuelState, now: int): Result<Option<Side>> {
    var _ :- Require(now >= s.deadline, MarketNotExpired);
    var quorum :- MinSamples(s.twapWindow, s.twapInterval);
    var _ :- Require(s.samplesCount >= quorum, NoTwapSamples);
    var _ :- Require(s.totalA > 0 && s.totalB > 0, OneSideEmpty);
    var twapA :- FinalTwap(s.accumulatorA, s.samplesCount);
    var twapB :- FinalTwap(s.accumulatorB, s.samplesCount);
    CompareWinner(twapA, s.startPriceA, twapB, s.startPriceB)
  }

  /** Collects the pool in the winner's vault, pays the fees out of it, and says what is left to share. */
  function CollectPool(wsol: Balances, winner: Side, totalPool: nat, protocolFee: Account, creatorFee: Account, config: Settings)
    : Result<(Balances, nat)>
  {
    var w1 :- TransferIfPositive(wsol, Vault(winner.Other()), Vault(winner), Balance(wsol, Vault(winner.Other())));
    var fees :- TradeFees(totalPool, config);
    var w2 :- TransferIfPositive(w1, Vault(winner), protocolFee, fees.protocol);
    var w3 :- TransferIfPositive(w2, Vault(winner), creatorFee, fees.creator);
    Ok((w3, fees.net))
  }

  function ResolveCompare(s: DuelState, now: int): Result<DuelState> {
    var _ :- Require(s.status != Resolved, MarketAlreadyResolved);
    var _ :- Require(Vault(A) in s.wsol && Vault(B) in s.wsol && s.protocolFee in s.wsol && s.creatorFee in s.wsol,
                     AccountMissing);
    var winner :- DecideDuel(s, now);
    var totalPool :- CheckedAdd(s.totalA, s.totalB, U64_MAX);
    match winner
    case Some(side) =>
      var collected :- CollectPool(s.wsol, side, totalPool, s.protocolFee, s.creatorFee, s.config);
      Ok(s.(status := Resolved, winner := Some(side), netPool := collected.1, wsol := collected.0))
    case None =>
      Ok(s.(status := Resolved, winner := None, netPool := totalPool))
  }

  function EmergencyDrawCompare(s: DuelState, now: int): Result<DuelState> {
    var _ :- Require(s.status != Resolved, MarketAlreadyResolved);
    var _ :- Require(now >= s.deadline, MarketNotExpired);
    var emergencyDeadline :- CheckedI64(s.deadline + AsI64(s.emergencyWindow));
    var _ :- Require(now >= emergencyDeadline, EmergencyResolveTooEarly);
    var totalPool :- CheckedAdd(s.totalA, s.totalB, U64_MAX);
    Ok(s.(status := Resolved, winner := None, netPool := totalPool))
  }

  // ---------- Withdrawal ----------

  /** A winner's share of the pool, a loser's nothing, or everybody's deposit back after a draw;
      `vault` must be the one that pays. */
  function PayoutFrom(s: DuelState, record: DepositRecord, vault: Account): Result<nat> {
    match s.winner
    case Some(side) =>
      if record.side == side then
        var _ :- Require(vault == Vault(side), InvalidSide);
        var product :- CheckedMul(record.amount, s.netPool, U128_MAX);
        var share :- CheckedDiv(product, s.TotalOf(side));
        Ok(AsU64(share))
      else Ok(0)
    case None =>
      var _ :- Require(vault == Vault(record.side), InvalidSide);
      Ok(record.amount)
  }

  function Withdraw(s: DuelState, depositor: nat, vault: Account, dest: Account): Result<DuelState> {
    var _ :- Require(s.status == Resolved, DuelNotResolved);
    var _ :- Require(depositor in s.deposits && vault in s.wsol && dest in s.wsol, AccountMissing);
    var record := s.deposits[depositor];
    var _ :- Require(!record.withdrawn, AlreadyWithdrawn);
    var _ :- Require(vault.Vault?, InvalidSide);
    var payout :- PayoutFrom(s, record, vault);
    var wsol :- TransferIfPositive(s.wsol, vault, dest, payout);
    Ok(s.(wsol := wsol, deposits := s.deposits[depositor := record.(withdrawn := true)]))
  }

  // ---------- Runs ----------

  datatype Action =
    | DepositSol(depositor: nat, wallet: nat, side: nat, amount: u64, vault: Account)
    | TakePrices(feedA: PriceFeed, feedB: PriceFeed)
    | Resolve
    | EmergencyResolve
    | WithdrawPayout(depositor: nat, vault: Account, dest: Account)
    | UpdateConfig(signer: nat, update: Update)
    | HolderTransfer(wallet: nat, dest: Account, amount: u64)

  function Step(s: DuelState, now: int, action: Action): Result<DuelState> {
    match action
    case DepositSol(depositor, wallet, side, amount, vault) => Deposit(s, now, depositor, wallet, side, amount, vault)
    case TakePrices(feedA, feedB) => RecordPrices(s, now, feedA, feedB)
    case Resolve => ResolveCompare(s, now)
    case EmergencyResolve => EmergencyDrawCompare(s, now)
    case WithdrawPayout(depositor, vault, dest) => Withdraw(s, depositor, vault, dest)
    case UpdateConfig(signer, update) =>
      var config :- Updated(s.config, signer, update);
      Ok(s.(config := config))
    case HolderTransfer(wallet, dest, amount) =>
      var wsol :- Transfer(s.wsol, Wallet(wallet), dest, amount);
      Ok(s.(wsol := wsol))
  }

  datatype Event = Event(wait: nat, action: Action)

  function Apply(s: DuelState, e: Event): DuelState {
    var now := s.clock + e.wait;
    match Step(s, now, e.action)
    case Ok(next) => next.(clock := now)
    case Err(_) => s.(clock := now)
  }

  function Run(s: DuelState, events: seq<Event>): DuelState
    decreases |events|
  {
    if events == [] then s else Run(Apply(s, events[0]), events[1..])
  }
}
