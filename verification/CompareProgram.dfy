/** Mode 2 as the program runs it: the duel account, its deposit records and the quote mint, updated in
    place by the instruction handlers. Each handler is proved to be the corresponding function of
    `CompareSpec`, and to change nothing when it fails. */
module CompareProgram {
  import opened Common
  import opened Ledger
  import opened Config
  import opened Oracle
  import opened Performance
  import opened Twap
  import opened CompareSpec

  class DuelAccount {
    const deadline: int
    const twapWindow: u64
    const twapInterval: u64
    const emergencyWindow: u64
    const minDeposit: nat
    const creatorFee: Account
    const protocolFee: Account
    const quoteMint: Mint
    const config: ProgramConfig

    var status: Status
    var sideATotal: nat
    var sideBTotal: nat
    var startPriceA: nat
    var startPriceB: nat
    var twapAccumulatorA: nat
    var twapAccumulatorB: nat
    var twapSamplesCount: nat
    var lastSampleTs: int
    var winner: Option<Side>
    var netPool: nat
    var deposits: map<nat, DepositRecord>

    ghost var clock: int
    ghost var samples: seq<PriceSample>

    ghost function State(): DuelState
      reads this, quoteMint, config
    {
      DuelState(clock, deadline, twapWindow, twapInterval, emergencyWindow, minDeposit, creatorFee, protocolFee,
                status, sideATotal, sideBTotal, startPriceA, startPriceB, twapAccumulatorA, twapAccumulatorB,
                twapSamplesCount, lastSampleTs, winner, netPool, deposits, quoteMint.balances, config.Current(), samples)
    }

    /** What the runtime does with the outcome of an instruction: all of it or nothing. */
    twostate predicate Executes(expected: Result<DuelState>, new r: Result<()>)
      reads this, quoteMint, config
    {
      match expected
      case Ok(s) => r == Ok(()) && State() == s
      case Err(e) => r == Err(e) && State() == old(State())
    }

    constructor (clock: int, deadline: int, twapWindow: u64, twapInterval: u64, minDeposit: nat,
                 creatorFee: Account, protocolFee: Account, quoteMint: Mint, config: ProgramConfig)
      ensures this.quoteMint == quoteMint && this.config == config
      ensures State() == DuelState(clock, deadline, twapWindow, twapInterval, DEFAULT_EMERGENCY_WINDOW, minDeposit,
                                   creatorFee, protocolFee, Active, 0, 0, 0, 0, 0, 0, 0, 0, None, 0, map[],
                                   quoteMint.balances, config.Current(), [])
    {
      this.deadline, this.twapWindow, this.twapInterval := deadline, twapWindow, twapInterval;
      this.emergencyWindow, this.minDeposit := DEFAULT_EMERGENCY_WINDOW, minDeposit;
      this.creatorFee, this.protocolFee, this.quoteMint, this.config := creatorFee, protocolFee, quoteMint, config;
      status, sideATotal, sideBTotal, startPriceA, startPriceB := Active, 0, 0, 0, 0;
      twapAccumulatorA, twapAccumulatorB, twapSamplesCount, lastSampleTs := 0, 0, 0, 0;
      winner, netPool, deposits := None, 0, map[];
      this.clock, samples := clock, [];
    }

    static method Initialize(now: int, deadline: int, twapWindow: u64, twapInterval: u64, minDeposit: u64,
                             mintA: nat, mintB: nat, creatorFee: Account, protocolFee: Account,
                             quoteMint: Mint, config: ProgramConfig, lamports: nat)
      returns (r: Result<DuelAccount>)
      modifies quoteMint
      ensures match NewDuel(now, deadline, twapWindow, twapInterval, minDeposit, mintA, mintB, creatorFee, protocolFee,
                            old(quoteMint.balances), old(config.Current()), lamports)
              case Ok(s) => r.Ok? && fresh(r.value) && r.value.State() == s
              case Err(e) => r == Err(e) && quoteMint.balances == old(quoteMint.balances)
    {
      if Vault(A) in quoteMint.balances || Vault(B) in quoteMint.balances {
        return Err(AccountInUse);
      }
      var settings := config.Read();
      if settings.paused {
        return Err(ProtocolPaused);
      }
      if protocolFee != settings.protocolFee || creatorFee == NO_ACCOUNT {
        return Err(InvalidFeeConfig);
      }
      if deadline <= now {
        return Err(InvalidMarketConfig);
      }
      var duration := CheckedI64(deadline - now);
      if duration.Err? {
        return Err(duration.error);
      }
      if duration.value < settings.minMarketDuration || twapWindow == 0 || twapWindow >= duration.value
         || twapInterval < MIN_TWAP_INTERVAL || twapInterval > MAX_TWAP_INTERVAL || mintA == mintB {
        return Err(InvalidMarketConfig);
      }
      if settings.marketCreationFee > 0 && settings.marketCreationFee > lamports {
        return Err(InsufficientFunds);
      }
      var effective: nat := DEFAULT_MIN_DEPOSIT;
      if minDeposit > 0 {
        effective := minDeposit;
      }
      quoteMint.balances := quoteMint.balances[Vault(A) := 0][Vault(B) := 0];
      var duel := new DuelAccount(now, deadline, twapWindow, twapInterval, effective, creatorFee, protocolFee, quoteMint, config);
      return Ok(duel);
    }

    method DepositSol(now: int, depositor: nat, wallet: nat, sideIndex: nat, amount: u64, vault: Account) returns (r: Result<()>)
      modifies this, quoteMint
      ensures Executes(Deposit(old(State()), now, depositor, wallet, sideIndex, amount, vault), r)
    {
      hide Transfer;
      if status != Active {
        return Err(MarketAlreadyResolved);
      }
      if depositor in deposits {
        return Err(AccountInUse);
      }
      if vault !in quoteMint.balances || Wallet(wallet) !in quoteMint.balances {
        return Err(AccountMissing);
      }
      if !vault.Vault? {
        return Err(InvalidSide);
      }
      if config.paused {
        return Err(ProtocolPaused);
      }
      var side :- SideOf(sideIndex);
      if amount < minDeposit {
        return Err(DepositTooSmall);
      }
      var cutoff :- CheckedI64(deadline - AsI64(twapWindow));
      if now >= cutoff {
        return Err(DepositPeriodEnded);
      }
      if vault != Vault(side) {
        return Err(InvalidSide);
      }
      var before := quoteMint.balances;
      var _ :- quoteMint.TransferChecked(Wallet(wallet), vault, amount);
      var total := CheckedAdd(if side.A? then sideATotal else sideBTotal, amount, U64_MAX);
      if total.Err? {
        quoteMint.balances := before;
        return Err(total.error);
      }
      if side.A? {
        sideATotal := total.value;
      } else {
        sideBTotal := total.value;
      }
      deposits := deposits[depositor := DepositRecord(side, amount, false)];
      return Ok(());
    }

    method TakePrices(now: int, feedA: PriceFeed, feedB: PriceFeed) returns (r: Result<()>)
      modifies this
      ensures Executes(RecordPrices(old(State()), now, feedA, feedB), r)
    {
      hide SampleGuard, GetOraclePrice, Accumulate;
      if status == Resolved {
        return Err(MarketAlreadyResolved);
      }
      var _ :- SampleGuard(now, deadline, twapWindow, twapInterval, lastSampleTs);
      var priceA :- GetOraclePrice(feedA);
      var priceB :- GetOraclePrice(feedB);
      r := AddSample(now, priceA, priceB);
    }

    method AddSample(now: int, priceA: nat, priceB: nat) returns (r: Result<()>)
      requires status != Resolved
      modifies this
      ensures Executes(Accumulate(old(State()), now, priceA, priceB), r)
    {
      var accA :- CheckedAdd(twapAccumulatorA, priceA, U128_MAX);
      var accB :- CheckedAdd(twapAccumulatorB, priceB, U128_MAX);
      var count :- CheckedAdd(twapSamplesCount, 1, U32_MAX);
      if twapSamplesCount == 0 {
        startPriceA := priceA;
        startPriceB := priceB;
      }
      StoreSample(now, priceA, priceB, accA, accB, count);
      return Ok(());
    }

    method StoreSample(now: int, ghost priceA: nat, ghost priceB: nat, accA: nat, accB: nat, count: nat)
      requires status != Resolved
      modifies this
      ensures State() == old(State()).(accumulatorA := accA, accumulatorB := accB, samplesCount := count,
                                       lastSampleTs := now, status := TwapObservation,
                                       samples := old(samples) + [PriceSample(now, priceA, priceB)])
    {
      twapAccumulatorA := accA;
      twapAccumulatorB := accB;
      twapSamplesCount := count;
      lastSampleTs := now;
      if status == Active {
        status := TwapObservation;
      }
      samples := samples + [PriceSample(now, priceA, priceB)];
    }

    /** Moves the loser's vault to the winner's and pays the fees from it. */
    method Collect(side: Side, totalPool: nat, settings: Settings) returns (r: Result<nat>)
      modifies quoteMint
      ensures match CollectPool(old(quoteMint.balances), side, totalPool, protocolFee, creatorFee, settings)
              case Ok((wsol, net)) => r == Ok(net) && quoteMint.balances == wsol
              case Err(e) => r == Err(e) && quoteMint.balances == old(quoteMint.balances)
    {
      hide Transfer, TradeFees;
      var before := quoteMint.balances;
      var moved := Ok(());
      var loserAmount := Balance(quoteMint.balances, Vault(side.Other()));
      if loserAmount > 0 {
        moved := quoteMint.TransferChecked(Vault(side.Other()), Vault(side), loserAmount);
      }
      var fees := TradeFees(totalPool, settings);
      if moved.Ok? && fees.Err? {
        moved := Err(fees.error);
      }
      if moved.Ok? && fees.value.protocol > 0 {
        moved := quoteMint.TransferChecked(Vault(side), protocolFee, fees.value.protocol);
      }
      if moved.Ok? && fees.value.creator > 0 {
        moved := quoteMint.TransferChecked(Vault(side), creatorFee, fees.value.creator);
      }
      if moved.Err? {
        quoteMint.balances := before;
        return Err(moved.error);
      }
      return Ok(fees.value.net);
    }

    method Resolve(now: int) returns (r: Result<()>)
      modifies this, quoteMint
      ensures Executes(ResolveCompare(old(State()), now), r)
    {
      hide CollectPool, MinSamples, FinalTwap, CompareWinner;
      if status == Resolved {
        return Err(MarketAlreadyResolved);
      }
      if Vault(A) !in quoteMint.balances || Vault(B) !in quoteMint.balances
         || protocolFee !in quoteMint.balances || creatorFee !in quoteMint.balances {
        return Err(AccountMissing);
      }
      if now < deadline {
        return Err(MarketNotExpired);
      }
      var quorum :- MinSamples(twapWindow, twapInterval);
      if twapSamplesCount < quorum {
        return Err(NoTwapSamples);
      }
      if sideATotal == 0 || sideBTotal == 0 {
        return Err(OneSideEmpty);
      }
      var twapA :- FinalTwap(twapAccumulatorA, twapSamplesCount);
      var twapB :- FinalTwap(twapAccumulatorB, twapSamplesCount);
      var won :- CompareWinner(twapA, startPriceA, twapB, startPriceB);
      var totalPool :- CheckedAdd(sideATotal, sideBTotal, U64_MAX);
      var net := totalPool;
      if won.Some? {
        var settings := config.Read();
        net :- Collect(won.value, totalPool, settings);
      }
      status := Resolved;
      winner := won;
      netPool := net;
      return Ok(());
    }

    method EmergencyResolve(now: int) returns (r: Result<()>)
      modifies this
      ensures Executes(EmergencyDrawCompare(old(State()), now), r)
    {
      if status == Resolved {
        return Err(MarketAlreadyResolved);
      }
      if now < deadline {
        return Err(MarketNotExpired);
      }
      var emergencyDeadline :- CheckedI64(deadline + AsI64(emergencyWindow));
      if now < emergencyDeadline {
        return Err(EmergencyResolveTooEarly);
      }
      var totalPool :- CheckedAdd(sideATotal, sideBTotal, U64_MAX);
      status := Resolved;
      winner := None;
      netPool := totalPool;
      return Ok(());
    }

    method WithdrawPayout(depositor: nat, vault: Account, dest: Account) returns (r: Result<()>)
      modifies this, quoteMint
      ensures Executes(Withdraw(old(State()), depositor, vault, dest), r)
    {
      hide Transfer;
      if status != Resolved {
        return Err(DuelNotResolved);
      }
      if depositor !in deposits || vault !in quoteMint.balances || dest !in quoteMint.balances {
        return Err(AccountMissing);
      }
      var record := deposits[depositor];
      if record.withdrawn {
        return Err(AlreadyWithdrawn);
      }
      if !vault.Vault? {
        return Err(InvalidSide);
      }
      var payout := 0;
      if winner.Some? {
        if record.side == winner.value {
          var winningSideTotal := if winner.value.A? then sideATotal else sideBTotal;
          if vault != Vault(winner.value) {
            return Err(InvalidSide);
          }
          var product :- CheckedMul(record.amount, netPool, U128_MAX);
          var share :- CheckedDiv(product, winningSideTotal);
          payout := AsU64(share);
        }
      } else {
        if vault != Vault(record.side) {
          return Err(InvalidSide);
        }
        payout := record.amount;
      }
      if payout > 0 {
        var _ :- quoteMint.TransferChecked(vault, dest, payout);
      }
      deposits := deposits[depositor := record.(withdrawn := true)];
      return Ok(());
    }
  }
}
