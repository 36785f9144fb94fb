/** Mode 1 as the program runs it: accounts whose fields the instruction handlers update in place. Each
    handler checks, transfers and writes in the program's order; when a step fails the runtime reverts
    everything, which the handlers do here by restoring what they changed. Each is proved to be the
    corresponding function of `MarketSpec`. */
module MarketProgram {
  import opened Common
  import opened BondingCurve
  import opened CurveProperties
  import opened Ledger
  import opened Config
  import opened Twap
  import opened MarketSpec

  class SideAccount {
    var circulatingSupply: nat
    var twapAccumulator: nat
    const mint: Mint

    constructor (mint: Mint)
      ensures circulatingSupply == 0 && twapAccumulator == 0 && this.mint == mint
    {
      circulatingSupply, twapAccumulator := 0, 0;
      this.mint := mint;
    }

    ghost function Current(): SideState
      reads this, mint
    {
      SideState(circulatingSupply, twapAccumulator, mint.balances)
    }
  }

  class MarketAccount {
    const deadline: int
    const twapWindow: u64
    const twapInterval: u64
    const emergencyWindow: u64
    const creatorFee: Account
    const sideA: SideAccount
    const sideB: SideAccount
    const quoteMint: Mint
    const config: ProgramConfig

    var status: Status
    var twapSamplesCount: nat
    var lastSampleTs: int
    var winner: Option<Side>
    var finalTwapA: nat
    var finalTwapB: nat
    var locked: bool
    var pool: Option<Pool>

    ghost var clock: int
    ghost var samples: seq<Sample>

    ghost predicate Valid() {
      && sideA != sideB
      && sideA.mint != sideB.mint && sideA.mint != quoteMint && sideB.mint != quoteMint
    }

    ghost function Footprint(): set<object> {
      {this, sideA, sideB, sideA.mint, sideB.mint, quoteMint}
    }

    ghost function State(): MarketState
      reads Footprint(), config
    {
      MarketState(clock, deadline, twapWindow, twapInterval, emergencyWindow, creatorFee,
                  status, twapSamplesCount, lastSampleTs, winner, finalTwapA, finalTwapB, locked,
                  sideA.Current(), sideB.Current(), quoteMint.balances, config.Current(), pool, samples)
    }

    /** What the runtime does with the outcome of an instruction: all of it or nothing. */
    twostate predicate Executes(expected: Result<MarketState>, new r: Result<()>)
      reads Footprint(), config
    {
      match expected
      case Ok(s) => r == Ok(()) && State() == s
      case Err(e) => r == Err(e) && State() == old(State())
    }

    constructor (clock: int, deadline: int, twapWindow: u64, twapInterval: u64, creatorFee: Account,
                 sideA: SideAccount, sideB: SideAccount, quoteMint: Mint, config: ProgramConfig)
      ensures this.deadline == deadline && this.twapWindow == twapWindow && this.twapInterval == twapInterval
      ensures this.emergencyWindow == DEFAULT_EMERGENCY_WINDOW && this.creatorFee == creatorFee
      ensures this.sideA == sideA && this.sideB == sideB && this.quoteMint == quoteMint && this.config == config
      ensures status == Active && twapSamplesCount == 0 && lastSampleTs == 0 && winner == None
      ensures finalTwapA == 0 && finalTwapB == 0 && !locked && pool == None
      ensures this.clock == clock && samples == []
    {
      this.deadline, this.twapWindow, this.twapInterval := deadline, twapWindow, twapInterval;
      this.emergencyWindow, this.creatorFee := DEFAULT_EMERGENCY_WINDOW, creatorFee;
      this.sideA, this.sideB, this.quoteMint, this.config := sideA, sideB, quoteMint, config;
      status, twapSamplesCount, lastSampleTs, winner := Active, 0, 0, None;
      finalTwapA, finalTwapB, locked, pool := 0, 0, false, None;
      this.clock, samples := clock, [];
    }

    static method Initialize(now: int, deadline: int, twapWindow: u64, twapInterval: u64, creatorFee: Account,
                             quoteMint: Mint, holders: set<nat>, config: ProgramConfig, lamports: nat)
      returns (r: Result<MarketAccount>)
      modifies quoteMint
      ensures match NewMarket(now, deadline, twapWindow, twapInterval, creatorFee, old(quoteMint.balances), holders,
                              old(config.Current()), lamports)
              case Ok(s) => r.Ok? && fresh(r.value) && r.value.Valid() && r.value.State() == s
              case Err(e) => r == Err(e) && quoteMint.balances == old(quoteMint.balances)
    {
      var settings := config.Read();
      if Vault(A) in quoteMint.balances || Vault(B) in quoteMint.balances {
        return Err(AccountInUse);
      }
      if settings.paused {
        return Err(ProtocolPaused);
      }
      if creatorFee == NO_ACCOUNT {
        return Err(InvalidFeeConfig);
      }
      if deadline <= now {
        return Err(InvalidMarketConfig);
      }
      var duration := CheckedI64(deadline - now);
      if duration.Err? {
        return Err(duration.error);
      }
      if duration.value < settings.minMarketDuration || twapWindow == 0 || twapWindow >= duration.value
         || twapInterval < MIN_TWAP_INTERVAL || twapInterval > MAX_TWAP_INTERVAL {
        return Err(InvalidMarketConfig);
      }
      if settings.marketCreationFee > 0 && settings.marketCreationFee > lamports {
        return Err(InsufficientFunds);
      }
      quoteMint.balances := quoteMint.balances[Vault(A) := 0][Vault(B) := 0];
      var mintA := new Mint(Minted(A, holders));
      var mintB := new Mint(Minted(B, holders));
      var sideA := new SideAccount(mintA);
      var sideB := new SideAccount(mintB);
      var market := new MarketAccount(now, deadline, twapWindow, twapInterval, creatorFee, sideA, sideB, quoteMint, config);
      return Ok(market);
    }

    method BuyTokens(now: int, o: Order) returns (r: Result<()>)
      requires Valid()
      modifies Footprint()
      ensures Executes(Buy(old(State()), now, o), r)
    {
      hide SettlePurchase;
      ghost var before := State();
      if status == Resolved {
        return Err(MarketAlreadyResolved);
      }
      var found := SideOf(o.side);
      if found.Err? {
        return Err(found.error);
      }
      var side := found.value;
      var account := if side.A? then sideA else sideB;
      var settings := config.Read();
      if Vault(side) !in quoteMint.balances || Wallet(o.wallet) !in quoteMint.balances
         || Vault(side) !in account.mint.balances || o.dest !in account.mint.balances
         || settings.protocolFee !in quoteMint.balances || creatorFee !in quoteMint.balances {
        return Err(AccountMissing);
      }
      if settings.paused {
        return Err(ProtocolPaused);
      }
      if now >= deadline {
        return Err(MarketExpired);
      }
      if o.amount == 0 {
        return Err(InsufficientSolAmount);
      }
      if locked {
        return Err(ReentrancyLocked);
      }
      locked := true;
      r := Purchase(o, side, account, settings);
      locked := false;
      if r.Ok? {
        assert State() == before.WithSide(side, account.Current()).(wsol := quoteMint.balances);
      } else {
        assert State() == before;
      }
    }

    /** The purchase under the lock: the fees, the curve, the four transfers and the new supply. */
    method Purchase(o: Order, side: Side, account: SideAccount, settings: Settings) returns (r: Result<()>)
      requires Valid() && account == (if side.A? then sideA else sideB)
      modifies account, account.mint, quoteMint
      ensures match SettlePurchase(old(account.Current()), old(quoteMint.balances), side, o, creatorFee, settings)
              case Ok(settled) => r == Ok(()) && account.Current() == settled.0 && quoteMint.balances == settled.1
              case Err(e) => r == Err(e) && account.Current() == old(account.Current())
                             && quoteMint.balances == old(quoteMint.balances)
    {
      hide Transfer, PriceOf, TradeFees;
      var wsolBefore, tokensBefore := quoteMint.balances, account.mint.balances;
      var fees :- TradeFees(o.amount, settings);
      var bought := TokensOutSearch(fees.net, account.circulatingSupply, TOTAL_SUPPLY_PER_SIDE, DefaultParams());
      DefaultCurve(TOTAL_SUPPLY_PER_SIDE);
      if bought.Err? {
        return Err(bought.error);
      }
      var tokens := bought.value;
      if tokens < o.minOut {
        return Err(SlippageExceeded);
      }
      if tokens == 0 {
        return Err(InsufficientSolAmount);
      }
      r := quoteMint.TransferChecked(Wallet(o.wallet), Vault(side), fees.net);
      if r.Ok? && fees.protocol > 0 {
        r := quoteMint.TransferChecked(Wallet(o.wallet), settings.protocolFee, fees.protocol);
      }
      if r.Ok? && fees.creator > 0 {
        r := quoteMint.TransferChecked(Wallet(o.wallet), creatorFee, fees.creator);
      }
      if r.Ok? {
        r := account.mint.TransferChecked(Vault(side), o.dest, tokens);
      }
      if r.Ok? {
        var circulating := CheckedAdd(account.circulatingSupply, tokens, U64_MAX);
        var price := if circulating.Ok? then PriceOf(circulating.value, DefaultParams()) else circulating;
        if price.Ok? {
          account.circulatingSupply := circulating.value;
        } else {
          r := Err(price.error);
        }
      }
      if r.Err? {
        quoteMint.balances, account.mint.balances := wsolBefore, tokensBefore;
      }
    }

    method SellTokens(now: int, o: Order) returns (r: Result<()>)
      requires Valid()
      modifies Footprint()
      ensures Executes(Sell(old(State()), now, o), r)
    {
      hide SettleSale;
      ghost var before := State();
      if status == Resolved {
        return Err(MarketAlreadyResolved);
      }
      var found := SideOf(o.side);
      if found.Err? {
        return Err(found.error);
      }
      var side := found.value;
      var account := if side.A? then sideA else sideB;
      var settings := config.Read();
      if Vault(side) !in quoteMint.balances || o.dest !in quoteMint.balances
         || Vault(side) !in account.mint.balances || Wallet(o.wallet) !in account.mint.balances
         || settings.protocolFee !in quoteMint.balances || creatorFee !in quoteMint.balances {
        return Err(AccountMissing);
      }
      if settings.paused {
        return Err(ProtocolPaused);
      }
      if now >= deadline {
        return Err(MarketExpired);
      }
      if o.amount == 0 {
        return Err(InsufficientTokenBalance);
      }
      if locked {
        return Err(ReentrancyLocked);
      }
      locked := true;
      r := Sale(o, side, account, settings);
      locked := false;
      if r.Ok? {
        assert State() == before.WithSide(side, account.Current()).(wsol := quoteMint.balances);
      } else {
        assert State() == before;
      }
    }

    /** The sale under the lock: the curve, the fees, the reserve check, the transfers and the new supply. */
    method Sale(o: Order, side: Side, account: SideAccount, settings: Settings) returns (r: Result<()>)
      requires Valid() && account == (if side.A? then sideA else sideB)
      modifies account, account.mint, quoteMint
      ensures match SettleSale(old(account.Current()), old(quoteMint.balances), side, o, creatorFee, settings)
              case Ok(settled) => r == Ok(()) && account.Current() == settled.0 && quoteMint.balances == settled.1
              case Err(e) => r == Err(e) && account.Current() == old(account.Current())
                             && quoteMint.balances == old(quoteMint.balances)
    {
      hide Transfer, PriceOf, TradeFees, SolOut;
      var wsolBefore, tokensBefore := quoteMint.balances, account.mint.balances;
      var raw :- SolOut(o.amount, account.circulatingSupply, DefaultParams());
      var fees :- TradeFees(raw, settings);
      if fees.net < o.minOut {
        return Err(SlippageExceeded);
      }
      if Balance(quoteMint.balances, Vault(side)) < raw {
        return Err(InsufficientReserve);
      }
      r := account.mint.TransferChecked(Wallet(o.wallet), Vault(side), o.amount);
      if r.Ok? {
        r := quoteMint.TransferChecked(Vault(side), o.dest, fees.net);
      }
      if r.Ok? && fees.protocol > 0 {
        r := quoteMint.TransferChecked(Vault(side), settings.protocolFee, fees.protocol);
      }
      if r.Ok? && fees.creator > 0 {
        r := quoteMint.TransferChecked(Vault(side), creatorFee, fees.creator);
      }
      if r.Ok? {
        r := ReduceSupply(account, o.amount);
      }
      if r.Err? {
        quoteMint.balances, account.mint.balances := wsolBefore, tokensBefore;
      }
    }

    /** Takes sold tokens out of circulation. */
    method ReduceSupply(account: SideAccount, amount: nat) returns (r: Result<()>)
      modifies account
      ensures var circulating := CheckedSub(old(account.circulatingSupply), amount);
              var price := if circulating.Ok? then PriceOf(circulating.value, DefaultParams()) else circulating;
              && r == (if price.Ok? then Ok(()) else Err(price.error))
              && account.circulatingSupply == (if price.Ok? then circulating.value else old(account.circulatingSupply))
              && account.twapAccumulator == old(account.twapAccumulator)
    {
      hide PriceOf;
      var circulating :- CheckedSub(account.circulatingSupply, amount);
      var _ :- PriceOf(circulating, DefaultParams());
      account.circulatingSupply := circulating;
      return Ok(());
    }

    method SellAfterDraw(o: Order) returns (r: Result<()>)
      requires Valid()
      modifies Footprint()
      ensures Executes(SellPostResolution(old(State()), o), r)
    {
      hide SettleExit;
      ghost var before := State();
      if status != Resolved {
        return Err(MarketNotResolved);
      }
      if winner != None {
        return Err(EmergencyOnlyOperation);
      }
      if locked {
        return Err(ReentrancyLocked);
      }
      var found := SideOf(o.side);
      if found.Err? {
        return Err(found.error);
      }
      var side := found.value;
      var account := if side.A? then sideA else sideB;
      if Vault(side) !in quoteMint.balances || o.dest !in quoteMint.balances
         || Vault(side) !in account.mint.balances || Wallet(o.wallet) !in account.mint.balances {
        return Err(AccountMissing);
      }
      if config.paused {
        return Err(ProtocolPaused);
      }
      if o.amount == 0 {
        return Err(InsufficientTokenBalance);
      }
      locked := true;
      r := Exit(o, side, account);
      locked := false;
      if r.Ok? {
        assert State() == before.WithSide(side, account.Current()).(wsol := quoteMint.balances);
      } else {
        assert State() == before;
      }
    }

    /** The fee-free sale under the lock. */
    method Exit(o: Order, side: Side, account: SideAccount) returns (r: Result<()>)
      requires Valid() && account == (if side.A? then sideA else sideB)
      modifies account, account.mint, quoteMint
      ensures match SettleExit(old(account.Current()), old(quoteMint.balances), side, o)
              case Ok(settled) => r == Ok(()) && account.Current() == settled.0 && quoteMint.balances == settled.1
              case Err(e) => r == Err(e) && account.Current() == old(account.Current())
                             && quoteMint.balances == old(quoteMint.balances)
    {
      hide Transfer, PriceOf, SolOut;
      var wsolBefore, tokensBefore := quoteMint.balances, account.mint.balances;
      var quote :- SolOut(o.amount, account.circulatingSupply, DefaultParams());
      if quote < o.minOut {
        return Err(SlippageExceeded);
      }
      if Balance(quoteMint.balances, Vault(side)) < quote {
        return Err(InsufficientReserve);
      }
      r := account.mint.TransferChecked(Wallet(o.wallet), Vault(side), o.amount);
      if r.Ok? {
        r := quoteMint.TransferChecked(Vault(side), o.dest, quote);
      }
      if r.Ok? {
        r := ReduceSupply(account, o.amount);
      }
      if r.Err? {
        quoteMint.balances, account.mint.balances := wsolBefore, tokensBefore;
      }
    }

    method TakeSample(now: int) returns (r: Result<()>)
      requires Valid()
      modifies Footprint()
      ensures Executes(RecordSample(old(State()), now), r)
    {
      hide SampleGuard, PriceOf;
      if status == Resolved {
        return Err(MarketAlreadyResolved);
      }
      var _ :- SampleGuard(now, deadline, twapWindow, twapInterval, lastSampleTs);
      var priceA :- PriceOf(sideA.circulatingSupply, DefaultParams());
      var priceB :- PriceOf(sideB.circulatingSupply, DefaultParams());
      var before := sideA.twapAccumulator;
      sideA.twapAccumulator :- CheckedAdd(sideA.twapAccumulator, priceA, U128_MAX);
      var accB := CheckedAdd(sideB.twapAccumulator, priceB, U128_MAX);
      var count := CheckedAdd(twapSamplesCount, 1, U32_MAX);
      if accB.Err? || count.Err? {
        sideA.twapAccumulator := before;
        return Err(MathOverflow);
      }
      sideB.twapAccumulator := accB.value;
      twapSamplesCount := count.value;
      lastSampleTs := now;
      if status == Active {
        status := TwapObservation;
      }
      samples := samples + [Sample(now, sideA.circulatingSupply, sideB.circulatingSupply)];
      return Ok(());
    }

    method DecideWinner(now: int, expected: nat) returns (r: Result<(nat, nat, Side)>)
      requires Valid() && Vault(A) in quoteMint.balances && Vault(B) in quoteMint.balances
      ensures r == Decide(State(), now, expected)
    {
      hide MinSamples, FinalTwap;
      if now < deadline {
        return Err(MarketNotExpired);
      }
      var quorum :- MinSamples(twapWindow, twapInterval);
      if twapSamplesCount < quorum {
        return Err(NoTwapSamples);
      }
      var twapA :- FinalTwap(sideA.twapAccumulator, twapSamplesCount);
      var twapB :- FinalTwap(sideB.twapAccumulator, twapSamplesCount);
      var reserveA, reserveB := quoteMint.balances[Vault(A)], quoteMint.balances[Vault(B)];
      var won := if twapA > twapB then A else if twapB > twapA then B else if reserveA >= reserveB then A else B;
      if won.Index() != expected {
        return Err(WinnerMismatch);
      }
      return Ok((twapA, twapB, won));
    }

    method ResolveAndGraduate(now: int, expected: nat, tokenDest: Account, wsolDest: Account) returns (r: Result<()>)
      requires Valid()
      modifies Footprint()
      ensures Executes(Graduate(old(State()), now, expected, tokenDest, wsolDest), r)
    {
      hide SeedOutcome, Decide, Graduated;
      if status == Resolved {
        return Err(MarketAlreadyResolved);
      }
      if Vault(A) !in quoteMint.balances || Vault(B) !in quoteMint.balances
         || Vault(A) !in sideA.mint.balances || Vault(B) !in sideB.mint.balances {
        return Err(AccountMissing);
      }
      var decided :- DecideWinner(now, expected);
      r := Conclude(decided.0, decided.1, decided.2, tokenDest, wsolDest);
    }

    /** Seeds the pool and, if that succeeds, records the resolution. */
    method Conclude(twapA: nat, twapB: nat, won: Side, tokenDest: Account, wsolDest: Account) returns (r: Result<()>)
      requires Valid()
      modifies Footprint()
      ensures match SeedOutcome(old(State()).wsol, old(State()).SideAt(won).tokens, won, tokenDest, wsolDest)
              case Ok((wsol, held, seeds)) =>
                r == Ok(()) && State() == Graduated(old(State()), won, twapA, twapB, seeds, wsol, held)
              case Err(e) => r == Err(e) && State() == old(State())
    {
      hide SeedOutcome;
      var mint := if won.A? then sideA.mint else sideB.mint;
      r := SeedPool(won, mint, tokenDest, wsolDest);
      if r.Ok? {
        status, winner := Resolved, Some(won);
        finalTwapA, finalTwapB := twapA, twapB;
      }
    }

    /** Moves the loser's reserve to the winner's vault and everything in the winner's vaults to the
        accounts the pool is seeded from. */
    method SeedPool(won: Side, mint: Mint, tokenDest: Account, wsolDest: Account) returns (r: Result<()>)
      requires Valid() && mint == (if won.A? then sideA.mint else sideB.mint)
      modifies this`pool, quoteMint, mint
      ensures match SeedOutcome(old(quoteMint.balances), old(mint.balances), won, tokenDest, wsolDest)
              case Ok((wsol, held, seeds)) =>
                r == Ok(()) && quoteMint.balances == wsol && mint.balances == held && pool == Some(seeds)
              case Err(e) =>
                r == Err(e) && quoteMint.balances == old(quoteMint.balances) && mint.balances == old(mint.balances)
                && pool == old(pool)
    {
      hide Transfer, SeededPool;
      var wsolBefore, tokensBefore := quoteMint.balances, mint.balances;
      r := Ok(());
      var loserReserve := Balance(quoteMint.balances, Vault(won.Other()));
      if loserReserve > 0 {
        r := quoteMint.TransferChecked(Vault(won.Other()), Vault(won), loserReserve);
      }
      var sol, tokens := Balance(quoteMint.balances, Vault(won)), Balance(mint.balances, Vault(won));
      if r.Ok? && sol < MIN_GRADUATION_RESERVE {
        r := Err(InsufficientReserveForGraduation);
      }
      if r.Ok? && tokens == 0 {
        r := Err(InsufficientTokenBalance);
      }
      if r.Ok? {
        r := mint.TransferChecked(Vault(won), tokenDest, tokens);
      }
      if r.Ok? {
        r := quoteMint.TransferChecked(Vault(won), wsolDest, sol);
      }
      if r.Ok? {
        pool := Some(SeededPool(sol, tokens));
      } else {
        quoteMint.balances, mint.balances := wsolBefore, tokensBefore;
      }
    }

    method EmergencyResolve(now: int) returns (r: Result<()>)
      requires Valid()
      modifies Footprint()
      ensures Executes(EmergencyDraw(old(State()), now), r)
    {
      if status == Resolved {
        return Err(MarketAlreadyResolved);
      }
      if now < deadline {
        return Err(MarketNotExpired);
      }
      var emergencyDeadline :- CheckedI64(deadline + AsI64(emergencyWindow));
      if now < emergencyDeadline {
        return Err(EmergencyResolveTooEarly);
      }
      status, winner, finalTwapA, finalTwapB := Resolved, None, 0, 0;
      return Ok(());
    }

    method CloseQuoteVault(sideIndex: nat) returns (r: Result<()>)
      requires Valid()
      modifies Footprint()
      ensures Executes(CloseVaults(old(State()), sideIndex), r)
    {
      if status != Resolved {
        return Err(MarketNotResolved);
      }
      var side :- SideOf(sideIndex);
      var account := if side.A? then sideA else sideB;
      if Vault(side) !in quoteMint.balances || Vault(side) !in account.mint.balances {
        return Err(AccountMissing);
      }
      quoteMint.CloseAccountIfEmpty(Vault(side));
      account.mint.CloseAccountIfEmpty(Vault(side));
      return Ok(());
    }
  }
}
