/** What the instructions of Mode 1 do to the whole state, with which error they are refused, and what that
    comes to for a market from its creation on. */
module MarketEffects {
  import opened Common
  import opened BondingCurve
  import opened CurveProperties
  import opened Ledger
  import opened Config
  import opened Twap
  import opened MarketSpec
  import opened MarketInvariant
  import opened MarketRuns
  import opened MarketOutcomes

  // ---------- Fees ----------

  /** Whoever trades when on a market, the creator's fees go to the account named at creation. */
  lemma CreatorIsPaid(now: int, deadline: int, twapWindow: u64, twapInterval: u64, creatorFee: Account,
                      wsol: Balances, holders: set<nat>, config: Settings, lamports: nat,
                      events: seq<Event>, at: int, o: Order, side: Side)
    requires now > 0 && deadline <= I64_MAX && InBounds(config) && Total(wsol) <= U64_MAX
    requires NewMarket(now, deadline, twapWindow, twapInterval, creatorFee, wsol, holders, config, lamports).Ok?
    requires SideOf(o.side) == Ok(side) && creatorFee.Wallet?
    ensures var t := Run(NewMarket(now, deadline, twapWindow, twapInterval, creatorFee,
                                   wsol, holders, config, lamports).value, events);
            && (Buy(t, at, o).Ok? && creatorFee != Wallet(o.wallet) && creatorFee != t.config.protocolFee ==>
                  Balance(Buy(t, at, o).value.wsol, creatorFee)
                  == Balance(t.wsol, creatorFee) + FeesOf(o.amount, t.config).creator)
            && (Sell(t, at, o).Ok? && creatorFee != o.dest && creatorFee != t.config.protocolFee ==>
                  && o.amount <= t.SideAt(side).circulating
                  && Balance(Sell(t, at, o).value.wsol, creatorFee)
                     == Balance(t.wsol, creatorFee)
                        + FeesOf(Cost(t.SideAt(side).circulating - o.amount, o.amount, DefaultParams()), t.config).creator)
  {
    hide NewMarket, Run, Inv, Buy, Sell, FeesOf, Cost, SideOf, OnlyTraded, Purchase;
    NewMarketInv(now, deadline, twapWindow, twapInterval, creatorFee, wsol, holders, config, lamports);
    CreatedMarket(now, deadline, twapWindow, twapInterval, creatorFee, wsol, holders, config, lamports);
    var s := NewMarket(now, deadline, twapWindow, twapInterval, creatorFee, wsol, holders, config, lamports).value;
    RunKeeps(s, events);
    var t := Run(s, events);
    SameCreator(s, t);
    hide Later;
    if Buy(t, at, o).Ok? {
      BuyEffect(t, at, o, side, creatorFee);
    }
    if Sell(t, at, o).Ok? {
      SellEffect(t, at, o, side, creatorFee);
    }
  }

  lemma SameCreator(s: MarketState, t: MarketState)
    requires Later(s, t)
    ensures t.creatorFee == s.creatorFee
  {
    hide SurplusGrows, Total;
  }

  // ---------- Samples ----------

  /** What a sample records: the two prices of the moment, `c^2 / 10^9 + 1` each, and nothing else. */
  lemma SampleEffect(s: MarketState, now: int)
    requires Inv(s) && RecordSample(s, now).Ok?
    ensures var ca, cb := s.a.circulating, s.b.circulating;
            RecordSample(s, now).value == s.(
            a := s.a.(accumulator := s.a.accumulator + ca * ca / 1_000_000_000 + 1),
            b := s.b.(accumulator := s.b.accumulator + cb * cb / 1_000_000_000 + 1),
            samplesCount := s.samplesCount + 1, lastSampleTs := now, status := TwapObservation,
            samples := s.samples + [Sample(now, ca, cb)])
  {
    CirculationBound(s, A);
    CirculationBound(s, B);
    hide Inv, SampleGuard, PriceOf, Price;
    DefaultCurve(s.a.circulating);
    DefaultCurve(s.b.circulating);
    DefaultCurveIs(s.a.circulating);
    DefaultCurveIs(s.b.circulating);
  }

  /** Nobody but a sampler touches the schedule. */
  lemma ScheduleKept(s: MarketState, now: int, action: Action)
    requires Step(s, now, action).Ok?
    ensures var t := Step(s, now, action).value;
            && t.deadline == s.deadline && t.twapWindow == s.twapWindow && t.twapInterval == s.twapInterval
            && (!action.TakeSample? ==>
                  t.samplesCount == s.samplesCount && t.lastSampleTs == s.lastSampleTs && t.samples == s.samples)
            && (action.TakeSample? ==>
                  && t.samplesCount == s.samplesCount + 1 <= U32_MAX && t.lastSampleTs == now
                  && t.samples == s.samples + [Sample(now, s.a.circulating, s.b.circulating)])
  {
    hide SampleGuard, PriceOf, SettlePurchase, SettleSale, SettleExit, SeedOutcome, Updated, Transfer, Decide;
  }

  /** Samples lie in the window, an interval or more apart, and the last one is the one the guard goes by. */
  predicate Spaced(s: MarketState) {
    && (forall i :: 0 <= i < |s.samples| ==> s.deadline - s.twapWindow <= s.samples[i].time <= s.deadline)
    && (forall i :: 0 < i < |s.samples| ==> s.samples[i].time - s.samples[i - 1].time >= s.twapInterval)
    && (s.samples != [] ==> s.lastSampleTs == s.samples[|s.samples| - 1].time)
  }

  lemma ApplyKeepsSpacing(s: MarketState, e: Event)
    requires Inv(s) && Spaced(s)
    ensures Spaced(Apply(s, e))
  {
    hide Inv, Step;
    var now := s.clock + e.wait;
    if Step(s, now, e.action).Ok? {
      ScheduleKept(s, now, e.action);
      if e.action.TakeSample? {
        AcceptedInTime(s, now);
      }
    }
  }

  lemma AcceptedInTime(s: MarketState, now: int)
    requires Inv(s) && now >= s.clock && Step(s, now, TakeSample).Ok?
    ensures s.deadline - s.twapWindow <= now <= s.deadline
    ensures s.samples != [] ==> now - s.lastSampleTs >= s.twapInterval
  {
    hide Total, Sum, Reserve, Prices, PriceOf;
    GuardEnds(now, s.deadline, s.twapWindow, s.twapInterval, s.lastSampleTs);
    hide SampleGuard;
    GuardExact(now, s.deadline, s.twapWindow, s.twapInterval, s.samplesCount, s.lastSampleTs);
  }

  /** Over every run from creation. */
  lemma {:induction false} RunKeepsSpacing(s: MarketState, events: seq<Event>)
    requires Inv(s) && Spaced(s)
    ensures Spaced(Run(s, events))
    decreases |events|
  {
    hide Inv, Apply, Spaced, Later;
    if events == [] {
    } else {
      ApplyKeeps(s, events[0]);
      ApplyKeepsSpacing(s, events[0]);
      RunKeepsSpacing(Apply(s, events[0]), events[1..]);
    }
  }

  lemma SamplesSpaced(now: int, deadline: int, twapWindow: u64, twapInterval: u64, creatorFee: Account,
                      wsol: Balances, holders: set<nat>, config: Settings, lamports: nat, events: seq<Event>)
    requires now > 0 && deadline <= I64_MAX && InBounds(config) && Total(wsol) <= U64_MAX
    requires NewMarket(now, deadline, twapWindow, twapInterval, creatorFee, wsol, holders, config, lamports).Ok?
    ensures var t := Run(NewMarket(now, deadline, twapWindow, twapInterval, creatorFee,
                                   wsol, holders, config, lamports).value, events);
            && (forall i :: 0 <= i < |t.samples| ==> deadline - twapWindow <= t.samples[i].time <= deadline)
            && (forall i :: 0 < i < |t.samples| ==> t.samples[i].time - t.samples[i - 1].time >= twapInterval)
  {
    hide NewMarket, Run, Inv;
    NewMarketInv(now, deadline, twapWindow, twapInterval, creatorFee, wsol, holders, config, lamports);
    CreatedMarket(now, deadline, twapWindow, twapInterval, creatorFee, wsol, holders, config, lamports);
    var s := NewMarket(now, deadline, twapWindow, twapInterval, creatorFee, wsol, holders, config, lamports).value;
    RunKeepsSpacing(s, events);
    RunKeeps(s, events);
  }

  // ---------- The verdict ----------

  /** What resolution decides: the averages of the recorded prices, the side with the higher one, and on an exact
      tie the one with the larger reserve, side A first. */
  lemma VerdictExactly(s: MarketState)
    requires Inv(s) && s.samplesCount > 0
    ensures Verdict(s).Ok?
    ensures var v := Verdict(s).value;
            && v.0 == Sum(Prices(s.samples, A)) / |s.samples| && v.1 == Sum(Prices(s.samples, B)) / |s.samples|
            && (v.2 == A <==> v.0 > v.1 || (v.0 == v.1 && s.QuoteVault(A) >= s.QuoteVault(B)))
  {
    hide Inv, Sum, Prices, FinalTwap;
    FinalTwapIs(s, A);
    FinalTwapIs(s, B);
    SampleExists(s);
  }

  lemma SampleExists(s: MarketState)
    requires Inv(s) && s.samplesCount > 0
    ensures |s.samples| > 0
  {
    hide Total, Sum, Reserve, Prices;
  }

  // ---------- Closing vaults ----------

  /** A side's vaults can be closed on any resolved market, as long as both are open; each is closed exactly if it
      is empty, and nothing else changes. */
  lemma CloseExactly(s: MarketState, sideIndex: nat, side: Side)
    requires SideOf(sideIndex) == Ok(side)
    ensures CloseVaults(s, sideIndex).Ok? <==>
            s.status == Resolved && Vault(side) in s.wsol && Vault(side) in s.SideAt(side).tokens
    ensures CloseVaults(s, sideIndex).Err? ==>
              CloseVaults(s, sideIndex) == if s.status == Resolved then Err(AccountMissing) else Err(MarketNotResolved)
    ensures CloseVaults(s, sideIndex).Ok? ==>
              var t := CloseVaults(s, sideIndex).value;
              && t.wsol == (if s.QuoteVault(side) == 0 then s.wsol - {Vault(side)} else s.wsol)
              && t.SideAt(side) == s.SideAt(side).(tokens := if s.TokenVault(side) == 0
                                                             then s.SideAt(side).tokens - {Vault(side)}
                                                             else s.SideAt(side).tokens)
              && t == s.(wsol := t.wsol, a := if side.A? then t.a else s.a, b := if side.B? then t.b else s.b)
  {
  }

  /** A configuration update during a market's life replaces its settings and nothing else. */
  lemma ConfigUpdateEffect(s: MarketState, now: int, signer: nat, u: Update)
    ensures Step(s, now, UpdateConfig(signer, u)) ==
            match Updated(s.config, signer, u)
            case Ok(config) => Ok(s.(config := config))
            case Err(e) => Err(e)
  {
  }

  // ---------- Settings ----------

  /** The configuration updates of a run, in order. */
  function UpdatesOf(events: seq<Event>): seq<(nat, Update)>
    decreases |events|
  {
    if events == [] then []
    else
      var first := if events[0].action.UpdateConfig? then [(events[0].action.signer, events[0].action.update)] else [];
      first + UpdatesOf(events[1..])
  }

  /** The settings in force after any run are those its updates make, whatever happens in between. */
  lemma {:induction false} SettingsOfRun(s: MarketState, events: seq<Event>)
    ensures Run(s, events).config == UpdatedBy(s.config, UpdatesOf(events))
    decreases |events|
  {
    hide Apply, Updated;
    if events == [] {
    } else {
      var rest := UpdatesOf(events[1..]);
      SettingsOfStep(s, events[0]);
      SettingsOfRun(Apply(s, events[0]), events[1..]);
      if events[0].action.UpdateConfig? {
        assert UpdatesOf(events)[1..] == rest;
      } else {
        assert UpdatesOf(events) == rest;
      }
    }
  }

  lemma SettingsOfStep(s: MarketState, e: Event)
    ensures var t := Apply(s, e);
            if e.action.UpdateConfig? then
              t.config == var next := Updated(s.config, e.action.signer, e.action.update);
                          if next.Ok? then next.value else s.config
            else t.config == s.config
  {
    hide SampleGuard, PriceOf, SettlePurchase, SettleSale, SettleExit, SeedOutcome, Updated, Transfer, Decide;
  }

  // ---------- Errors ----------

  /** With which error a purchase is refused. */
  lemma BuyRefused(s: MarketState, now: int, o: Order, side: Side)
    requires Inv(s) && SideOf(o.side) == Ok(side) && Buy(s, now, o).Err?
    ensures Buy(s, now, o).error ==
            if s.status == Resolved then MarketAlreadyResolved
            else if !AccountsExist(s, side, Wallet(o.wallet), o.dest) then AccountMissing
            else if s.config.paused then ProtocolPaused
            else if now >= s.deadline then MarketExpired
            else if o.amount == 0 then InsufficientSolAmount
            else if Purchase(s, side, o.amount) < o.minOut then SlippageExceeded
            else if Purchase(s, side, o.amount) == 0 then InsufficientSolAmount
            else InsufficientFunds
  {
    hide Inv, Transfer, TransferIfPositive, TradeFees, TokensOut, Purchase, PriceOf, FeesOf;
    VaultsOpen(s, side);
    var fees, tokens := PurchaseFees(s, side, o.amount);
    if s.status != Resolved && AccountsExist(s, side, Wallet(o.wallet), o.dest) {
      BuyTransferErrors(s, o, side, fees, tokens);
      DefaultCurve(s.SideAt(side).circulating + tokens);
    }
  }

  lemma VaultsOpen(s: MarketState, side: Side)
    requires Inv(s)
    ensures s.status != Resolved ==> Vault(side) in s.wsol && Vault(side) in s.SideAt(side).tokens
    ensures s.status != Resolved ==> s.winner == None
    ensures !s.locked && s.SideAt(side).circulating <= TOTAL_SUPPLY_PER_SIDE
    ensures Total(s.wsol) <= U64_MAX && Total(s.SideAt(side).tokens) <= U64_MAX
  {
    hide Total, Sum, Reserve;
  }

  lemma BuyTransferErrors(s: MarketState, o: Order, side: Side, fees: Fees, tokens: nat)
    requires Inv(s) && s.status != Resolved && AccountsExist(s, side, Wallet(o.wallet), o.dest)
    requires tokens <= s.TokenVault(side)
    ensures PaymentErrors(s.wsol, Wallet(o.wallet), Vault(side), s.config.protocolFee, s.creatorFee, fees)
    ensures Transfer(s.SideAt(side).tokens, Vault(side), o.dest, tokens).Ok?
  {
    hide Inv;
    VaultsOpen(s, side);
    PaymentsRefused(s.wsol, Wallet(o.wallet), Vault(side), s.config.protocolFee, s.creatorFee, fees);
    TransferSucceeds(s.SideAt(side).tokens, Vault(side), o.dest, tokens);
  }

  /** Between existing accounts payments fail for lack of funds only. */
  predicate PaymentErrors(m: Balances, from: Account, d0: Account, d1: Account, d2: Account, fees: Fees) {
    var w1 := Transfer(m, from, d0, fees.net);
    && (w1.Err? ==> w1 == Err(InsufficientFunds))
    && (w1.Ok? ==>
          var w2 := TransferIfPositive(w1.value, from, d1, fees.protocol);
          && (w2.Err? ==> w2 == Err(InsufficientFunds))
          && (w2.Ok? ==>
                var w3 := TransferIfPositive(w2.value, from, d2, fees.creator);
                w3.Err? ==> w3 == Err(InsufficientFunds)))
  }

  lemma PaymentsRefused(m: Balances, from: Account, d0: Account, d1: Account, d2: Account, fees: Fees)
    requires Total(m) <= U64_MAX && from in m && d0 in m && d1 in m && d2 in m
    ensures PaymentErrors(m, from, d0, d1, d2, fees)
  {
    hide Total;
    TransferSucceeds(m, from, d0, fees.net);
    TransferMoves(m, from, d0, fees.net);
    var w1 := Transfer(m, from, d0, fees.net);
    if w1.Ok? {
      TransferSucceeds(w1.value, from, d1, fees.protocol);
      OptionalTransferMoves(w1.value, from, d1, fees.protocol);
      var w2 := TransferIfPositive(w1.value, from, d1, fees.protocol);
      if w2.Ok? {
        TransferSucceeds(w2.value, from, d2, fees.creator);
      }
    }
  }

  /** With which error a sale is refused. */
  lemma SellRefused(s: MarketState, now: int, o: Order, side: Side)
    requires Inv(s) && SideOf(o.side) == Ok(side) && Sell(s, now, o).Err?
    ensures Sell(s, now, o).error ==
            if s.status == Resolved then MarketAlreadyResolved
            else if !AccountsExist(s, side, o.dest, Wallet(o.wallet)) then AccountMissing
            else if s.config.paused then ProtocolPaused
            else if now >= s.deadline then MarketExpired
            else if o.amount == 0 || o.amount > s.SideAt(side).circulating then InsufficientTokenBalance
            else if SaleNet(s, side, o.amount) < o.minOut then SlippageExceeded
            else InsufficientFunds
  {
    hide Inv, Transfer, TransferIfPositive, TradeFees, SolOut, SaleNet, PriceOf, FeesOf, Cost, Reserve;
    VaultsOpen(s, side);
    var acct := s.SideAt(side);
    if s.status != Resolved && AccountsExist(s, side, o.dest, Wallet(o.wallet)) {
      DefaultSolOut(o.amount, acct.circulating);
      TransferSucceeds(acct.tokens, Wallet(o.wallet), Vault(side), o.amount);
      if o.amount <= acct.circulating {
        var raw, fees := SaleFees(s, side, o.amount);
        PaymentsRefused(s.wsol, Vault(side), o.dest, s.config.protocolFee, s.creatorFee, fees);
        DefaultCurve(acct.circulating - o.amount);
      }
    }
  }

  /** With which error the exit from a drawn market is refused. */
  lemma ExitRefused(s: MarketState, o: Order, side: Side)
    requires Inv(s) && SideOf(o.side) == Ok(side) && SellPostResolution(s, o).Err?
    ensures SellPostResolution(s, o).error ==
            if s.status != Resolved then MarketNotResolved
            else if s.winner != None then EmergencyOnlyOperation
            else if Vault(side) !in s.wsol || o.dest !in s.wsol || Vault(side) !in s.SideAt(side).tokens
                    || Wallet(o.wallet) !in s.SideAt(side).tokens then AccountMissing
            else if s.config.paused then ProtocolPaused
            else if o.amount == 0 || o.amount > s.SideAt(side).circulating then InsufficientTokenBalance
            else if CurveValue(s, side, o.amount) < o.minOut then SlippageExceeded
            else InsufficientFunds
  {
    hide Inv, Transfer, SolOut, PriceOf, Cost, Reserve, SaleNet, FeesOf, TradeFees, Price, PaymentErrors;
    VaultsOpen(s, side);
    var acct := s.SideAt(side);
    if s.status == Resolved && s.winner == None {
      DefaultSolOut(o.amount, acct.circulating);
      HasFunds(acct.tokens, Wallet(o.wallet), Vault(side), o.amount);
      TransferErrors(acct.tokens, Wallet(o.wallet), Vault(side), o.amount);
      if o.amount <= acct.circulating {
        var raw, _ := SaleFees(s, side, o.amount);
        HasFunds(s.wsol, Vault(side), o.dest, raw);
        TransferErrors(s.wsol, Vault(side), o.dest, raw);
        DefaultCurve(acct.circulating - o.amount);
      }
    }
    if Wallet(o.wallet) in acct.tokens && Vault(side) in acct.tokens {
      TransferSucceeds(acct.tokens, Wallet(o.wallet), Vault(side), o.amount);
    }
  }

  /** A side is named by the bytes 0 and 1; any other is refused. */
  lemma WrongSide(s: MarketState, now: int, o: Order)
    requires o.side > 1
    ensures Buy(s, now, o) == if s.status == Resolved then Err(MarketAlreadyResolved) else Err(InvalidSide)
    ensures Sell(s, now, o) == if s.status == Resolved then Err(MarketAlreadyResolved) else Err(InvalidSide)
    ensures SellPostResolution(s, o).Err?
    ensures SideOf(0) == Ok(A) && SideOf(1) == Ok(B)
  {
  }

  /** With which error a sample is refused. */
  lemma SampleRefused(s: MarketState, now: int)
    requires Inv(s) && 0 < now <= I64_MAX && RecordSample(s, now).Err?
    ensures RecordSample(s, now).error ==
            if s.status == Resolved then MarketAlreadyResolved
            else if now < s.deadline - s.twapWindow then NotInTwapWindow
            else if now > s.deadline then MarketExpired
            else if s.samplesCount > 0 && now - s.lastSampleTs < s.twapInterval then TwapSampleTooEarly
            else MathOverflow
  {
    hide Inv, SampleGuard, PriceOf;
    SampleAcceptedExactly(s, now);
    GuardRefuses(s, now);
    PricesExist(s);
  }

  lemma PricesExist(s: MarketState)
    requires Inv(s)
    ensures PriceOf(s.a.circulating, DefaultParams()).Ok? && PriceOf(s.b.circulating, DefaultParams()).Ok?
  {
    CirculationBound(s, A);
    CirculationBound(s, B);
    hide Inv, PriceOf;
    DefaultCurve(s.a.circulating);
    DefaultCurve(s.b.circulating);
  }

  lemma GuardRefuses(s: MarketState, now: int)
    requires Inv(s) && 0 < now <= I64_MAX
    ensures var r := SampleGuard(now, s.deadline, s.twapWindow, s.twapInterval, s.lastSampleTs);
            && (r.Err? ==>
                  r.error ==
                  if now < s.deadline - s.twapWindow then NotInTwapWindow
                  else if now > s.deadline then MarketExpired
                  else TwapSampleTooEarly)
            && (r.Err? <==>
                  || now < s.deadline - s.twapWindow || now > s.deadline
                  || (s.samplesCount > 0 && now - s.lastSampleTs < s.twapInterval))
  {
    hide Total, Sum, Reserve, Prices;
    GuardErrors(now, s.deadline, s.twapWindow, s.twapInterval, s.samplesCount, s.lastSampleTs);
  }

  /** With which error a graduation is refused. */
  lemma GraduateRefused(s: MarketState, now: int, expected: nat, tokenDest: Account, wsolDest: Account)
    requires Inv(s) && Graduate(s, now, expected, tokenDest, wsolDest).Err?
    ensures MinSamples(s.twapWindow, s.twapInterval).Ok? && (s.samplesCount > 0 ==> Verdict(s).Ok?)
    ensures Graduate(s, now, expected, tokenDest, wsolDest).error ==
            if s.status == Resolved then MarketAlreadyResolved
            else if now < s.deadline then MarketNotExpired
            else if s.samplesCount < MinSamples(s.twapWindow, s.twapInterval).value then NoTwapSamples
            else if s.samplesCount == 0 then MathOverflow
            else if Verdict(s).value.2.Index() != expected then WinnerMismatch
            else if s.QuoteVault(A) + s.QuoteVault(B) < 100_000_000 then InsufficientReserveForGraduation
            else if s.TokenVault(Verdict(s).value.2) == 0 then InsufficientTokenBalance
            else AccountMissing
  {
    hide Inv, FinalTwap, SeedOutcome, MinSamples, Graduated;
    VaultsOpen(s, A);
    VaultsOpen(s, B);
    QuorumExists(s);
    if s.samplesCount > 0 {
      VerdictExactly(s);
      var winner := Verdict(s).value.2;
      if s.status != Resolved {
        SeedErrors(s, winner, tokenDest, wsolDest);
      }
    }
    NoAverage(s);
  }

  lemma NoAverage(s: MarketState)
    ensures s.samplesCount == 0 ==> FinalTwap(s.a.accumulator, s.samplesCount) == Err(MathOverflow)
  {
  }

  lemma QuorumExists(s: MarketState)
    requires Inv(s)
    ensures MinSamples(s.twapWindow, s.twapInterval).Ok?
  {
    hide Total, Sum, Reserve, Prices;
  }

  lemma SeedErrors(s: MarketState, winner: Side, tokenDest: Account, wsolDest: Account)
    requires Inv(s) && s.status != Resolved
    ensures var r := SeedOutcome(s.wsol, s.SideAt(winner).tokens, winner, tokenDest, wsolDest);
            r.Err? ==>
              r.error ==
              if s.QuoteVault(A) + s.QuoteVault(B) < 100_000_000 then InsufficientReserveForGraduation
              else if s.TokenVault(winner) == 0 then InsufficientTokenBalance
              else AccountMissing
  {
    hide Inv, SeededPool, Total;
    VaultsOpen(s, winner);
    VaultsOpen(s, winner.Other());
    var loser := winner.Other();
    HasFunds(s.wsol, Vault(loser), Vault(winner), s.QuoteVault(loser));
    OptionalTransferMoves(s.wsol, Vault(loser), Vault(winner), s.QuoteVault(loser));
    var w1 := TransferIfPositive(s.wsol, Vault(loser), Vault(winner), s.QuoteVault(loser)).value;
    HasFunds(w1, Vault(winner), wsolDest, Balance(w1, Vault(winner)));
    TransferErrors(w1, Vault(winner), wsolDest, Balance(w1, Vault(winner)));
    HasFunds(s.SideAt(winner).tokens, Vault(winner), tokenDest, s.TokenVault(winner));
    TransferErrors(s.SideAt(winner).tokens, Vault(winner), tokenDest, s.TokenVault(winner));
    if wsolDest in w1 {
      TransferSucceeds(w1, Vault(winner), wsolDest, Balance(w1, Vault(winner)));
    }
    if tokenDest in s.SideAt(winner).tokens {
      TransferSucceeds(s.SideAt(winner).tokens, Vault(winner), tokenDest, s.TokenVault(winner));
    }
  }
}
