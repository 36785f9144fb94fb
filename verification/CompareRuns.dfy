/** Theorems about whole runs of a compare duel, under any interleaving of instructions by anyone. */
module CompareRuns {
  import opened Common
  import opened Arithmetic
  import opened Ledger
  import opened Config
  import opened Oracle
  import opened Performance
  import opened Twap
  import opened CompareSpec
  import opened CompareInvariant

  // ---------- Every run ----------

  lemma ApplyKeeps(s: DuelState, e: Event)
    requires Inv(s)
    ensures Inv(Apply(s, e)) && Later(s, Apply(s, e))
  {
    hide Step, Total, Sum, SampledPrices, Stakes, Claims, OnSchedule;
    var now := s.clock + e.wait;
    if Step(s, now, e.action).Ok? {
      StepKeeps(s, now, e.action);
      LaterClock(Step(s, now, e.action).value, now);
    } else {
      LaterClock(s, now);
    }
  }

  lemma LaterClock(s: DuelState, now: int)
    requires Inv(s) && now > 0
    ensures Inv(s.(clock := now)) && Later(s, s.(clock := now))
  {
    hide Total, Sum, SampledPrices, Stakes, Claims, OnSchedule;
    SameClaims(s, s.(clock := now), A);
    SameClaims(s, s.(clock := now), B);
  }

  lemma LaterTransitive(s: DuelState, t: DuelState, u: DuelState)
    requires Inv(s) && Inv(t) && Later(s, t) && Later(t, u)
    ensures Later(s, u)
  {
    hide Total, Sum, SampledPrices, Stakes, Claims, OnSchedule;
  }

  /** The central theorem of Mode 2: after any run the vaults cover every open claim, the quote mint's
      total is what it was, deposits and resolutions are final, and the phases have only gone forward. */
  lemma {:induction false} RunKeeps(s: DuelState, events: seq<Event>)
    requires Inv(s)
    ensures Inv(Run(s, events)) && Later(s, Run(s, events))
    decreases |events|
  {
    hide Apply, Total, Sum, SampledPrices, Stakes, Claims, OnSchedule;
    if events == [] {
    } else {
      var next := Apply(s, events[0]);
      ApplyKeeps(s, events[0]);
      RunKeeps(next, events[1..]);
      LaterTransitive(s, next, Run(next, events[1..]));
    }
  }

  /** The same for every duel from its creation on: each vault covers what its side can still claim. */
  lemma DuelsStaySolvent(now: int, deadline: int, twapWindow: u64, twapInterval: u64, minDeposit: u64,
                         mintA: nat, mintB: nat, creatorFee: Account, protocolFee: Account,
                         wsol: Balances, config: Settings, lamports: nat, events: seq<Event>, side: Side)
    requires now > 0 && deadline <= I64_MAX && InBounds(config) && Total(wsol) <= U64_MAX
    requires NewDuel(now, deadline, twapWindow, twapInterval, minDeposit, mintA, mintB, creatorFee, protocolFee,
                     wsol, config, lamports).Ok?
    ensures var s := Run(NewDuel(now, deadline, twapWindow, twapInterval, minDeposit, mintA, mintB,
                                 creatorFee, protocolFee, wsol, config, lamports).value, events);
            && Inv(s) && Total(s.wsol) == Total(wsol)
            && s.PoolVault(side) >= Total(Claims(s, side))
            && s.TotalOf(side) == Total(Stakes(s, side))
  {
    hide NewDuel, Run, Total, Sum, Stakes, Claims;
    NewDuelInv(now, deadline, twapWindow, twapInterval, minDeposit, mintA, mintB, creatorFee, protocolFee,
               wsol, config, lamports);
    RunKeeps(NewDuel(now, deadline, twapWindow, twapInterval, minDeposit, mintA, mintB, creatorFee, protocolFee,
                     wsol, config, lamports).value, events);
  }

  // ---------- Phases ----------

  /** Deposits and samples never overlap: a deposit is refused from the opening of the window on, and a
      sample before it. */
  lemma DepositsPrecedeSamples(s: DuelState, now: int, depositor: nat, wallet: nat, side: nat, amount: u64, vault: Account,
                               feedA: PriceFeed, feedB: PriceFeed)
    requires Inv(s)
    ensures Deposit(s, now, depositor, wallet, side, amount, vault).Ok? ==> now < s.deadline - s.twapWindow
    ensures RecordPrices(s, now, feedA, feedB).Ok? ==> now >= s.deadline - s.twapWindow
  {
    hide Total, Sum, Stakes, Claims, SampledPrices, Transfer, GetOraclePrice;
  }

  /** When a deposit is taken. */
  predicate CanDeposit(s: DuelState, now: int, depositor: nat, wallet: nat, side: Side, amount: u64, vault: Account) {
    && s.status == Active && depositor !in s.deposits && !s.config.paused
    && s.minDeposit <= amount <= Balance(s.wsol, Wallet(wallet)) && Wallet(wallet) in s.wsol
    && now < s.deadline - s.twapWindow && vault == Vault(side)
  }

  /** A deposit succeeds exactly once a depositor, before the window, with enough money, into the side's
      own vault; the side's total cannot overflow. */
  lemma DepositSucceedsExactly(s: DuelState, now: int, depositor: nat, wallet: nat, sideIndex: nat, side: Side,
                               amount: u64, vault: Account)
    requires Inv(s) && SideOf(sideIndex) == Ok(side)
    ensures Deposit(s, now, depositor, wallet, sideIndex, amount, vault).Ok?
            <==> CanDeposit(s, now, depositor, wallet, side, amount, vault)
  {
    hide Total, Sum, Stakes, Claims, SampledPrices, Transfer;
    assert vault.Vault? ==> vault == Vault(A) || vault == Vault(B);
    if s.status == Active {
      TotalsFit(s);
      if vault == Vault(side) && Wallet(wallet) in s.wsol {
        TransferSucceeds(s.wsol, Wallet(wallet), vault, amount);
        TotalBounds(s.wsol, Wallet(wallet), vault);
      }
    }
  }

  /** What a deposit does: the money moves, the side's total grows by it and the record is written. */
  lemma DepositEffect(s: DuelState, now: int, depositor: nat, wallet: nat, sideIndex: nat, side: Side,
                      amount: u64, vault: Account, x: Account)
    requires Inv(s) && SideOf(sideIndex) == Ok(side)
    requires Deposit(s, now, depositor, wallet, sideIndex, amount, vault).Ok?
    ensures var s' := Deposit(s, now, depositor, wallet, sideIndex, amount, vault).value;
            && Balance(s'.wsol, x) + (if x == Wallet(wallet) then amount else 0)
               == Balance(s.wsol, x) + (if x == Vault(side) then amount else 0)
            && s'.deposits == s.deposits[depositor := DepositRecord(side, amount, false)]
            && s'.TotalOf(side) == s.TotalOf(side) + amount
            && s'.TotalOf(side.Other()) == s.TotalOf(side.Other())
            && s'.wsol.Keys == s.wsol.Keys
            && s' == s.(totalA := s'.totalA, totalB := s'.totalB, deposits := s'.deposits, wsol := s'.wsol)
  {
    hide Deposit, Transfer, Total, Sum, Stakes, Claims, SampledPrices, Inv;
    var side', wsol, total := DepositParts(s, now, depositor, wallet, sideIndex, amount, vault);
    TransferMoves(s.wsol, Wallet(wallet), Vault(side), amount);
  }

  /** A sample is taken exactly in its window, an interval after the last, on an unresolved duel and from
      two acceptable feeds. It records the moment and each feed's scaled price on that feed's side, the first
      one as the start, and changes nothing else. */
  lemma SampleAcceptedExactly(s: DuelState, now: int, feedA: PriceFeed, feedB: PriceFeed)
    requires Inv(s) && 0 < now <= I64_MAX
    ensures RecordPrices(s, now, feedA, feedB).Ok? <==>
            && s.status != Resolved
            && s.deadline - s.twapWindow <= now <= s.deadline
            && (s.samplesCount == 0 || now - s.lastSampleTs >= s.twapInterval)
            && (exists v :: Quotes(feedA, v)) && (exists v :: Quotes(feedB, v))
            && s.samplesCount < U32_MAX
    ensures RecordPrices(s, now, feedA, feedB).Ok? ==>
              var s' := RecordPrices(s, now, feedA, feedB).value;
              && |s'.samples| == |s.samples| + 1
              && var x := s'.samples[|s.samples|];
              && x.time == now && Quotes(feedA, x.priceA) && Quotes(feedB, x.priceB)
              && s' == s.(
                 samples := s.samples + [x], samplesCount := s.samplesCount + 1, lastSampleTs := now,
                 status := TwapObservation,
                 accumulatorA := s.accumulatorA + x.priceA, accumulatorB := s.accumulatorB + x.priceB,
                 startPriceA := if s.samplesCount == 0 then x.priceA else s.startPriceA,
                 startPriceB := if s.samplesCount == 0 then x.priceB else s.startPriceB)
  {
    hide Total, Sum, Stakes, Claims, SampledPrices, SampleGuard, GetOraclePrice, Quotes;
    GuardExact(now, s.deadline, s.twapWindow, s.twapInterval, s.samplesCount, s.lastSampleTs);
    AccumulatorsFit(s);
    FeedAccepted(feedA);
    FeedAccepted(feedB);
  }

  lemma FeedAccepted(feed: PriceFeed)
    ensures GetOraclePrice(feed).Ok? <==> exists v :: Quotes(feed, v)
    ensures GetOraclePrice(feed).Ok? ==>
              Quotes(feed, GetOraclePrice(feed).value) && GetOraclePrice(feed).value <= U64_MAX
  {
    if GetOraclePrice(feed).Ok? {
      OraclePriceExactly(feed, GetOraclePrice(feed).value);
    }
    if v :| Quotes(feed, v) {
      OraclePriceExactly(feed, v);
    }
  }

  lemma AccumulatorsFit(s: DuelState)
    requires Inv(s)
    ensures s.samplesCount < U32_MAX ==>
              s.accumulatorA + U64_MAX <= U128_MAX && s.accumulatorB + U64_MAX <= U128_MAX
  {
    hide Total, Sum, Stakes, Claims;
    SumBounds(SampledPrices(s.samples, A), 0, U64_MAX);
    SumBounds(SampledPrices(s.samples, B), 0, U64_MAX);
  }

  /** Once a price has been sampled or a duel resolved, no run changes who deposited what. */
  lemma StakesFrozen(s: DuelState, events: seq<Event>, side: Side)
    requires Inv(s) && s.status != Active
    ensures Stakes(Run(s, events), side) == Stakes(s, side)
    ensures Run(s, events).TotalOf(side) == s.TotalOf(side)
  {
    hide Run, Total, Sum, Claims, SampledPrices, OnSchedule;
    RunKeeps(s, events);
  }

  /** A resolution is final: the winner, the net pool and so every deposit's payout. */
  lemma PayoutsFixed(s: DuelState, events: seq<Event>, depositor: nat)
    requires Inv(s) && s.status == Resolved && depositor in s.deposits
    ensures var t := Run(s, events);
            && t.status == Resolved && t.winner == s.winner && t.netPool == s.netPool
            && depositor in t.deposits && Payout(t, t.deposits[depositor]) == Payout(s, s.deposits[depositor])
  {
    hide Run, Total, Sum, Stakes, Claims, SampledPrices, OnSchedule;
    RunKeeps(s, events);
  }

  // ---------- Withdrawals ----------

  /** What every deposit is worth: after a draw itself, on the losing side nothing, and on the winning side its part
      of the net pool in proportion to its part of the side's deposits, rounded down. */
  lemma PayoutExactly(s: DuelState, depositor: nat)
    requires Inv(s) && depositor in s.deposits
    ensures var record, pay := s.deposits[depositor], Payout(s, s.deposits[depositor]);
            && (s.winner == None ==> pay == record.amount)
            && (s.winner == Some(record.side.Other()) ==> pay == 0)
            && (s.winner == Some(record.side) ==>
                  s.TotalOf(record.side) * pay <= record.amount * s.netPool < s.TotalOf(record.side) * (pay + 1))
  {
    hide Total, Sum, SampledPrices, Stakes, Claims, OnSchedule;
    var record := s.deposits[depositor];
    if s.winner == Some(record.side) {
      ShareBounds(record.amount, s.netPool, s.TotalOf(record.side));
    }
  }

  predicate CanWithdraw(s: DuelState, depositor: nat, vault: Account, dest: Account) {
    && s.status == Resolved && depositor in s.deposits && !s.deposits[depositor].withdrawn
    && vault.Vault? && dest in s.wsol
    && (s.winner == Some(s.deposits[depositor].side.Other()) || vault == Vault(s.deposits[depositor].side))
  }

  /** After resolution a withdrawal succeeds exactly when it has not been made, names the paying vault and
      an existing account: the vault is never short. */
  lemma WithdrawSucceedsExactly(s: DuelState, depositor: nat, vault: Account, dest: Account)
    requires Inv(s)
    ensures Withdraw(s, depositor, vault, dest).Ok? <==> CanWithdraw(s, depositor, vault, dest)
    ensures Withdraw(s, depositor, vault, dest) != Err(InsufficientFunds)
    ensures Withdraw(s, depositor, vault, dest) != Err(MathOverflow)
  {
    hide Total, Sum, SampledPrices, Stakes, OnSchedule, PayoutFrom, Transfer, Payout, Claims;
    assert vault.Vault? ==> vault == Vault(A) || vault == Vault(B);
    if s.status == Resolved && depositor in s.deposits && vault in s.wsol && dest in s.wsol {
      PayoutExact(s, depositor, vault);
      if !s.deposits[depositor].withdrawn && vault.Vault? {
        ClaimCovered(s, depositor, vault);
        TransferErrors(s.wsol, vault, dest, Payout(s, s.deposits[depositor]));
        TransferSucceeds(s.wsol, vault, dest, Payout(s, s.deposits[depositor]));
      }
    }
  }

  lemma ClaimCovered(s: DuelState, depositor: nat, vault: Account)
    requires Inv(s) && depositor in s.deposits && !s.deposits[depositor].withdrawn
    ensures s.winner == Some(s.deposits[depositor].side.Other()) ==> Payout(s, s.deposits[depositor]) == 0
    ensures vault == Vault(s.deposits[depositor].side) ==> Payout(s, s.deposits[depositor]) <= Balance(s.wsol, vault)
  {
    hide Total, Sum, SampledPrices, Stakes, OnSchedule;
    TotalRemove(Claims(s, s.deposits[depositor].side), depositor);
  }

  /** A withdrawal moves exactly the payout, to whatever account it names, and marks exactly that deposit. */
  lemma WithdrawEffect(s: DuelState, depositor: nat, vault: Account, dest: Account, x: Account)
    requires Inv(s) && Withdraw(s, depositor, vault, dest).Ok?
    ensures depositor in s.deposits
    ensures var s', pay := Withdraw(s, depositor, vault, dest).value, Payout(s, s.deposits[depositor]);
            && Balance(s'.wsol, x) + (if x == vault then pay else 0)
               == Balance(s.wsol, x) + (if x == dest then pay else 0)
            && s'.wsol.Keys == s.wsol.Keys
            && s' == s.(wsol := s'.wsol,
                        deposits := s.deposits[depositor := s.deposits[depositor].(withdrawn := true)])
  {
    hide Withdraw, Total, Sum, SampledPrices, Stakes, Claims, OnSchedule, TransferIfPositive, Payout;
    var record, wsol := WithdrawParts(s, depositor, vault, dest);
    OptionalTransferMoves(s.wsol, vault, dest, Payout(s, record));
    MovedBalance(s.wsol, vault, dest, Payout(s, record), wsol, x);
  }

  /** Withdrawals one after another, each depositor to a wallet. */
  function WithdrawAll(s: DuelState, order: seq<(nat, nat)>): Result<DuelState>
    decreases |order|
  {
    if order == [] then Ok(s)
    else
      var vault := if order[0].0 in s.deposits then Vault(s.deposits[order[0].0].side) else Vault(A);
      var next :- Withdraw(s, order[0].0, vault, Wallet(order[0].1));
      WithdrawAll(next, order[1..])
  }

  /** Depositors who can still withdraw, each named once, with wallets that exist. */
  ghost predicate Eligible(s: DuelState, order: seq<(nat, nat)>) {
    && (forall i :: 0 <= i < |order| ==>
          && order[i].0 in s.deposits && !s.deposits[order[i].0].withdrawn && Wallet(order[i].1) in s.wsol)
    && (forall i, j :: 0 <= i < j < |order| ==> order[i].0 != order[j].0)
  }

  predicate Listed(order: seq<(nat, nat)>, d: nat) {
    exists i :: 0 <= i < |order| && order[i].0 == d
  }

  /** Order-independent solvency: any eligible depositors can withdraw in any order, all succeed, exactly
      they are marked, and each vault has paid exactly the claims that are gone. */
  lemma {:induction false} AnyOrderSucceeds(s: DuelState, order: seq<(nat, nat)>)
    requires Inv(s) && s.status == Resolved && Eligible(s, order)
    ensures WithdrawAll(s, order).Ok?
    ensures var t := WithdrawAll(s, order).value;
            && Inv(t) && Later(s, t)
            && (forall d :: d in s.deposits ==>
                  d in t.deposits && (t.deposits[d].withdrawn <==> s.deposits[d].withdrawn || Listed(order, d)))
            && t.PoolVault(A) + Total(Claims(s, A)) == s.PoolVault(A) + Total(Claims(t, A))
            && t.PoolVault(B) + Total(Claims(s, B)) == s.PoolVault(B) + Total(Claims(t, B))
    decreases |order|
  {
    hide Inv, Later, Total, Claims, Withdraw, Payout;
    if order == [] {
      LaterReflexive(s);
    } else {
      var d, wallet := order[0].0, order[0].1;
      var vault := Vault(s.deposits[d].side);
      WithdrawSucceedsExactly(s, d, vault, Wallet(wallet));
      var next := Withdraw(s, d, vault, Wallet(wallet)).value;
      WithdrawKeeps(s, d, vault, Wallet(wallet));
      OneWithdrawal(s, d, wallet, A);
      OneWithdrawal(s, d, wallet, B);
      assert forall i :: 0 <= i < |order[1..]| ==> order[1..][i] == order[i + 1];
      AnyOrderSucceeds(next, order[1..]);
      var t := WithdrawAll(next, order[1..]).value;
      LaterTransitive(s, next, t);
      ListedStep(order);
    }
  }

  lemma LaterReflexive(s: DuelState)
    ensures Later(s, s)
  {
  }

  lemma ListedStep(order: seq<(nat, nat)>)
    requires order != []
    ensures forall d :: Listed(order, d) <==> d == order[0].0 || Listed(order[1..], d)
  {
    forall d ensures Listed(order, d) <==> d == order[0].0 || Listed(order[1..], d) {
      if Listed(order[1..], d) {
        var i :| 0 <= i < |order[1..]| && order[1..][i].0 == d;
        assert order[i + 1].0 == d;
      }
      if Listed(order, d) && d != order[0].0 {
        var i :| 0 <= i < |order| && order[i].0 == d;
        assert order[1..][i - 1].0 == d;
      }
    }
  }

  lemma OneWithdrawal(s: DuelState, d: nat, wallet: nat, side: Side)
    requires Inv(s) && d in s.deposits && Withdraw(s, d, Vault(s.deposits[d].side), Wallet(wallet)).Ok?
    ensures var next := Withdraw(s, d, Vault(s.deposits[d].side), Wallet(wallet)).value;
            && next.PoolVault(side) + Total(Claims(s, side)) == s.PoolVault(side) + Total(Claims(next, side))
            && next.deposits == s.deposits[d := s.deposits[d].(withdrawn := true)]
            && next.wsol.Keys == s.wsol.Keys && next.status == Resolved
  {
    hide Withdraw, Total, Sum, SampledPrices, Stakes, Claims, OnSchedule, TransferIfPositive, Payout, Inv;
    var vault := Vault(s.deposits[d].side);
    var record, wsol := WithdrawParts(s, d, vault, Wallet(wallet));
    OptionalTransferMoves(s.wsol, vault, Wallet(wallet), Payout(s, record));
    WithdrawnMaps(s, d, wsol, side);
    if side == record.side {
      TotalRemove(Claims(s, side), d);
    }
  }

  /** When everybody has withdrawn, in whatever order, a side's vault has paid out exactly its claims. */
  lemma EverybodyPaid(s: DuelState, order: seq<(nat, nat)>, side: Side)
    requires Inv(s) && s.status == Resolved && Eligible(s, order)
    requires forall d :: d in Claims(s, side) ==> Listed(order, d)
    ensures WithdrawAll(s, order).Ok?
    ensures WithdrawAll(s, order).value.PoolVault(side) == s.PoolVault(side) - Total(Claims(s, side))
  {
    hide Inv, Total, Sum, WithdrawAll, Listed, Payout;
    AnyOrderSucceeds(s, order);
    var t := WithdrawAll(s, order).value;
    assert Later(s, t);
    NobodyElse(s, t, order);
    assert Claims(t, side) == map[];
    EmptyTotal();
  }

  lemma EmptyTotal()
    ensures Total<nat>(map[]) == 0
  {
  }

  lemma NobodyElse(s: DuelState, t: DuelState, order: seq<(nat, nat)>)
    requires Inv(s) && s.status == Resolved && Later(s, t)
    ensures t.deposits.Keys == s.deposits.Keys
  {
    hide Total, Sum, SampledPrices, Stakes, Claims, OnSchedule;
  }

  /** The winners' payouts take all of the net pool but less than one lamport a winner. */
  lemma WinnersShareThePool(s: DuelState, side: Side)
    requires Inv(s) && s.winner == Some(side)
    ensures Total(Payouts(s, side)) <= s.netPool < Total(Payouts(s, side)) + |Stakes(s, side).Keys|
    ensures Total(Claims(s, side)) <= s.netPool
  {
    hide Total, Sum, SampledPrices, OnSchedule, Share;
    ShareTotal(s, side);
    TotalMono(Claims(s, side), Payouts(s, side));
  }

  // ---------- Draws ----------

  /** Every unresolved duel can be ended: a draw is enabled exactly from 24 hours after the deadline,
      unless that moment is beyond the i64 clock. The pool never overflows. */
  lemma DrawEnabledExactly(s: DuelState, now: int)
    requires Inv(s)
    ensures EmergencyDrawCompare(s, now).Ok? <==>
            && s.status != Resolved
            && now >= s.deadline + 86_400
            && s.deadline + 86_400 <= I64_MAX
    ensures EmergencyDrawCompare(s, now).Ok? ==>
              EmergencyDrawCompare(s, now).value
              == s.(status := Resolved, winner := None, netPool := s.totalA + s.totalB)
    ensures EmergencyDrawCompare(s, now).Err? ==>
              EmergencyDrawCompare(s, now) ==
              if s.status == Resolved then Err(MarketAlreadyResolved)
              else if now < s.deadline then Err(MarketNotExpired)
              else if s.deadline + 86_400 > I64_MAX then Err(MathOverflow)
              else Err(EmergencyResolveTooEarly)
  {
    hide Total, Sum, SampledPrices, Stakes, Claims;
    if s.status != Resolved {
      TotalsFit(s);
    }
  }

  /** So nobody's money is ever locked in: from any unresolved state a depositor gets exactly the deposit
      back once that moment has come. */
  lemma RefundGuaranteed(s: DuelState, now: int, depositor: nat, wallet: nat)
    requires Inv(s) && s.status != Resolved && now > 0
    requires now >= s.deadline + 86_400 && s.deadline + 86_400 <= I64_MAX
    requires depositor in s.deposits && Wallet(wallet) in s.wsol
    ensures EmergencyDrawCompare(s, now).Ok?
    ensures var drawn, record := EmergencyDrawCompare(s, now).value, s.deposits[depositor];
            && Withdraw(drawn, depositor, Vault(record.side), Wallet(wallet)).Ok?
            && Balance(Withdraw(drawn, depositor, Vault(record.side), Wallet(wallet)).value.wsol, Wallet(wallet))
               == Balance(s.wsol, Wallet(wallet)) + record.amount
  {
    hide Withdraw, Total, Sum, SampledPrices, Stakes, Claims, OnSchedule;
    DrawEnabledExactly(s, now);
    EmergencyKeeps(s, now);
    var drawn, record := EmergencyDrawCompare(s, now).value, s.deposits[depositor];
    WithdrawSucceedsExactly(drawn, depositor, Vault(record.side), Wallet(wallet));
    WithdrawEffect(drawn, depositor, Vault(record.side), Wallet(wallet), Wallet(wallet));
  }

  /** A draw refunds everything: when all depositors of a side have withdrawn, its vault has paid exactly
      what was deposited on that side. */
  lemma DrawRefundsEverything(s: DuelState, now: int, order: seq<(nat, nat)>, side: Side)
    requires Inv(s) && now > 0 && EmergencyDrawCompare(s, now).Ok?
    requires Eligible(s, order) && forall d :: d in Stakes(s, side) ==> Listed(order, d)
    ensures var t := EmergencyDrawCompare(s, now).value;
            && WithdrawAll(t, order).Ok?
            && WithdrawAll(t, order).value.PoolVault(side) == s.PoolVault(side) - s.TotalOf(side)
  {
    hide Total, Sum, SampledPrices, OnSchedule, WithdrawAll, Listed;
    EmergencyKeeps(s, now);
    var t := EmergencyDrawCompare(s, now).value;
    assert Claims(t, side) == Stakes(s, side);
    EverybodyPaid(t, order, side);
  }

  // ---------- Resolution ----------

  /** A side's final average price. */
  function Average(s: DuelState, side: Side): nat
    requires |s.samples| > 0
  {
    Sum(SampledPrices(s.samples, side)) / |s.samples|
  }

  lemma AveragesExact(s: DuelState)
    requires Inv(s) && s.samplesCount > 0
    ensures FinalTwap(s.accumulatorA, s.samplesCount) == Ok(Average(s, A))
    ensures FinalTwap(s.accumulatorB, s.samplesCount) == Ok(Average(s, B))
    ensures Average(s, A) <= U64_MAX && Average(s, B) <= U64_MAX
  {
    hide Total, Sum, Stakes, Claims, OnSchedule;
    FinalTwapBetween(SampledPrices(s.samples, A), 0, U64_MAX);
    FinalTwapBetween(SampledPrices(s.samples, B), 0, U64_MAX);
  }

  /** Mode 2 averages: no more samples than the window has room for, accumulators equal to the sums of
      the recorded prices, and a final average between the lowest and the highest of them. */
  lemma TwapAccounting(s: DuelState, side: Side, lo: nat, hi: nat)
    requires Inv(s) && s.samplesCount > 0
    requires forall i :: 0 <= i < |s.samples| ==> lo <= PriceOn(s.samples[i], side) <= hi
    ensures s.samplesCount <= s.twapWindow / s.twapInterval + 1
    ensures lo <= Average(s, side) <= hi
  {
    hide Total, Sum, Stakes, Claims;
    SampleCountBound(s.deadline, s.twapWindow, s.twapInterval, s.samplesCount, s.lastSampleTs);
    var prices := SampledPrices(s.samples, side);
    SumBounds(prices, lo, hi);
    AverageBetween(Sum(prices), |prices|, lo, hi);
  }

  /** When a duel can be resolved, in terms anyone can check beforehand. */
  predicate CanResolve(s: DuelState, now: int) {
    && s.status != Resolved && now >= s.deadline
    && MinSamples(s.twapWindow, s.twapInterval).Ok?
    && s.samplesCount >= MinSamples(s.twapWindow, s.twapInterval).value && s.samplesCount > 0
    && s.totalA > 0 && s.totalB > 0
    && s.startPriceA > 0 && s.startPriceB > 0
    && s.protocolFee in s.wsol && s.creatorFee in s.wsol
  }

  lemma DecidedWinner(s: DuelState, now: int)
    requires Inv(s) && s.samplesCount > 0
    ensures DecideDuel(s, now).Ok? <==>
            && now >= s.deadline
            && MinSamples(s.twapWindow, s.twapInterval).Ok?
            && s.samplesCount >= MinSamples(s.twapWindow, s.twapInterval).value
            && s.totalA > 0 && s.totalB > 0 && s.startPriceA > 0 && s.startPriceB > 0
    ensures DecideDuel(s, now).Ok? ==>
              && s.startPriceA > 0 && s.startPriceB > 0
              && DecideDuel(s, now).value == Decided(Average(s, A), s.startPriceA, Average(s, B), s.startPriceB)
  {
    hide Total, Sum, Stakes, Claims, OnSchedule, SampledPrices, FinalTwap, MinSamples, CompareWinner, Decided, Average;
    AveragesExact(s);
    CompareNeverOverflows(Average(s, A), s.startPriceA, Average(s, B), s.startPriceB);
  }

  lemma NothingToDecide(s: DuelState, now: int)
    requires s.samplesCount == 0
    ensures DecideDuel(s, now).Err?
  {
    hide MinSamples, CompareWinner;
  }

  lemma CollectSucceeds(s: DuelState, winner: Side)
    requires Inv(s) && s.status != Resolved && s.protocolFee in s.wsol && s.creatorFee in s.wsol
    ensures CollectPool(s.wsol, winner, s.totalA + s.totalB, s.protocolFee, s.creatorFee, s.config).Ok?
  {
    hide Total, Sum, SampledPrices, Stakes, Claims, OnSchedule, TradeFees, Transfer;
    TotalsFit(s);
    var loser := winner.Other();
    FeesSplitExactly(s.totalA + s.totalB, s.config);
    var fees := TradeFees(s.totalA + s.totalB, s.config).value;
    TransferSucceeds(s.wsol, Vault(loser), Vault(winner), s.PoolVault(loser));
    OptionalTransferMoves(s.wsol, Vault(loser), Vault(winner), s.PoolVault(loser));
    var w1 := TransferIfPositive(s.wsol, Vault(loser), Vault(winner), s.PoolVault(loser)).value;
    TransferSucceeds(w1, Vault(winner), s.protocolFee, fees.protocol);
    OptionalTransferMoves(w1, Vault(winner), s.protocolFee, fees.protocol);
    var w2 := TransferIfPositive(w1, Vault(winner), s.protocolFee, fees.protocol).value;
    TransferSucceeds(w2, Vault(winner), s.creatorFee, fees.creator);
  }

  /** A duel is resolved exactly when the deadline has passed with a quorum, both sides have deposits and
      both starting prices are positive: no arithmetic or transfer can fail. */
  lemma ResolveSucceedsExactly(s: DuelState, now: int)
    requires Inv(s)
    ensures ResolveCompare(s, now).Ok? <==> CanResolve(s, now)
  {
    hide Total, Sum, SampledPrices, Stakes, Claims, OnSchedule, DecideDuel, CollectPool, MinSamples;
    if s.samplesCount > 0 {
      DecidedWinner(s, now);
    } else {
      NothingToDecide(s, now);
    }
    if s.status != Resolved {
      TotalsFit(s);
      if s.protocolFee in s.wsol && s.creatorFee in s.wsol {
        CollectSucceeds(s, A);
        CollectSucceeds(s, B);
      }
    }
  }

  lemma ResolvedAsDecided(s: DuelState, now: int)
    requires ResolveCompare(s, now).Ok?
    ensures DecideDuel(s, now).Ok? && ResolveCompare(s, now).value.winner == DecideDuel(s, now).value
  {
    hide DecideDuel, CollectPool;
  }

  lemma AtLeastOneSample(s: DuelState)
    requires Inv(s) && s.samplesCount > 0
    ensures |s.samples| > 0
  {
  }

  /** The declared winner's token really did better: its average grew by the strictly larger ratio over its
      starting price, compared exactly. A draw means the two ratios agree to 2 parts in 10^9. */
  lemma ResolvedWinnerDidBetter(s: DuelState, now: int)
    requires Inv(s) && ResolveCompare(s, now).Ok?
    ensures |s.samples| > 0
    ensures var winner, x, y := ResolveCompare(s, now).value.winner,
              Average(s, A) * s.startPriceB, Average(s, B) * s.startPriceA;
            && (winner == Some(A) ==> x > y)
            && (winner == Some(B) ==> x < y)
            && (winner == None ==>
                  -2 * (s.startPriceA * s.startPriceB) < 1_000_000_000 * (x - y) < 2 * (s.startPriceA * s.startPriceB))
  {
    ResolveSucceedsExactly(s, now);
    AtLeastOneSample(s);
    hide Inv, Sum, SampledPrices, Average, Decided, DecideDuel, ResolveCompare;
    DecidedWinner(s, now);
    ResolvedAsDecided(s, now);
    WinnerHasLargerRatio(Average(s, A), s.startPriceA, Average(s, B), s.startPriceB);
    if DecideDuel(s, now).value == None {
      DrawMeansNearlyEqual(Average(s, A), s.startPriceA, Average(s, B), s.startPriceB);
    }
  }

  /** Exactly who wins: the side whose average changed by more parts in 10^9 of its starting price, rounded toward
      zero; a draw if neither did. */
  lemma DuelWinnerExactly(s: DuelState, now: int, p: int, q: int)
    requires Inv(s) && ResolveCompare(s, now).Ok? && |s.samples| > 0
    requires IsTruncated(p, 1_000_000_000 * (Average(s, A) - s.startPriceA), s.startPriceA)
    requires IsTruncated(q, 1_000_000_000 * (Average(s, B) - s.startPriceB), s.startPriceB)
    ensures ResolveCompare(s, now).value.winner == if p > q then Some(A) else if q > p then Some(B) else None
  {
    hide Inv, Sum, SampledPrices, Average, Decided, DecideDuel, ResolveCompare, IsTruncated;
    ResolveSucceedsExactly(s, now);
    DecidedWinner(s, now);
    ResolvedAsDecided(s, now);
    WinnerExactly(Average(s, A), s.startPriceA, Average(s, B), s.startPriceB, p, q);
  }

  /** A tie costs nothing: no fee is taken, no money moves and every deposit stays refundable. */
  lemma TieIsFree(s: DuelState, now: int, depositor: nat)
    requires Inv(s) && ResolveCompare(s, now).Ok? && ResolveCompare(s, now).value.winner == None
    requires depositor in s.deposits
    ensures var s' := ResolveCompare(s, now).value;
            && s' == s.(status := Resolved, winner := None, netPool := s.totalA + s.totalB)
            && Payout(s', s.deposits[depositor]) == s.deposits[depositor].amount
  {
    hide Inv, Total, DecideDuel, CollectPool;
  }

  lemma ResolveParts(s: DuelState, now: int, winner: Side) returns (wsol: Balances, net: nat)
    requires ResolveCompare(s, now).Ok? && ResolveCompare(s, now).value.winner == Some(winner)
    ensures s.status != Resolved
    ensures CollectPool(s.wsol, winner, s.totalA + s.totalB, s.protocolFee, s.creatorFee, s.config) == Ok((wsol, net))
    ensures ResolveCompare(s, now).value
            == s.(wsol := wsol, status := Resolved, winner := Some(winner), netPool := net)
  {
    hide DecideDuel, CollectPool;
    var collected := CollectPool(s.wsol, winner, s.totalA + s.totalB, s.protocolFee, s.creatorFee, s.config).value;
    wsol, net := collected.0, collected.1;
  }

  /** What collecting a pool does to any one balance. */
  lemma CollectEffect(m: Balances, winner: Side, pool: u64, protocolFee: Account, creatorFee: Account, config: Settings,
                      wsol: Balances, net: nat, x: Account)
    requires InBounds(config) && CollectPool(m, winner, pool, protocolFee, creatorFee, config) == Ok((wsol, net))
    ensures var fees, lost := FeesOf(pool, config), Balance(m, Vault(winner.Other()));
            && wsol.Keys == m.Keys && net + fees.protocol + fees.creator == pool
            && Balance(wsol, x) + (if x == Vault(winner.Other()) then lost else 0)
               + (if x == Vault(winner) then fees.protocol + fees.creator else 0)
               == Balance(m, x) + (if x == Vault(winner) then lost else 0)
                  + (if x == protocolFee then fees.protocol else 0) + (if x == creatorFee then fees.creator else 0)
  {
    hide Total, TransferIfPositive, TradeFees, Balance, InBounds;
    FeesSplitExactly(pool, config);
    var loser, fees := winner.Other(), TradeFees(pool, config).value;
    var w1 := TransferIfPositive(m, Vault(loser), Vault(winner), Balance(m, Vault(loser))).value;
    var w2 := TransferIfPositive(w1, Vault(winner), protocolFee, fees.protocol).value;
    OptionalTransferMoves(m, Vault(loser), Vault(winner), Balance(m, Vault(loser)));
    OptionalTransferMoves(w1, Vault(winner), protocolFee, fees.protocol);
    OptionalTransferMoves(w2, Vault(winner), creatorFee, fees.creator);
    MovedBalance(m, Vault(loser), Vault(winner), Balance(m, Vault(loser)), w1, x);
    MovedBalance(w1, Vault(winner), protocolFee, fees.protocol, w2, x);
    MovedBalance(w2, Vault(winner), creatorFee, fees.creator, wsol, x);
  }

  /** Where the pool goes: the loser's vault is emptied into the winner's, the fees are paid out of that, and
      what the fees leave of the deposits is the net pool to share. The accounts may coincide. */
  lemma ResolveEffect(s: DuelState, now: int, winner: Side, x: Account)
    requires Inv(s) && ResolveCompare(s, now).Ok? && ResolveCompare(s, now).value.winner == Some(winner)
    ensures var s', fees := ResolveCompare(s, now).value, FeesOf(s.totalA + s.totalB, s.config);
            && Balance(s'.wsol, x)
               + (if x == Vault(winner.Other()) then s.PoolVault(winner.Other()) else 0)
               + (if x == Vault(winner) then fees.protocol + fees.creator else 0)
               == Balance(s.wsol, x) + (if x == Vault(winner) then s.PoolVault(winner.Other()) else 0)
                  + (if x == s.protocolFee then fees.protocol else 0)
                  + (if x == s.creatorFee then fees.creator else 0)
            && s'.netPool + fees.protocol + fees.creator == s.totalA + s.totalB
            && s'.wsol.Keys == s.wsol.Keys
            && s' == s.(wsol := s'.wsol, status := Resolved, winner := Some(winner), netPool := s'.netPool)
  {
    hide Inv, ResolveCompare, CollectPool, Balance;
    var wsol, net := ResolveParts(s, now, winner);
    TotalsFit(s);
    SettingsInBounds(s);
    CollectEffect(s.wsol, winner, s.totalA + s.totalB, s.protocolFee, s.creatorFee, s.config, wsol, net, x);
  }

  lemma SettingsInBounds(s: DuelState)
    requires Inv(s)
    ensures InBounds(s.config)
  {
    hide Total, Sum, SampledPrices, Stakes, Claims, OnSchedule;
  }

  /** A winner gets at least the deposit back exactly if the net pool is at least what the winning side put in. */
  lemma PrincipalBack(s: DuelState, depositor: nat)
    requires Inv(s) && depositor in s.deposits && s.winner == Some(s.deposits[depositor].side)
    ensures Payout(s, s.deposits[depositor]) >= s.deposits[depositor].amount
            <==> s.netPool >= s.TotalOf(s.deposits[depositor].side)
  {
    hide Total, Sum, SampledPrices, Stakes, Claims, OnSchedule;
    var record := s.deposits[depositor];
    ShareAtLeast(record.amount, s.netPool, s.TotalOf(record.side));
  }

  lemma ShareAtLeast(amount: nat, pool: nat, total: nat)
    requires amount > 0 && total > 0
    ensures Share(amount, pool, total) >= amount <==> pool >= total
  {
    if pool >= total {
      MulMono(amount, amount, total, pool);
      DivGreatest(amount * pool, total, amount);
    } else {
      MulMono(amount, amount, pool + 1, total);
      DivBounds(amount * pool, total);
      if amount <= amount * pool / total {
        MulMono(total, total, amount, amount * pool / total);
      }
    }
  }

  /** So, at the resolution: exactly if the losers' deposits cover the fees. */
  lemma WinnersKeepPrincipal(s: DuelState, now: int, depositor: nat)
    requires Inv(s) && now > 0 && depositor in s.deposits && ResolveCompare(s, now).Ok?
    requires ResolveCompare(s, now).value.winner == Some(s.deposits[depositor].side)
    ensures var s', record, fees := ResolveCompare(s, now).value, s.deposits[depositor],
                                    FeesOf(s.totalA + s.totalB, s.config);
            Payout(s', record) >= record.amount <==> fees.protocol + fees.creator <= s.TotalOf(record.side.Other())
  {
    hide Inv, ResolveCompare, FeesOf, Payout;
    var s' := ResolveCompare(s, now).value;
    ResolveCompareKeeps(s, now);
    ResolveEffect(s, now, s.deposits[depositor].side, s.protocolFee);
    TotalsStay(s, now);
    PrincipalBack(s', depositor);
  }

  lemma TotalsStay(s: DuelState, now: int)
    requires ResolveCompare(s, now).Ok?
    ensures var s' := ResolveCompare(s, now).value;
            s'.totalA == s.totalA && s'.totalB == s.totalB && s'.deposits == s.deposits
  {
    hide DecideDuel, CollectPool;
  }

  /** What the vaults hold beyond the deposits. */
  function GiftsToVaults(s: DuelState): int {
    s.PoolVault(A) + s.PoolVault(B) - s.totalA - s.totalB
  }

  /** What of the fees a resolution pays straight back to the winner's vault, if that is a fee account. */
  function FeesReturned(s: DuelState, winner: Side): nat {
    var fees := FeesOf(s.totalA + s.totalB, s.config);
    (if s.protocolFee == Vault(winner) then fees.protocol else 0) + (if s.creatorFee == Vault(winner) then fees.creator else 0)
  }

  /** The whole pool is accounted for: once a duel is resolved and all winners have withdrawn, in any order, the
      fees and payouts have taken every deposit but less than one lamport a winner; the winner's vault has that
      left, beside what was given to the vaults and the fees it was paid itself. */
  lemma PoolAccountedFor(s: DuelState, now: int, winner: Side, order: seq<(nat, nat)>)
    requires Inv(s) && now > 0 && ResolveCompare(s, now).Ok? && ResolveCompare(s, now).value.winner == Some(winner)
    requires var t := ResolveCompare(s, now).value;
             Eligible(t, order) && forall d :: d in Stakes(t, winner) ==> Listed(order, d)
    ensures WithdrawAll(ResolveCompare(s, now).value, order).Ok? && GiftsToVaults(s) >= 0
    ensures var left := WithdrawAll(ResolveCompare(s, now).value, order).value.PoolVault(winner);
            GiftsToVaults(s) + FeesReturned(s, winner) <= left
            < GiftsToVaults(s) + FeesReturned(s, winner) + |Stakes(s, winner).Keys|
  {
    hide Inv, Total, Sum, WithdrawAll, Listed, Payout, ResolveCompare, FeesOf;
    var t := ResolveCompare(s, now).value;
    ResolveCompareKeeps(s, now);
    ResolveEffect(s, now, winner, Vault(winner));
    NobodyWithdrewYet(s, now, winner);
    TotalsFit(s);
    EverybodyPaid(t, order, winner);
    WinnersShareThePool(t, winner);
  }

  lemma NobodyWithdrewYet(s: DuelState, now: int, side: Side)
    requires Inv(s) && ResolveCompare(s, now).Ok?
    ensures s.status != Resolved && ResolveCompare(s, now).value.status == Resolved
    ensures Claims(ResolveCompare(s, now).value, side) == Payouts(ResolveCompare(s, now).value, side)
    ensures Stakes(ResolveCompare(s, now).value, side) == Stakes(s, side)
  {
    hide Total, Sum, SampledPrices, OnSchedule, Claims, Payouts, Stakes, DecideDuel, CollectPool;
    FreshClaims(s, ResolveCompare(s, now).value, side);
  }

  lemma FreshClaims(s: DuelState, t: DuelState, side: Side)
    requires t.deposits == s.deposits && forall d :: d in s.deposits ==> !s.deposits[d].withdrawn
    ensures Claims(t, side) == Payouts(t, side) && Stakes(t, side) == Stakes(s, side)
  {
    hide Payout;
  }
}
