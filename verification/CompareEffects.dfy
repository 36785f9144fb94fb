/** With which error the instructions of Mode 2 are refused, and what they come to for a duel from its
    creation on. */
module CompareEffects {
  import opened Common
  import opened Ledger
  import opened Config
  import opened Oracle
  import opened Performance
  import opened Twap
  import opened CompareSpec
  import opened CompareInvariant
  import opened CompareRuns

  // ---------- Fees ----------

  /** Whoever resolves a duel when, its fees go to the accounts named at creation. */
  lemma NamedAccountsArePaid(now: int, deadline: int, twapWindow: u64, twapInterval: u64, minDeposit: u64,
                             mintA: nat, mintB: nat, creatorFee: Account, protocolFee: Account,
                             wsol: Balances, config: Settings, lamports: nat, events: seq<Event>, at: int, winner: Side)
    requires now > 0 && deadline <= I64_MAX && InBounds(config) && Total(wsol) <= U64_MAX
    requires NewDuel(now, deadline, twapWindow, twapInterval, minDeposit, mintA, mintB, creatorFee, protocolFee,
                     wsol, config, lamports).Ok?
    requires creatorFee.Wallet? && protocolFee.Wallet? && creatorFee != protocolFee
    ensures var t := Run(NewDuel(now, deadline, twapWindow, twapInterval, minDeposit, mintA, mintB,
                                 creatorFee, protocolFee, wsol, config, lamports).value, events);
            ResolveCompare(t, at).Ok? && ResolveCompare(t, at).value.winner == Some(winner) ==>
              var t', fees := ResolveCompare(t, at).value, FeesOf(t.totalA + t.totalB, t.config);
              && Balance(t'.wsol, creatorFee) == Balance(t.wsol, creatorFee) + fees.creator
              && Balance(t'.wsol, protocolFee) == Balance(t.wsol, protocolFee) + fees.protocol
  {
    hide NewDuel, Run, Inv, ResolveCompare, FeesOf;
    NewDuelInv(now, deadline, twapWindow, twapInterval, minDeposit, mintA, mintB, creatorFee, protocolFee,
               wsol, config, lamports);
    CreatedDuel(now, deadline, twapWindow, twapInterval, minDeposit, mintA, mintB, creatorFee, protocolFee,
                wsol, config, lamports);
    var s := NewDuel(now, deadline, twapWindow, twapInterval, minDeposit, mintA, mintB, creatorFee, protocolFee,
                     wsol, config, lamports).value;
    RunKeeps(s, events);
    var t := Run(s, events);
    hide Total;
    if ResolveCompare(t, at).Ok? && ResolveCompare(t, at).value.winner == Some(winner) {
      ResolveEffect(t, at, winner, creatorFee);
      ResolveEffect(t, at, winner, protocolFee);
    }
  }

  // ---------- Samples ----------

  /** Nobody but a sampler touches the schedule. */
  lemma ScheduleKept(s: DuelState, now: int, action: Action)
    requires Step(s, now, action).Ok?
    ensures var t := Step(s, now, action).value;
            && t.deadline == s.deadline && t.twapWindow == s.twapWindow && t.twapInterval == s.twapInterval
            && (!action.TakePrices? ==>
                  t.samplesCount == s.samplesCount && t.lastSampleTs == s.lastSampleTs && t.samples == s.samples)
            && (action.TakePrices? ==>
                  && |t.samples| == |s.samples| + 1 && t.samples[..|s.samples|] == s.samples
                  && t.samples[|s.samples|].time == t.lastSampleTs == now)
  {
    hide SampleGuard, GetOraclePrice, DecideDuel, CollectPool, PayoutFrom, Updated, Transfer;
  }

  /** Samples lie in the window, an interval or more apart, and the last one is the one the guard goes by. */
  predicate Spaced(s: DuelState) {
    && (forall i :: 0 <= i < |s.samples| ==> s.deadline - s.twapWindow <= s.samples[i].time <= s.deadline)
    && (forall i :: 0 < i < |s.samples| ==> s.samples[i].time - s.samples[i - 1].time >= s.twapInterval)
    && (s.samples != [] ==> s.lastSampleTs == s.samples[|s.samples| - 1].time)
  }

  lemma ApplyKeepsSpacing(s: DuelState, e: Event)
    requires Inv(s) && Spaced(s)
    ensures Spaced(Apply(s, e))
  {
    hide Inv, Step;
    var now := s.clock + e.wait;
    if Step(s, now, e.action).Ok? {
      ScheduleKept(s, now, e.action);
      if e.action.TakePrices? {
        AcceptedInTime(s, now, e.action.feedA, e.action.feedB);
        var t := Step(s, now, e.action).value;
        assert forall i :: 0 <= i < |s.samples| ==> t.samples[i] == t.samples[..|s.samples|][i];
      }
    }
  }

  lemma AcceptedInTime(s: DuelState, now: int, feedA: PriceFeed, feedB: PriceFeed)
    requires Inv(s) && now >= s.clock && Step(s, now, TakePrices(feedA, feedB)).Ok?
    ensures s.deadline - s.twapWindow <= now <= s.deadline
    ensures s.samples != [] ==> now - s.lastSampleTs >= s.twapInterval
  {
    hide Total, Sum, Stakes, Claims, SampledPrices, GetOraclePrice, Accumulate;
    GuardEnds(now, s.deadline, s.twapWindow, s.twapInterval, s.lastSampleTs);
    hide SampleGuard;
    GuardExact(now, s.deadline, s.twapWindow, s.twapInterval, s.samplesCount, s.lastSampleTs);
  }

  lemma {:induction false} RunKeepsSpacing(s: DuelState, events: seq<Event>)
    requires Inv(s) && Spaced(s)
    ensures Spaced(Run(s, events))
    decreases |events|
  {
    hide Inv, Apply, Spaced, Later;
    if events == [] {
    } else {
      ApplyKeeps(s, events[0]);
      ApplyKeepsSpacing(s, events[0]);
      RunKeepsSpacing(Apply(s, events[0]), events[1..]);
    }
  }

  /** Over every run from creation. */
  lemma SamplesSpaced(now: int, deadline: int, twapWindow: u64, twapInterval: u64, minDeposit: u64,
                      mintA: nat, mintB: nat, creatorFee: Account, protocolFee: Account,
                      wsol: Balances, config: Settings, lamports: nat, events: seq<Event>)
    requires now > 0 && deadline <= I64_MAX && InBounds(config) && Total(wsol) <= U64_MAX
    requires NewDuel(now, deadline, twapWindow, twapInterval, minDeposit, mintA, mintB, creatorFee, protocolFee,
                     wsol, config, lamports).Ok?
    ensures var t := Run(NewDuel(now, deadline, twapWindow, twapInterval, minDeposit, mintA, mintB,
                                 creatorFee, protocolFee, wsol, config, lamports).value, events);
            && (forall i :: 0 <= i < |t.samples| ==> deadline - twapWindow <= t.samples[i].time <= deadline)
            && (forall i :: 0 < i < |t.samples| ==> t.samples[i].time - t.samples[i - 1].time >= twapInterval)
  {
    hide NewDuel, Run, Inv;
    NewDuelInv(now, deadline, twapWindow, twapInterval, minDeposit, mintA, mintB, creatorFee, protocolFee,
               wsol, config, lamports);
    CreatedDuel(now, deadline, twapWindow, twapInterval, minDeposit, mintA, mintB, creatorFee, protocolFee,
                wsol, config, lamports);
    var s := NewDuel(now, deadline, twapWindow, twapInterval, minDeposit, mintA, mintB, creatorFee, protocolFee,
                     wsol, config, lamports).value;
    RunKeepsSpacing(s, events);
    RunKeeps(s, events);
  }

  // ---------- Settings ----------

  /** The configuration updates of a run, in order. */
  function UpdatesOf(events: seq<Event>): seq<(nat, Update)>
    decreases |events|
  {
    if events == [] then []
    else
      var first := if events[0].action.UpdateConfig? then [(events[0].action.signer, events[0].action.update)] else [];
      first + UpdatesOf(events[1..])
  }

  /** The settings in force after any run are those its updates make, whatever happens in between. */
  lemma {:induction false} SettingsOfRun(s: DuelState, events: seq<Event>)
    ensures Run(s, events).config == UpdatedBy(s.config, UpdatesOf(events))
    decreases |events|
  {
    hide Apply, Updated;
    if events == [] {
    } else {
      var rest := UpdatesOf(events[1..]);
      SettingsOfStep(s, events[0]);
      SettingsOfRun(Apply(s, events[0]), events[1..]);
      if events[0].action.UpdateConfig? {
        assert UpdatesOf(events)[1..] == rest;
      } else {
        assert UpdatesOf(events) == rest;
      }
    }
  }

  lemma SettingsOfStep(s: DuelState, e: Event)
    ensures var t := Apply(s, e);
            if e.action.UpdateConfig? then
              t.config == var next := Updated(s.config, e.action.signer, e.action.update);
                          if next.Ok? then next.value else s.config
            else t.config == s.config
  {
    hide SampleGuard, GetOraclePrice, DecideDuel, CollectPool, PayoutFrom, Updated, Transfer;
  }

  // ---------- Errors ----------

  /** With which error a deposit is refused. */
  lemma DepositRefused(s: DuelState, now: int, depositor: nat, wallet: nat, sideIndex: nat, side: Side,
                       amount: u64, vault: Account)
    requires Inv(s) && SideOf(sideIndex) == Ok(side)
    requires Deposit(s, now, depositor, wallet, sideIndex, amount, vault).Err?
    ensures Deposit(s, now, depositor, wallet, sideIndex, amount, vault).error ==
            if s.status != Active then MarketAlreadyResolved
            else if depositor in s.deposits then AccountInUse
            else if vault !in s.wsol || Wallet(wallet) !in s.wsol then AccountMissing
            else if vault.Wallet? then InvalidSide
            else if s.config.paused then ProtocolPaused
            else if amount < s.minDeposit then DepositTooSmall
            else if now >= s.deadline - s.twapWindow then DepositPeriodEnded
            else if vault != Vault(side) then InvalidSide
            else InsufficientFunds
  {
    hide Inv, Transfer;
    DuelBounds(s);
    if vault in s.wsol && Wallet(wallet) in s.wsol {
      TransferSucceeds(s.wsol, Wallet(wallet), vault, amount);
      if vault == Vault(side) && s.status == Active {
        TotalsFit(s);
        TotalBounds(s.wsol, Wallet(wallet), vault);
      }
    }
  }

  lemma DuelBounds(s: DuelState)
    requires Inv(s)
    ensures Total(s.wsol) <= U64_MAX && 0 < s.twapWindow < s.deadline <= I64_MAX
    ensures Vault(A) in s.wsol && Vault(B) in s.wsol
  {
    hide Total, Sum, Stakes, Claims, SampledPrices;
  }

  /** With which error a sample is refused. */
  lemma SampleRefused(s: DuelState, now: int, feedA: PriceFeed, feedB: PriceFeed)
    requires Inv(s) && 0 < now <= I64_MAX && RecordPrices(s, now, feedA, feedB).Err?
    ensures RecordPrices(s, now, feedA, feedB).error ==
            if s.status == Resolved then MarketAlreadyResolved
            else if now < s.deadline - s.twapWindow then NotInTwapWindow
            else if now > s.deadline then MarketExpired
            else if s.samplesCount > 0 && now - s.lastSampleTs < s.twapInterval then TwapSampleTooEarly
            else if GetOraclePrice(feedA).Err? then GetOraclePrice(feedA).error
            else if GetOraclePrice(feedB).Err? then GetOraclePrice(feedB).error
            else MathOverflow
  {
    hide Inv, SampleGuard, GetOraclePrice;
    GuardRefuses(s, now);
  }

  lemma GuardRefuses(s: DuelState, now: int)
    requires Inv(s) && 0 < now <= I64_MAX
    ensures var r := SampleGuard(now, s.deadline, s.twapWindow, s.twapInterval, s.lastSampleTs);
            && (r.Err? ==>
                  r.error ==
                  if now < s.deadline - s.twapWindow then NotInTwapWindow
                  else if now > s.deadline then MarketExpired
                  else TwapSampleTooEarly)
            && (r.Err? <==>
                  || now < s.deadline - s.twapWindow || now > s.deadline
                  || (s.samplesCount > 0 && now - s.lastSampleTs < s.twapInterval))
  {
    hide Total, Sum, Stakes, Claims, SampledPrices;
    GuardErrors(now, s.deadline, s.twapWindow, s.twapInterval, s.samplesCount, s.lastSampleTs);
  }

  /** With which error a resolution is refused. */
  lemma ResolveRefused(s: DuelState, now: int)
    requires Inv(s) && ResolveCompare(s, now).Err?
    ensures MinSamples(s.twapWindow, s.twapInterval).Ok?
    ensures ResolveCompare(s, now).error ==
            if s.status == Resolved then MarketAlreadyResolved
            else if s.protocolFee !in s.wsol || s.creatorFee !in s.wsol then AccountMissing
            else if now < s.deadline then MarketNotExpired
            else if s.samplesCount < MinSamples(s.twapWindow, s.twapInterval).value then NoTwapSamples
            else if s.totalA == 0 || s.totalB == 0 then OneSideEmpty
            else if s.samplesCount == 0 then MathOverflow
            else NoTwapSamples
  {
    hide Inv, DecideDuel, CollectPool;
    ResolveSucceedsExactly(s, now);
    DuelBounds(s);
    DecisionRefused(s, now);
    if s.status != Resolved {
      TotalsFit(s);
      if s.protocolFee in s.wsol && s.creatorFee in s.wsol {
        if DecideDuel(s, now).Ok? && DecideDuel(s, now).value.Some? {
          CollectSucceeds(s, DecideDuel(s, now).value.value);
        }
      }
    }
  }

  lemma DecisionRefused(s: DuelState, now: int)
    requires Inv(s)
    ensures MinSamples(s.twapWindow, s.twapInterval).Ok?
    ensures DecideDuel(s, now).Err? ==>
              DecideDuel(s, now).error ==
              if now < s.deadline then MarketNotExpired
              else if s.samplesCount < MinSamples(s.twapWindow, s.twapInterval).value then NoTwapSamples
              else if s.totalA == 0 || s.totalB == 0 then OneSideEmpty
              else if s.samplesCount == 0 then MathOverflow
              else NoTwapSamples
  {
    IntervalPositive(s);
    if s.samplesCount > 0 {
      AveragesExact(s);
      CompareNeverOverflows(Average(s, A), s.startPriceA, Average(s, B), s.startPriceB) by { StartsFit(s); }
    }
    hide Inv, CompareWinner, Decided, Average;
  }

  lemma IntervalPositive(s: DuelState)
    requires Inv(s)
    ensures s.twapInterval > 0 && (s.samplesCount > 0 ==> |s.samples| > 0)
  {
    hide Total, Sum, Stakes, Claims, SampledPrices;
  }

  lemma StartsFit(s: DuelState)
    requires Inv(s) && s.samplesCount > 0
    ensures s.startPriceA <= U64_MAX && s.startPriceB <= U64_MAX
  {
    hide Total, Sum, Stakes, Claims, SampledPrices;
  }

  /** With which error a withdrawal is refused. */
  lemma WithdrawRefused(s: DuelState, depositor: nat, vault: Account, dest: Account)
    requires Inv(s) && Withdraw(s, depositor, vault, dest).Err?
    ensures Withdraw(s, depositor, vault, dest).error ==
            if s.status != Resolved then DuelNotResolved
            else if depositor !in s.deposits || vault !in s.wsol || dest !in s.wsol then AccountMissing
            else if s.deposits[depositor].withdrawn then AlreadyWithdrawn
            else InvalidSide
  {
    hide Inv, PayoutFrom, Payout;
    WithdrawSucceedsExactly(s, depositor, vault, dest);
    if depositor in s.deposits {
      PayoutExact(s, depositor, vault);
    }
  }
}
