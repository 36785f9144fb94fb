/** What every instruction of Mode 2 keeps, in every state: the vaults cover every open claim, money is
    conserved, and the phases of a duel only go forward. */
module CompareInvariant {
  import opened Common
  import opened Arithmetic
  import opened Ledger
  import opened Config
  import opened Oracle
  import opened Performance
  import opened Twap
  import opened CompareSpec

  // ---------- Stakes and claims ----------

  /** What a deposit is worth in the duel's present state: itself until a winner is known, then the
      winner's floored share of the pool, or nothing. */
  function Payout(s: DuelState, record: DepositRecord): nat {
    match s.winner
    case Some(side) =>
      if record.side == side && s.TotalOf(side) > 0 then Share(record.amount, s.netPool, s.TotalOf(side)) else 0
    case None => record.amount
  }

  /** A stake's part of `net`, in proportion to its part of `total`, rounded down. */
  function Share(stake: nat, net: nat, total: nat): nat
    requires total > 0
  {
    stake * net / total
  }

  lemma ShareBounds(stake: nat, net: nat, total: nat)
    requires total > 0
    ensures total * Share(stake, net, total) <= stake * net < total * (Share(stake, net, total) + 1)
  {
    DivBounds(stake * net, total);
  }

  /** All that was deposited on a side, by depositor. */
  function Stakes(s: DuelState, side: Side): map<nat, nat> {
    map d | d in s.deposits && s.deposits[d].side == side :: s.deposits[d].amount
  }

  /** What a side's depositors are worth, withdrawn or not. */
  function Payouts(s: DuelState, side: Side): map<nat, nat> {
    map d | d in s.deposits && s.deposits[d].side == side :: Payout(s, s.deposits[d])
  }

  /** What is still to be paid from a side's vault, by depositor. */
  function Claims(s: DuelState, side: Side): map<nat, nat> {
    map d | d in s.deposits && s.deposits[d].side == side && !s.deposits[d].withdrawn :: Payout(s, s.deposits[d])
  }

  /** `n` floored shares of `net` exceed neither their exact sum nor fall short of it by a unit a share. */
  ghost predicate Apportioned(stakes: nat, shares: nat, n: nat, net: nat, total: nat) {
    total * shares <= stakes * net <= total * shares + n * (total - 1)
  }

  lemma ShareStep(stake: nat, stakes: nat, shares: nat, n: nat, net: nat, total: nat)
    requires total > 0 && Apportioned(stakes, shares, n, net, total)
    ensures Apportioned(stake + stakes, Share(stake, net, total) + shares, n + 1, net, total)
  {
    hide Share;
    ShareBounds(stake, net, total);
    var share := Share(stake, net, total);
    assert total * (share + shares) == total * share + total * shares;
    assert (stake + stakes) * net == stake * net + stakes * net;
    assert total * (share + 1) == total * share + total;
    assert (n + 1) * (total - 1) == n * (total - 1) + (total - 1);
  }

  ghost predicate AreShares(stakes: map<nat, nat>, shares: map<nat, nat>, net: nat, total: nat)
    requires total > 0
  {
    shares.Keys == stakes.Keys && forall d :: d in stakes ==> shares[d] == Share(stakes[d], net, total)
  }

  lemma SharesWithout(stakes: map<nat, nat>, shares: map<nat, nat>, net: nat, total: nat, d: nat)
    requires total > 0 && AreShares(stakes, shares, net, total) && d in stakes
    ensures AreShares(stakes - {d}, shares - {d}, net, total)
    ensures d in shares && shares[d] == Share(stakes[d], net, total)
    ensures |stakes.Keys| == |(stakes - {d}).Keys| + 1
  {
    hide Share;
    assert (stakes - {d}).Keys == stakes.Keys - {d};
  }

  lemma {:induction false} SharesSum(stakes: map<nat, nat>, shares: map<nat, nat>, net: nat, total: nat)
    requires total > 0 && AreShares(stakes, shares, net, total)
    ensures Apportioned(Total(stakes), Total(shares), |stakes.Keys|, net, total)
    decreases stakes.Keys
  {
    hide Share;
    if stakes == map[] {
      assert shares == map[];
    } else {
      hide Total, Apportioned, AreShares;
      var d :| d in stakes;
      var rest, restShares := stakes - {d}, shares - {d};
      SharesWithout(stakes, shares, net, total, d);
      TotalRemove(stakes, d);
      TotalRemove(shares, d);
      SharesSum(rest, restShares, net, total);
      ShareStep(stakes[d], Total(rest), Total(restShares), |rest.Keys|, net, total);
    }
  }

  lemma {:induction false} TotalMono(small: map<nat, nat>, big: map<nat, nat>)
    requires small.Keys <= big.Keys
    requires forall d :: d in small ==> small[d] <= big[d]
    ensures Total(small) <= Total(big)
    decreases big.Keys
  {
    if big == map[] {
      assert small == map[];
    } else {
      var d :| d in big;
      TotalRemove(big, d);
      if d in small {
        TotalRemove(small, d);
        TotalMono(small - {d}, big - {d});
      } else {
        TotalMono(small, big - {d});
      }
    }
  }

  // ---------- The invariant ----------

  ghost predicate SideInv(s: DuelState, side: Side) {
    && s.TotalOf(side) == Total(Stakes(s, side))
    && Vault(side) in s.wsol
    && s.PoolVault(side) >= Total(Claims(s, side))
  }

  function PriceOn(x: PriceSample, side: Side): nat {
    if side.A? then x.priceA else x.priceB
  }

  function SampledPrices(samples: seq<PriceSample>, side: Side): seq<nat> {
    seq(|samples|, i requires 0 <= i < |samples| => PriceOn(samples[i], side))
  }

  ghost predicate PricesInv(s: DuelState) {
    && s.samplesCount == |s.samples|
    && s.accumulatorA == Sum(SampledPrices(s.samples, A))
    && s.accumulatorB == Sum(SampledPrices(s.samples, B))
    && (forall i :: 0 <= i < |s.samples| ==> s.samples[i].priceA <= U64_MAX && s.samples[i].priceB <= U64_MAX)
    && (s.samplesCount > 0 ==> s.startPriceA == s.samples[0].priceA && s.startPriceB == s.samples[0].priceB)
  }

  ghost predicate Inv(s: DuelState) {
    && s.clock > 0
    && InBounds(s.config)
    && Total(s.wsol) <= U64_MAX
    && SideInv(s, A) && SideInv(s, B)
    && PricesInv(s)
    && OnSchedule(s.deadline, s.twapWindow, s.twapInterval, s.samplesCount, s.lastSampleTs)
    && 10 <= s.twapInterval <= 300
    && s.emergencyWindow == 86_400
    && s.minDeposit > 0
    && s.netPool <= U64_MAX && s.totalA <= U64_MAX && s.totalB <= U64_MAX
    && (forall d :: d in s.deposits ==> s.deposits[d].amount > 0)
    && (s.status == Active ==> s.samplesCount == 0)
    && (s.status == TwapObservation ==> s.samplesCount > 0)
    && (s.status != Resolved ==> s.winner == None && forall d :: d in s.deposits ==> !s.deposits[d].withdrawn)
    && (s.winner != None ==>
          && s.TotalOf(s.winner.value) > 0
          && s.netPool <= s.totalA + s.totalB)
  }

  /** How two states of one run relate, the earlier first. */
  ghost predicate Later(s: DuelState, s': DuelState) {
    && s'.deadline == s.deadline && s'.twapWindow == s.twapWindow && s'.twapInterval == s.twapInterval
    && s'.emergencyWindow == s.emergencyWindow && s'.minDeposit == s.minDeposit
    && s'.creatorFee == s.creatorFee && s'.protocolFee == s.protocolFee
    && Total(s'.wsol) == Total(s.wsol)
    && s.status.Rank() <= s'.status.Rank()
    && s.samples <= s'.samples
       // A deposit is for good, and so is its withdrawal
    && (forall d :: d in s.deposits ==>
          && d in s'.deposits
          && s'.deposits[d].side == s.deposits[d].side && s'.deposits[d].amount == s.deposits[d].amount
          && (s.deposits[d].withdrawn ==> s'.deposits[d].withdrawn))
       // From the first sample on nobody else gets in
    && (s.status != Active ==>
          s'.deposits.Keys == s.deposits.Keys && s'.totalA == s.totalA && s'.totalB == s.totalB)
    && (s.samplesCount > 0 ==> s'.startPriceA == s.startPriceA && s'.startPriceB == s.startPriceB)
       // A resolution is final
    && (s.status == Resolved ==> s'.winner == s.winner && s'.netPool == s.netPool && s'.samples == s.samples)
  }

  // ---------- Creation ----------

  lemma NewDuelInv(now: int, deadline: int, twapWindow: u64, twapInterval: u64, minDeposit: u64,
                   mintA: nat, mintB: nat, creatorFee: Account, protocolFee: Account,
                   wsol: Balances, config: Settings, lamports: nat)
    requires now > 0 && deadline <= I64_MAX && InBounds(config) && Total(wsol) <= U64_MAX
    requires NewDuel(now, deadline, twapWindow, twapInterval, minDeposit, mintA, mintB, creatorFee, protocolFee,
                     wsol, config, lamports).Ok?
    ensures var s := NewDuel(now, deadline, twapWindow, twapInterval, minDeposit, mintA, mintB, creatorFee, protocolFee,
                             wsol, config, lamports).value;
            && Inv(s) && Total(s.wsol) == Total(wsol) && s.deposits == map[]
            && s.status == Active && s.clock < s.deadline - s.twapWindow && s.samples == []
  {
    TotalInsert(wsol, Vault(A), 0);
    TotalInsert(wsol[Vault(A) := 0], Vault(B), 0);
    var s := NewDuel(now, deadline, twapWindow, twapInterval, minDeposit, mintA, mintB, creatorFee, protocolFee,
                     wsol, config, lamports).value;
    forall side ensures Stakes(s, side) == map[] && Claims(s, side) == map[] {
    }
  }

  /** What creation stores: every parameter is the caller's, the settings are those in force, and everything else
      starts from nothing. */
  lemma CreatedDuel(now: int, deadline: int, twapWindow: u64, twapInterval: u64, minDeposit: u64,
                    mintA: nat, mintB: nat, creatorFee: Account, protocolFee: Account,
                    wsol: Balances, config: Settings, lamports: nat)
    requires NewDuel(now, deadline, twapWindow, twapInterval, minDeposit, mintA, mintB, creatorFee, protocolFee,
                     wsol, config, lamports).Ok?
    ensures var s := NewDuel(now, deadline, twapWindow, twapInterval, minDeposit, mintA, mintB, creatorFee, protocolFee,
                             wsol, config, lamports).value;
            && s.clock == now && s.deadline == deadline && s.twapWindow == twapWindow && s.twapInterval == twapInterval
            && s.emergencyWindow == 86_400 && s.minDeposit == (if minDeposit == 0 then 10_000 else minDeposit)
            && s.creatorFee == creatorFee && s.protocolFee == protocolFee == config.protocolFee && s.config == config
            && s.status == Active && s.totalA == 0 && s.totalB == 0 && s.deposits == map[]
            && s.startPriceA == 0 && s.startPriceB == 0 && s.accumulatorA == 0 && s.accumulatorB == 0
            && s.samplesCount == 0 && s.lastSampleTs == 0 && s.samples == [] && s.winner == None && s.netPool == 0
            && s.wsol.Keys == wsol.Keys + {Vault(A), Vault(B)}
            && (forall x: Account :: Balance(s.wsol, x) == if x.Vault? then 0 else Balance(wsol, x))
  {
    var s := NewDuel(now, deadline, twapWindow, twapInterval, minDeposit, mintA, mintB, creatorFee, protocolFee,
                     wsol, config, lamports).value;
    forall x: Account ensures Balance(s.wsol, x) == if x.Vault? then 0 else Balance(wsol, x) {
      if x.Vault? {
        assert x == Vault(A) || x == Vault(B) by { assert x.side == A || x.side == B; }
      }
    }
  }

  /** A duel is created exactly for two different tokens, under the same conditions as a market; a minimum
      deposit of 0 stands for the default. */
  lemma DuelCreatedExactly(now: i64, deadline: i64, twapWindow: u64, twapInterval: u64, minDeposit: u64,
                           mintA: nat, mintB: nat, creatorFee: Account, protocolFee: Account,
                           wsol: Balances, config: Settings, lamports: nat)
    requires now > 0 && InBounds(config) && Vault(A) !in wsol && Vault(B) !in wsol
    ensures var r := NewDuel(now, deadline, twapWindow, twapInterval, minDeposit, mintA, mintB, creatorFee, protocolFee,
                             wsol, config, lamports);
            && (r.Ok? <==>
                  && !config.paused && protocolFee == config.protocolFee && mintA != mintB
                  && now + config.minMarketDuration <= deadline
                  && now < deadline - twapWindow < deadline
                  && 10 <= twapInterval <= 300
                  && creatorFee != NO_ACCOUNT && config.marketCreationFee <= lamports)
            && (r.Ok? ==> r.value.minDeposit == if minDeposit == 0 then 10_000 else minDeposit)
  {
  }

  /** With which error a creation is refused. */
  lemma CreationRefused(now: i64, deadline: i64, twapWindow: u64, twapInterval: u64, minDeposit: u64,
                        mintA: nat, mintB: nat, creatorFee: Account, protocolFee: Account,
                        wsol: Balances, config: Settings, lamports: nat)
    requires now > 0 && InBounds(config)
    requires NewDuel(now, deadline, twapWindow, twapInterval, minDeposit, mintA, mintB, creatorFee, protocolFee,
                     wsol, config, lamports).Err?
    ensures NewDuel(now, deadline, twapWindow, twapInterval, minDeposit, mintA, mintB, creatorFee, protocolFee,
                    wsol, config, lamports).error ==
            if Vault(A) in wsol || Vault(B) in wsol then AccountInUse
            else if config.paused then ProtocolPaused
            else if protocolFee != config.protocolFee || creatorFee == NO_ACCOUNT then InvalidFeeConfig
            else if now + config.minMarketDuration <= deadline && now < deadline - twapWindow < deadline
                    && 10 <= twapInterval <= 300 && mintA != mintB then InsufficientFunds
            else InvalidMarketConfig
  {
  }

  // ---------- Instructions ----------

  lemma DepositParts(s: DuelState, now: int, depositor: nat, wallet: nat, sideIndex: nat, amount: u64, vault: Account)
    returns (side: Side, wsol: Balances, total: nat)
    requires Deposit(s, now, depositor, wallet, sideIndex, amount, vault).Ok?
    ensures s.status == Active && depositor !in s.deposits && amount >= s.minDeposit
    ensures SideOf(sideIndex) == Ok(side) && vault == Vault(side)
    ensures Transfer(s.wsol, Wallet(wallet), Vault(side), amount) == Ok(wsol)
    ensures total == s.TotalOf(side) + amount <= U64_MAX
    ensures now < s.deadline - AsI64(s.twapWindow)
    ensures Deposit(s, now, depositor, wallet, sideIndex, amount, vault) == Ok(Deposited(s, depositor, side, amount, total, wsol))
  {
    side := SideOf(sideIndex).value;
    wsol := Transfer(s.wsol, Wallet(wallet), vault, amount).value;
    total := s.TotalOf(side) + amount;
  }

  lemma DepositedMaps(s: DuelState, depositor: nat, side: Side, amount: nat, total: nat, wsol: Balances, x: Side)
    requires depositor !in s.deposits && s.winner == None
    ensures var s' := Deposited(s, depositor, side, amount, total, wsol);
            && Stakes(s', x) == (if x == side then Stakes(s, x)[depositor := amount] else Stakes(s, x))
            && Claims(s', x) == (if x == side then Claims(s, x)[depositor := amount] else Claims(s, x))
            && depositor !in Stakes(s, x) && depositor !in Claims(s, x)
  {
  }

  lemma DepositKeeps(s: DuelState, now: int, depositor: nat, wallet: nat, sideIndex: nat, amount: u64, vault: Account)
    requires Inv(s) && Deposit(s, now, depositor, wallet, sideIndex, amount, vault).Ok?
    ensures var s' := Deposit(s, now, depositor, wallet, sideIndex, amount, vault).value; Inv(s') && Later(s, s')
  {
    hide Deposit, Transfer, Total, Sum, Stakes, Claims, SampledPrices;
    var side, wsol, total := DepositParts(s, now, depositor, wallet, sideIndex, amount, vault);
    TransferMoves(s.wsol, Wallet(wallet), Vault(side), amount);
    DepositedKeeps(s, depositor, side, amount, total, wsol);
  }

  lemma DepositedKeeps(s: DuelState, depositor: nat, side: Side, amount: nat, total: nat, wsol: Balances)
    requires Inv(s) && s.status == Active && depositor !in s.deposits && amount > 0
    requires total == s.TotalOf(side) + amount <= U64_MAX
    requires wsol.Keys == s.wsol.Keys && Total(wsol) == Total(s.wsol)
    requires Balance(wsol, Vault(side)) >= s.PoolVault(side) + amount
    requires Balance(wsol, Vault(side.Other())) >= s.PoolVault(side.Other())
    ensures var s' := Deposited(s, depositor, side, amount, total, wsol); Inv(s') && Later(s, s')
  {
    hide Total, Sum, Stakes, Claims, SampledPrices;
    DepositedMaps(s, depositor, side, amount, total, wsol, A);
    DepositedMaps(s, depositor, side, amount, total, wsol, B);
    TotalInsert(Stakes(s, side), depositor, amount);
    TotalInsert(Claims(s, side), depositor, amount);
  }

  lemma RecordPricesKeeps(s: DuelState, now: int, feedA: PriceFeed, feedB: PriceFeed)
    requires Inv(s) && now > 0 && RecordPrices(s, now, feedA, feedB).Ok?
    ensures Inv(RecordPrices(s, now, feedA, feedB).value) && Later(s, RecordPrices(s, now, feedA, feedB).value)
  {
    hide Total, Sum, Stakes, Claims, SampledPrices, SampleGuard, GetOraclePrice, OnSchedule;
    SampleKeepsSchedule(now, s.deadline, s.twapWindow, s.twapInterval, s.samplesCount, s.lastSampleTs);
    AcceptedPrice(feedA);
    AcceptedPrice(feedB);
    var s' := RecordPrices(s, now, feedA, feedB).value;
    var x := PriceSample(now, GetOraclePrice(feedA).value, GetOraclePrice(feedB).value);
    SampledAppend(s.samples, x, A);
    SampledAppend(s.samples, x, B);
    SameClaims(s, s', A);
    SameClaims(s, s', B);
  }

  lemma SampledAppend(samples: seq<PriceSample>, x: PriceSample, side: Side)
    ensures Sum(SampledPrices(samples + [x], side)) == Sum(SampledPrices(samples, side)) + PriceOn(x, side)
  {
    SumAppend(SampledPrices(samples, side), PriceOn(x, side));
    assert SampledPrices(samples + [x], side) == SampledPrices(samples, side) + [PriceOn(x, side)];
  }

  lemma SameClaims(s: DuelState, s': DuelState, side: Side)
    requires s'.deposits == s.deposits && s'.winner == s.winner
    requires s.winner != None ==> s'.netPool == s.netPool && s'.totalA == s.totalA && s'.totalB == s.totalB
    ensures Stakes(s', side) == Stakes(s, side) && Claims(s', side) == Claims(s, side)
  {
    forall d | d in s.deposits ensures Payout(s', s.deposits[d]) == Payout(s, s.deposits[d]) {
    }
  }

  /** Both totals fit one u64, since both vaults hold at least them. */
  lemma TotalsFit(s: DuelState)
    requires Inv(s) && s.status != Resolved
    ensures s.totalA <= s.PoolVault(A) && s.totalB <= s.PoolVault(B)
    ensures s.totalA + s.totalB <= U64_MAX
  {
    hide Total, Sum, SampledPrices;
    assert Claims(s, A) == Stakes(s, A);
    assert Claims(s, B) == Stakes(s, B);
    TotalBounds(s.wsol, Vault(A), Vault(B));
  }

  /** What a resolution does to the open claims: a draw leaves them, a winner's side shares the net pool
      and the loser's side has nothing left to claim. */
  lemma ResolvedClaims(s: DuelState, winner: Option<Side>, netPool: nat, wsol: Balances)
    requires Inv(s) && s.status != Resolved
    requires winner.Some? ==> s.TotalOf(winner.value) > 0
    ensures var s' := s.(status := Resolved, winner := winner, netPool := netPool, wsol := wsol);
            forall side ::
              && Stakes(s', side) == Stakes(s, side)
              && Claims(s', side) == Payouts(s', side)
              && (winner == None ==> Claims(s', side) == Claims(s, side))
              && (winner.Some? ==> Total(Claims(s', side)) <= if side == winner.value then netPool else 0)
  {
    hide Sum, SampledPrices, OnSchedule;
    var s' := s.(status := Resolved, winner := winner, netPool := netPool, wsol := wsol);
    forall side
      ensures Stakes(s', side) == Stakes(s, side) && Claims(s', side) == Payouts(s', side)
      ensures winner == None ==> Claims(s', side) == Claims(s, side)
      ensures winner.Some? ==> Total(Claims(s', side)) <= if side == winner.value then netPool else 0
    {
      assert Claims(s', side) == Payouts(s', side);
      assert winner == None ==> Claims(s', side) == Claims(s, side);
      if winner.Some? {
        if side == winner.value {
          ShareTotal(s', side);
        } else {
          ZeroTotal(Claims(s', side));
        }
      }
    }
  }

  /** The winners' payouts together never exceed the net pool, and leave less than one unit a winner. */
  lemma ShareTotal(s: DuelState, side: Side)
    requires s.winner == Some(side) && s.TotalOf(side) == Total(Stakes(s, side)) > 0
    ensures Total(Payouts(s, side)) <= s.netPool < Total(Payouts(s, side)) + |Stakes(s, side).Keys|
  {
    var stakes, shares, total := Stakes(s, side), Payouts(s, side), s.TotalOf(side);
    assert shares.Keys == stakes.Keys;
    SharesSum(stakes, shares, s.netPool, total);
    TotalPositive(stakes);
    SharesLeftover(total, Total(shares), s.netPool, |stakes.Keys|);
  }

  lemma TotalPositive(m: map<nat, nat>)
    requires Total(m) > 0
    ensures |m.Keys| > 0
  {
    assert m != map[];
    assert m.Keys != {};
  }

  lemma SharesLeftover(total: nat, shares: nat, net: nat, n: nat)
    requires total > 0 && n > 0
    requires total * shares <= total * net <= total * shares + n * (total - 1)
    ensures shares <= net < shares + n
  {
    assert total * shares < total * (net + 1);
    MulCancel(total, shares, net + 1);
    assert n * (total - 1) == n * total - n;
    assert total * (shares + n) == total * shares + n * total;
    MulCancel(total, net, shares + n);
  }

  lemma ResolvedKeeps(s: DuelState, winner: Option<Side>, netPool: nat, wsol: Balances)
    requires Inv(s) && s.status != Resolved && netPool <= s.totalA + s.totalB
    requires winner.Some? ==> s.TotalOf(winner.value) > 0
    requires wsol.Keys == s.wsol.Keys && Total(wsol) == Total(s.wsol)
    requires winner == None ==> wsol == s.wsol
    requires winner.Some? ==> Balance(wsol, Vault(winner.value)) >= netPool
    ensures var s' := s.(status := Resolved, winner := winner, netPool := netPool, wsol := wsol);
            Inv(s') && Later(s, s')
  {
    hide Total, Sum, SampledPrices, Stakes, Claims, OnSchedule;
    TotalsFit(s);
    ResolvedClaims(s, winner, netPool, wsol);
  }

  /** The steps of collecting the pool, and what they leave in the winner's vault. */
  lemma CollectMoves(s: DuelState, winner: Side, wsol: Balances, net: nat)
    requires Inv(s) && s.status != Resolved
    requires CollectPool(s.wsol, winner, s.totalA + s.totalB, s.protocolFee, s.creatorFee, s.config) == Ok((wsol, net))
    ensures wsol.Keys == s.wsol.Keys && Total(wsol) == Total(s.wsol)
    ensures net == FeesOf(s.totalA + s.totalB, s.config).net <= s.totalA + s.totalB
    ensures Balance(wsol, Vault(winner)) >= net
  {
    hide Total, Sum, SampledPrices, TradeFees, TransferIfPositive, OnSchedule;
    TotalsFit(s);
    var loser := winner.Other();
    var fees := TradeFees(s.totalA + s.totalB, s.config).value;
    FeesSplitExactly(s.totalA + s.totalB, s.config);
    OptionalTransferMoves(s.wsol, Vault(loser), Vault(winner), s.PoolVault(loser));
    var w1 := TransferIfPositive(s.wsol, Vault(loser), Vault(winner), s.PoolVault(loser)).value;
    OptionalTransferMoves(w1, Vault(winner), s.protocolFee, fees.protocol);
    var w2 := TransferIfPositive(w1, Vault(winner), s.protocolFee, fees.protocol).value;
    OptionalTransferMoves(w2, Vault(winner), s.creatorFee, fees.creator);
  }

  lemma ResolveCompareKeeps(s: DuelState, now: int)
    requires Inv(s) && ResolveCompare(s, now).Ok?
    ensures Inv(ResolveCompare(s, now).value) && Later(s, ResolveCompare(s, now).value)
  {
    hide Total, Sum, SampledPrices, CollectPool, CompareWinner, MinSamples, FinalTwap, Stakes, Claims, OnSchedule, SideInv;
    TotalsFit(s);
    var winner := DecideDuel(s, now).value;
    if winner.Some? {
      var collected := CollectPool(s.wsol, winner.value, s.totalA + s.totalB, s.protocolFee, s.creatorFee, s.config).value;
      CollectMoves(s, winner.value, collected.0, collected.1);
      ResolvedKeeps(s, winner, collected.1, collected.0);
    } else {
      ResolvedKeeps(s, None, s.totalA + s.totalB, s.wsol);
    }
  }

  lemma EmergencyKeeps(s: DuelState, now: int)
    requires Inv(s) && EmergencyDrawCompare(s, now).Ok?
    ensures Inv(EmergencyDrawCompare(s, now).value) && Later(s, EmergencyDrawCompare(s, now).value)
  {
    hide Total, Sum, SampledPrices, Stakes, Claims, OnSchedule, SideInv;
    TotalsFit(s);
    ResolvedKeeps(s, None, s.totalA + s.totalB, s.wsol);
  }

  /** The checked, cast arithmetic of a withdrawal is exactly the deposit's payout. */
  lemma PayoutExact(s: DuelState, depositor: nat, vault: Account)
    requires Inv(s) && depositor in s.deposits
    ensures var record := s.deposits[depositor];
            PayoutFrom(s, record, vault) ==
            if (s.winner == None || s.winner == Some(record.side)) && vault != Vault(record.side) then Err(InvalidSide)
            else Ok(Payout(s, record))
  {
    hide Inv;
    var record := s.deposits[depositor];
    if s.winner == Some(record.side) {
      WinnerWithinTotal(s, depositor);
      ShareFits(record.amount, s.netPool, s.TotalOf(record.side));
    }
  }

  lemma WinnerWithinTotal(s: DuelState, depositor: nat)
    requires Inv(s) && depositor in s.deposits && s.winner == Some(s.deposits[depositor].side)
    ensures s.deposits[depositor].amount <= s.TotalOf(s.deposits[depositor].side) <= U64_MAX
    ensures s.netPool <= U64_MAX && s.TotalOf(s.deposits[depositor].side) > 0
  {
    hide Total, Sum, SampledPrices, Claims, OnSchedule;
    var record := s.deposits[depositor];
    TotalRemove(Stakes(s, record.side), depositor);
    assert Stakes(s, record.side)[depositor] == record.amount;
  }

  lemma ShareFits(amount: nat, net: nat, total: nat)
    requires amount <= total <= U64_MAX && net <= U64_MAX && total > 0
    ensures amount * net <= U128_MAX && Share(amount, net, total) <= net
  {
    MulMono(amount, U64_MAX, net, U64_MAX);
    MulMono(amount, total, net, net);
    DivMono(amount * net, total * net, total);
    DivUnique(total * net, total, net);
  }

  lemma WithdrawParts(s: DuelState, depositor: nat, vault: Account, dest: Account)
    returns (record: DepositRecord, wsol: Balances)
    requires Inv(s) && Withdraw(s, depositor, vault, dest).Ok?
    ensures s.status == Resolved && depositor in s.deposits && record == s.deposits[depositor] && !record.withdrawn
    ensures vault == Vault(record.side) || Payout(s, record) == 0
    ensures TransferIfPositive(s.wsol, vault, dest, Payout(s, record)) == Ok(wsol)
    ensures Withdraw(s, depositor, vault, dest)
            == Ok(s.(wsol := wsol, deposits := s.deposits[depositor := record.(withdrawn := true)]))
  {
    hide Total, Sum, SampledPrices, Claims, Stakes, OnSchedule, PayoutFrom, TransferIfPositive;
    PayoutExact(s, depositor, vault);
    record := s.deposits[depositor];
    wsol := TransferIfPositive(s.wsol, vault, dest, Payout(s, record)).value;
  }

  lemma WithdrawnMaps(s: DuelState, depositor: nat, wsol: Balances, x: Side)
    requires depositor in s.deposits && !s.deposits[depositor].withdrawn
    ensures var record := s.deposits[depositor];
            var s' := s.(wsol := wsol, deposits := s.deposits[depositor := record.(withdrawn := true)]);
            && Stakes(s', x) == Stakes(s, x)
            && Claims(s', x) == (if x == record.side then Claims(s, x) - {depositor} else Claims(s, x))
            && (x == record.side ==> depositor in Claims(s, x) && Claims(s, x)[depositor] == Payout(s, record))
  {
    var record := s.deposits[depositor];
    var s' := s.(wsol := wsol, deposits := s.deposits[depositor := record.(withdrawn := true)]);
    forall r: DepositRecord ensures Payout(s', r) == Payout(s, r) {
    }
  }

  lemma WithdrawKeeps(s: DuelState, depositor: nat, vault: Account, dest: Account)
    requires Inv(s) && Withdraw(s, depositor, vault, dest).Ok?
    ensures Inv(Withdraw(s, depositor, vault, dest).value) && Later(s, Withdraw(s, depositor, vault, dest).value)
  {
    hide Withdraw, Total, Sum, SampledPrices, Claims, Stakes, OnSchedule, TransferIfPositive, Payout;
    var record, wsol := WithdrawParts(s, depositor, vault, dest);
    OptionalTransferMoves(s.wsol, vault, dest, Payout(s, record));
    WithdrawnMaps(s, depositor, wsol, A);
    WithdrawnMaps(s, depositor, wsol, B);
    TotalRemove(Claims(s, record.side), depositor);
  }

  lemma HolderTransferKeeps(s: DuelState, wallet: nat, dest: Account, amount: u64)
    requires Inv(s) && Transfer(s.wsol, Wallet(wallet), dest, amount).Ok?
    ensures var s' := s.(wsol := Transfer(s.wsol, Wallet(wallet), dest, amount).value); Inv(s') && Later(s, s')
  {
    hide Transfer, Total, Sum, SampledPrices, Claims, Stakes, OnSchedule;
    TransferMoves(s.wsol, Wallet(wallet), dest, amount);
    var s' := s.(wsol := Transfer(s.wsol, Wallet(wallet), dest, amount).value);
    SameClaims(s, s', A);
    SameClaims(s, s', B);
  }

  lemma UpdateConfigKeeps(s: DuelState, config: Settings)
    requires Inv(s) && InBounds(config)
    ensures Inv(s.(config := config)) && Later(s, s.(config := config))
  {
    hide Total, Sum, SampledPrices, Claims, Stakes, OnSchedule;
    SameClaims(s, s.(config := config), A);
    SameClaims(s, s.(config := config), B);
  }

  lemma StepKeeps(s: DuelState, now: int, action: Action)
    requires Inv(s) && now > 0 && Step(s, now, action).Ok?
    ensures Inv(Step(s, now, action).value) && Later(s, Step(s, now, action).value)
  {
    hide Deposit, RecordPrices, ResolveCompare, EmergencyDrawCompare, Withdraw, Transfer, Total, Sum, SampledPrices, Later, SideInv;
    match action
    case DepositSol(depositor, wallet, side, amount, vault) => DepositKeeps(s, now, depositor, wallet, side, amount, vault);
    case TakePrices(feedA, feedB) => RecordPricesKeeps(s, now, feedA, feedB);
    case Resolve => ResolveCompareKeeps(s, now);
    case EmergencyResolve => EmergencyKeeps(s, now);
    case WithdrawPayout(depositor, vault, dest) => WithdrawKeeps(s, depositor, vault, dest);
    case UpdateConfig(signer, update) => UpdateConfigKeeps(s, Updated(s.config, signer, update).value);
    case HolderTransfer(wallet, dest, amount) => HolderTransferKeeps(s, wallet, dest, amount);
  }
}
