/** The off-chain cranker decides from its own reading of a market when to sample, when to resolve and
    which winner to expect. On every reachable market it decides what the chain would accept. */
module Cranker {
  import opened Common
  import opened Arithmetic
  import opened BondingCurve
  import opened Config
  import opened Doubles
  import opened Ledger
  import opened Twap
  import opened MarketSpec
  import opened MarketInvariant
  import opened MarketRuns
  import opened MarketOutcomes

  /** `determineExpectedWinner`: bigint division, and side A for a market without samples. */
  function ExpectedWinner(accA: nat, accB: nat, samples: nat, vaultA: nat, vaultB: nat): nat {
    if samples == 0 then 0
    else
      var finalA, finalB := accA / samples, accB / samples;
      if finalA > finalB then 0
      else if finalB > finalA then 1
      else if vaultA >= vaultB then 0 else 1
  }

  /** The cranker's quorum, from the quotient of window and interval: halved, which is exact, then rounded
      down once. */
  function QuorumOf(quotient: real): int {
    var atLeastOne := if quotient >= 1.0 then quotient else 1.0;
    Max(1, (atLeastOne / 2.0).Floor)
  }

  function CrankerQuorum(window: nat, interval: nat): int
    requires interval > 0
  {
    QuorumOf(Quotient(window, interval))
  }

  /** Whether the loop can read a market's four 64-bit times into numbers. */
  predicate Readable(s: MarketState) {
    Safe(s.deadline) && Safe(s.twapWindow) && Safe(s.twapInterval) && Safe(s.lastSampleTs)
  }

  /** `Throw` is an exception that no handler of the loop's body catches. */
  datatype Move = Wait | SubmitSample | Resolve(expected: nat) | Throw

  /** What one pass of the loop does about one market; it passes over a resolved one unread. */
  function NextMove(s: MarketState, now: int): Move
    requires s.twapInterval > 0
  {
    if s.status == Resolved then Wait
    else if !Readable(s) then Throw
    else if s.deadline - s.twapWindow <= now <= s.deadline
            && (s.lastSampleTs == 0 || now - s.lastSampleTs >= s.twapInterval) then SubmitSample
    else if now >= s.deadline && s.samplesCount >= CrankerQuorum(s.twapWindow, s.twapInterval) then
      Resolve(ExpectedWinner(s.a.accumulator, s.b.accumulator, s.samplesCount, s.QuoteVault(A), s.QuoteVault(B)))
    else Wait
  }

  /** On every reachable market it comes down to the deadline. */
  lemma ReadableExactly(s: MarketState)
    requires Inv(s)
    ensures Readable(s) <==> s.deadline < 9_007_199_254_740_992
  {
    hide Total, Sum, Prices, Reserve;
    LastSamplePositive(s);
  }

  /** Rounding the quotient to a double and its half down comes to the same quorum as rounding twice over the
      integers, for every window the cranker can read. */
  lemma QuorumAgrees(window: nat, interval: nat)
    requires interval > 0 && window < 9_007_199_254_740_992
    ensures CrankerQuorum(window, interval) == ExactQuorum(window, interval)
  {
    QuotientRounded(window, interval);
    hide Quotient, Rounded;
    DivBounds(window, interval);
    RoundedBetween(window, interval, window / interval, Quotient(window, interval));
    HalfFloor(Quotient(window, interval), window / interval);
  }

  lemma HalfFloor(r: real, q: nat)
    requires q as real <= r < (q + 1) as real
    ensures (r / 2.0).Floor == q / 2
  {
    assert (q / 2) as real <= r / 2.0 < (q / 2 + 1) as real;
  }

  /** The chain casts its quorum to u32; the two agree exactly when that loses nothing. */
  lemma ChainQuorumAgrees(s: MarketState)
    requires Inv(s) && Readable(s)
    ensures MinSamples(s.twapWindow, s.twapInterval) == Ok(CrankerQuorum(s.twapWindow, s.twapInterval))
            <==> s.twapWindow / s.twapInterval < 0x2_0000_0000
  {
    hide Total, Sum, Prices, Reserve, CrankerQuorum, MinSamples, ExactQuorum;
    QuorumAgrees(s.twapWindow, s.twapInterval);
    QuorumAttainable(s.twapWindow, s.twapInterval);
  }

  /** The predicted winner is the one the chain computes. */
  lemma WinnerAgrees(s: MarketState)
    requires Inv(s) && s.samplesCount > 0
    ensures Verdict(s).Ok?
    ensures ExpectedWinner(s.a.accumulator, s.b.accumulator, s.samplesCount, s.QuoteVault(A), s.QuoteVault(B))
            == Verdict(s).value.2.Index()
  {
    hide Total, Sum, Prices, Reserve, FinalTwap;
    FinalTwapIs(s, A);
    FinalTwapIs(s, B);
  }

  /** The cranker submits a sample exactly when the chain accepts one and the market can be read, up to the
      chain's last possible sample. */
  lemma SamplesExactlyWhenAccepted(s: MarketState, now: int)
    requires Inv(s) && 0 < now <= I64_MAX
    ensures NextMove(s, now) == SubmitSample && s.samplesCount < U32_MAX <==>
            RecordSample(s, now).Ok? && s.deadline < 9_007_199_254_740_992
  {
    hide Total, Sum, Prices, Reserve, RecordSample, ExpectedWinner, CrankerQuorum, Readable;
    ReadableExactly(s);
    SampleAcceptedExactly(s, now);
    LastSamplePositive(s);
  }

  /** It throws exactly on an unresolved market whose deadline is 2^53 or later. */
  lemma ThrowsExactly(s: MarketState, now: int)
    requires Inv(s)
    ensures NextMove(s, now) == Throw <==> s.status != Resolved && s.deadline >= 9_007_199_254_740_992
  {
    hide Total, Sum, Prices, Reserve, ExpectedWinner, CrankerQuorum, Readable;
    ReadableExactly(s);
  }

  /** Anyone can create such a market, and the chain samples it as any other: here it accepts a sample in the
      second the window opens, while the cranker throws. */
  lemma UnreadableMarket(creatorFee: Account, wsol: Balances, holders: set<nat>, config: Settings, lamports: nat)
    requires InBounds(config) && !config.paused && config.minMarketDuration <= 9_007_197_554_740_992
    requires Vault(A) !in wsol && Vault(B) !in wsol && Total(wsol) <= U64_MAX
    requires creatorFee != NO_ACCOUNT && config.marketCreationFee <= lamports
    ensures var created := NewMarket(1_700_000_000, 9_007_199_254_740_992, 9_007_197_554_740_972, 10,
                                     creatorFee, wsol, holders, config, lamports);
            && created.Ok? && Inv(created.value)
            && RecordSample(created.value, 1_700_000_020).Ok?
            && NextMove(created.value, 1_700_000_020) == Throw
  {
    var now, deadline, window: u64 := 1_700_000_000, 9_007_199_254_740_992, 9_007_197_554_740_972;
    MarketCreatedExactly(now, deadline, window, 10, creatorFee, wsol, holders, config, lamports);
    hide Total, Sum, Prices, Reserve, RecordSample, NextMove;
    NewMarketInv(now, deadline, window, 10, creatorFee, wsol, holders, config, lamports);
    var s := NewMarket(now, deadline, window, 10, creatorFee, wsol, holders, config, lamports).value;
    CreatedMarket(now, deadline, window, 10, creatorFee, wsol, holders, config, lamports);
    hide Inv, NewMarket;
    SampleAcceptedExactly(s, 1_700_000_020);
    ThrowsExactly(s, 1_700_000_020);
  }

  lemma LastSamplePositive(s: MarketState)
    requires Inv(s)
    ensures s.lastSampleTs == 0 <==> s.samplesCount == 0
  {
    if s.samplesCount > 0 {
      MulMono(0, s.samplesCount - 1, 0, s.twapInterval);
    }
  }

  /** When it resolves, the chain accepts its winner: the only things that can still stop the graduation
      are the two reserves falling short of 0.1 SOL, a sold-out winner, or a missing account. */
  lemma ResolutionAccepted(s: MarketState, now: int, tokenDest: Account, wsolDest: Account)
    requires Inv(s) && NextMove(s, now).Resolve?
    ensures Verdict(s).Ok?
    ensures Graduate(s, now, NextMove(s, now).expected, tokenDest, wsolDest).Ok? <==>
            && s.QuoteVault(A) + s.QuoteVault(B) >= 100_000_000
            && s.TokenVault(Verdict(s).value.2) > 0
            && tokenDest in s.SideAt(Verdict(s).value.2).tokens && wsolDest in s.wsol
  {
    hide Total, Sum, Prices, Reserve, Graduate, ExpectedWinner, CrankerQuorum, FinalTwap, MinSamples, Readable;
    QuorumReached(s);
    WinnerAgrees(s);
    GraduateSucceedsExactly(s, now, NextMove(s, now).expected, tokenDest, wsolDest);
  }

  /** The cast can only lower the chain's quorum, so whoever meets the cranker's meets the chain's. */
  lemma QuorumReached(s: MarketState)
    requires Inv(s) && Readable(s)
    ensures MinSamples(s.twapWindow, s.twapInterval).Ok?
    ensures 1 <= CrankerQuorum(s.twapWindow, s.twapInterval)
    ensures MinSamples(s.twapWindow, s.twapInterval).value <= CrankerQuorum(s.twapWindow, s.twapInterval)
  {
    hide Total, Sum, Prices, Reserve, CrankerQuorum;
    QuorumAgrees(s.twapWindow, s.twapInterval);
    QuorumAttainable(s.twapWindow, s.twapInterval);
    CastLowers(ExactQuorum(s.twapWindow, s.twapInterval));
  }

  /** When it waits the chain would refuse a sample, and accept a graduation exactly if the market is ready for
      one and only the cranker's quorum is unmet, which takes a chain quorum that has wrapped round. */
  lemma WaitsOnlyWhenRefused(s: MarketState, now: int, expected: nat, tokenDest: Account, wsolDest: Account)
    requires Inv(s) && 0 < now <= I64_MAX && NextMove(s, now) == Wait
    ensures RecordSample(s, now).Err?
    ensures Graduate(s, now, expected, tokenDest, wsolDest).Ok? <==>
            && CanGraduate(s, now, expected, tokenDest, wsolDest)
            && s.samplesCount < ExactQuorum(s.twapWindow, s.twapInterval)
    ensures Graduate(s, now, expected, tokenDest, wsolDest).Ok? ==> s.twapWindow / s.twapInterval >= 0x2_0000_0000
  {
    hide Total, Sum, Prices, Reserve, RecordSample, Graduate, ExpectedWinner, CrankerQuorum, MinSamples, ExactQuorum;
    hide Readable;
    GraduateSucceedsExactly(s, now, expected, tokenDest, wsolDest);
    ReadableExactly(s);
    SamplesExactlyWhenAccepted(s, now);
    if s.status != Resolved {
      QuorumAgrees(s.twapWindow, s.twapInterval);
      ChainQuorumAgrees(s);
    } else {
      ResolvedRefusesSamples(s, now);
    }
  }

  lemma ResolvedRefusesSamples(s: MarketState, now: int)
    requires s.status == Resolved
    ensures RecordSample(s, now).Err?
  {
  }

  // ---------- The loop ----------

  /** What submitting the decision does to one market; a refused transaction changes nothing. */
  function Serve(s: MarketState, now: int, tokenDest: Account, wsolDest: Account): Result<MarketState>
    requires s.twapInterval > 0
  {
    match NextMove(s, now)
    case SubmitSample => RecordSample(s, now)
    case Resolve(expected) => Graduate(s, now, expected, tokenDest, wsolDest)
    case _ => Ok(s)
  }

  function Served(s: MarketState, now: int, tokenDest: Account, wsolDest: Account): MarketState
    requires s.twapInterval > 0
  {
    match Serve(s, now, tokenDest, wsolDest)
    case Ok(next) => next
    case Err(_) => s
  }

  /** What the loop counts. */
  datatype Outcome = Nothing | Sampled | Graduation | Refusal

  function OutcomeOf(s: MarketState, now: int, tokenDest: Account, wsolDest: Account): Outcome
    requires s.twapInterval > 0
  {
    if Serve(s, now, tokenDest, wsolDest).Err? then Refusal
    else match NextMove(s, now)
      case SubmitSample => Sampled
      case Resolve(_) => Graduation
      case _ => Nothing
  }

  datatype Totals = Totals(samples: nat, resolutions: nat, errors: nat) {
    function Add(outcome: Outcome): Totals {
      match outcome
      case Nothing => this
      case Sampled => this.(samples := samples + 1)
      case Graduation => this.(resolutions := resolutions + 1)
      case Refusal => this.(errors := errors + 1)
    }
  }

  /** The totals after serving `markets` from `start` on. */
  function Tally(start: Totals, markets: seq<MarketState>, now: int, tokenDest: Account, wsolDest: Account): Totals
    requires forall s :: s in markets ==> s.twapInterval > 0
  {
    if markets == [] then start
    else
      var last := |markets| - 1;
      Tally(start, markets[..last], now, tokenDest, wsolDest).Add(OutcomeOf(markets[last], now, tokenDest, wsolDest))
  }

  /** How many markets a pass gets through before the first it throws on. */
  function Reached(markets: seq<MarketState>, now: int): (n: nat)
    requires forall s :: s in markets ==> s.twapInterval > 0
    ensures n <= |markets|
    ensures forall i :: 0 <= i < n ==> NextMove(markets[i], now) != Throw
    ensures n < |markets| ==> NextMove(markets[n], now) == Throw
  {
    if markets == [] || NextMove(markets[0], now) == Throw then 0 else 1 + Reached(markets[1..], now)
  }

  lemma TallyNext(start: Totals, markets: seq<MarketState>, i: nat, now: int, tokenDest: Account, wsolDest: Account)
    requires i < |markets| && forall s :: s in markets ==> s.twapInterval > 0
    ensures Tally(start, markets[..i + 1], now, tokenDest, wsolDest) ==
            Tally(start, markets[..i], now, tokenDest, wsolDest).Add(OutcomeOf(markets[i], now, tokenDest, wsolDest))
  {
    hide OutcomeOf;
    assert markets[..i + 1][..i] == markets[..i];
  }

  /** The loop and the timer that runs it. A pass that is still running makes the next one return at once. */
  class Loop {
    var isProcessing: bool
    var totalSamples: nat
    var totalResolutions: nat
    var totalErrors: nat

    ghost function Counted(): Totals
      reads this
    {
      Totals(totalSamples, totalResolutions, totalErrors)
    }

    /** One market: at most one transaction, and one counter goes up. */
    method ServeMarket(s: MarketState, now: int, tokenDest: Account, wsolDest: Account) returns (after: MarketState)
      requires s.twapInterval > 0 && NextMove(s, now) != Throw
      modifies this`totalSamples, this`totalResolutions, this`totalErrors
      ensures after == Served(s, now, tokenDest, wsolDest)
      ensures Counted() == old(Counted()).Add(OutcomeOf(s, now, tokenDest, wsolDest))
      ensures var move, sent := NextMove(s, now), Serve(s, now, tokenDest, wsolDest);
              && totalSamples == old(totalSamples) + (if move.SubmitSample? && sent.Ok? then 1 else 0)
              && totalResolutions == old(totalResolutions) + (if move.Resolve? && sent.Ok? then 1 else 0)
              && totalErrors == old(totalErrors) + (if sent.Err? then 1 else 0)
    {
      hide RecordSample, Graduate, NextMove;
      var result := Ok(s);
      match NextMove(s, now) {
        case SubmitSample =>
          result := RecordSample(s, now);
          if result.Ok? {
            totalSamples := totalSamples + 1;
          }
        case Resolve(expected) =>
          result := Graduate(s, now, expected, tokenDest, wsolDest);
          if result.Ok? {
            totalResolutions := totalResolutions + 1;
          }
        case _ =>
      }
      if result.Ok? {
        return result.value;
      }
      totalErrors := totalErrors + 1;
      return s;
    }

    /** Serves the markets in order, up to the first it throws on. */
    method Pass(markets: seq<MarketState>, now: int, tokenDest: Account, wsolDest: Account)
      returns (after: seq<MarketState>, threw: bool)
      requires forall s :: s in markets ==> s.twapInterval > 0
      modifies this
      ensures isProcessing == old(isProcessing)
      ensures old(isProcessing) ==> after == markets && !threw && Counted() == old(Counted())
      ensures !old(isProcessing) ==>
                var n := Reached(markets, now);
                && threw == (n < |markets|) && |after| == |markets| && after[n..] == markets[n..]
                && (forall i :: 0 <= i < n ==> after[i] == Served(markets[i], now, tokenDest, wsolDest))
                && Counted() == Tally(old(Counted()), markets[..n], now, tokenDest, wsolDest)
    {
      hide NextMove, Served, OutcomeOf, Reached;
      if isProcessing {
        return markets, false;
      }
      isProcessing := true;
      after, threw := [], false;
      assert Tally(Counted(), markets[..0], now, tokenDest, wsolDest) == Counted();
      hide Tally;
      while |after| < |markets| && !threw
        invariant isProcessing && |after| <= Reached(markets, now)
        invariant threw ==> |after| == Reached(markets, now) < |markets|
        invariant forall j :: 0 <= j < |after| ==> after[j] == Served(markets[j], now, tokenDest, wsolDest)
        invariant Counted() == Tally(old(Counted()), markets[..|after|], now, tokenDest, wsolDest)
        decreases |markets| - |after|, !threw
      {
        var i := |after|;
        if NextMove(markets[i], now) == Throw {
          threw := true;
        } else {
          TallyNext(old(Counted()), markets, i, now, tokenDest, wsolDest);
          var next := ServeMarket(markets[i], now, tokenDest, wsolDest);
          after := after + [next];
        }
      }
      after := after + markets[|after|..];
      isProcessing := false;
    }

    /** The timer's callback: a pass, whose exception it counts as one error. */
    method Tick(markets: seq<MarketState>, now: int, tokenDest: Account, wsolDest: Account)
      returns (after: seq<MarketState>)
      requires forall s :: s in markets ==> s.twapInterval > 0
      modifies this
      ensures isProcessing == old(isProcessing)
      ensures old(isProcessing) ==> after == markets && Counted() == old(Counted())
      ensures !old(isProcessing) ==>
                var n := Reached(markets, now);
                var served := Tally(old(Counted()), markets[..n], now, tokenDest, wsolDest);
                && |after| == |markets| && after[n..] == markets[n..]
                && (forall i :: 0 <= i < n ==> after[i] == Served(markets[i], now, tokenDest, wsolDest))
                && Counted() == if n < |markets| then served.(errors := served.errors + 1) else served
    {
      hide NextMove, Served, Tally;
      var threw: bool;
      after, threw := Pass(markets, now, tokenDest, wsolDest);
      if threw {
        totalErrors := totalErrors + 1;
      }
    }
  }

  /** A market is served by a pass exactly if every unresolved one up to it can be read; so a pass serves them
      all exactly if no unresolved market has a deadline of 2^53 or later. */
  lemma ServedExactly(markets: seq<MarketState>, now: int, i: nat)
    requires i < |markets| && forall s :: s in markets ==> s.twapInterval > 0 && Inv(s)
    ensures i < Reached(markets, now) <==>
            forall j :: 0 <= j <= i ==> markets[j].status == Resolved || markets[j].deadline < 9_007_199_254_740_992
    ensures Reached(markets, now) == |markets| <==>
            forall j :: 0 <= j < |markets| ==> markets[j].status == Resolved || markets[j].deadline < 9_007_199_254_740_992
  {
    hide Inv, NextMove;
    forall j | 0 <= j < |markets|
      ensures NextMove(markets[j], now) == Throw <==>
              markets[j].status != Resolved && markets[j].deadline >= 9_007_199_254_740_992
    {
      ThrowsExactly(markets[j], now);
    }
  }

  /** And such a market is there to stay: nothing resolves it before its deadline, so every pass of every later
      second stops at it again. */
  lemma {:induction false} KeepsThrowing(s: MarketState, events: seq<Event>, now: int)
    requires Inv(s) && s.status != Resolved && s.deadline >= 9_007_199_254_740_992
    requires Run(s, events).clock < s.deadline
    ensures Run(s, events).twapInterval > 0 && NextMove(Run(s, events), now) == Throw
    decreases |events|
  {
    hide Inv, Apply, NextMove, Later;
    if events == [] {
      ThrowsExactly(s, now);
      IntervalPositive(s);
    } else {
      var next := Apply(s, events[0]);
      ApplyKeeps(s, events[0]);
      ClockStep(s, events[0]);
      ClockForward(next, events[1..]);
      UnresolvedBeforeDeadline(s, events[0]);
      KeepsThrowing(next, events[1..], now);
    }
  }

  lemma IntervalPositive(s: MarketState)
    requires Inv(s)
    ensures s.twapInterval > 0
  {
    hide Total, Sum, Prices, Reserve;
  }

  lemma {:induction false} ClockForward(s: MarketState, events: seq<Event>)
    ensures s.clock <= Run(s, events).clock
    decreases |events|
  {
    if events == [] {
    } else {
      ClockStep(s, events[0]);
      hide Apply;
      ClockForward(Apply(s, events[0]), events[1..]);
    }
  }

  lemma ClockStep(s: MarketState, e: Event)
    ensures Apply(s, e).clock == s.clock + e.wait
  {
    hide Step;
  }

  lemma UnresolvedBeforeDeadline(s: MarketState, e: Event)
    requires Inv(s) && s.status != Resolved && s.clock + e.wait < s.deadline
    ensures Apply(s, e).status != Resolved && Apply(s, e).deadline == s.deadline
  {
    hide Inv, SampleGuard, PriceOf, SettlePurchase, SettleSale, SettleExit, SeedOutcome, Updated, Transfer, MinSamples;
  }

  /** With the chain's own clock and fresh reads, the only transactions of a pass that can be refused are a
      sample beyond the last the chain can count, and graduations whose reserves are short, whose winner is
      sold out or whose seed accounts are missing. */
  lemma RefusedOnlyGraduations(s: MarketState, now: int, tokenDest: Account, wsolDest: Account)
    requires Inv(s) && 0 < now <= I64_MAX
    requires Serve(s, now, tokenDest, wsolDest).Err?
    ensures NextMove(s, now).SubmitSample? ==> s.samplesCount == U32_MAX
    ensures !NextMove(s, now).SubmitSample? ==>
              && NextMove(s, now).Resolve? && Verdict(s).Ok?
              && (|| s.QuoteVault(A) + s.QuoteVault(B) < 100_000_000
                  || s.TokenVault(Verdict(s).value.2) == 0
                  || tokenDest !in s.SideAt(Verdict(s).value.2).tokens || wsolDest !in s.wsol)
  {
    hide Total, Sum, Prices, Reserve, RecordSample, Graduate, ExpectedWinner, CrankerQuorum, MinSamples, Readable;
    SamplesExactlyWhenAccepted(s, now);
    ReadableExactly(s);
    if NextMove(s, now).Resolve? {
      ResolutionAccepted(s, now, tokenDest, wsolDest);
    }
  }
}
