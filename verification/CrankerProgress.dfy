/** The cranker makes progress: polling often enough, it collects the samples a resolution needs, whatever
    anybody else does in between. */
module CrankerProgress {
  import opened Common
  import opened Arithmetic
  import opened BondingCurve
  import opened Ledger
  import opened Twap
  import opened MarketSpec
  import opened MarketInvariant
  import opened MarketRuns
  import opened MarketEffects
  import opened Cranker

  /** What happens between two polls: other people's instructions, and then time passing. */
  datatype Round = Round(others: seq<Event>, wait: nat)

  /** The market when the cranker polls next. */
  function Until(s: MarketState, round: Round): MarketState {
    var t := Run(s, round.others);
    t.(clock := t.clock + round.wait)
  }

  /** One poll: the loop serves the market, if it can, at once. */
  function Poll(s: MarketState, tokenDest: Account, wsolDest: Account): MarketState {
    if s.twapInterval > 0 then Served(s, s.clock, tokenDest, wsolDest) else s
  }

  /** A market that the cranker polls after every round. */
  function Polled(s: MarketState, rounds: seq<Round>, tokenDest: Account, wsolDest: Account): MarketState
    decreases |rounds|
  {
    if rounds == [] then s
    else Polled(Poll(Until(s, rounds[0]), tokenDest, wsolDest), rounds[1..], tokenDest, wsolDest)
  }

  /** No two polls are further apart than an interval or the whole window, whichever is shorter. */
  predicate InTime(s: MarketState, rounds: seq<Round>, tokenDest: Account, wsolDest: Account)
    decreases |rounds|
  {
    rounds == [] ||
    (&& Until(s, rounds[0]).clock <= s.clock + Min(s.twapInterval, s.twapWindow)
     && InTime(Poll(Until(s, rounds[0]), tokenDest, wsolDest), rounds[1..], tokenDest, wsolDest))
  }

  /** What sampling has achieved when the last poll was at `poll`: fewer than two intervals between samples,
      no sample overdue, and the quorum once the window has closed; or as many samples as can be counted. */
  predicate Sampling(s: MarketState, poll: int) {
    var n, start := s.samplesCount, s.deadline - s.twapWindow;
    n == U32_MAX ||
    (&& (n > 0 ==> s.lastSampleTs - start < 2 * (n * s.twapInterval) - s.twapInterval)
     && (start <= poll <= s.deadline ==> n > 0 && poll - s.lastSampleTs < s.twapInterval)
     && (poll > s.deadline ==> n > 0 && s.twapWindow < 2 * (n * s.twapInterval) + s.twapInterval))
  }

  lemma SamplingSameFields(s: MarketState, t: MarketState, poll: int)
    requires t.deadline == s.deadline && t.twapWindow == s.twapWindow && t.twapInterval == s.twapInterval
    requires t.samplesCount == s.samplesCount && t.lastSampleTs == s.lastSampleTs
    ensures Sampling(t, poll) == Sampling(s, poll)
  {
  }

  // ---------- One step ----------

  lemma AcceptedInWindow(s: MarketState, now: int)
    requires Inv(s) && now > 0 && RecordSample(s, now).Ok?
    ensures s.deadline - s.twapWindow <= now <= s.deadline
  {
    hide Total, Sum, Reserve, Prices, PriceOf, SampleGuard;
    SampleKeepsSchedule(now, s.deadline, s.twapWindow, s.twapInterval, s.samplesCount, s.lastSampleTs);
    MulMono(0, s.samplesCount, 0, s.twapInterval);
  }

  /** One more sample, in time. */
  lemma SampleAdds(s: MarketState, now: int, poll: int, t: MarketState)
    requires Sampling(s, poll) && s.samplesCount < U32_MAX && s.twapInterval > 0
    requires s.deadline - s.twapWindow <= now <= s.deadline && poll <= now <= poll + s.twapInterval
    requires t.deadline == s.deadline && t.twapWindow == s.twapWindow && t.twapInterval == s.twapInterval
    requires t.samplesCount == s.samplesCount + 1 && t.lastSampleTs == now
    ensures Sampling(t, poll) && Sampling(t, now)
  {
    assert t.samplesCount * t.twapInterval == s.samplesCount * s.twapInterval + s.twapInterval;
    MulMono(0, s.samplesCount, 0, s.twapInterval);
  }

  lemma StepKeepsSampling(s: MarketState, now: int, action: Action, poll: int)
    requires Inv(s) && Sampling(s, poll) && Step(s, now, action).Ok?
    requires 0 < now && poll <= now <= poll + s.twapInterval
    ensures Sampling(Step(s, now, action).value, poll)
  {
    PositiveTimes(s);
    ScheduleKept(s, now, action);
    var t := Step(s, now, action).value;
    if action.TakeSample? {
      SampleIsStep(s, now);
      hide Step, RecordSample;
      AcceptedInWindow(s, now);
      hide Inv, Sampling;
      SampleAdds(s, now, poll, t);
    } else {
      hide Inv, Sampling, Step;
      SamplingSameFields(s, t, poll);
    }
  }

  lemma ApplyKeepsSampling(s: MarketState, e: Event, poll: int)
    requires Inv(s) && Sampling(s, poll) && poll <= s.clock && s.clock + e.wait <= poll + s.twapInterval
    ensures Sampling(Apply(s, e), poll)
  {
    var now := s.clock + e.wait;
    hide Inv, Step, Sampling;
    PositiveTimes(s);
    ClockAside(s, now, poll);
    if Step(s, now, e.action).Ok? {
      StepKeepsSampling(s, now, e.action, poll);
      ClockAside(Step(s, now, e.action).value, now, poll);
    }
  }

  lemma ClockAside(s: MarketState, now: int, poll: int)
    ensures Sampling(s.(clock := now), poll) == Sampling(s, poll)
  {
    SamplingSameFields(s, s.(clock := now), poll);
    hide Sampling;
  }

  lemma PositiveTimes(s: MarketState)
    requires Inv(s)
    ensures s.clock > 0 && s.twapInterval > 0 && s.twapWindow > 0
    ensures s.lastSampleTs == 0 <==> s.samplesCount == 0
  {
    hide Total, Sum, Reserve, Prices;
    LastSamplePositive(s);
  }

  lemma SampleIsStep(s: MarketState, now: int)
    ensures Step(s, now, TakeSample) == RecordSample(s, now)
  {
    hide RecordSample;
  }

  // ---------- One round ----------

  lemma {:induction false} RunKeepsSampling(s: MarketState, events: seq<Event>, poll: int)
    requires Inv(s) && Sampling(s, poll) && poll <= s.clock && Run(s, events).clock <= poll + s.twapInterval
    ensures Sampling(Run(s, events), poll)
    decreases |events|
  {
    if events == [] {
    } else {
      var next := Apply(s, events[0]);
      ClockStep(s, events[0]);
      ApplyKeeps(s, events[0]);
      assert next.twapInterval == s.twapInterval;
      hide Inv, Apply, Sampling, Later;
      ClockForward(next, events[1..]);
      ApplyKeepsSampling(s, events[0], poll);
      RunKeepsSampling(next, events[1..], poll);
    }
  }

  lemma UntilKeeps(s: MarketState, round: Round)
    requires Inv(s)
    ensures Inv(Until(s, round)) && Later(s, Until(s, round)) && Until(s, round).clock >= s.clock
  {
    hide Run, Total, Sum, Reserve, Prices;
    RunKeeps(s, round.others);
    ClockForward(s, round.others);
  }

  lemma UntilKeepsSampling(s: MarketState, round: Round)
    requires Inv(s) && Sampling(s, s.clock) && Until(s, round).clock <= s.clock + s.twapInterval
    ensures Sampling(Until(s, round), s.clock)
  {
    hide Inv, Run, Sampling;
    RunKeepsSampling(s, round.others, s.clock);
    SamplingSameFields(Run(s, round.others), Until(s, round), s.clock);
  }

  /** A poll is at most one event of the market, on the spot. */
  function PollEvents(s: MarketState, tokenDest: Account, wsolDest: Account): seq<Event> {
    if s.twapInterval == 0 then []
    else match NextMove(s, s.clock)
      case SubmitSample => [Event(0, TakeSample)]
      case Resolve(expected) => [Event(0, ResolveAndGraduate(expected, tokenDest, wsolDest))]
      case _ => []
  }

  lemma PollIsRun(s: MarketState, tokenDest: Account, wsolDest: Account)
    ensures Poll(s, tokenDest, wsolDest) == Run(s, PollEvents(s, tokenDest, wsolDest))
    ensures Poll(s, tokenDest, wsolDest).clock == s.clock
  {
    hide NextMove;
    var events := PollEvents(s, tokenDest, wsolDest);
    if events != [] {
      assert Run(s, events) == Run(Apply(s, events[0]), []) == Apply(s, events[0]);
      SameClock(s, events[0].action);
    }
  }

  lemma SameClock(s: MarketState, action: Action)
    requires action.TakeSample? || action.ResolveAndGraduate?
    ensures Step(s, s.clock, action).Ok? ==> Step(s, s.clock, action).value.clock == s.clock
  {
    hide SampleGuard, PriceOf, SeedOutcome, Decide;
  }

  lemma PollKeeps(s: MarketState, tokenDest: Account, wsolDest: Account)
    requires Inv(s)
    ensures Inv(Poll(s, tokenDest, wsolDest)) && Later(s, Poll(s, tokenDest, wsolDest))
  {
    hide Inv, Later, Run, Poll, PollEvents;
    PollIsRun(s, tokenDest, wsolDest);
    RunKeeps(s, PollEvents(s, tokenDest, wsolDest));
  }

  /** A poll in time keeps sampling up to the present: it samples if a sample is due. */
  lemma PollKeepsSampling(s: MarketState, poll: int, tokenDest: Account, wsolDest: Account)
    requires Inv(s) && s.deadline < 9_007_199_254_740_992 && Sampling(s, poll)
    requires poll <= s.clock <= poll + Min(s.twapInterval, s.twapWindow)
    requires Poll(s, tokenDest, wsolDest).status != Resolved
    ensures Sampling(Poll(s, tokenDest, wsolDest), s.clock)
  {
    PositiveTimes(s);
    ReadableExactly(s);
    UnresolvedBefore(s, tokenDest, wsolDest);
    hide Inv, Readable, ExpectedWinner, CrankerQuorum, RecordSample, Graduate;
    match NextMove(s, s.clock)
    case SubmitSample =>
      SampleIsStep(s, s.clock);
      SamplesExactlyWhenAccepted(s, s.clock);
      if s.samplesCount < U32_MAX {
        ScheduleKept(s, s.clock, TakeSample);
        SampleAdds(s, s.clock, poll, RecordSample(s, s.clock).value);
      } else if RecordSample(s, s.clock).Ok? {
        ScheduleKept(s, s.clock, TakeSample);
      }
    case Resolve(expected) =>
      NoSampleDue(s, poll);
      GraduatedIsResolved(s, s.clock, expected, tokenDest, wsolDest);
    case _ =>
      NoSampleDue(s, poll);
  }

  lemma UnresolvedBefore(s: MarketState, tokenDest: Account, wsolDest: Account)
    requires Inv(s) && Poll(s, tokenDest, wsolDest).status != Resolved
    ensures s.status != Resolved
  {
    PollKeeps(s, tokenDest, wsolDest);
    hide Inv, Poll, SurplusGrows;
  }

  lemma GraduatedIsResolved(s: MarketState, now: int, expected: nat, tokenDest: Account, wsolDest: Account)
    ensures Graduate(s, now, expected, tokenDest, wsolDest).Ok? ==>
              Graduate(s, now, expected, tokenDest, wsolDest).value.status == Resolved
  {
    hide Decide, SeedOutcome;
  }

  /** A poll that does not sample finds the last sample less than an interval old, or the window closed. */
  lemma NoSampleDue(s: MarketState, poll: int)
    requires s.twapInterval > 0 && s.twapWindow > 0 && (s.lastSampleTs == 0 <==> s.samplesCount == 0)
    requires Sampling(s, poll) && poll <= s.clock <= poll + Min(s.twapInterval, s.twapWindow)
    requires s.deadline - s.twapWindow <= s.clock <= s.deadline ==>
               s.lastSampleTs != 0 && s.clock - s.lastSampleTs < s.twapInterval
    ensures Sampling(s, s.clock)
  {
  }

  // ---------- The run ----------

  lemma {:induction false} PollingKeepsSampling(s: MarketState, rounds: seq<Round>, tokenDest: Account, wsolDest: Account)
    requires Inv(s) && s.deadline < 9_007_199_254_740_992 && Sampling(s, s.clock)
    requires InTime(s, rounds, tokenDest, wsolDest)
    requires Polled(s, rounds, tokenDest, wsolDest).status != Resolved
    ensures var t := Polled(s, rounds, tokenDest, wsolDest);
            && Inv(t) && Later(s, t) && Sampling(t, t.clock)
    decreases |rounds|
  {
    hide Inv, Sampling, Until, Poll, Later;
    if rounds == [] {
      RunKeeps(s, []);
    } else {
      var t := Until(s, rounds[0]);
      var next := Poll(t, tokenDest, wsolDest);
      UntilKeeps(s, rounds[0]);
      PollKeeps(t, tokenDest, wsolDest);
      PollIsRun(t, tokenDest, wsolDest);
      SameSchedule(s, t);
      SameSchedule(t, next);
      UntilKeepsSampling(s, rounds[0]);
      StillUnresolved(next, rounds[1..], tokenDest, wsolDest);
      PollKeepsSampling(t, s.clock, tokenDest, wsolDest);
      PollingKeepsSampling(next, rounds[1..], tokenDest, wsolDest);
      LaterTransitive(s, t, next);
      LaterTransitive(s, next, Polled(next, rounds[1..], tokenDest, wsolDest));
    }
  }

  lemma SameSchedule(s: MarketState, t: MarketState)
    requires Later(s, t)
    ensures t.deadline == s.deadline && t.twapWindow == s.twapWindow && t.twapInterval == s.twapInterval
    ensures s.status == Resolved ==> t.status == Resolved
  {
    hide SurplusGrows, Total;
  }

  lemma {:induction false} StillUnresolved(s: MarketState, rounds: seq<Round>, tokenDest: Account, wsolDest: Account)
    requires Inv(s) && Polled(s, rounds, tokenDest, wsolDest).status != Resolved
    ensures s.status != Resolved
    decreases |rounds|
  {
    hide Inv, Until, Poll, Later;
    if rounds == [] {
    } else {
      var t := Until(s, rounds[0]);
      UntilKeeps(s, rounds[0]);
      PollKeeps(t, tokenDest, wsolDest);
      SameSchedule(s, t);
      SameSchedule(t, Poll(t, tokenDest, wsolDest));
      StillUnresolved(Poll(t, tokenDest, wsolDest), rounds[1..], tokenDest, wsolDest);
    }
  }

  /** Progress: on a market it can read, a cranker that polls in time from before the window on meets the
      chain's quorum by its first poll after the deadline, and its own below 2^33 intervals; then it resolves. */
  lemma PollingMeetsQuorum(s: MarketState, rounds: seq<Round>, tokenDest: Account, wsolDest: Account)
    requires Inv(s) && s.samplesCount == 0 && s.clock < s.deadline - s.twapWindow && s.deadline < 9_007_199_254_740_992
    requires InTime(s, rounds, tokenDest, wsolDest)
    requires var t := Polled(s, rounds, tokenDest, wsolDest); t.status != Resolved && t.clock > s.deadline
    ensures var t := Polled(s, rounds, tokenDest, wsolDest);
            && Inv(t) && t.twapInterval > 0 && MinSamples(t.twapWindow, t.twapInterval).Ok?
            && t.samplesCount >= MinSamples(t.twapWindow, t.twapInterval).value
            && (t.twapWindow / t.twapInterval < 0x2_0000_0000 ==> NextMove(t, t.clock).Resolve?)
  {
    hide Inv, Polled, InTime, Later;
    PollingKeepsSampling(s, rounds, tokenDest, wsolDest);
    var t := Polled(s, rounds, tokenDest, wsolDest);
    SameSchedule(s, t);
    PositiveTimes(t);
    CountFits(t);
    QuorumMet(t.twapWindow, t.twapInterval, t.samplesCount);
    hide Sampling, MinSamples, ExactQuorum;
    ReadableExactly(t);
    hide Readable, ExpectedWinner, CrankerQuorum;
    QuorumAgrees(t.twapWindow, t.twapInterval) by { WindowBeforeDeadline(t); }
  }

  lemma WindowBeforeDeadline(s: MarketState)
    requires Inv(s)
    ensures s.twapWindow < s.deadline
  {
    hide Total, Sum, Reserve, Prices;
  }

  lemma CountFits(s: MarketState)
    requires Inv(s)
    ensures s.samplesCount <= U32_MAX
  {
    hide Total, Sum, Reserve, Prices;
  }

  /** Samples less than two intervals apart all through the window are half of what it has room for. */
  lemma QuorumMet(window: nat, interval: nat, n: nat)
    requires interval > 0 && (n == U32_MAX || (n > 0 && window < 2 * (n * interval) + interval))
    ensures MinSamples(window, interval).Ok? && n >= MinSamples(window, interval).value
    ensures window / interval < 0x2_0000_0000 ==> n >= ExactQuorum(window, interval)
  {
    CastLowers(ExactQuorum(window, interval));
    if n != U32_MAX {
      assert 2 * (n * interval) + interval == interval * (2 * n + 1);
      DivBounds(window, interval);
      MulCancel(interval, window / interval, 2 * n + 1);
    }
  }
}
