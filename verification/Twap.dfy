/** The sampling schedule both modes share: when a price sample is accepted, how many there can be,
    and how many a resolution needs. */
module Twap {
  import opened Common
  import opened Arithmetic

  /** The window and interval guards of a sample; `last` is 0 until the first sample. */
  function SampleGuard(now: int, deadline: int, window: u64, interval: u64, last: int): Result<()> {
    var start :- CheckedI64(deadline - AsI64(window));
    var _ :- Require(now >= start, NotInTwapWindow);
    var _ :- Require(now <= deadline, MarketExpired);
    if last > 0 then
      var elapsed :- CheckedI64(now - last);
      Require(elapsed >= AsI64(interval), TwapSampleTooEarly)
    else Ok(())
  }

  /** Half the expected number of samples, at least one, in the program's integer arithmetic. */
  function MinSamples(window: nat, interval: nat): Result<nat> {
    var expected :- CheckedDiv(window, interval);
    Ok(AsU32(Max(Max(expected, 1) / 2, 1)))
  }

  /** An average in the accumulator's u128, cast down to the u64 the program stores. */
  function FinalTwap(accumulator: nat, samples: nat): Result<nat> {
    var average :- CheckedDiv(accumulator, samples);
    Ok(AsU64(average))
  }

  /** Where the clock and the sample count stand in a well-formed schedule. */
  predicate OnSchedule(deadline: int, window: u64, interval: u64, count: nat, last: int) {
    && 0 < window < deadline <= I64_MAX
    && 0 < interval <= I64_MAX
    && (count == 0 ==> last == 0)
    && (count > 0 ==> deadline - window + (count - 1) * interval <= last <= deadline)
  }

  /** On a positive clock the guard decides exactly by the window and the elapsed interval. */
  lemma GuardExact(now: int, deadline: int, window: u64, interval: u64, count: nat, last: int)
    requires OnSchedule(deadline, window, interval, count, last) && 0 < now <= I64_MAX
    ensures SampleGuard(now, deadline, window, interval, last).Ok? <==>
            deadline - window <= now <= deadline && (count == 0 || now - last >= interval)
  {
    if count > 0 {
      MulMono(0, count - 1, 0, interval);
    }
  }

  /** With which error the guard refuses. */
  lemma GuardErrors(now: int, deadline: int, window: u64, interval: u64, count: nat, last: int)
    requires OnSchedule(deadline, window, interval, count, last) && 0 < now <= I64_MAX
    ensures var r := SampleGuard(now, deadline, window, interval, last);
            && (r.Err? ==>
                  r.error ==
                  if now < deadline - window then NotInTwapWindow
                  else if now > deadline then MarketExpired
                  else TwapSampleTooEarly)
            && (r.Err? <==> now < deadline - window || now > deadline || (count > 0 && now - last < interval))
  {
    GuardExact(now, deadline, window, interval, count, last);
    if count > 0 {
      MulMono(0, count - 1, 0, interval);
    }
  }

  /** No sample is accepted after the deadline, on whatever clock. */
  lemma GuardEnds(now: int, deadline: int, window: u64, interval: u64, last: int)
    ensures SampleGuard(now, deadline, window, interval, last).Ok? ==> now <= deadline
  {
  }

  /** Every accepted sample stays on schedule. */
  lemma SampleKeepsSchedule(now: int, deadline: int, window: u64, interval: u64, count: nat, last: int)
    requires OnSchedule(deadline, window, interval, count, last) && now > 0
    requires SampleGuard(now, deadline, window, interval, last).Ok?
    ensures OnSchedule(deadline, window, interval, count + 1, now)
  {
    if count > 0 {
      MulMono(0, count - 1, 0, interval);
      assert count * interval == (count - 1) * interval + interval;
    }
  }

  /** So there are never more samples than the window has room for. */
  lemma SampleCountBound(deadline: int, window: u64, interval: u64, count: nat, last: int)
    requires OnSchedule(deadline, window, interval, count, last)
    ensures count <= window / interval + 1
  {
    if count > 0 {
      assert interval * (count - 1) == (count - 1) * interval <= window;
      DivGreatest(window, interval, count - 1);
    } else {
      DivBounds(window, interval);
    }
  }

  /** Half the room for samples, at least one, before any cast. */
  function ExactQuorum(window: nat, interval: nat): nat
    requires interval > 0
  {
    Max(Max(window / interval, 1) / 2, 1)
  }

  /** The quorum never exceeds the number of samples the window has room for, and is the exact one
      precisely when that number survives the cast to u32. */
  lemma QuorumAttainable(window: nat, interval: nat)
    requires interval > 0
    ensures MinSamples(window, interval).Ok?
    ensures MinSamples(window, interval).value <= window / interval + 1
    ensures MinSamples(window, interval).value == ExactQuorum(window, interval) <==> window / interval < 0x2_0000_0000
    ensures ExactQuorum(window, interval) == if window / interval < 4 then 1 else window / interval / 2
  {
    DivBounds(window, interval);
    CastLowers(ExactQuorum(window, interval));
  }

  lemma CastLowers(x: nat)
    ensures AsU32(x) <= x && (AsU32(x) == x <==> x <= U32_MAX)
  {
  }

  /** At 2^33 intervals the cast wraps the quorum round to nothing. */
  lemma QuorumWraps()
    ensures MinSamples(0x2_0000_0000 * 10, 10) == Ok(0)
  {
  }

  function Sum(values: seq<nat>): nat {
    if values == [] then 0 else Sum(values[..|values| - 1]) + values[|values| - 1]
  }

  lemma SumAppend(values: seq<nat>, v: nat)
    ensures Sum(values + [v]) == Sum(values) + v
  {
    assert (values + [v])[..|values|] == values;
  }

  lemma {:induction false} SumBounds(values: seq<nat>, lo: nat, hi: nat)
    requires forall i :: 0 <= i < |values| ==> lo <= values[i] <= hi
    ensures |values| * lo <= Sum(values) <= |values| * hi
  {
    if values == [] {
    } else {
      var rest := values[..|values| - 1];
      SumBounds(rest, lo, hi);
      assert |values| * lo == |rest| * lo + lo;
      assert |values| * hi == |rest| * hi + hi;
    }
  }

  lemma {:induction false} SumMono(xs: seq<nat>, ys: seq<nat>)
    requires |xs| == |ys|
    requires forall i :: 0 <= i < |xs| ==> xs[i] <= ys[i]
    ensures Sum(xs) <= Sum(ys)
  {
    if xs == [] {
    } else {
      SumMono(xs[..|xs| - 1], ys[..|ys| - 1]);
    }
  }

  /** The final average lies between the smallest and the largest sample, so its cast loses nothing. */
  lemma FinalTwapBetween(values: seq<nat>, lo: nat, hi: nat)
    requires values != [] && hi <= U64_MAX
    requires forall i :: 0 <= i < |values| ==> lo <= values[i] <= hi
    ensures FinalTwap(Sum(values), |values|) == Ok(Sum(values) / |values|)
    ensures lo <= Sum(values) / |values| <= hi
  {
    SumBounds(values, lo, hi);
    AverageBetween(Sum(values), |values|, lo, hi);
  }

  lemma AverageBetween(sum: nat, n: nat, lo: nat, hi: nat)
    requires n > 0 && n * lo <= sum <= n * hi
    ensures lo <= sum / n <= hi
  {
    DivBounds(sum, n);
    MulCancel(n, lo, sum / n + 1);
    assert n * (hi + 1) == n * hi + n;
    MulCancel(n, sum / n, hi + 1);
  }

  /** Samples that dominate one by one dominate on average. */
  lemma FinalTwapMono(xs: seq<nat>, ys: seq<nat>)
    requires |xs| == |ys| > 0
    requires forall i :: 0 <= i < |xs| ==> xs[i] <= ys[i]
    ensures Sum(xs) / |xs| <= Sum(ys) / |ys|
  {
    SumMono(xs, ys);
    DivMono(Sum(xs), Sum(ys), |xs|);
  }
}
