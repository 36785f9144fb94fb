/** How a compare duel picks its winner: signed percentage change scaled by 10^9, in i128 with
    truncating division, against exact comparison of the ratios `twap / start`. */
module Performance {
  import opened Common
  import opened Arithmetic

  const PERF_SCALE: nat := 1_000_000_000

  function CheckedI128(x: int): Result<int> {
    if -(I128_MAX as int) - 1 <= x <= I128_MAX then Ok(x) else Err(MathOverflow)
  }

  function Perf(twap: nat, start: nat): Result<int>
    requires start > 0
  {
    var change :- CheckedI128(twap - start);
    var scaled :- CheckedI128(change * PERF_SCALE);
    Ok(TruncDiv(scaled, start))
  }

  /** None is an exact tie, which the program treats as a draw. */
  function CompareWinner(twapA: nat, startA: nat, twapB: nat, startB: nat): Result<Option<Side>> {
    var _ :- Require(startA > 0 && startB > 0, NoTwapSamples);
    var perfA :- Perf(twapA, startA);
    var perfB :- Perf(twapB, startB);
    Ok(if perfA > perfB then Some(A) else if perfB > perfA then Some(B) else None)
  }

  function Decided(twapA: nat, startA: nat, twapB: nat, startB: nat): Option<Side>
    requires startA > 0 && startB > 0
  {
    var perfA := TruncDiv((twapA - startA) * PERF_SCALE, startA);
    var perfB := TruncDiv((twapB - startB) * PERF_SCALE, startB);
    if perfA > perfB then Some(A) else if perfB > perfA then Some(B) else None
  }

  /** The i128 arithmetic never overflows on u64 prices: a comparison fails only for want of a start price. */
  lemma CompareNeverOverflows(twapA: nat, startA: nat, twapB: nat, startB: nat)
    requires twapA <= U64_MAX && startA <= U64_MAX && twapB <= U64_MAX && startB <= U64_MAX
    ensures CompareWinner(twapA, startA, twapB, startB) ==
            if startA > 0 && startB > 0 then Ok(Decided(twapA, startA, twapB, startB)) else Err(NoTwapSamples)
  {
  }

  ghost predicate IsTruncated(q: int, x: int, y: int) {
    && y * q - y < x < y * q + y
    && (q > 0 ==> y * q <= x)
    && (q < 0 ==> x <= y * q)
  }

  lemma TruncDivBounds(x: int, y: int)
    requires y > 0
    ensures IsTruncated(TruncDiv(x, y), x, y)
  {
    if x >= 0 {
      DivBounds(x, y);
      Truncated(x, y, x / y);
    } else {
      DivBounds(-x, y);
      Truncated(-x, y, (-x) / y);
    }
  }

  lemma Truncated(x: int, y: int, p: int)
    requires y > 0 && x >= 0 && p >= 0 && y * p <= x < y * (p + 1)
    ensures IsTruncated(p, x, y) && IsTruncated(-p, -x, y)
  {
    Distribute(y, p);
  }

  lemma Distribute(y: int, p: int)
    ensures y * (p + 1) == y * p + y
    ensures y * (-p) == -(y * p)
  {
  }

  /** A strictly larger truncated quotient means a strictly larger quotient. */
  lemma TruncDivReflects(x: int, y: int, u: int, v: int)
    requires y > 0 && v > 0 && TruncDiv(x, y) > TruncDiv(u, v)
    ensures x * v > u * y
  {
    TruncDivBounds(x, y);
    TruncDivBounds(u, v);
    QuotientsReflect(x, y, TruncDiv(x, y), u, v, TruncDiv(u, v));
  }

  lemma QuotientsReflect(x: int, y: int, p: int, u: int, v: int, q: int)
    requires y > 0 && v > 0 && p > q
    requires y * p - y < x && (p > 0 ==> y * p <= x)
    requires u < v * q + v && (q < 0 ==> u <= v * q)
    ensures x * v > u * y
  {
    var m := if p > 0 then p else q;
    if p > 0 {
      Distribute(v, q);
      MulMonoInt(v, q + 1, p);
    } else {
      Distribute(y, p - 1);
      MulMonoInt(y, q, p - 1);
    }
    assert y * m <= x && u <= v * m && (y * m < x || u < v * m);
    CrossMultiply(x, y, u, v, m);
  }

  lemma MulMonoInt(d: int, x: int, y: int)
    requires d >= 0 && x <= y
    ensures d * x <= d * y
  {
  }

  lemma CrossMultiply(x: int, y: int, u: int, v: int, m: int)
    requires y > 0 && v > 0
    requires y * m <= x && u <= v * m && (y * m < x || u < v * m)
    ensures u * y < x * v
  {
    assert x * v - u * y == (x - y * m) * v + (v * m - u) * y;
  }

  /** Equal truncated quotients differ by less than 2, and by less than 1 unless both are 0. */
  lemma TruncDivTie(x: int, y: int, u: int, v: int)
    requires y > 0 && v > 0 && TruncDiv(x, y) == TruncDiv(u, v)
    ensures -2 * (y * v) < x * v - u * y < 2 * (y * v)
    ensures TruncDiv(x, y) != 0 ==> -(y * v) < x * v - u * y < y * v
  {
    TruncDivBounds(x, y);
    TruncDivBounds(u, v);
    RemaindersCross(x, y, u, v, TruncDiv(x, y));
    ProductBound(x - y * TruncDiv(x, y), y, v);
    ProductBound(u - v * TruncDiv(x, y), v, y);
  }

  lemma RemaindersCross(x: int, y: int, u: int, v: int, q: int)
    ensures x * v - u * y == (x - y * q) * v - (u - v * q) * y
  {
  }

  lemma ProductBound(r: int, y: int, v: int)
    requires v > 0 && -y < r < y
    ensures -(y * v) < r * v < y * v && y * v == v * y
    ensures r >= 0 ==> r * v >= 0
    ensures r <= 0 ==> r * v <= 0
  {
    assert (y - r) * v > 0 && (y + r) * v > 0;
  }

  lemma Unscale(twapA: nat, startA: nat, twapB: nat, startB: nat)
    ensures ((twapA - startA) * PERF_SCALE) * startB - ((twapB - startB) * PERF_SCALE) * startA
            == PERF_SCALE * (twapA * startB - twapB * startA)
  {
  }

  /** A declared winner really has the strictly larger ratio of final to starting price. */
  lemma WinnerHasLargerRatio(twapA: nat, startA: nat, twapB: nat, startB: nat)
    requires startA > 0 && startB > 0
    ensures Decided(twapA, startA, twapB, startB) == Some(A) ==> twapA * startB > twapB * startA
    ensures Decided(twapA, startA, twapB, startB) == Some(B) ==> twapA * startB < twapB * startA
  {
    var x, u := (twapA - startA) * PERF_SCALE, (twapB - startB) * PERF_SCALE;
    Unscale(twapA, startA, twapB, startB);
    if TruncDiv(x, startA) > TruncDiv(u, startB) {
      TruncDivReflects(x, startA, u, startB);
    } else if TruncDiv(u, startB) > TruncDiv(x, startA) {
      TruncDivReflects(u, startB, x, startA);
    }
  }

  /** A draw means the two ratios are within 2 parts in 10^9, or within 1 part if either price
      moved by at least one part. */
  lemma DrawMeansNearlyEqual(twapA: nat, startA: nat, twapB: nat, startB: nat)
    requires startA > 0 && startB > 0
    requires Decided(twapA, startA, twapB, startB) == None
    ensures var gap := 1_000_000_000 * (twapA * startB - twapB * startA);
            -2 * (startA * startB) < gap < 2 * (startA * startB) &&
            (1_000_000_000 * (twapA - startA) >= startA || 1_000_000_000 * (startA - twapA) >= startA ==>
               -(startA * startB) < gap < startA * startB)
  {
    Unscale(twapA, startA, twapB, startB);
    TruncDivBounds((twapA - startA) * PERF_SCALE, startA);
    TruncDivTie((twapA - startA) * PERF_SCALE, startA, (twapB - startB) * PERF_SCALE, startB);
  }

  /** Both bounds together: a lead of two parts in 10^9 always wins. */
  lemma ClearLeadWins(twapA: nat, startA: nat, twapB: nat, startB: nat)
    requires startA > 0 && startB > 0
    requires 1_000_000_000 * (twapA * startB - twapB * startA) >= 2 * (startA * startB)
    ensures Decided(twapA, startA, twapB, startB) == Some(A)
  {
    assert startA * startB > 0;
    WinnerHasLargerRatio(twapA, startA, twapB, startB);
    if Decided(twapA, startA, twapB, startB) == None {
      DrawMeansNearlyEqual(twapA, startA, twapB, startB);
    }
  }

  /** The factor 2 is needed: a gap of more than one part can still be a draw around an unmoved price. */
  lemma DrawBoundIsTight()
    ensures Decided(1_000_000_000_999_999_999, 1_000_000_000_000_000_000,
                    999_999_999_000_000_001, 1_000_000_000_000_000_000) == None
  {
  }

  /** Neither side is favoured: swapping them swaps the verdict. */
  lemma SwapSides(twapA: nat, startA: nat, twapB: nat, startB: nat)
    requires startA > 0 && startB > 0
    ensures Decided(twapB, startB, twapA, startA) ==
            match Decided(twapA, startA, twapB, startB)
            case None => None
            case Some(side) => Some(side.Other())
  {
  }

  /** Exactly who wins: the side whose change, in parts of 10^9 of its starting price and rounded toward zero, is
      the larger one. */
  lemma WinnerExactly(twapA: nat, startA: nat, twapB: nat, startB: nat, p: int, q: int)
    requires startA > 0 && startB > 0
    requires IsTruncated(p, 1_000_000_000 * (twapA - startA), startA)
    requires IsTruncated(q, 1_000_000_000 * (twapB - startB), startB)
    ensures Decided(twapA, startA, twapB, startB) == if p > q then Some(A) else if q > p then Some(B) else None
  {
    TruncatedUnique(1_000_000_000 * (twapA - startA), startA, p);
    TruncatedUnique(1_000_000_000 * (twapB - startB), startB, q);
    hide IsTruncated;
  }

  lemma TruncatedUnique(x: int, y: int, q: int)
    requires y > 0 && IsTruncated(q, x, y)
    ensures q == TruncDiv(x, y)
  {
    TruncDivBounds(x, y);
    var p := TruncDiv(x, y);
    hide TruncDiv;
    SameTruncated(x, y, p, q);
    SameTruncated(x, y, q, p);
  }

  lemma SameTruncated(x: int, y: int, p: int, q: int)
    requires y > 0 && IsTruncated(p, x, y) && IsTruncated(q, x, y)
    ensures p <= q
  {
    if p > q {
      QuotientsReflect(x, y, p, x, y, q);
    }
  }
}
