/** The floored running average of recovery times, kept in whole nanoseconds. */
module RunningAverage {

  const U64_RANGE: nat := 0x1_0000_0000_0000_0000

  /** The new average of `count` samples, the last of which is `sample`; the quotient is cut to 64 bits. */
  function Update(average: nat, sample: nat, count: nat): nat
    requires count > 0
  {
    if count == 1 then sample
    else (average * (count - 1) + sample) / count % U64_RANGE
  }

  function Average(samples: seq<nat>): nat
    decreases |samples|, 2
  {
    if samples == [] then 0 else AfterLast(samples)
  }

  /** The average once the last sample has been taken in; the first sample is its own average. */
  function AfterLast(samples: seq<nat>): nat
    requires samples != []
    decreases |samples|, 1
  {
    if |samples| == 1 then samples[0] else Blended(samples)
  }

  function Blended(samples: seq<nat>): nat
    requires samples != []
    decreases |samples|, 0
  {
    Update(Average(samples[..|samples| - 1]), samples[|samples| - 1], |samples|)
  }

  lemma AverageIsUpdate(samples: seq<nat>)
    requires samples != []
    ensures Average(samples) == Update(Average(samples[..|samples| - 1]), samples[|samples| - 1], |samples|)
  {
    assert Average(samples) == AfterLast(samples);
    if |samples| > 1 {
      assert AfterLast(samples) == Blended(samples);
    }
  }

  function Sum(samples: seq<nat>): nat {
    if samples == [] then 0
    else Sum(samples[..|samples| - 1]) + samples[|samples| - 1]
  }

  lemma AverageSnoc(samples: seq<nat>, sample: nat)
    ensures Average(samples + [sample]) == Update(Average(samples), sample, |samples| + 1)
  {
    assert (samples + [sample])[..|samples|] == samples;
    AverageIsUpdate(samples + [sample]);
  }

  lemma DivisionIsFloor(total: nat, count: nat)
    requires count > 0
    ensures total / count * count <= total < total / count * count + count
  {
  }

  lemma QuotientBelow(total: nat, count: nat, bound: nat)
    requires count > 0 && total < bound * count
    ensures total / count < bound
  {
    DivisionIsFloor(total, count);
    var q := total / count;
    if q >= bound {
      MulMonotone(bound, q, count);
    }
  }

  lemma MulMonotone(a: nat, b: nat, c: nat)
    requires a <= b
    ensures a * c <= b * c
  {
  }

  lemma NoCutBelowRange(quotient: nat)
    requires quotient < U64_RANGE
    ensures quotient % U64_RANGE == quotient
  {
  }

  /** A weighted mean of two numbers below a bound is below it. */
  lemma WeightedBelow(average: nat, sample: nat, count: nat, bound: nat)
    requires count > 1 && average < bound && sample < bound
    ensures average * (count - 1) + sample < bound * count
  {
    MulMonotone(average, bound, count - 1);
    assert bound * (count - 1) + bound == bound * count;
  }

  /** Samples below the 64-bit range keep the average there, so the cut never bites. */
  lemma UpdateIsFloor(average: nat, sample: nat, count: nat)
    requires count > 1 && average < U64_RANGE && sample < U64_RANGE
    ensures var total := average * (count - 1) + sample;
            var updated := Update(average, sample, count);
            updated < U64_RANGE && updated * count <= total < updated * count + count
  {
    WeightedBelow(average, sample, count, U64_RANGE);
    CutQuotient(average * (count - 1) + sample, count);
  }

  lemma CutQuotient(total: nat, count: nat)
    requires count > 0 && total < U64_RANGE * count
    ensures var cut := total / count % U64_RANGE;
            cut < U64_RANGE && cut * count <= total < cut * count + count
  {
    QuotientBelow(total, count, U64_RANGE);
    NoCutBelowRange(total / count);
    DivisionIsFloor(total, count);
  }

  /** One more sample loses less than `n` to the floor. */
  lemma GapGrows(n: nat, before: nat, after: nat, sum: nat, last: nat)
    requires n > 1
    requires (n - 1) * before <= sum && 2 * (sum - (n - 1) * before) <= (n - 1) * (n - 2)
    requires after * n <= before * (n - 1) + last < after * n + n
    ensures n * after <= sum + last && 2 * (sum + last - n * after) <= n * (n - 1)
  {
    assert before * (n - 1) == (n - 1) * before;
    assert after * n == n * after;
    GaussStep(n);
  }

  /**
   After n samples the average is at most the true mean and below it by at most
   (n - 1) / 2: n * average <= sum <= n * average + n * (n - 1) / 2.
   */
  lemma {:induction false} AverageIsBelowMean(samples: seq<nat>)
    requires forall i :: 0 <= i < |samples| ==> samples[i] < U64_RANGE
    ensures Average(samples) < U64_RANGE
    ensures |samples| * Average(samples) <= Sum(samples)
    ensures 2 * (Sum(samples) - |samples| * Average(samples)) <= |samples| * (|samples| - 1)
  {
    var n := |samples|;
    if n > 1 {
      var front, last := samples[..n - 1], samples[n - 1];
      AverageIsBelowMean(front);
      AverageIsUpdate(samples);
      UpdateIsFloor(Average(front), last, n);
      GapGrows(n, Average(front), Average(samples), Sum(front), last);
    }
  }

  lemma CutNotAbove(quotient: nat)
    ensures quotient % U64_RANGE <= quotient
  {
  }

  lemma ScaledNotAbove(updated: nat, quotient: nat, count: nat, total: nat)
    requires updated <= quotient && quotient * count <= total
    ensures count * updated <= total
  {
    MulMonotone(updated, quotient, count);
    assert count * updated == updated * count;
  }

  lemma UpdateNotAbove(average: nat, sample: nat, count: nat, sum: nat)
    requires count > 1 && (count - 1) * average <= sum
    ensures count * Update(average, sample, count) <= sum + sample
  {
    var total := average * (count - 1) + sample;
    assert total <= sum + sample;
    DivisionIsFloor(total, count);
    CutNotAbove(total / count);
    ScaledNotAbove(Update(average, sample, count), total / count, count, total);
  }

  /** The average is never above the mean, even where the cut bites. */
  lemma {:induction false} NeverAboveMean(samples: seq<nat>)
    ensures |samples| * Average(samples) <= Sum(samples)
  {
    var n := |samples|;
    if n > 1 {
      var front, last := samples[..n - 1], samples[n - 1];
      NeverAboveMean(front);
      AverageIsUpdate(samples);
      UpdateNotAbove(Average(front), last, n, Sum(front));
    }
  }

  /** With samples beyond 64 bits, 584 years in nanoseconds, the lower bound is lost: two of 2^64 average to zero. */
  lemma CutLosesTheAverage()
    ensures Average([U64_RANGE, U64_RANGE]) == 0 && Sum([U64_RANGE, U64_RANGE]) == 2 * U64_RANGE
  {
    var samples: seq<nat> := [U64_RANGE, U64_RANGE];
    assert samples[..1] == [U64_RANGE] && [U64_RANGE][..0] == [];
    AverageIsUpdate([U64_RANGE]);
    AverageIsUpdate(samples);
    assert Sum([U64_RANGE]) == U64_RANGE by {
      assert [U64_RANGE][..0] == [];
    }
  }

  /** The samples 0, 1, ..., n - 1. */
  function Staircase(n: nat): (samples: seq<nat>)
    ensures |samples| == n
  {
    if n == 0 then [] else Staircase(n - 1) + [n - 1]
  }

  /** The bound is met exactly, for every number of samples: each step loses the most it can. */
  lemma {:induction false} BoundIsTight(n: nat)
    requires n < U64_RANGE
    ensures Average(Staircase(n)) == 0
    ensures 2 * Sum(Staircase(n)) == n * (n - 1)
  {
    if n > 0 {
      BoundIsTight(n - 1);
      assert Staircase(n)[..n - 1] == Staircase(n - 1);
      AverageIsUpdate(Staircase(n));
      UpdateFromZero(n - 1, n);
      GaussStep(n);
    }
  }

  lemma GaussStep(n: nat)
    ensures (n - 1) * (n - 2) + 2 * (n - 1) == n * (n - 1)
  {
  }

  lemma UpdateFromZero(sample: nat, count: nat)
    requires sample < count && (count == 1 ==> sample == 0)
    ensures Update(0, sample, count) == 0
  {
    QuotientBelow(sample, count, 1);
  }
}
