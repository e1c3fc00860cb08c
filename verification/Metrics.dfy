/** Constant-memory statistics: counts, extremes and incremental means. */
module Metrics {

  function Sum(s: seq<nat>): (n: nat)
    decreases |s|
  {
    if s == [] then 0 else Sum(s[..|s| - 1]) + s[|s| - 1]
  }

  lemma SumAppend(s: seq<nat>, x: nat)
    ensures Sum(s + [x]) == Sum(s) + x
  {
    assert (s + [x])[..|s|] == s;
  }

  /** n times a; the lemmas below are all that is used of it. */
  function Times(a: real, n: nat): (r: real) { a * n as real }

  lemma TimesNext(a: real, n: nat)
    ensures Times(a, n + 1) == Times(a, n) + a && Times(a, 0) == 0.0
  {
  }

  lemma TimesOrder(a: real, b: real, n: nat)
    requires n > 0
    ensures Times(a, n) <= Times(b, n) <==> a <= b
  {
    var r := n as real;
    assert Times(b, n) - Times(a, n) == (b - a) * r;
    if a < b { assert (b - a) * r > 0.0; }
    if b < a { assert (a - b) * r > 0.0; }
  }

  lemma TimesAdd(a: real, b: real, n: nat)
    ensures Times(a + b, n) == Times(a, n) + Times(b, n)
  {
  }

  /** The update of the mean adds exactly the new sample to the total. */
  lemma MeanNext(average: real, sample: real, n: nat)
    ensures Times(average + (sample - average) / (n + 1) as real, n + 1) == Times(average, n) + sample
  {
    var r, step := (n + 1) as real, (sample - average) / (n + 1) as real;
    assert step * r == sample - average;
    TimesAdd(average, step, n + 1);
    TimesNext(average, n);
  }

  /** The sum of samples between two bounds lies between as many times the bounds. */
  lemma {:induction false} SumBounds(s: seq<nat>, low: nat, high: nat)
    requires forall x | x in s :: low <= x <= high
    ensures Times(low as real, |s|) <= Sum(s) as real <= Times(high as real, |s|)
    decreases |s|
  {
    hide Times;
    TimesNext(low as real, if s == [] then 0 else |s| - 1);
    TimesNext(high as real, if s == [] then 0 else |s| - 1);
    if s != [] {
      var init := s[..|s| - 1];
      assert forall x | x in init :: x in s;
      assert s[|s| - 1] in s;
      SumBounds(init, low, high);
    }
  }

  /** Sums of samples that add up pairwise add up. */
  lemma {:induction false} SumsAdd(a: seq<nat>, b: seq<nat>, c: seq<nat>)
    requires |a| == |b| == |c| && forall i | 0 <= i < |a| :: c[i] == a[i] + b[i]
    ensures Sum(c) == Sum(a) + Sum(b)
    decreases |a|
  {
    if a != [] { SumsAdd(a[..|a| - 1], b[..|b| - 1], c[..|c| - 1]); }
  }

  class RunningStatistics {
    var count: nat
    var minimum: nat
    var maximum: nat
    var average: real
    /** Every sample recorded so far. */
    ghost var samples: seq<nat>

    /** Count, extremes and mean are those of the samples. */
    ghost predicate Valid()
      reads this
    {
      count == |samples| && Times(average, count) == Sum(samples) as real &&
      (count > 0 ==> minimum in samples && maximum in samples) &&
      forall x | x in samples :: minimum <= x <= maximum
    }

    constructor ()
      ensures Valid() && samples == []
    {
      count, minimum, maximum, average := 0, 0, 0, 0.0;
      samples := [];
    }

    method Record(sample: nat)
      requires Valid()
      modifies this
      ensures Valid() && samples == old(samples) + [sample]
    {
      hide Times, Sum;
      SumAppend(samples, sample);
      TimesNext(average, count);
      TimesNext(sample as real, count);
      MeanNext(average, sample as real, count);
      assert forall x :: x in samples + [sample] <==> x in samples || x == sample;
      samples := samples + [sample];
      count := count + 1;
      if count == 1 {
        minimum, maximum, average := sample, sample, sample as real;
        return;
      }
      if sample < minimum { minimum := sample; }
      if sample > maximum { maximum := sample; }
      average := average + (sample as real - average) / count as real;
    }

    /** The mean never leaves the range of the samples. */
    lemma MeanInRange()
      requires Valid() && count > 0
      ensures minimum as real <= average <= maximum as real
    {
      hide Times, Sum;
      SumBounds(samples, minimum, maximum);
      TimesOrder(minimum as real, average, count);
      TimesOrder(average, maximum as real, count);
    }
  }

  class AckLatencyStatistics {
    const rxToStart: RunningStatistics
    const rxToComplete: RunningStatistics
    const txDuration: RunningStatistics

    /** The three series grow together, and completion is start plus duration. */
    ghost predicate Valid()
      reads this, rxToStart, rxToComplete, txDuration
    {
      rxToStart != rxToComplete && rxToStart != txDuration && rxToComplete != txDuration &&
      rxToStart.Valid() && rxToComplete.Valid() && txDuration.Valid() &&
      rxToStart.count == rxToComplete.count == txDuration.count &&
      forall i | 0 <= i < rxToStart.count ::
        rxToComplete.samples[i] == rxToStart.samples[i] + txDuration.samples[i]
    }

    constructor ()
      ensures Valid() && rxToStart.count == 0
      ensures fresh(rxToStart) && fresh(rxToComplete) && fresh(txDuration)
    {
      rxToStart := new RunningStatistics();
      rxToComplete := new RunningStatistics();
      txDuration := new RunningStatistics();
    }

    /** A completion before its start is not recorded anywhere. */
    method Record(rxToStartUs: nat, rxToCompleteUs: nat)
      requires Valid()
      modifies rxToStart, rxToComplete, txDuration
      ensures Valid()
      ensures rxToStart.count == old(rxToStart.count) + if rxToCompleteUs < rxToStartUs then 0 else 1
      ensures rxToStart.samples == old(rxToStart.samples) +
                (if rxToCompleteUs < rxToStartUs then [] else [rxToStartUs])
      ensures rxToComplete.samples == old(rxToComplete.samples) +
                (if rxToCompleteUs < rxToStartUs then [] else [rxToCompleteUs])
    {
      hide Times, Sum;
      if rxToCompleteUs < rxToStartUs {
        assert forall s: seq<nat> :: s + [] == s;
        return;
      }
      rxToStart.Record(rxToStartUs);
      rxToComplete.Record(rxToCompleteUs);
      txDuration.Record(rxToCompleteUs - rxToStartUs);
    }

    /** The mean time to completion is the mean time to start plus the mean duration. */
    lemma MeansAdd()
      requires Valid() && rxToStart.count > 0
      ensures rxToComplete.average == rxToStart.average + txDuration.average
    {
      hide Times, Sum;
      SumsAdd(rxToStart.samples, txDuration.samples, rxToComplete.samples);
      var both, n := rxToStart.average + txDuration.average, rxToStart.count;
      TimesAdd(rxToStart.average, txDuration.average, n);
      TimesOrder(rxToComplete.average, both, n);
      TimesOrder(both, rxToComplete.average, n);
    }
  }
}
