/**
 * The latency statistics the client computes once probing is over: extrema, mean,
 * population standard deviation (jitter) and the fixed zero loss figure.
 */
module Statistics {
  import opened Numeric
  import opened Protocol

  /** `sum / len`: the arithmetic mean, which lies between the extrema. */
  function Mean(s: seq<real>): (avg: real)
    requires s != []
    ensures MinOf(s) <= avg <= MaxOf(s)
  {
    MeanWithinBounds(s, MinOf(s), MaxOf(s));
    Sum(s) / |s| as real
  }

  /** `(x - avg).powi(2)` for every sample, in order. */
  function SquaredDeviations(s: seq<real>, avg: real): (d: seq<real>)
    ensures |d| == |s|
    ensures forall i :: 0 <= i < |s| ==> 0.0 <= d[i]
  {
    var d := seq(|s|, i requires 0 <= i < |s| => Square(s[i] - avg));
    d
  }

  function Square(x: real): (y: real)
    ensures 0.0 <= y
  {
    if x < 0.0 then (-x) * (-x) else x * x
  }

  /** The population variance: the mean squared deviation, divided by n rather than n - 1. */
  function Variance(s: seq<real>): (v: real)
    requires s != []
    ensures 0.0 <= v
  {
    var d := SquaredDeviations(s, Mean(s));
    SumNonNegative(d);
    Sum(d) / |s| as real
  }

  /** `f64::sqrt` on the values it is applied to here: a non-negative square root. */
  ghost predicate IsSquareRoot(sqrt: real -> real)
  {
    forall x: real :: 0.0 <= x ==> 0.0 <= sqrt(x) && sqrt(x) * sqrt(x) == x
  }

  /**
   * The `LatencyResults` built from the collected samples. `sqrt` stands for the
   * platform's `f64::sqrt`.
   */
  function Summarize(samples: seq<real>, sqrt: real -> real): (r: LatencyResults)
    requires samples != []
    ensures r.minMs in samples && r.maxMs in samples
    ensures forall i :: 0 <= i < |samples| ==> r.minMs <= samples[i] <= r.maxMs
    ensures r.avgMs == Mean(samples) && r.minMs <= r.avgMs <= r.maxMs
    ensures r.jitterMs == sqrt(Variance(samples))
    ensures r.packetLossPercent == 0.0 && r.samples == samples
  {
    var avg := Mean(samples);
    LatencyResults(MinOf(samples), MaxOf(samples), avg, sqrt(Variance(samples)), 0.0, samples)
  }

  /**
   * Jitter is the population standard deviation: non-negative, and its square is the
   * mean squared deviation from the mean.
   */
  lemma JitterIsStandardDeviation(samples: seq<real>, sqrt: real -> real)
    requires samples != [] && IsSquareRoot(sqrt)
    ensures var j := Summarize(samples, sqrt).jitterMs;
      0.0 <= j && j * j == Variance(samples)
  {
    var v := Variance(samples);
    var j := Summarize(samples, sqrt).jitterMs;
    assert j == sqrt(v);
    RootOf(sqrt, v);
  }

  lemma RootOf(sqrt: real -> real, v: real)
    requires IsSquareRoot(sqrt) && 0.0 <= v
    ensures 0.0 <= sqrt(v) && sqrt(v) * sqrt(v) == v
  {
  }

  /** Positive round-trip times give a positive mean. */
  lemma PositiveSamplesPositiveMean(samples: seq<real>)
    requires samples != []
    requires forall i :: 0 <= i < |samples| ==> 0.0 < samples[i]
    ensures 0.0 < Mean(samples)
  {
    assert MinOf(samples) in samples;
  }

  /** A constant series has zero variance. */
  lemma {:induction false} ConstantSeriesHasNoJitter(samples: seq<real>, c: real)
    requires samples != []
    requires forall i :: 0 <= i < |samples| ==> samples[i] == c
    ensures Mean(samples) == c && Variance(samples) == 0.0
  {
    assert MinOf(samples) in samples && MaxOf(samples) in samples;
    var d := SquaredDeviations(samples, c);
    assert forall i :: 0 <= i < |d| ==> d[i] == 0.0;
    ZeroSum(d);
  }

  lemma {:induction false} ZeroSum(d: seq<real>)
    requires forall i :: 0 <= i < |d| ==> d[i] == 0.0
    ensures Sum(d) == 0.0
  {
    if d != [] {
      ZeroSum(d[..|d| - 1]);
    }
  }
}
