// The metrics calculator (Algorithms.ComputeMetrics): average waiting and
// turnaround times, CPU utilisation and throughput over the active span.
module Statistics {
  import opened Sequences

  datatype Metrics = Metrics(awt: real, att: real, util: real, throughput: real)

  /** Arithmetic mean (LINQ Average), exact over the reals. */
  function Average(s: seq<int>): (r: real)
    requires |s| > 0
    ensures r * (|s| as real) == Sum(s) as real
  {
    Sum(s) as real / |s| as real
  }

  /** End of the schedule minus its start, clamped to 1 when not positive. */
  function ActiveSpan(arrival: seq<int>, scheduleEnd: int): (span: int)
    requires |arrival| > 0
    ensures span >= 1
  {
    var span := scheduleEnd - MinOf(arrival);
    if span <= 0 then 1 else span
  }

  /** Percentage of the span during which the CPU was busy. */
  function Utilisation(busy: int, span: int): (u: real)
    requires span >= 1
    ensures u * (span as real) == 100.0 * (busy as real)
  {
    (busy as real / span as real) * 100.0
  }

  /** Processes completed per unit of time. */
  function Throughput(n: nat, span: int): (t: real)
    requires span >= 1
    ensures t * (span as real) == n as real
  {
    n as real / span as real
  }

  /**
   * The four summary figures of one schedule. The mean turnaround is
   * computed, as in the source, as the mean of waiting[i] + burst[i]; the
   * contract shows it is the mean waiting time plus the mean burst.
   */
  function ComputeMetrics(arrival: seq<int>, burst: seq<int>, waiting: seq<int>, scheduleEnd: int): (m: Metrics)
    requires |burst| > 0 && |arrival| == |burst| && |waiting| == |burst|
    ensures m.awt == Average(waiting)
    ensures m.att * (|burst| as real) == (Sum(waiting) + Sum(burst)) as real
    ensures m.att == m.awt + Average(burst)
    ensures m.util == Utilisation(Sum(burst), ActiveSpan(arrival, scheduleEnd))
    ensures m.throughput == Throughput(|burst|, ActiveSpan(arrival, scheduleEnd))
  {
    var span := ActiveSpan(arrival, scheduleEnd);
    SumZipAdd(waiting, burst);
    var awt := Average(waiting);
    var att := Average(ZipAdd(waiting, burst));
    MeanOfSum(waiting, burst);
    Metrics(awt, att, Utilisation(Sum(burst), span), Throughput(|burst|, span))
  }

  /** The mean of waiting[i] + burst[i] is the mean waiting time plus the mean burst. */
  lemma MeanOfSum(waiting: seq<int>, burst: seq<int>)
    requires |burst| > 0 && |waiting| == |burst|
    ensures Average(ZipAdd(waiting, burst)) == Average(waiting) + Average(burst)
  {
    SumZipAdd(waiting, burst);
    var n := |burst| as real;
    var x, a, b := Average(ZipAdd(waiting, burst)), Average(waiting), Average(burst);
    assert x * n == a * n + b * n;
    Distribute(a, b, n);
    CancelFactor(x, a + b, n);
  }

  lemma Distribute(a: real, b: real, n: real)
    ensures (a + b) * n == a * n + b * n
  {
  }

  lemma CancelFactor(x: real, y: real, n: real)
    requires n > 0.0 && x * n == y * n
    ensures x == y
  {
  }

  /** Busy time within the span makes the utilisation a percentage. */
  lemma UtilisationBounds(busy: int, span: int)
    requires 0 <= busy <= span && span >= 1
    ensures 0.0 <= Utilisation(busy, span) <= 100.0
  {
  }

  /** When the CPU is never busy for longer than the span, utilisation is a percentage. */
  lemma UtilisationIsPercentage(arrival: seq<int>, burst: seq<int>, waiting: seq<int>, scheduleEnd: int)
    requires |burst| > 0 && |arrival| == |burst| && |waiting| == |burst|
    requires forall i :: 0 <= i < |burst| ==> burst[i] >= 0
    requires scheduleEnd - MinOf(arrival) >= Sum(burst)
    ensures 0.0 <= ComputeMetrics(arrival, burst, waiting, scheduleEnd).util <= 100.0
  {
    SumOfNaturals(burst);
    UtilisationBounds(Sum(burst), ActiveSpan(arrival, scheduleEnd));
  }

  /** A schedule that ends no later than it starts uses a span of one unit. */
  lemma DegenerateSpan(arrival: seq<int>, burst: seq<int>, waiting: seq<int>, scheduleEnd: int)
    requires |burst| > 0 && |arrival| == |burst| && |waiting| == |burst|
    requires scheduleEnd <= MinOf(arrival)
    ensures ComputeMetrics(arrival, burst, waiting, scheduleEnd).util == 100.0 * Sum(burst) as real
    ensures ComputeMetrics(arrival, burst, waiting, scheduleEnd).throughput == |burst| as real
  {
    assert ActiveSpan(arrival, scheduleEnd) == 1;
  }

  /** No waiting time is negative, so neither mean is. */
  lemma MeansAreNonNegative(arrival: seq<int>, burst: seq<int>, waiting: seq<int>, scheduleEnd: int)
    requires |burst| > 0 && |arrival| == |burst| && |waiting| == |burst|
    requires forall i :: 0 <= i < |burst| ==> burst[i] >= 0 && waiting[i] >= 0
    ensures 0.0 <= ComputeMetrics(arrival, burst, waiting, scheduleEnd).awt
    ensures ComputeMetrics(arrival, burst, waiting, scheduleEnd).awt <= ComputeMetrics(arrival, burst, waiting, scheduleEnd).att
  {
    SumOfNaturals(waiting);
    SumOfNaturals(burst);
    NonNegativeMean(waiting);
    NonNegativeMean(burst);
  }

  lemma NonNegativeMean(s: seq<int>)
    requires |s| > 0 && Sum(s) >= 0
    ensures Average(s) >= 0.0
  {
  }

  /** Figures a well-formed schedule must produce. */
  predicate Plausible(m: Metrics)
  {
    0.0 <= m.awt <= m.att && 0.0 <= m.util <= 100.0 && m.throughput > 0.0
  }

  /**
   * A schedule whose waiting times are non-negative and whose span holds all
   * the CPU time handed out has plausible metrics.
   */
  lemma MetricsArePlausible(arrival: seq<int>, burst: seq<int>, waiting: seq<int>, scheduleEnd: int)
    requires |burst| > 0 && |arrival| == |burst| && |waiting| == |burst|
    requires forall i :: 0 <= i < |burst| ==> burst[i] >= 0 && waiting[i] >= 0
    requires scheduleEnd - MinOf(arrival) >= Sum(burst)
    ensures Plausible(ComputeMetrics(arrival, burst, waiting, scheduleEnd))
  {
    MeansAreNonNegative(arrival, burst, waiting, scheduleEnd);
    UtilisationIsPercentage(arrival, burst, waiting, scheduleEnd);
    PositiveThroughput(|burst|, ActiveSpan(arrival, scheduleEnd));
  }

  lemma PositiveThroughput(n: nat, span: int)
    requires n > 0 && span >= 1
    ensures Throughput(n, span) > 0.0
  {
  }

  /** A CPU busy from the earliest arrival to the end of the schedule is used 100%. */
  lemma NoIdleTime(arrival: seq<int>, burst: seq<int>, waiting: seq<int>, scheduleEnd: int)
    requires |burst| > 0 && |arrival| == |burst| && |waiting| == |burst|
    requires Sum(burst) > 0 && scheduleEnd == MinOf(arrival) + Sum(burst)
    ensures ComputeMetrics(arrival, burst, waiting, scheduleEnd).util == 100.0
  {
    assert ActiveSpan(arrival, scheduleEnd) == Sum(burst);
    FullUtilisation(Sum(burst));
  }

  lemma FullUtilisation(busy: int)
    requires busy >= 1
    ensures Utilisation(busy, busy) == 100.0
  {
    CancelFactor(Utilisation(busy, busy), 100.0, busy as real);
  }
}
