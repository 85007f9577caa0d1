/**
 * Per-hop records of the aggregator in internal/mtr/mtr.go: the running
 * statistics kept while the raw stream is scanned (one latency sample at a
 * time), and the finished row handed to the renderer.
 *
 * Latencies are exact reals (milliseconds). The scan keeps
 * math.MaxFloat64 in Best until a first sample arrives; here that
 * sentinel is `None`.
 */
module Hops {
  import opened Wrappers

  /** The hostname of a hop whose name is not known yet. */
  const Unresolved: string := "???"

  /**
   * The latency statistics of a hop in milliseconds. `best` is None while
   * no sample has been recorded (the source keeps math.MaxFloat64 there).
   */
  datatype Latency = Latency(last: real, avg: real, best: Option<real>, worst: real, stDev: real)

  /** The statistics of a hop that has no sample yet. */
  const NoSamples: Latency := Latency(0.0, 0.0, None, 0.0, 0.0)

  /**
   * A hop while the stream is being scanned. The source also sets Loss to
   * 100 when it creates a hop, but overwrites it for every hop once the
   * scan is over, so the running record does not carry it.
   */
  datatype HopStats = HopStats(hop: int, hostname: string, ip: string, sent: int, latency: Latency)

  /** A finished hop, the HopData the renderer receives. */
  datatype HopData = HopData(
    hop: int,
    hostname: string,
    ip: string,
    loss: real,
    sent: int,
    last: real,
    avg: real,
    best: real,
    worst: real,
    stDev: real)

  /** A hop the scan has just met: unnamed, no address, no sample. */
  function NewHop(hop: int, count: int): HopStats {
    HopStats(hop, Unresolved, "", count, NoSamples)
  }

  function Abs(x: real): (r: real)
    ensures r >= 0.0
    ensures r == x || r == -x
  {
    if x < 0.0 then -x else x
  }

  /**
   * What the running statistics always satisfy: before any sample
   * everything is zero; afterwards Best <= Last <= Worst. StDev is never
   * negative.
   */
  predicate Consistent(l: Latency) {
    && l.stDev >= 0.0
    && match l.best
       case None => l == NoSamples
       case Some(b) => b <= l.last <= l.worst
  }

  /** An address record: the address is stored and names a still-unnamed hop. */
  function WithAddress(h: HopStats, address: string): (r: HopStats)
    ensures r.ip == address
    ensures h.hostname == Unresolved ==> r.hostname == address
    ensures h.hostname != Unresolved ==> r.hostname == h.hostname
    ensures r.hop == h.hop && r.sent == h.sent && r.latency == h.latency
  {
    var h' := h.(ip := address);
    if h'.hostname == Unresolved then h'.(hostname := address) else h'
  }

  /** The running average after the n-th sample: ((n - 1) * avg + ms) / n. */
  function NextAvg(avg: real, ms: real, n: nat): (r: real)
    requires n >= 1
    ensures n == 1 ==> r == ms
    ensures r * (n as real) == avg * ((n - 1) as real) + ms
    ensures (avg <= r <= ms) || (ms <= r <= avg)
  {
    var r := (avg * ((n - 1) as real) + ms) / (n as real);
    BetweenOldAndSample(avg, ms, n as real, r);
    r
  }

  lemma BetweenOldAndSample(avg: real, ms: real, k: real, r: real)
    requires k >= 1.0 && r == (avg * (k - 1.0) + ms) / k
    ensures (avg <= r <= ms) || (ms <= r <= avg)
  {
    assert r * k == avg * (k - 1.0) + ms;
    assert r * k - avg * k == ms - avg;
    assert (r - avg) * k == ms - avg;
    assert r * k - ms * k == (avg - ms) * (k - 1.0);
    assert (r - ms) * k == (avg - ms) * (k - 1.0);
  }

  /**
   * One latency sample of `ms` milliseconds, where `n` is the received
   * counter the running average divides by. StDev is recomputed from the
   * latest sample alone once n > 1 (see Parser.StdDevOfLatest).
   */
  function Sample(l: Latency, ms: real, n: nat): (r: Latency)
    requires n >= 1
    ensures r.last == ms
    ensures r.best.Some? && r.best.value <= ms
    ensures l.best.Some? ==> r.best.value <= l.best.value
    ensures r.best == Some(ms) || r.best == l.best
    ensures r.worst >= ms && r.worst >= l.worst && (r.worst == ms || r.worst == l.worst)
    ensures r.avg == NextAvg(l.avg, ms, n)
    ensures (l.avg <= r.avg <= ms) || (ms <= r.avg <= l.avg)
    ensures n > 1 ==> r.stDev == Abs(r.last - r.avg)
    ensures n == 1 ==> r.stDev == l.stDev
    ensures Consistent(l) ==> Consistent(r)
  {
    var best := if l.best.Some? && !(ms < l.best.value) then l.best else Some(ms);
    var worst := if ms > l.worst then ms else l.worst;
    var avg := NextAvg(l.avg, ms, n);
    var stDev := if n > 1 then Abs(ms - avg) else l.stDev;
    Latency(ms, avg, best, worst, stDev)
  }

  /** Best, Worst and Last: the part of the statistics a sample updates without the counter. */
  function Extremes(l: Latency): (Option<real>, real, real) {
    (l.best, l.worst, l.last)
  }

  /** Best, Worst and Last after a sample do not depend on the counter the average divides by. */
  lemma ExtremesIgnoreCounter(l1: Latency, l2: Latency, ms: real, n1: nat, n2: nat)
    requires n1 >= 1 && n2 >= 1 && Extremes(l1) == Extremes(l2)
    ensures Extremes(Sample(l1, ms, n1)) == Extremes(Sample(l2, ms, n2))
  {
  }

  /**
   * Loss% of a hop: the share of the configured probes that were not
   * counted as received, or 100 when no probe was configured.
   */
  function Loss(count: int, received: nat): (loss: real)
    ensures count > 0 ==> loss * (count as real) == 100.0 * ((count - received) as real)
    ensures count <= 0 ==> loss == 100.0
  {
    if count > 0 then 100.0 * ((count as real) - (received as real)) / (count as real) else 100.0
  }

  lemma LossBoundaries(count: int, received: nat)
    ensures count > 0 && received == count ==> Loss(count, received) == 0.0
    ensures received == 0 ==> Loss(count, received) == 100.0
    ensures received <= count ==> 0.0 <= Loss(count, received) <= 100.0
    ensures Loss(count, received) <= 100.0
  {
  }

  /** More received pings never raise the loss. */
  lemma LossAntitone(count: int, r1: nat, r2: nat)
    requires r1 <= r2
    ensures Loss(count, r2) <= Loss(count, r1)
  {
  }

  /** The finished row of a hop: Best without its sentinel, and Loss% from the received counter. */
  function Finalised(h: HopStats, received: nat, count: int): (r: HopData)
    ensures r.hop == h.hop && r.hostname == h.hostname && r.ip == h.ip && r.sent == h.sent
    ensures var l := h.latency; r.last == l.last && r.avg == l.avg && r.worst == l.worst && r.stDev == l.stDev
    ensures h.latency.best.None? ==> r.best == 0.0
    ensures h.latency.best.Some? ==> r.best == h.latency.best.value
    ensures r.loss == Loss(count, received)
    ensures Consistent(h.latency) ==> r.best <= r.worst && r.stDev >= 0.0
    ensures Consistent(h.latency) && h.latency.best.None? ==> r.best == 0.0 && r.worst == 0.0 && r.avg == 0.0
  {
    var l := h.latency;
    HopData(h.hop, h.hostname, h.ip, Loss(count, received), h.sent,
            l.last, l.avg, l.best.GetOr(0.0), l.worst, l.stDev)
  }

  // -----------------------------------------------------------------------
  // A run of samples: the running average is the mean, Best the minimum,
  // Worst the maximum (floored at the initial 0).
  // -----------------------------------------------------------------------

  function Sum(xs: seq<real>): real {
    if xs == [] then 0.0 else Sum(xs[..|xs| - 1]) + xs[|xs| - 1]
  }

  function Min(xs: seq<real>): real
    requires |xs| > 0
  {
    if |xs| == 1 then xs[0]
    else
      var m := Min(xs[..|xs| - 1]);
      if xs[|xs| - 1] < m then xs[|xs| - 1] else m
  }

  function Max(xs: seq<real>): real
    requires |xs| > 0
  {
    if |xs| == 1 then xs[0]
    else
      var m := Max(xs[..|xs| - 1]);
      if xs[|xs| - 1] > m then xs[|xs| - 1] else m
  }

  /** The statistics after the samples `xs` were recorded in order, the k-th with counter k. */
  function Recorded(l: Latency, xs: seq<real>): Latency {
    if xs == [] then l else Sample(Recorded(l, xs[..|xs| - 1]), xs[|xs| - 1], |xs|)
  }

  /** The average the running update reaches after the samples `xs`. */
  function RunningAvg(xs: seq<real>): real {
    if xs == [] then 0.0 else NextAvg(RunningAvg(xs[..|xs| - 1]), xs[|xs| - 1], |xs|)
  }

  lemma {:induction false} RecordedAvg(xs: seq<real>)
    ensures Recorded(NoSamples, xs).avg == RunningAvg(xs)
  {
    if xs != [] {
      RecordedAvg(xs[..|xs| - 1]);
    }
  }

  /** The running update keeps n times the average equal to the sum of the n samples. */
  lemma {:induction false} RunningAvgSum(xs: seq<real>)
    ensures RunningAvg(xs) * (|xs| as real) == Sum(xs)
  {
    if xs != [] {
      var init, x := xs[..|xs| - 1], xs[|xs| - 1];
      RunningAvgSum(init);
      assert RunningAvg(xs) == NextAvg(RunningAvg(init), x, |init| + 1);
      assert Sum(xs) == Sum(init) + x;
      MeanStep(RunningAvg(init), |init|, Sum(init), x);
    }
  }

  lemma MeanStep(a: real, m: nat, total: real, x: real)
    requires a * (m as real) == total
    ensures NextAvg(a, x, m + 1) * ((m + 1) as real) == total + x
  {
  }

  lemma DivideBack(a: real, b: real, n: real)
    requires n != 0.0 && a * n == b
    ensures a == b / n
  {
  }

  /** The arithmetic mean. */
  function Mean(xs: seq<real>): real
    requires |xs| > 0
  {
    Sum(xs) / (|xs| as real)
  }

  /** The running average of the samples is their arithmetic mean. */
  lemma RunningAvgIsMean(xs: seq<real>)
    requires |xs| > 0
    ensures RunningAvg(xs) == Mean(xs)
  {
    RunningAvgSum(xs);
    DivideBack(RunningAvg(xs), Sum(xs), |xs| as real);
  }

  lemma {:induction false} RecordedExtremes(xs: seq<real>)
    requires |xs| > 0
    ensures Recorded(NoSamples, xs).best == Some(Min(xs))
    ensures Recorded(NoSamples, xs).worst == if Max(xs) > 0.0 then Max(xs) else 0.0
  {
    if |xs| > 1 {
      RecordedExtremes(xs[..|xs| - 1]);
    }
  }

  /**
   * A hop that received the samples `xs`, each counted once, ends with Avg
   * the arithmetic mean of the samples, Best their minimum, Worst their
   * maximum (or 0 when none is positive), Last the latest, and StDev the
   * distance of the latest from the mean once there are two samples.
   */
  lemma RecordedStatistics(xs: seq<real>)
    requires |xs| > 0
    ensures var r := Recorded(NoSamples, xs);
      && r.avg == Mean(xs)
      && r.best == Some(Min(xs))
      && r.worst == (if Max(xs) > 0.0 then Max(xs) else 0.0)
      && r.last == xs[|xs| - 1]
      && (|xs| > 1 ==> r.stDev == Abs(r.last - r.avg))
  {
    RecordedAvg(xs);
    RunningAvgIsMean(xs);
    RecordedExtremes(xs);
  }
}
