/** Benchmark records, summaries and the report validator (benchmark/models.py). */
module BenchmarkReport {
  import opened Outcomes
  import opened Codes
  import opened Binary64
  import opened Statistics

  datatype RunOutcome = Success | Timeout | Error | Cancelled | Partial

  datatype Confidence = Measured | Reported | Derived | Estimated | Simulated

  datatype Timestamp = Timestamp(instant: int, utc: bool)

  datatype RunRecord = RunRecord(
    sequence: int,
    promptId: string,
    warmup: bool,
    outcome: RunOutcome,
    ttft: Option<real>,
    latency: Option<real>,
    generatedTokens: Option<int>,
    tokensPerSecond: Option<real>,
    peakVram: Option<int>,
    errorCode: Option<string>,
    responseDigest: Option<string>)

  /** `NonNegativeFiniteFloat`, where present. */
  predicate NonNegative(x: Option<real>) {
    x.Some? ==> x.value >= 0.0 && IsFinite(x.value)
  }

  /** `BenchmarkRunRecord`: field constraints and `outcome_fields_are_consistent`. */
  predicate ValidRecord(r: RunRecord) {
    && r.sequence > 0
    && NonNegative(r.ttft) && NonNegative(r.latency) && NonNegative(r.tokensPerSecond)
    && (r.generatedTokens.Some? ==> r.generatedTokens.value >= 0)
    && (r.peakVram.Some? ==> r.peakVram.value >= 0)
    && (r.outcome.Success? ==> r.ttft.Some? && r.latency.Some? && r.generatedTokens.Some? && r.tokensPerSecond.Some?)
    && (r.outcome.Success? <==> r.errorCode.None?)
    && (r.errorCode.Some? ==> ValidCode(r.errorCode.value))
    && (r.ttft.Some? && r.latency.Some? ==> r.ttft.value <= r.latency.value)
  }

  datatype Metric = Metric(unit: string, confidence: Confidence, samples: seq<real>, p50: Option<real>, p95: Option<real>)

  /** `BenchmarkMetricSummary`: field constraints and `percentiles_match_empty_state`. */
  predicate ValidMetric(m: Metric) {
    && (forall i :: 0 <= i < |m.samples| ==> m.samples[i] >= 0.0 && IsFinite(m.samples[i]))
    && NonNegative(m.p50) && NonNegative(m.p95)
    && if m.samples == [] then m.p50.None? && m.p95.None?
       else m.p50.Some? && OrderedAt(m.samples, 0.5) == Ok(m.p50.value)
            && m.p95.Some? && OrderedAt(m.samples, 0.95) == Ok(m.p95.value)
  }

  /** `sorted(samples)[math.ceil(len(samples) * share) - 1]`, with the product rounded to a double. */
  function OrderedAt(samples: seq<real>, share: real): Result<real, string>
    requires samples != [] && 0.0 < share <= 1.0
  {
    CeilOfShare(share, |samples|);
    AtRank(Sort(samples), Ceil(Scaled(share, |samples|)))
  }

  datatype Metrics = Metrics(ttft: Metric, tokensPerSecond: Metric, latency: Metric, peakVram: Metric)

  datatype Counters = Counters(success: int, timeout: int, error: int, cancelled: int, partial: int, errorRate: real)

  function Total(c: Counters): int {
    c.success + c.timeout + c.error + c.cancelled + c.partial
  }

  datatype WorkloadIdentity = WorkloadIdentity(id: string, warmupRuns: int, measuredRuns: int)

  datatype Report = Report(
    adapterName: string,
    model: string,
    workload: WorkloadIdentity,
    runs: seq<RunRecord>,
    metrics: Metrics,
    outcomes: Counters,
    startedAt: Timestamp,
    finishedAt: Timestamp)

  function MeasuredRuns(runs: seq<RunRecord>): (r: seq<RunRecord>)
    ensures |r| <= |runs|
  {
    if runs == [] then []
    else (if runs[0].warmup then [] else [runs[0]]) + MeasuredRuns(runs[1..])
  }

  function SuccessfulRuns(runs: seq<RunRecord>): (r: seq<RunRecord>)
    ensures forall i :: 0 <= i < |r| ==> r[i].outcome.Success? && r[i] in runs
    ensures |r| <= |runs|
  {
    if runs == [] then []
    else (if runs[0].outcome.Success? then [runs[0]] else []) + SuccessfulRuns(runs[1..])
  }

  function CountOutcome(runs: seq<RunRecord>, outcome: RunOutcome): nat {
    if runs == [] then 0
    else (if runs[0].outcome == outcome then 1 else 0) + CountOutcome(runs[1..], outcome)
  }

  /** The values of one optional field, in run order, skipping missing ones. */
  function Present(values: seq<Option<real>>): (r: seq<real>)
    ensures |r| <= |values|
  {
    if values == [] then [] else (if values[0].Some? then [values[0].value] else []) + Present(values[1..])
  }

  function Ttfts(runs: seq<RunRecord>): seq<Option<real>> {
    seq(|runs|, i requires 0 <= i < |runs| => runs[i].ttft)
  }

  function Latencies(runs: seq<RunRecord>): seq<Option<real>> {
    seq(|runs|, i requires 0 <= i < |runs| => runs[i].latency)
  }

  function Rates(runs: seq<RunRecord>): seq<Option<real>> {
    seq(|runs|, i requires 0 <= i < |runs| => runs[i].tokensPerSecond)
  }

  function Peaks(runs: seq<RunRecord>): seq<Option<real>> {
    seq(|runs|, i requires 0 <= i < |runs| => if runs[i].peakVram.Some? then Some(runs[i].peakVram.value as real) else None)
  }

  function Abs(x: real): real {
    if x < 0.0 then -x else x
  }

  /** `math.isclose(a, b, abs_tol=1e-12)` with the default relative tolerance 1e-9. */
  predicate IsClose(a: real, b: real) {
    var scale := if Abs(a) >= Abs(b) then Abs(a) else Abs(b);
    Abs(a - b) <= 0.000000001 * scale || Abs(a - b) <= 0.000000000001
  }

  predicate CountersMatch(c: Counters, measured: seq<RunRecord>) {
    && c.success == CountOutcome(measured, Success)
    && c.timeout == CountOutcome(measured, Timeout)
    && c.error == CountOutcome(measured, Error)
    && c.cancelled == CountOutcome(measured, Cancelled)
    && c.partial == CountOutcome(measured, Partial)
  }

  predicate SequenceMatches(runs: seq<RunRecord>, w: WorkloadIdentity) {
    && |runs| == w.warmupRuns + w.measuredRuns
    && forall i :: 0 <= i < |runs| ==> runs[i].sequence == i + 1 && (runs[i].warmup <==> i < w.warmupRuns)
  }

  predicate RateMatches(c: Counters) {
    Total(c) != 0 && IsClose(c.errorRate, (Total(c) - c.success) as real / Total(c) as real)
  }

  predicate SamplesMatch(m: Metrics, successful: seq<RunRecord>) {
    && m.ttft.samples == Present(Ttfts(successful))
    && m.latency.samples == Present(Latencies(successful))
    && m.tokensPerSecond.samples == Present(Rates(successful))
    && m.peakVram.samples == Present(Peaks(successful))
  }

  predicate ClockMatches(startedAt: Timestamp, finishedAt: Timestamp) {
    startedAt.utc && finishedAt.utc && startedAt.instant <= finishedAt.instant
  }

  /** `report_is_consistent`. */
  predicate ReportIsConsistent(r: Report) {
    var measured := MeasuredRuns(r.runs);
    && ClockMatches(r.startedAt, r.finishedAt)
    && SequenceMatches(r.runs, r.workload)
    && |measured| == r.workload.measuredRuns
    && CountersMatch(r.outcomes, measured)
    && RateMatches(r.outcomes)
    && SamplesMatch(r.metrics, SuccessfulRuns(measured))
  }

  predicate ValidMetrics(m: Metrics) {
    ValidMetric(m.ttft) && ValidMetric(m.tokensPerSecond) && ValidMetric(m.latency) && ValidMetric(m.peakVram)
  }

  /** Everything `BenchmarkReportV2` and its parts check on construction. */
  predicate ValidReport(r: Report) {
    && r.workload.warmupRuns >= 0 && r.workload.measuredRuns > 0
    && (forall i :: 0 <= i < |r.runs| ==> ValidRecord(r.runs[i]))
    && ValidMetrics(r.metrics)
    && 0.0 <= r.outcomes.errorRate <= 1.0
    && ReportIsConsistent(r)
  }

  // ----- The two percentile formulas agree -----

  lemma OrderedAtIsNearestRank(samples: seq<real>)
    requires samples != []
    ensures NearestRank(samples, 50.0) == OrderedAt(samples, 0.5)
    ensures NearestRank(samples, 95.0) == OrderedAt(samples, 0.95)
  {
    assert 50.0 / 100.0 == 0.5 && 95.0 / 100.0 == 0.95;
  }

  // ----- What an accepted report guarantees -----

  lemma {:induction false} PresentWhenAll(values: seq<Option<real>>)
    requires forall i :: 0 <= i < |values| ==> values[i].Some?
    ensures |Present(values)| == |values|
    ensures forall i :: 0 <= i < |values| ==> Present(values)[i] == values[i].value
  {
    if values != [] { PresentWhenAll(values[1..]); }
  }

  lemma {:induction false} MeasuredAreRuns(runs: seq<RunRecord>)
    ensures forall r :: r in MeasuredRuns(runs) <==> r in runs && !r.warmup
  {
    if runs != [] { MeasuredAreRuns(runs[1..]); }
  }

  lemma SuccessfulAreValid(r: Report)
    requires ValidReport(r)
    ensures forall s :: s in SuccessfulRuns(MeasuredRuns(r.runs)) ==> ValidRecord(s) && s.outcome.Success?
  {
    MeasuredAreRuns(r.runs);
  }

  /** Every successful run contributes one TTFT and one latency, in the same position. */
  lemma SamplesArePaired(r: Report)
    requires ValidReport(r)
    ensures |r.metrics.ttft.samples| == |r.metrics.latency.samples| == r.outcomes.success
    ensures forall i :: 0 <= i < |r.metrics.ttft.samples| ==> r.metrics.ttft.samples[i] <= r.metrics.latency.samples[i]
  {
    hide MeasuredRuns, SuccessfulRuns, CountOutcome, Present, ValidMetrics, RateMatches, SequenceMatches;
    var s := SuccessfulRuns(MeasuredRuns(r.runs));
    SuccessfulAreValid(r);
    PresentWhenAll(Ttfts(s));
    PresentWhenAll(Latencies(s));
    SuccessCount(MeasuredRuns(r.runs));
  }

  lemma {:induction false} SuccessCount(runs: seq<RunRecord>)
    ensures |SuccessfulRuns(runs)| == CountOutcome(runs, Success)
  {
    if runs != [] { SuccessCount(runs[1..]); }
  }

  /** The per-run bound TTFT <= latency lifts to the published percentiles. */
  lemma TtftPercentilesBelowLatency(r: Report)
    requires ValidReport(r)
    ensures r.metrics.ttft.p50.Some? <==> r.metrics.latency.p50.Some?
    ensures r.metrics.ttft.p50.Some? ==> r.metrics.ttft.p50.value <= r.metrics.latency.p50.value
    ensures r.metrics.ttft.p95.Some? ==> r.metrics.latency.p95.Some? && r.metrics.ttft.p95.value <= r.metrics.latency.p95.value
  {
    SamplesArePaired(r);
    var t, l := r.metrics.ttft.samples, r.metrics.latency.samples;
    if t != [] {
      OrderedAtIsNearestRank(t);
      OrderedAtIsNearestRank(l);
      PointwiseOrder(t, l, 50.0);
      PointwiseOrder(t, l, 95.0);
    }
  }

  /** In any valid summary the median does not exceed the 95th percentile. */
  lemma MedianBelowP95(m: Metric)
    requires ValidMetric(m) && m.p50.Some?
    ensures m.p95.Some? && m.p50.value <= m.p95.value
  {
    hide Rank;
    var n := |m.samples|;
    OrderedAtIsNearestRank(m.samples);
    RankMonotone(n, 50.0, 95.0);
    NeverUnderflows(n, 50.0);
    SortIsSorted(m.samples);
  }

  lemma {:induction false} CountsAddUp(runs: seq<RunRecord>)
    ensures CountOutcome(runs, Success) + CountOutcome(runs, Timeout) + CountOutcome(runs, Error)
          + CountOutcome(runs, Cancelled) + CountOutcome(runs, Partial) == |runs|
  {
    if runs != [] { CountsAddUp(runs[1..]); }
  }

  function FailureShare(r: Report): real
    requires r.workload.measuredRuns > 0
  {
    (r.workload.measuredRuns - r.outcomes.success) as real / r.workload.measuredRuns as real
  }

  /** The counters of an accepted report account for every measured run, and the error rate is the share
      that did not succeed, to within the tolerance. */
  lemma EveryMeasuredRunIsCounted(r: Report)
    requires ValidReport(r)
    ensures Total(r.outcomes) == r.workload.measuredRuns
    ensures r.outcomes.success + r.outcomes.timeout + r.outcomes.error + r.outcomes.cancelled + r.outcomes.partial == r.workload.measuredRuns
    ensures Abs(r.outcomes.errorRate - FailureShare(r)) <= 0.000000001
  {
    hide RateMatches, ValidRecord, ValidMetrics, SamplesMatch, SequenceMatches, CountOutcome, MeasuredRuns;
    CountsAddUp(MeasuredRuns(r.runs));
    RateIsShare(r.outcomes, r.workload.measuredRuns);
  }

  lemma RateIsShare(c: Counters, n: int)
    requires RateMatches(c) && Total(c) == n > 0 && 0 <= c.success <= n && 0.0 <= c.errorRate <= 1.0
    ensures Abs(c.errorRate - (n - c.success) as real / n as real) <= 0.000000001
  {
    UnitShare(n - c.success, n);
    CloseInUnit(c.errorRate, (n - c.success) as real / n as real);
  }

  lemma UnitShare(k: int, n: int)
    requires 0 <= k <= n && n > 0
    ensures 0.0 <= k as real / n as real <= 1.0
  {
  }

  lemma CloseInUnit(rate: real, exact: real)
    requires 0.0 <= rate <= 1.0 && 0.0 <= exact <= 1.0 && IsClose(rate, exact)
    ensures Abs(rate - exact) <= 0.000000001
  {
  }

  predicate SameNumbers(a: Metric, b: Metric) {
    a.samples == b.samples && a.p50 == b.p50 && a.p95 == b.p95
  }

  /** The validator pins the summary: same runs and workload counts, same counters, samples and percentiles. */
  lemma SummaryIsDetermined(a: Report, b: Report)
    requires ValidReport(a) && ValidReport(b)
    requires a.runs == b.runs && a.workload == b.workload
    ensures a.outcomes == b.outcomes.(errorRate := a.outcomes.errorRate)
    ensures SameNumbers(a.metrics.ttft, b.metrics.ttft) && SameNumbers(a.metrics.latency, b.metrics.latency)
    ensures SameNumbers(a.metrics.tokensPerSecond, b.metrics.tokensPerSecond)
    ensures SameNumbers(a.metrics.peakVram, b.metrics.peakVram)
    ensures Abs(a.outcomes.errorRate - b.outcomes.errorRate) <= 0.000000002
  {
    hide RateMatches, ValidRecord, SequenceMatches, CountOutcome, MeasuredRuns, SuccessfulRuns, Present, OrderedAt;
    EveryMeasuredRunIsCounted(a);
    EveryMeasuredRunIsCounted(b);
  }

  // ----- What an accepted report says about its records, told on the record fields -----

  /** These are, in run order, the places of the successful measured runs, or of those with a peak. */
  predicate Lists(places: seq<nat>, runs: seq<RunRecord>, withPeak: bool) {
    && (forall j, k :: 0 <= j < k < |places| ==> places[j] < places[k])
    && (forall j :: 0 <= j < |places| ==> places[j] < |runs|)
    && (forall i :: 0 <= i < |runs| ==>
         (i in places <==> !runs[i].warmup && runs[i].outcome.Success? && (withPeak ==> runs[i].peakVram.Some?)))
  }

  function Places(runs: seq<RunRecord>, withPeak: bool): seq<nat> {
    if runs == [] then []
    else
      var init, last := runs[..|runs| - 1], runs[|runs| - 1];
      Places(init, withPeak)
        + if !last.warmup && last.outcome.Success? && (withPeak ==> last.peakVram.Some?) then [|runs| - 1] else []
  }

  lemma {:induction false} PlacesList(runs: seq<RunRecord>, withPeak: bool)
    ensures Lists(Places(runs, withPeak), runs, withPeak)
  {
    hide Lists;
    if runs == [] {
      ListsNothing(withPeak);
    } else {
      var init, last := runs[..|runs| - 1], runs[|runs| - 1];
      PlacesList(init, withPeak);
      ListsExtend(Places(init, withPeak), init, last, withPeak);
      assert runs == init + [last];
    }
  }

  lemma ListsNothing(withPeak: bool)
    ensures Lists([], [], withPeak)
  {
  }

  lemma ListsExtend(places: seq<nat>, init: seq<RunRecord>, last: RunRecord, withPeak: bool)
    requires Lists(places, init, withPeak)
    ensures var here := !last.warmup && last.outcome.Success? && (withPeak ==> last.peakVram.Some?);
      Lists(places + if here then [|init|] else [], init + [last], withPeak)
  {
    var runs := init + [last];
    var here := !last.warmup && last.outcome.Success? && (withPeak ==> last.peakVram.Some?);
    var more := places + if here then [|init|] else [];
    forall i | 0 <= i < |runs|
      ensures i in more <==> !runs[i].warmup && runs[i].outcome.Success? && (withPeak ==> runs[i].peakVram.Some?)
    {
      if i < |init| { assert runs[i] == init[i]; }
    }
  }

  lemma {:induction false} MeasuredAppend(a: seq<RunRecord>, b: seq<RunRecord>)
    ensures MeasuredRuns(a + b) == MeasuredRuns(a) + MeasuredRuns(b)
  {
    if a == [] {
      assert a + b == b;
    } else {
      var head := if a[0].warmup then [] else [a[0]];
      assert (a + b)[0] == a[0] && (a + b)[1..] == a[1..] + b;
      MeasuredAppend(a[1..], b);
      assert (head + MeasuredRuns(a[1..])) + MeasuredRuns(b) == head + (MeasuredRuns(a[1..]) + MeasuredRuns(b));
    }
  }

  lemma {:induction false} SuccessfulAppend(a: seq<RunRecord>, b: seq<RunRecord>)
    ensures SuccessfulRuns(a + b) == SuccessfulRuns(a) + SuccessfulRuns(b)
  {
    if a == [] {
      assert a + b == b;
    } else {
      var head := if a[0].outcome.Success? then [a[0]] else [];
      assert (a + b)[0] == a[0] && (a + b)[1..] == a[1..] + b;
      SuccessfulAppend(a[1..], b);
      assert (head + SuccessfulRuns(a[1..])) + SuccessfulRuns(b) == head + (SuccessfulRuns(a[1..]) + SuccessfulRuns(b));
    }
  }

  lemma {:induction false} PresentAppend(a: seq<Option<real>>, b: seq<Option<real>>)
    ensures Present(a + b) == Present(a) + Present(b)
  {
    if a == [] {
      assert a + b == b;
    } else {
      var head := if a[0].Some? then [a[0].value] else [];
      assert (a + b)[0] == a[0] && (a + b)[1..] == a[1..] + b;
      PresentAppend(a[1..], b);
      assert (head + Present(a[1..])) + Present(b) == head + (Present(a[1..]) + Present(b));
    }
  }

  lemma OneRun(r: RunRecord)
    ensures SuccessfulRuns(MeasuredRuns([r])) == if !r.warmup && r.outcome.Success? then [r] else []
  {
    assert [r][1..] == [];
  }

  lemma SuccessesSplit(runs: seq<RunRecord>)
    requires runs != []
    ensures var last := runs[|runs| - 1];
      SuccessfulRuns(MeasuredRuns(runs)) == SuccessfulRuns(MeasuredRuns(runs[..|runs| - 1]))
        + if !last.warmup && last.outcome.Success? then [last] else []
  {
    var init, last := runs[..|runs| - 1], runs[|runs| - 1];
    assert runs == init + [last];
    MeasuredAppend(init, [last]);
    SuccessfulAppend(MeasuredRuns(init), MeasuredRuns([last]));
    OneRun(last);
  }

  lemma {:induction false} SuccessesAtPlaces(runs: seq<RunRecord>)
    ensures var s, places := SuccessfulRuns(MeasuredRuns(runs)), Places(runs, false);
      |places| == |s| && forall j :: 0 <= j < |s| ==> places[j] < |runs| && s[j] == runs[places[j]]
  {
    hide MeasuredRuns, SuccessfulRuns;
    if runs != [] {
      SuccessesAtPlaces(runs[..|runs| - 1]);
      SuccessesSplit(runs);
    } else {
      NoSuccesses();
    }
  }

  lemma NoSuccesses()
    ensures SuccessfulRuns(MeasuredRuns([])) == [] && Present([]) == []
  {
  }

  lemma {:induction false} PeaksAtPlaces(runs: seq<RunRecord>)
    ensures var peaks, places := Present(Peaks(SuccessfulRuns(MeasuredRuns(runs)))), Places(runs, true);
      |places| == |peaks| && forall j :: 0 <= j < |peaks| ==>
        places[j] < |runs| && runs[places[j]].peakVram.Some? && peaks[j] == runs[places[j]].peakVram.value as real
  {
    hide MeasuredRuns, SuccessfulRuns, Present;
    NoSuccesses();
    if runs != [] {
      var init, last := runs[..|runs| - 1], runs[|runs| - 1];
      PeaksAtPlaces(init);
      SuccessesSplit(runs);
      var before := SuccessfulRuns(MeasuredRuns(init));
      var here := if !last.warmup && last.outcome.Success? then [last] else [];
      assert Peaks(before + here) == Peaks(before) + Peaks(here);
      PresentAppend(Peaks(before), Peaks(here));
      PeaksOfOne(here);
    }
  }

  lemma PeaksOfOne(here: seq<RunRecord>)
    requires |here| <= 1
    ensures Present(Peaks(here)) == if here != [] && here[0].peakVram.Some? then [here[0].peakVram.value as real] else []
  {
  }

  /** In every accepted report the samples are, in run order, the fields of the successful measured runs, and the peak
      samples are the peaks of those that have one. */
  lemma SamplesAreRecordFields(r: Report)
    requires ValidReport(r)
    ensures exists places :: Lists(places, r.runs, false) && SamplesAt(r.metrics, r.runs, places)
    ensures exists places :: Lists(places, r.runs, true) && PeaksAt(r.metrics, r.runs, places)
  {
    hide MeasuredRuns, SuccessfulRuns, CountOutcome, ValidMetrics, RateMatches, SequenceMatches, Lists, Places;
    var s := SuccessfulRuns(MeasuredRuns(r.runs));
    SuccessfulAreValid(r);
    PresentWhenAll(Ttfts(s));
    PresentWhenAll(Latencies(s));
    PresentWhenAll(Rates(s));
    PlacesList(r.runs, false);
    PlacesList(r.runs, true);
    SuccessesAtPlaces(r.runs);
    PeaksAtPlaces(r.runs);
    assert SamplesAt(r.metrics, r.runs, Places(r.runs, false)) && PeaksAt(r.metrics, r.runs, Places(r.runs, true));
  }

  predicate SamplesAt(m: Metrics, runs: seq<RunRecord>, places: seq<nat>) {
    && |m.ttft.samples| == |m.latency.samples| == |m.tokensPerSecond.samples| == |places|
    && forall j :: 0 <= j < |places| ==>
         && places[j] < |runs|
         && runs[places[j]].ttft == Some(m.ttft.samples[j]) && runs[places[j]].latency == Some(m.latency.samples[j])
         && runs[places[j]].tokensPerSecond == Some(m.tokensPerSecond.samples[j])
  }

  predicate PeaksAt(m: Metrics, runs: seq<RunRecord>, places: seq<nat>) {
    && |m.peakVram.samples| == |places|
    && forall j :: 0 <= j < |places| ==>
         && places[j] < |runs| && runs[places[j]].peakVram.Some?
         && m.peakVram.samples[j] == runs[places[j]].peakVram.value as real
  }

  /** The places in a list of runs where an outcome occurs. */
  function OutcomeAt(runs: seq<RunRecord>, outcome: RunOutcome): set<nat> {
    set i: nat | i < |runs| && runs[i].outcome == outcome
  }

  lemma {:induction false} CountsArePlaces(runs: seq<RunRecord>, outcome: RunOutcome)
    ensures CountOutcome(runs, outcome) == |OutcomeAt(runs, outcome)|
  {
    hide OutcomeAt;
    if runs == [] {
      OutcomeAtNothing(outcome);
    } else {
      var init, last := runs[..|runs| - 1], runs[|runs| - 1];
      CountsArePlaces(init, outcome);
      CountLast(init, last, outcome);
      assert runs == init + [last];
      OutcomeAtLast(init, last, outcome);
    }
  }

  lemma OutcomeAtNothing(outcome: RunOutcome)
    ensures |OutcomeAt([], outcome)| == 0
  {
    assert OutcomeAt([], outcome) == {};
  }

  lemma OutcomeAtLast(init: seq<RunRecord>, last: RunRecord, outcome: RunOutcome)
    ensures |OutcomeAt(init + [last], outcome)| == |OutcomeAt(init, outcome)| + if last.outcome == outcome then 1 else 0
  {
    var runs, before := init + [last], OutcomeAt(init, outcome);
    forall i: nat ensures i in OutcomeAt(runs, outcome) <==> i in before || (i == |init| && last.outcome == outcome) {
      if i < |init| { assert runs[i] == init[i]; }
    }
    if last.outcome == outcome {
      assert OutcomeAt(runs, outcome) == before + {|init|};
    } else {
      assert OutcomeAt(runs, outcome) == before;
    }
  }

  lemma {:induction false} CountLast(runs: seq<RunRecord>, last: RunRecord, outcome: RunOutcome)
    ensures CountOutcome(runs + [last], outcome) == CountOutcome(runs, outcome) + if last.outcome == outcome then 1 else 0
  {
    if runs != [] {
      assert (runs + [last])[1..] == runs[1..] + [last];
      CountLast(runs[1..], last, outcome);
    }
  }

  /** An accepted report has the shape its workload asks for: numbered runs, warmups first, a UTC clock that does not go
      back, and each counter the number of measured runs that ended that way. */
  lemma AcceptedReportShape(r: Report)
    requires ValidReport(r)
    ensures r.startedAt.utc && r.finishedAt.utc && r.startedAt.instant <= r.finishedAt.instant
    ensures |r.runs| == r.workload.warmupRuns + r.workload.measuredRuns
    ensures forall i :: 0 <= i < |r.runs| ==> r.runs[i].sequence == i + 1 && (r.runs[i].warmup <==> i < r.workload.warmupRuns)
    ensures var measured := r.runs[r.workload.warmupRuns..];
      && r.outcomes.success == |OutcomeAt(measured, Success)| && r.outcomes.timeout == |OutcomeAt(measured, Timeout)|
      && r.outcomes.error == |OutcomeAt(measured, Error)| && r.outcomes.cancelled == |OutcomeAt(measured, Cancelled)|
      && r.outcomes.partial == |OutcomeAt(measured, Partial)|
  {
    hide CountOutcome, MeasuredRuns, ValidRecord, ValidMetrics, RateMatches, SamplesMatch, OutcomeAt;
    MeasuredOfSplit(r.runs, r.workload.warmupRuns);
    var measured := r.runs[r.workload.warmupRuns..];
    CountsArePlaces(measured, Success);
    CountsArePlaces(measured, Timeout);
    CountsArePlaces(measured, Error);
    CountsArePlaces(measured, Cancelled);
    CountsArePlaces(measured, Partial);
  }

  lemma {:induction false} MeasuredOfSplit(runs: seq<RunRecord>, n: nat)
    requires n <= |runs| && forall i :: 0 <= i < |runs| ==> (runs[i].warmup <==> i < n)
    ensures MeasuredRuns(runs) == runs[n..]
  {
    if runs != [] {
      if n > 0 {
        MeasuredOfSplit(runs[1..], n - 1);
      } else {
        MeasuredOfSplit(runs[1..], 0);
        assert runs == [runs[0]] + runs[1..];
      }
    }
  }

  /** The tolerance: moving the error rate of an accepted report to anywhere within 1e-12 of the exact share keeps it
      accepted. */
  lemma NearRateAccepted(r: Report, rate: real)
    requires ValidReport(r) && 0.0 <= rate <= 1.0
    requires FailureShare(r) - 0.000000000001 <= rate <= FailureShare(r) + 0.000000000001
    ensures ValidReport(r.(outcomes := r.outcomes.(errorRate := rate)))
  {
    hide CountOutcome, MeasuredRuns, ValidRecord, ValidMetrics, SamplesMatch, SequenceMatches;
    EveryMeasuredRunIsCounted(r);
  }
}
