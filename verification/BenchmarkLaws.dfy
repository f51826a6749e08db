/** What every benchmark run guarantees, whatever the adapter, the observer and the user do. */
module BenchmarkLaws {
  import opened Outcomes
  import opened Codes
  import opened Binary64
  import opened Adapters
  import opened Statistics
  import opened BenchmarkReport
  import opened BenchmarkEngine

  // ----- When does an offset escape? -----

  /** A sample an error may carry. */
  predicate Acceptable(s: Sample) {
    && WellTimed(s)
    && (s.generatedTokens.Some? ==> s.generatedTokens.value >= 0)
    && (s.tokensPerSecond.Some? ==> s.tokensPerSecond.value >= 0.0 && IsFinite(s.tokensPerSecond.value))
  }

  predicate ObserverBehaves(step: Step, observed: bool) {
    observed ==> !step.startRaises && step.stop.Peak? && (step.stop.bytes.Some? ==> step.stop.bytes.value >= 0)
  }

  /** The collaborators behave at this offset: successes are complete, errors carry a valid code and an acceptable sample. */
  predicate WellBehaved(step: Step, observed: bool) {
    && ObserverBehaves(step, observed)
    && match step.behaviour
       case Returns(s) => Complete(s)
       case Raises(e, code) => ValidCode(code) && (e.sample.Some? ==> Acceptable(e.sample.value))
       case Interrupted => true
       case Escapes => false
  }

  /** Exceptions leave the loop exactly at offsets that are called and misbehave. */
  lemma EscapeMeansMisbehaviour(env: Environment, w: Workload, offset: nat)
    requires ValidWorkload(w)
    ensures EscapesAt(env, w, offset) <==> !IsCancelled(env, offset) && !WellBehaved(env.steps(offset), env.observed)
    ensures IsCancelled(env, offset) ==> ValidRecord(RecordAt(env, w, offset))
  {
    EngineCodes();
    FiniteBelow();
    hide ValidCode, IsFinite;
  }

  /** A finite latency bounds the time to the first token. */
  lemma FiniteBelow()
    ensures forall x, y :: x <= y && IsFinite(y) ==> IsFinite(x)
  {
  }

  // ----- What a record tells -----

  /** The event is set when an offset checks it exactly when someone set it by then or an earlier call was cancelled or
      interrupted. */
  lemma {:induction false} CancellationHasACause(env: Environment, offset: nat)
    ensures IsCancelled(env, offset) <==>
      || (exists i: nat :: i <= offset && env.steps(i).signal)
      || (exists i: nat :: i < offset && (env.steps(i).behaviour.Interrupted?
            || (env.steps(i).behaviour.Raises? && env.steps(i).behaviour.error.kind.CancelledByUser?)))
  {
    if offset > 0 { CancellationHasACause(env, offset - 1); }
  }

  /** The outcome each error class stands for. */
  function OutcomeOf(kind: ErrorKind): RunOutcome {
    match kind
    case General => RunOutcome.Error
    case TimedOut => RunOutcome.Timeout
    case CancelledByUser => RunOutcome.Cancelled
    case PartialOutput => RunOutcome.Partial
  }

  /** Every record, field by field: position, prompt and warmup from the workload; outcome, numbers, digest, code and peak
      from what happened at its offset. */
  lemma RecordTells(env: Environment, w: Workload, i: nat)
    requires ValidWorkload(w) && i < w.warmupRuns + w.measuredRuns
    ensures var r := RecordAt(env, w, i);
      r.sequence == i + 1 && r.promptId == w.prompts[i % |w.prompts|].id && (r.warmup <==> i < w.warmupRuns)
    ensures IsCancelled(env, i) ==>
      var r := RecordAt(env, w, i);
      r.outcome.Cancelled? && r.errorCode == Some("benchmark.cancelled_before_start") && Silent(r) && r.peakVram == None
    ensures !IsCancelled(env, i) ==>
      var step := env.steps(i);
      RecordAt(env, w, i).peakVram == if env.observed && step.stop.Peak? then step.stop.bytes else None
    ensures !IsCancelled(env, i) && env.steps(i).behaviour.Returns? ==>
      var r := RecordAt(env, w, i);
      r.outcome.Success? && r.errorCode == None && Carries(env, r, env.steps(i).behaviour.sample)
    ensures !IsCancelled(env, i) && env.steps(i).behaviour.Raises? ==>
      var r, e := RecordAt(env, w, i), env.steps(i).behaviour.error;
      && r.outcome == OutcomeOf(e.kind) && r.errorCode == Some(env.steps(i).behaviour.code)
      && if e.sample.Some? then Carries(env, r, e.sample.value) else Silent(r)
    ensures !IsCancelled(env, i) && env.steps(i).behaviour.Interrupted? ==>
      var r := RecordAt(env, w, i);
      r.outcome.Cancelled? && r.errorCode == Some("benchmark.cancelled") && Silent(r)
  {
  }

  /** No numbers and no digest. */
  predicate Silent(r: RunRecord) {
    r.ttft == None && r.latency == None && r.generatedTokens == None && r.tokensPerSecond == None && r.responseDigest == None
  }

  predicate Carries(env: Environment, r: RunRecord, s: Sample) {
    && r.ttft == Some(s.ttft) && r.latency == Some(s.latency)
    && r.generatedTokens == s.generatedTokens && r.tokensPerSecond == s.tokensPerSecond
    && r.responseDigest == Some(env.digest(s.rawResponse))
  }

  /** What a returned report says of itself: its workload, one record per offset, and how each metric was obtained. */
  lemma ReportTells(env: Environment, w: Workload)
    requires ValidWorkload(w) && RunResult(env, w).Ok?
    ensures var r := RunResult(env, w).value;
      && r.adapterName == env.adapterName && env.model == Some(r.model)
      && r.workload == WorkloadIdentity(w.id, w.warmupRuns, w.measuredRuns)
      && |r.runs| == w.warmupRuns + w.measuredRuns && (forall i :: 0 <= i < |r.runs| ==> r.runs[i] == RecordAt(env, w, i))
      && r.startedAt == env.startedAt && r.finishedAt == env.finishedAt
      && (r.metrics.ttft.unit, r.metrics.latency.unit) == ("second", "second")
      && (r.metrics.tokensPerSecond.unit, r.metrics.peakVram.unit) == ("token/second", "byte")
      && r.metrics.ttft.confidence == r.metrics.latency.confidence == (if env.adapterName == "mock" then Simulated else Measured)
      && r.metrics.tokensPerSecond.confidence ==
           (if env.adapterName == "mock" then Simulated else if env.adapterName == "ollama" then Reported else Derived)
      && r.metrics.peakVram.confidence == Measured
  {
    hide ValidReport, MakeCounters, FloatPeaks, RecordAt, EscapesAt, Present, Rank, NearestRank;
  }

  // ----- Cancellation -----

  lemma {:induction false} CancellationLasts(env: Environment, i: nat, j: nat)
    requires i <= j && IsCancelled(env, i)
    ensures IsCancelled(env, j)
    decreases j
  {
    if i < j { CancellationLasts(env, i, j - 1); }
  }

  /** Cancelled records form a suffix: after one, every later offset is skipped unstarted. */
  lemma CancelledRecordsFormSuffix(env: Environment, w: Workload, i: nat, j: nat)
    requires ValidWorkload(w) && i < j < TotalRuns(w)
    requires Records(env, w, TotalRuns(w))[i].outcome.Cancelled?
    ensures Records(env, w, TotalRuns(w))[j]
         == MakeRecord(env, w, j, Cancelled, None, Some("benchmark.cancelled_before_start"), None)
  {
    assert IsCancelled(env, i + 1);
    CancellationLasts(env, i + 1, j);
  }

  // ----- Cleanup -----

  predicate About(a: Action, i: nat) {
    !a.LoadModel? && !a.CloseAdapter? && a.offset == i
  }

  /** The calls made for one offset, in order. */
  function OfOffset(actions: seq<Action>, i: nat): seq<Action> {
    if actions == [] then [] else (if About(actions[0], i) then [actions[0]] else []) + OfOffset(actions[1..], i)
  }

  lemma {:induction false} OfOffsetAppend(s: seq<Action>, t: seq<Action>, i: nat)
    ensures OfOffset(s + t, i) == OfOffset(s, i) + OfOffset(t, i)
  {
    if s == [] {
      assert s + t == t;
    } else {
      hide About;
      var head := if About(s[0], i) then [s[0]] else [];
      assert (s + t)[0] == s[0] && (s + t)[1..] == s[1..] + t;
      OfOffsetAppend(s[1..], t, i);
      assert (head + OfOffset(s[1..], i)) + OfOffset(t, i) == head + (OfOffset(s[1..], i) + OfOffset(t, i));
    }
  }

  lemma {:induction false} OfOffsetUniform(s: seq<Action>, k: nat, i: nat)
    requires forall j :: 0 <= j < |s| ==> About(s[j], k)
    ensures OfOffset(s, i) == if i == k then s else []
  {
    if s != [] {
      OfOffsetUniform(s[1..], k, i);
      assert s == [s[0]] + s[1..];
    }
  }

  lemma {:induction false} LoopCallsOfOffset(env: Environment, w: Workload, n: nat, timeout: real, i: nat)
    requires ValidWorkload(w)
    ensures OfOffset(LoopActions(env, w, n, timeout), i) == if i < n then ActionsAt(env, w, i, timeout) else []
  {
    hide ActionsAt;
    if n > 0 {
      LoopCallsOfOffset(env, w, n - 1, timeout, i);
      ActionsAtAbout(env, w, n - 1, timeout);
      OfOffsetStep(LoopActions(env, w, n - 1, timeout), ActionsAt(env, w, n - 1, timeout), n - 1, i);
    }
  }

  lemma OfOffsetStep(before: seq<Action>, here: seq<Action>, n: nat, i: nat)
    requires forall k :: 0 <= k < |here| ==> About(here[k], n)
    ensures OfOffset(before + here, i) == OfOffset(before, i) + if i == n then here else []
  {
    OfOffsetAppend(before, here, i);
    OfOffsetUniform(here, n, i);
  }

  lemma ActionsAtAbout(env: Environment, w: Workload, n: nat, timeout: real)
    requires ValidWorkload(w)
    ensures var here := ActionsAt(env, w, n, timeout);
      forall k :: 0 <= k < |here| ==> About(here[k], n)
  {
  }

  /** Loop calls carry offsets below n, in ascending order. */
  predicate InOffsetOrder(actions: seq<Action>, n: nat) {
    && (forall k :: 0 <= k < |actions| ==> !actions[k].LoadModel? && !actions[k].CloseAdapter? && actions[k].offset < n)
    && (forall j, k :: 0 <= j < k < |actions| ==> actions[j].offset <= actions[k].offset)
  }

  lemma {:induction false} LoopIsInOffsetOrder(env: Environment, w: Workload, n: nat, timeout: real)
    requires ValidWorkload(w)
    ensures InOffsetOrder(LoopActions(env, w, n, timeout), n)
  {
    if n > 0 {
      LoopIsInOffsetOrder(env, w, n - 1, timeout);
      ActionsAtAbout(env, w, n - 1, timeout);
      OrderExtends(LoopActions(env, w, n - 1, timeout), ActionsAt(env, w, n - 1, timeout), n - 1);
    }
  }

  lemma OrderExtends(before: seq<Action>, here: seq<Action>, n: nat)
    requires InOffsetOrder(before, n) && forall k :: 0 <= k < |here| ==> About(here[k], n)
    ensures InOffsetOrder(before + here, n + 1)
  {
  }

  /** Past the timeout check the model is loaded once and first, and the adapter is closed once and last,
      whatever escapes. In between, offsets come in order; an offset that is never entered or is reached
      after cancellation makes no call, and any other calls `run` once, between one observer start and its stop, with
      the prompts in rotation and the seed counting up. */
  lemma CleanupIsExact(env: Environment, w: Workload, timeout: real, i: nat)
    requires ValidWorkload(w)
    ensures var actions := RunActions(env, w, timeout);
      var loop := actions[1..|actions| - 1];
      var entered := env.model.Some? && i < Entered(env, w, 0);
      var prompt := w.prompts[i % |w.prompts|];
      var request := Request(prompt.prompt, prompt.maxTokens, w.seed + i, timeout);
      && actions == [LoadModel] + loop + [CloseAdapter]
      && InOffsetOrder(loop, w.warmupRuns + w.measuredRuns)
      && OfOffset(loop, i) ==
           if !entered || IsCancelled(env, i) then []
           else if !env.observed then [CallRun(i, request)]
           else if env.steps(i).startRaises then [StartObserver(i)]
           else [StartObserver(i), CallRun(i, request), StopObserver(i)]
  {
    var n := Entered(env, w, 0);
    var loop := if env.model.Some? then LoopActions(env, w, n, timeout) else [];
    assert RunActions(env, w, timeout)[1..|RunActions(env, w, timeout)| - 1] == loop;
    LoopCallsOfOffset(env, w, n, timeout, i);
    LoopIsInOffsetOrder(env, w, n, timeout);
  }

  /** The loop enters every offset unless one escapes, and then it enters nothing after that one. */
  lemma {:induction false} EnteredUntilEscape(env: Environment, w: Workload, offset: nat)
    requires ValidWorkload(w) && offset <= TotalRuns(w)
    ensures var n := Entered(env, w, offset);
      && (forall i :: offset <= i < n - 1 ==> !EscapesAt(env, w, i))
      && (n < TotalRuns(w) ==> n > offset && EscapesAt(env, w, n - 1))
    decreases TotalRuns(w) - offset
  {
    if offset < TotalRuns(w) && !EscapesAt(env, w, offset) { EnteredUntilEscape(env, w, offset + 1); }
  }

  // ----- The report -----

  lemma {:induction false} PresentNonNegative(values: seq<Option<real>>)
    requires forall i :: 0 <= i < |values| ==> NonNegative(values[i])
    ensures forall i :: 0 <= i < |Present(values)| ==> Present(values)[i] >= 0.0 && IsFinite(Present(values)[i])
  {
    hide IsFinite;
    if values != [] { PresentNonNegative(values[1..]); }
  }

  lemma MetricIsValid(samples: seq<real>, unit: string, confidence: Confidence)
    requires |samples| <= MAX_RUNS && forall x :: x in samples ==> x >= 0.0 && IsFinite(x)
    ensures ValidMetric(MakeMetric(samples, unit, confidence))
  {
    hide Rank, Sort, IsFinite, NearestRank, OrderedAt, TakenRank, CountAtMost, Underflows;
    if samples != [] {
      OrderedAtIsNearestRank(samples);
      ResultHasRank(samples, 50.0);
      ResultHasRank(samples, 95.0);
      assert forall i :: 0 <= i < |samples| ==> samples[i] in samples;
    }
  }

  /** A double can hold the peak of every run in the list. */
  predicate PeaksRepresentable(runs: seq<RunRecord>) {
    forall i :: 0 <= i < |runs| && runs[i].peakVram.Some? ==> Representable(runs[i].peakVram.value)
  }

  /** The peaks converted to float are the peaks of the records exactly when a double can hold each of them. */
  lemma {:induction false} FloatPeaksMatch(runs: seq<RunRecord>)
    ensures FloatPeaks(runs) == Some(Present(Peaks(runs))) <==> PeaksRepresentable(runs)
  {
    hide FloatOf, Representable;
    if runs != [] {
      var first, rest := runs[0].peakVram, runs[1..];
      FloatPeaksMatch(rest);
      RepresentableSplit(runs);
      PresentPeaksUnfold(runs);
      if first.Some? {
        FloatOfExactly(first.value);
        if FloatPeaks(runs).Some? {
          ConsEqual(FloatOf(first.value).value, FloatPeaks(rest).value, first.value as real, Present(Peaks(rest)));
        }
      } else {
        assert FloatPeaks(runs) == FloatPeaks(rest) && Present(Peaks(runs)) == Present(Peaks(rest));
      }
    }
  }

  lemma PresentPeaksUnfold(runs: seq<RunRecord>)
    requires runs != []
    ensures Present(Peaks(runs))
         == (if runs[0].peakVram.Some? then [runs[0].peakVram.value as real] else []) + Present(Peaks(runs[1..]))
  {
    assert Peaks(runs)[1..] == Peaks(runs[1..]);
  }

  lemma RepresentableSplit(runs: seq<RunRecord>)
    requires runs != []
    ensures PeaksRepresentable(runs)
       <==> PeaksRepresentable(runs[1..]) && (runs[0].peakVram.Some? ==> Representable(runs[0].peakVram.value))
  {
    hide Representable;
    assert runs == [runs[0]] + runs[1..];
  }

  /** Peaks up to 2^53 bytes are never a problem. */
  lemma SmallPeaksRepresentable(runs: seq<RunRecord>)
    requires forall i :: 0 <= i < |runs| && runs[i].peakVram.Some? ==> 0 <= runs[i].peakVram.value <= 9007199254740992
    ensures PeaksRepresentable(runs)
  {
    hide Representable;
    forall i | 0 <= i < |runs| && runs[i].peakVram.Some? ensures Representable(runs[i].peakVram.value) {
      SmallIntegersRepresentable(runs[i].peakVram.value);
    }
  }

  lemma ConsEqual(a: real, x: seq<real>, b: real, y: seq<real>)
    ensures [a] + x == [b] + y <==> a == b && x == y
  {
    assert ([a] + x)[1..] == x && ([b] + y)[1..] == y;
    assert ([a] + x)[0] == a && ([b] + y)[0] == b;
  }

  /** The records a finished loop leaves are the ones the validator asks for. */
  lemma RecordsAreValid(env: Environment, w: Workload)
    requires ValidWorkload(w) && LoopFinishes(env, w)
    ensures var runs := Records(env, w, TotalRuns(w));
      && SequenceMatches(runs, WorkloadIdentity(w.id, w.warmupRuns, w.measuredRuns))
      && (forall i :: 0 <= i < |runs| ==> ValidRecord(runs[i]))
      && MeasuredRuns(runs) == runs[w.warmupRuns..]
  {
    hide ValidCode, IsFinite, WellBehaved, IsCancelled;
    var runs := Records(env, w, TotalRuns(w));
    forall i | 0 <= i < |runs|
      ensures ValidRecord(runs[i]) && runs[i].sequence == i + 1 && (runs[i].warmup <==> i < w.warmupRuns)
    {
      assert !EscapesAt(env, w, i);
      EscapeMeansMisbehaviour(env, w, i);
    }
    MeasuredOfSplit(runs, w.warmupRuns);
  }

  lemma SamplesAreNonNegative(runs: seq<RunRecord>)
    requires PeaksRepresentable(runs) && forall i :: 0 <= i < |runs| ==> ValidRecord(runs[i])
    ensures forall x :: x in Present(Ttfts(runs)) ==> x >= 0.0 && IsFinite(x)
    ensures forall x :: x in Present(Latencies(runs)) ==> x >= 0.0 && IsFinite(x)
    ensures forall x :: x in Present(Rates(runs)) ==> x >= 0.0 && IsFinite(x)
    ensures forall x :: x in Present(Peaks(runs)) ==> x >= 0.0 && IsFinite(x)
  {
    hide Present, ValidCode;
    PresentNonNegative(Ttfts(runs));
    PresentNonNegative(Latencies(runs));
    PresentNonNegative(Rates(runs));
    PeaksAreFinite(runs);
    PresentNonNegative(Peaks(runs));
  }

  lemma PeaksAreFinite(runs: seq<RunRecord>)
    requires PeaksRepresentable(runs) && forall i :: 0 <= i < |runs| ==> ValidRecord(runs[i])
    ensures forall i :: 0 <= i < |runs| ==> NonNegative(Peaks(runs)[i])
  {
    hide ValidCode, Spacing, Scale;
    forall i | 0 <= i < |runs| ensures NonNegative(Peaks(runs)[i]) {
      assert ValidRecord(runs[i]);
      if runs[i].peakVram.Some? { assert Representable(runs[i].peakVram.value); }
    }
  }

  lemma MetricsAreValid(env: Environment, successful: seq<RunRecord>)
    requires |successful| <= MAX_RUNS && forall i :: 0 <= i < |successful| ==> ValidRecord(successful[i])
    requires PeaksRepresentable(successful)
    ensures ValidMetrics(MakeMetrics(env, successful, Present(Peaks(successful))))
  {
    hide ValidCode, Rank, IsFinite, ValidRecord, PeaksRepresentable;
    SamplesAreNonNegative(successful);
    FourMetrics(MakeMetrics(env, successful, Present(Peaks(successful))));
  }

  lemma FourMetrics(m: Metrics)
    requires forall x :: x in m.ttft.samples || x in m.tokensPerSecond.samples ==> x >= 0.0 && IsFinite(x)
    requires forall x :: x in m.latency.samples || x in m.peakVram.samples ==> x >= 0.0 && IsFinite(x)
    requires Computed(m.ttft) && Computed(m.tokensPerSecond) && Computed(m.latency) && Computed(m.peakVram)
    ensures ValidMetrics(m)
  {
    MetricIsValid(m.ttft.samples, m.ttft.unit, m.ttft.confidence);
    MetricIsValid(m.tokensPerSecond.samples, m.tokensPerSecond.unit, m.tokensPerSecond.confidence);
    MetricIsValid(m.latency.samples, m.latency.unit, m.latency.confidence);
    MetricIsValid(m.peakVram.samples, m.peakVram.unit, m.peakVram.confidence);
  }

  predicate Computed(m: Metric) {
    |m.samples| <= MAX_RUNS && m == MakeMetric(m.samples, m.unit, m.confidence)
  }

  lemma CountersAreValid(measured: seq<RunRecord>)
    requires measured != []
    ensures var c := MakeCounters(measured);
      CountersMatch(c, measured) && RateMatches(c) && 0.0 <= c.errorRate <= 1.0
  {
    CountsAddUp(measured);
    UnitShare(|measured| - CountOutcome(measured, Success), |measured|);
    CloseToItself(MakeCounters(measured).errorRate);
  }

  lemma CloseToItself(x: real)
    ensures IsClose(x, x)
  {
  }

  /** The successful measured runs of a finished loop. */
  function SuccessfulOf(env: Environment, w: Workload): seq<RunRecord>
    requires ValidWorkload(w)
  {
    SuccessfulRuns(MeasuredRuns(Records(env, w, TotalRuns(w))))
  }

  /** A report over valid, well-numbered records passes every validator exactly when the clock is sound and a double can
      hold the peak of each successful run. */
  lemma ReportIsValid(env: Environment, w: Workload, runs: seq<RunRecord>)
    requires ValidWorkload(w) && env.model.Some? && |runs| <= MAX_RUNS
    requires SequenceMatches(runs, WorkloadIdentity(w.id, w.warmupRuns, w.measuredRuns))
    requires forall i :: 0 <= i < |runs| ==> ValidRecord(runs[i])
    requires MeasuredRuns(runs) == runs[w.warmupRuns..]
    ensures ReportOn(env, w, runs).Ok?
       <==> ClockMatches(env.startedAt, env.finishedAt) && PeaksRepresentable(SuccessfulRuns(MeasuredRuns(runs)))
  {
    hide ValidRecord, FloatPeaks, PeaksRepresentable, SuccessfulRuns, MakeReport, ValidReport, ClockMatches, Present, Peaks;
    var successful := SuccessfulRuns(MeasuredRuns(runs));
    FloatPeaksMatch(successful);
    if FloatPeaks(successful).Some? {
      MadeReportIsValid(env, w, runs, FloatPeaks(successful).value);
    }
  }

  lemma MadeReportIsValid(env: Environment, w: Workload, runs: seq<RunRecord>, peaks: seq<real>)
    requires ValidWorkload(w) && env.model.Some? && |runs| <= MAX_RUNS && |peaks| <= MAX_RUNS
    requires SequenceMatches(runs, WorkloadIdentity(w.id, w.warmupRuns, w.measuredRuns))
    requires forall i :: 0 <= i < |runs| ==> ValidRecord(runs[i])
    requires MeasuredRuns(runs) == runs[w.warmupRuns..]
    requires FloatPeaks(SuccessfulRuns(MeasuredRuns(runs))) == Some(peaks)
    ensures ValidReport(MakeReport(env, w, runs, peaks)) <==>
      ClockMatches(env.startedAt, env.finishedAt) && peaks == Present(Peaks(SuccessfulRuns(MeasuredRuns(runs))))
  {
    hide ValidRecord, ValidMetrics, SuccessfulRuns, MeasuredRuns, MakeMetrics, MakeCounters, CountersMatch, RateMatches,
      SamplesMatch, ValidReport, Present, Peaks, ClockMatches, FloatPeaks, PeaksRepresentable;
    var measured := MeasuredRuns(runs);
    var successful := SuccessfulRuns(measured);
    assert forall i :: 0 <= i < |measured| ==> measured[i] in runs;
    CountersAreValid(measured);
    FloatPeaksMatch(successful);
    if PeaksRepresentable(successful) { MetricsAreValid(env, successful); }
    SamplesMatchExactly(env, successful, peaks);
    ReportParts(MakeReport(env, w, runs, peaks), measured);
  }

  lemma SamplesMatchExactly(env: Environment, successful: seq<RunRecord>, peaks: seq<real>)
    requires |successful| <= MAX_RUNS && |peaks| <= MAX_RUNS
    ensures SamplesMatch(MakeMetrics(env, successful, peaks), successful) <==> peaks == Present(Peaks(successful))
  {
    hide Rank, Sort, NearestRank, Present;
  }

  lemma ReportParts(r: Report, measured: seq<RunRecord>)
    requires r.workload.warmupRuns >= 0 && |measured| == r.workload.measuredRuns > 0
    requires forall i :: 0 <= i < |r.runs| ==> ValidRecord(r.runs[i])
    requires SequenceMatches(r.runs, r.workload) && measured == MeasuredRuns(r.runs)
    requires CountersMatch(r.outcomes, measured) && RateMatches(r.outcomes) && 0.0 <= r.outcomes.errorRate <= 1.0
    ensures ValidReport(r)
       <==> ClockMatches(r.startedAt, r.finishedAt) && SamplesMatch(r.metrics, SuccessfulRuns(measured)) && ValidMetrics(r.metrics)
  {
  }

  predicate AllBehave(env: Environment, w: Workload) {
    forall i :: 0 <= i < TotalRuns(w) ==> IsCancelled(env, i) || WellBehaved(env.steps(i), env.observed)
  }

  /** Which environments lead to a report, in terms of the collaborators' behaviour alone. */
  predicate Clean(env: Environment, w: Workload)
    requires ValidWorkload(w)
  {
    && env.model.Some? && env.startedAt.utc && env.finishedAt.utc && env.startedAt.instant <= env.finishedAt.instant
    && AllBehave(env, w)
    && PeaksRepresentable(SuccessfulOf(env, w))
  }

  /** A run returns a report exactly in a clean environment, and every returned report is valid. */
  lemma ReportsExactlyWhenClean(env: Environment, w: Workload)
    requires ValidWorkload(w)
    ensures RunResult(env, w).Ok? <==> Clean(env, w)
    ensures RunResult(env, w).Ok? ==> ValidReport(RunResult(env, w).value)
  {
    FinishMeansBehaviour(env, w);
    if LoopFinishes(env, w) {
      RecordsAreValid(env, w);
      ReportIsValid(env, w, Records(env, w, TotalRuns(w)));
    }
  }

  lemma FinishMeansBehaviour(env: Environment, w: Workload)
    requires ValidWorkload(w)
    ensures LoopFinishes(env, w) <==> env.model.Some? && AllBehave(env, w)
  {
    forall i | 0 <= i < TotalRuns(w)
      ensures EscapesAt(env, w, i) <==> !IsCancelled(env, i) && !WellBehaved(env.steps(i), env.observed)
    {
      EscapeMeansMisbehaviour(env, w, i);
    }
  }

  // ----- A peak that a double cannot hold -----

  const ONE_RUN := Workload("one-run", 0, 0, 1, [PromptCase("p1", "hello", 16)])

  /** One successful run under an observer that reports this peak. */
  function Observing(peak: int): Environment {
    var sample := Sample(0.5, 1.0, Some(16), Some(16.0), []);
    Environment("ollama", Some("model"), true, _ => Step(false, false, Returns(sample), Peak(Some(peak))), _ => "",
      Timestamp(0, true), Timestamp(1, true))
  }

  lemma ObservedRunReports(peak: nat)
    ensures RunResult(Observing(peak), ONE_RUN).Ok? <==> Representable(peak)
    ensures RunResult(Observing(peak), ONE_RUN).Err? && FloatOf(peak).Some? ==>
      RunResult(Observing(peak), ONE_RUN) == Err(InvalidReport)
  {
    hide Representable, FloatOf, ValidReport, MakeReport, ValidCode;
    var env := Observing(peak);
    ReportsExactlyWhenClean(env, ONE_RUN);
    FinishMeansBehaviour(env, ONE_RUN);
    assert !IsCancelled(env, 0);
    var records := Records(env, ONE_RUN, 1);
    assert records == [RecordAt(env, ONE_RUN, 0)];
    OneRecord(records);
    assert records[1..] == [] && FloatPeaks(records[1..]) == Some([]);
  }

  lemma OneRecord(records: seq<RunRecord>)
    requires |records| == 1 && !records[0].warmup && records[0].outcome.Success?
    ensures SuccessfulRuns(MeasuredRuns(records)) == records
  {
    assert records == [records[0]] && records[1..] == [];
    assert MeasuredRuns(records) == [records[0]] + MeasuredRuns([]);
  }

  /** A peak of 2^53 bytes is reported; one byte more, and the report fails its own validator. */
  lemma InexactPeakFailsReport()
    ensures RunResult(Observing(9007199254740992), ONE_RUN).Ok?
    ensures RunResult(Observing(9007199254740993), ONE_RUN) == Err(InvalidReport)
  {
    hide Representable, RunResult;
    ObservedRunReports(9007199254740992);
    ObservedRunReports(9007199254740993);
    SmallIntegersRepresentable(9007199254740992);
    FirstInexactInteger();
  }
}
