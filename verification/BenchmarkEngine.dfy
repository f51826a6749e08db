/** Benchmark orchestration over an arbitrary adapter (benchmark/engine.py). */
module BenchmarkEngine {
  import opened Outcomes
  import opened Binary64
  import opened Adapters
  import opened Statistics
  import opened BenchmarkReport

  datatype PromptCase = PromptCase(id: string, prompt: string, maxTokens: int)

  datatype Workload = Workload(id: string, seed: int, warmupRuns: nat, measuredRuns: nat, prompts: seq<PromptCase>)

  /** The bounds `WorkloadDefinition` checks. */
  predicate ValidWorkload(w: Workload) {
    w.warmupRuns <= 20 && 0 < w.measuredRuns <= 100 && 0 < |w.prompts| <= 100
  }

  function TotalRuns(w: Workload): nat {
    w.warmupRuns + w.measuredRuns
  }

  // ----- Everything the engine does not control -----

  /** What one `adapter.run` call does. An error class may define its own code; Escapes is any exception the engine
      does not catch. */
  datatype Behaviour = Returns(sample: Sample) | Raises(error: AdapterError, code: string) | Interrupted | Escapes

  datatype StopResult = Peak(bytes: Option<int>) | StopRaises

  /** signal: someone has set the cancellation event by the time this offset checks it. */
  datatype Step = Step(signal: bool, startRaises: bool, behaviour: Behaviour, stop: StopResult)

  datatype Seconds = Finite(value: real) | NotFinite

  datatype Environment = Environment(
    adapterName: string,
    model: Option<string>,       // None: model_identity raises
    observed: bool,              // a VRAM observer was given
    steps: nat -> Step,
    digest: seq<Octet> -> string, // sha256(..).hexdigest()
    startedAt: Timestamp,
    finishedAt: Timestamp)

  /** The calls the engine makes on its collaborators. */
  datatype Action =
    | LoadModel
    | StartObserver(offset: nat)
    | CallRun(offset: nat, request: Request)
    | StopObserver(offset: nat)
    | CloseAdapter

  datatype Failure = BadTimeout | Escaped | Overflow | InvalidReport

  // ----- One offset -----

  /** The cancellation event is set when this offset checks it. */
  predicate IsCancelled(env: Environment, offset: nat) {
    env.steps(offset).signal || (offset > 0 && (IsCancelled(env, offset - 1) || Cancels(env.steps(offset - 1).behaviour)))
  }

  predicate Cancels(b: Behaviour) {
    b.Interrupted? || (b.Raises? && b.error.kind.CancelledByUser?)
  }

  function PromptAt(w: Workload, offset: nat): PromptCase
    requires ValidWorkload(w)
  {
    w.prompts[offset % |w.prompts|]
  }

  function RequestAt(w: Workload, offset: nat, timeout: real): Request
    requires ValidWorkload(w)
  {
    Request(PromptAt(w, offset).prompt, PromptAt(w, offset).maxTokens, w.seed + offset, timeout)
  }

  function MakeRecord(env: Environment, w: Workload, offset: nat, outcome: RunOutcome,
                      sample: Option<Sample>, errorCode: Option<string>, peak: Option<int>): RunRecord
    requires ValidWorkload(w)
  {
    var base := RunRecord(offset + 1, PromptAt(w, offset).id, offset < w.warmupRuns, outcome,
      None, None, None, None, peak, errorCode, None);
    match sample
    case None => base
    case Some(s) => base.(ttft := Some(s.ttft), latency := Some(s.latency), generatedTokens := s.generatedTokens,
      tokensPerSecond := s.tokensPerSecond, responseDigest := Some(env.digest(s.rawResponse)))
  }

  /** The record an offset leaves when nothing escapes. */
  function RecordAt(env: Environment, w: Workload, offset: nat): RunRecord
    requires ValidWorkload(w)
  {
    var step := env.steps(offset);
    var peak := if env.observed && step.stop.Peak? then step.stop.bytes else None;
    if IsCancelled(env, offset) then
      MakeRecord(env, w, offset, Cancelled, None, Some("benchmark.cancelled_before_start"), None)
    else match step.behaviour
      case Returns(s) => MakeRecord(env, w, offset, Success, Some(s), None, peak)
      case Raises(e, code) =>
        var outcome := match e.kind
          case PartialOutput => Partial
          case TimedOut => Timeout
          case CancelledByUser => Cancelled
          case General => Error;
        MakeRecord(env, w, offset, outcome, e.sample, Some(code), peak)
      case Interrupted => MakeRecord(env, w, offset, Cancelled, None, Some("benchmark.cancelled"), peak)
      case Escapes => MakeRecord(env, w, offset, Error, None, None, peak)
  }

  /** An exception leaves the loop at this offset. */
  predicate EscapesAt(env: Environment, w: Workload, offset: nat)
    requires ValidWorkload(w)
  {
    var step := env.steps(offset);
    !IsCancelled(env, offset) &&
    ((env.observed && (step.startRaises || step.stop.StopRaises?)) || step.behaviour.Escapes? || !ValidRecord(RecordAt(env, w, offset)))
  }

  function ActionsAt(env: Environment, w: Workload, offset: nat, timeout: real): seq<Action>
    requires ValidWorkload(w)
  {
    if IsCancelled(env, offset) then []
    else if !env.observed then [CallRun(offset, RequestAt(w, offset, timeout))]
    else if env.steps(offset).startRaises then [StartObserver(offset)]
    else [StartObserver(offset), CallRun(offset, RequestAt(w, offset, timeout)), StopObserver(offset)]
  }

  // ----- The whole run -----

  /** How many offsets the loop enters: all of them, or up to the first that escapes. */
  function Entered(env: Environment, w: Workload, offset: nat): (n: nat)
    requires ValidWorkload(w) && offset <= TotalRuns(w)
    ensures offset <= n <= TotalRuns(w)
    decreases TotalRuns(w) - offset
  {
    if offset == TotalRuns(w) then offset
    else if EscapesAt(env, w, offset) then offset + 1
    else Entered(env, w, offset + 1)
  }

  function LoopActions(env: Environment, w: Workload, n: nat, timeout: real): seq<Action>
    requires ValidWorkload(w)
  {
    if n == 0 then [] else LoopActions(env, w, n - 1, timeout) + ActionsAt(env, w, n - 1, timeout)
  }

  function RunActions(env: Environment, w: Workload, timeout: real): seq<Action>
    requires ValidWorkload(w)
  {
    [LoadModel] + (if env.model.Some? then LoopActions(env, w, Entered(env, w, 0), timeout) else []) + [CloseAdapter]
  }

  function Records(env: Environment, w: Workload, n: nat): (r: seq<RunRecord>)
    requires ValidWorkload(w)
    ensures |r| == n
  {
    seq(n, i requires 0 <= i => RecordAt(env, w, i))
  }

  predicate LoopFinishes(env: Environment, w: Workload)
    requires ValidWorkload(w)
  {
    env.model.Some? && forall i :: 0 <= i < TotalRuns(w) ==> !EscapesAt(env, w, i)
  }

  // ----- The report -----

  const MAX_RUNS := 120

  /** `_metric`. */
  function MakeMetric(samples: seq<real>, unit: string, confidence: Confidence): Metric
    requires |samples| <= MAX_RUNS
  {
    if samples == [] then Metric(unit, confidence, samples, None, None)
    else
      RankInRange(|samples|, 50.0);
      RankInRange(|samples|, 95.0);
      Metric(unit, confidence, samples, Some(NearestRank(samples, 50.0).value), Some(NearestRank(samples, 95.0).value))
  }

  /** `float(record.peak_vram_bytes)` for the runs that have one; None when a conversion overflows. */
  function FloatPeaks(runs: seq<RunRecord>): (r: Option<seq<real>>)
    ensures r.Some? ==> |r.value| <= |runs|
  {
    if runs == [] then Some([])
    else if runs[0].peakVram.None? then FloatPeaks(runs[1..])
    else match (FloatOf(runs[0].peakVram.value), FloatPeaks(runs[1..]))
      case (Some(x), Some(rest)) => Some([x] + rest)
      case _ => None
  }

  function MakeMetrics(env: Environment, successful: seq<RunRecord>, peaks: seq<real>): Metrics
    requires |successful| <= MAX_RUNS && |peaks| <= MAX_RUNS
  {
    var timing := if env.adapterName == "mock" then Simulated else Measured;
    var throughput := if env.adapterName == "mock" then Simulated else if env.adapterName == "ollama" then Reported else Derived;
    Metrics(
      MakeMetric(Present(Ttfts(successful)), "second", timing),
      MakeMetric(Present(Rates(successful)), "token/second", throughput),
      MakeMetric(Present(Latencies(successful)), "second", timing),
      MakeMetric(peaks, "byte", Measured))
  }

  function MakeCounters(measured: seq<RunRecord>): Counters
    requires measured != []
  {
    var success := CountOutcome(measured, Success);
    Counters(success, CountOutcome(measured, Timeout), CountOutcome(measured, Error), CountOutcome(measured, Cancelled),
      CountOutcome(measured, Partial), (|measured| - success) as real / |measured| as real)
  }

  function MakeReport(env: Environment, w: Workload, records: seq<RunRecord>, peaks: seq<real>): Report
    requires env.model.Some? && MeasuredRuns(records) != [] && |records| <= MAX_RUNS && |peaks| <= MAX_RUNS
  {
    var measured := MeasuredRuns(records);
    Report(env.adapterName, env.model.value, WorkloadIdentity(w.id, w.warmupRuns, w.measuredRuns), records,
      MakeMetrics(env, SuccessfulRuns(measured), peaks), MakeCounters(measured), env.startedAt, env.finishedAt)
  }

  /** What becomes of the records of a finished loop: a peak may overflow, or a validator may refuse the report. */
  function ReportOn(env: Environment, w: Workload, records: seq<RunRecord>): Result<Report, Failure>
    requires env.model.Some? && MeasuredRuns(records) != [] && |records| <= MAX_RUNS
  {
    match FloatPeaks(SuccessfulRuns(MeasuredRuns(records)))
    case None => Err(Overflow)
    case Some(peaks) => Validated(MakeReport(env, w, records, peaks))
  }

  lemma RecordsSplit(env: Environment, w: Workload)
    requires ValidWorkload(w)
    ensures MeasuredRuns(Records(env, w, TotalRuns(w))) == Records(env, w, TotalRuns(w))[w.warmupRuns..]
  {
    MeasuredOfSplit(Records(env, w, TotalRuns(w)), w.warmupRuns);
  }

  function RunResult(env: Environment, w: Workload): Result<Report, Failure>
    requires ValidWorkload(w)
  {
    if !LoopFinishes(env, w) then Err(Escaped)
    else
      RecordsSplit(env, w);
      ReportOn(env, w, Records(env, w, TotalRuns(w)))
  }

  /** Constructing a report runs its validators. */
  function Validated(report: Report): Result<Report, Failure> {
    if ValidReport(report) then Ok(report) else Err(InvalidReport)
  }

  /** `run_benchmark`: the loop, its nested try blocks, the cleanup, and the report it constructs. */
  method RunBenchmark(env: Environment, w: Workload, timeout: Seconds)
    returns (result: Result<Report, Failure>, actions: seq<Action>)
    requires ValidWorkload(w)
    ensures timeout.NotFinite? || timeout.value <= 0.0 ==> result == Err(BadTimeout) && actions == []
    ensures timeout.Finite? && timeout.value > 0.0 ==> result == RunResult(env, w) && actions == RunActions(env, w, timeout.value)
  {
    hide Records, EscapesAt, LoopActions, Entered, ReportOn, MeasuredRuns;
    actions := [];
    if timeout.NotFinite? || timeout.value <= 0.0 {
      return Err(BadTimeout), actions;
    }
    actions := actions + [LoadModel];
    var records: Option<seq<RunRecord>> := None;
    if env.model.Some? {
      var calls;
      records, calls := RunLoop(env, w, timeout.value);
      actions := actions + calls;
    }
    actions := actions + [CloseAdapter];
    if records.None? {
      return Err(Escaped), actions;
    }
    RecordsSplit(env, w);
    result := BuildReport(env, w, records.value);
  }

  /** The loop of the outer try block; None means that an exception left it. */
  method RunLoop(env: Environment, w: Workload, timeout: real) returns (result: Option<seq<RunRecord>>, actions: seq<Action>)
    requires ValidWorkload(w)
    ensures result.Some? <==> forall i :: 0 <= i < TotalRuns(w) ==> !EscapesAt(env, w, i)
    ensures result.Some? ==> result.value == Records(env, w, TotalRuns(w))
    ensures actions == LoopActions(env, w, Entered(env, w, 0), timeout)
  {
    hide RecordAt, EscapesAt, ActionsAt;
    actions := [];
    var records: seq<RunRecord> := [];
    var cancelled := false;
    for offset := 0 to TotalRuns(w)
      invariant records == Records(env, w, offset)
      invariant forall i :: 0 <= i < offset ==> !EscapesAt(env, w, i)
      invariant actions == LoopActions(env, w, offset, timeout)
      invariant Entered(env, w, 0) == Entered(env, w, offset)
      invariant cancelled <==> offset > 0 && (IsCancelled(env, offset - 1) || Cancels(env.steps(offset - 1).behaviour))
    {
      var step := env.steps(offset);
      cancelled := cancelled || step.signal;
      var record, calls := RunOffset(env, w, offset, cancelled, timeout);
      LoopUnfold(env, w, offset, timeout);
      actions := actions + calls;
      if record.None? {
        return None, actions;
      }
      cancelled := cancelled || Cancels(step.behaviour);
      records := records + [record.value];
    }
    return Some(records), actions;
  }

  lemma LoopUnfold(env: Environment, w: Workload, offset: nat, timeout: real)
    requires ValidWorkload(w) && offset < TotalRuns(w)
    ensures LoopActions(env, w, offset + 1, timeout) == LoopActions(env, w, offset, timeout) + ActionsAt(env, w, offset, timeout)
    ensures Records(env, w, offset + 1) == Records(env, w, offset) + [RecordAt(env, w, offset)]
    ensures Entered(env, w, offset) == if EscapesAt(env, w, offset) then offset + 1 else Entered(env, w, offset + 1)
  {
  }

  /** Counting, summarising and validating once the adapter is closed. */
  method BuildReport(env: Environment, w: Workload, records: seq<RunRecord>) returns (result: Result<Report, Failure>)
    requires env.model.Some? && MeasuredRuns(records) != [] && |records| <= MAX_RUNS
    ensures result == ReportOn(env, w, records)
    ensures result.Ok? ==> ValidReport(result.value) && result.value.runs == records && result.value.model == env.model.value
  {
    hide MakeMetrics, MakeCounters, ValidReport, MeasuredRuns, SuccessfulRuns, FloatPeaks;
    var measured := MeasuredRuns(records);
    var successful := SuccessfulRuns(measured);
    var counters := BuildCounters(measured);
    var peaks := FloatPeaks(successful);
    if peaks.None? {
      return Err(Overflow);
    }
    result := Validated(Report(env.adapterName, env.model.value, WorkloadIdentity(w.id, w.warmupRuns, w.measuredRuns),
      records, MakeMetrics(env, successful, peaks.value), counters, env.startedAt, env.finishedAt));
  }

  method BuildCounters(measured: seq<RunRecord>) returns (counters: Counters)
    requires measured != []
    ensures counters == MakeCounters(measured)
  {
    var counts := CountOutcomes(measured);
    var failed := |measured| - counts[Success];
    counters := Counters(counts[Success], counts[Timeout], counts[Error], counts[Cancelled], counts[Partial],
      failed as real / |measured| as real);
  }

  /** The loop body: skip once cancelled, otherwise call the adapter between observer start and stop.
      No record means that an exception leaves the loop. */
  method RunOffset(env: Environment, w: Workload, offset: nat, cancelled: bool, timeout: real)
    returns (record: Option<RunRecord>, calls: seq<Action>)
    requires ValidWorkload(w) && (cancelled <==> IsCancelled(env, offset))
    ensures record == if EscapesAt(env, w, offset) then None else Some(RecordAt(env, w, offset))
    ensures calls == ActionsAt(env, w, offset, timeout)
  {
    var step := env.steps(offset);
    calls := [];
    if cancelled {
      record := Some(MakeRecord(env, w, offset, Cancelled, None, Some("benchmark.cancelled_before_start"), None));
      return record, calls;
    }
    if env.observed {
      calls := calls + [StartObserver(offset)];
      if step.startRaises {
        return None, calls;
      }
    }
    var sample: Option<Sample> := None;
    var outcome := Success;
    var errorCode: Option<string> := None;
    var escaped := false;
    calls := calls + [CallRun(offset, RequestAt(w, offset, timeout))];
    match step.behaviour {
      case Returns(s) => sample := Some(s);
      case Raises(e, code) =>
        sample, errorCode := e.sample, Some(code);
        match e.kind {
          case PartialOutput => outcome := Partial;
          case TimedOut => outcome := Timeout;
          case CancelledByUser => outcome := Cancelled;
          case General => outcome := Error;
        }
      case Interrupted => outcome, errorCode := Cancelled, Some("benchmark.cancelled");
      case Escapes => escaped := true;
    }
    var peak: Option<int> := None;
    if env.observed {
      calls := calls + [StopObserver(offset)];
      match step.stop {
        case Peak(bytes) => peak := bytes;
        case StopRaises => escaped := true;
      }
    }
    if escaped {
      return None, calls;
    }
    var made := MakeRecord(env, w, offset, outcome, sample, errorCode, peak);
    record := if ValidRecord(made) then Some(made) else None;
  }

  /** The counter dictionary the engine fills. */
  method CountOutcomes(runs: seq<RunRecord>) returns (counts: map<RunOutcome, int>)
    ensures counts.Keys == {Success, Timeout, Error, Cancelled, Partial}
    ensures forall o :: o in counts ==> counts[o] == CountOutcome(runs, o)
  {
    counts := map[Success := 0, Timeout := 0, Error := 0, Cancelled := 0, Partial := 0];
    for i := 0 to |runs|
      invariant counts.Keys == {Success, Timeout, Error, Cancelled, Partial}
      invariant forall o :: o in counts ==> counts[o] + CountOutcome(runs[i..], o) == CountOutcome(runs, o)
    {
      counts := counts[runs[i].outcome := counts[runs[i].outcome] + 1];
    }
  }
}
