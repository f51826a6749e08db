/** The HTTP adapters inside the benchmark engine: which replies the engine accepts. */
module HttpRuns {
  import opened Outcomes
  import opened Binary64
  import opened Codes
  import opened Adapters
  import opened Deadline
  import opened LineStream
  import opened StreamAdapters
  import opened HttpExchange
  import opened BenchmarkReport
  import opened BenchmarkEngine
  import opened BenchmarkLaws

  /** What `adapter.run` does, as the engine sees it. */
  function AsBehaviour(r: Reply): Behaviour {
    match r
    case Returned(s) => Returns(s)
    case Raised(e) => Behaviour.Raises(e, Code(e.kind))
    case Interrupted => Behaviour.Interrupted
    case Escaped => Escapes
  }

  /** The codes the engine records for the adapter's errors. */
  lemma CodesOfReplies(e: AdapterError)
    ensures AsBehaviour(Raised(e)) == Behaviour.Raises(e,
      if e.kind.TimedOut? then "benchmark.timeout" else if e.kind.CancelledByUser? then "benchmark.cancelled"
      else if e.kind.PartialOutput? then "benchmark.partial" else "benchmark.adapter_error")
  {
  }

  /** The consumer of this exchange was one of the two modelled here, on a sound clock. */
  ghost predicate ConsumedStream(x: Script, f: Feed, p: Protocol) {
    SoundClock(f) && x.consumed == ResultOf(f, p, StreamFrom(f.response, 0, 0))
  }

  /** If the stream is complete, the numbers in it give a finite rate. */
  ghost predicate RateFits(f: Feed, p: Protocol) {
    var s := StreamFrom(f.response, 0, 0);
    Completed(f, p, s) ==> RateOf(f, p, s).Some? && IsFinite(RateOf(f, p, s).value)
  }

  /** The engine accepts this reply. */
  ghost predicate Accepted(x: Script, f: Feed, p: Protocol) {
    !ReplyTo(x).Escaped? && (ReplyTo(x).Returned? ==> RateFits(f, p))
  }

  /** Whatever the connection, the response, the clock and the user do, the engine accepts a reply exactly when it is not
      an uncaught exception and, if it is a measurement, the numbers in the stream give a finite rate. */
  lemma RepliesAreWellBehaved(x: Script, f: Feed, p: Protocol, step: Step, observed: bool)
    requires ConsumedStream(x, f, p) && step.behaviour == AsBehaviour(ReplyTo(x))
    ensures WellBehaved(step, observed) <==> ObserverBehaves(step, observed) && Accepted(x, f, p)
  {
    hide ResultOf, Items, ConsumedLines, TextIn, Concat, ReplyTo, ValidCode, IsFinite, Completed, RateOf, CountOf;
    EngineCodes();
    FiniteBelow();
    var s := StreamFrom(f.response, 0, 0);
    SamplesComeFromConsumer(x);
    SamplesAreFaithful(f, p, s);
    SampledExactlyWhenCompleted(f, p, s);
  }

  /** Streams with counts and durations up to 2^53 always fit. */
  lemma SmallNumbersGiveRates(f: Feed, p: Protocol)
    requires var s := StreamFrom(f.response, 0, 0);
      Completed(f, p, s) ==> CountOf(f, p, s) as real <= P53 && (p.Ollama? ==> DurationOf(f, s) as real <= P53)
    ensures RateFits(f, p)
  {
    hide OllamaRate, IntOverFloat, IsFinite, GenerationSeconds;
    var s := StreamFrom(f.response, 0, 0);
    if Completed(f, p, s) {
      SmallNumbersFit(f, CountOf(f, p, s), if p.Ollama? then DurationOf(f, s) else 1);
    }
  }

  /** A run over HTTP exchanges returns a report, and a valid one, exactly when the model loads, the wall clock is sound,
      doubles can hold the peaks, and at every offset reached before cancellation the observer behaves and the engine
      accepts the reply. */
  lemma HttpRunReports(env: Environment, w: Workload, scripts: nat -> Script, feeds: nat -> Feed, p: Protocol)
    requires ValidWorkload(w)
    requires forall i: nat :: ConsumedStream(scripts(i), feeds(i), p)
    requires forall i: nat :: env.steps(i).behaviour == AsBehaviour(ReplyTo(scripts(i)))
    ensures RunResult(env, w).Ok? <==>
      && env.model.Some? && env.startedAt.utc && env.finishedAt.utc && env.startedAt.instant <= env.finishedAt.instant
      && PeaksRepresentable(SuccessfulOf(env, w))
      && forall i: nat :: i < TotalRuns(w) ==>
           IsCancelled(env, i) || (ObserverBehaves(env.steps(i), env.observed) && Accepted(scripts(i), feeds(i), p))
    ensures RunResult(env, w).Ok? ==> ValidReport(RunResult(env, w).value)
  {
    hide ReplyTo, RunResult, ValidReport, SuccessfulOf, IsCancelled, WellBehaved, ObserverBehaves, Accepted;
    ReportsExactlyWhenClean(env, w);
    forall i: nat
      ensures WellBehaved(env.steps(i), env.observed)
         <==> ObserverBehaves(env.steps(i), env.observed) && Accepted(scripts(i), feeds(i), p)
    {
      RepliesAreWellBehaved(scripts(i), feeds(i), p, env.steps(i), env.observed);
    }
  }

  // ----- A server that claims too many tokens -----

  /** An undisturbed exchange whose response reports 2^k tokens in one nanosecond. */
  ghost function HugeScript(k: nat): Script {
    Script(Timeline(0.0, 60.0, None), _ => 1.0, Fine, Fine, Fine, true,
      ResultOf(HugeFeed(k), Ollama, StreamFrom(HugeFeed(k).response, 0, 0)), _ => false, true, true)
  }

  /** One run, without an observer, whose only exchange gets this reply. */
  function OneExchange(r: Reply): Environment {
    BenchmarkEngine.Environment("ollama", Some("model"), false, _ => Step(false, false, AsBehaviour(r), Peak(None)), _ => "",
      Timestamp(0, true), Timestamp(1, true))
  }

  lemma HugeReply(k: nat)
    requires k >= 996
    ensures if k < MAX_EXPONENT then ReplyTo(HugeScript(k)).Returned? else ReplyTo(HugeScript(k)).Escaped?
    ensures ReplyTo(HugeScript(k)).Returned? ==> !Complete(ReplyTo(HugeScript(k)).sample)
  {
    hide ResultOf, Complete, HugeFeed;
    HugeCountResult(k);
    LeavingStepUnique(HugeScript(k), if k < MAX_EXPONENT then |STEPS| else 7);
  }

  /** The exchange succeeds below 2^1024 tokens, but no report is made: the rate is infinite, or computing it raises. */
  lemma HugeCountFailsRun(k: nat)
    requires k >= 996
    ensures ReplyTo(HugeScript(k)).Returned? <==> k < MAX_EXPONENT
    ensures RunResult(OneExchange(ReplyTo(HugeScript(k))), ONE_RUN) == Err(Failure.Escaped)
  {
    hide ReplyTo, HugeScript, Complete, ValidCode;
    var env := OneExchange(ReplyTo(HugeScript(k)));
    HugeReply(k);
    assert !WellBehaved(env.steps(0), false);
    assert !IsCancelled(env, 0);
    EscapeMeansMisbehaviour(env, ONE_RUN, 0);
  }
}
