/** Adapter requests, samples, errors and the deterministic mock (benchmark/adapters.py). */
module Adapters {
  import opened Outcomes
  import opened Positional
  import opened Binary64

  /** One octet on the wire. */
  type Octet = bv8

  datatype Request = Request(prompt: string, maxTokens: int, seed: int, timeoutSeconds: real)

  /** A real that is not finite in the sense of binary64 stands for Python's inf. */
  datatype Sample = Sample(
    ttft: real,
    latency: real,
    generatedTokens: Option<int>,
    tokensPerSecond: Option<real>,
    rawResponse: seq<Octet>)

  /** The AdapterError class and its three subclasses. */
  datatype ErrorKind = General | TimedOut | CancelledByUser | PartialOutput

  datatype AdapterError = AdapterError(kind: ErrorKind, sample: Option<Sample>)

  function Code(kind: ErrorKind): string {
    match kind
    case General => "benchmark.adapter_error"
    case TimedOut => "benchmark.timeout"
    case CancelledByUser => "benchmark.cancelled"
    case PartialOutput => "benchmark.partial"
  }

  /** The timings every record accepts. */
  predicate WellTimed(s: Sample) {
    0.0 <= s.ttft <= s.latency && IsFinite(s.latency)
  }

  /** A sample that may close a successful run. */
  predicate Complete(s: Sample) {
    && WellTimed(s)
    && s.generatedTokens.Some? && s.generatedTokens.value >= 0
    && s.tokensPerSecond.Some? && s.tokensPerSecond.value >= 0.0 && IsFinite(s.tokensPerSecond.value)
  }

  /** ASCII bytes of a text. */
  function Ascii(text: string): seq<Octet> {
    seq(|text|, i requires 0 <= i < |text| => (text[i] as int % 256) as Octet)
  }

  /** The sample the mock makes up when it was given none. */
  function MockSample(request: Request, index: nat): Sample {
    var step := index + 1;
    var tokens := if request.maxTokens <= 16 + step then request.maxTokens else 16 + step;
    var latency := (40 + step) as real / 100.0;
    Sample((50 + step) as real / 1000.0, latency, Some(tokens), Some(tokens as real / latency),
      Ascii("mock:" + Decimal(request.seed) + ":" + Decimal(index)))
  }

  class DeterministicMockAdapter {
    const samples: seq<Sample>
    var index: nat
    var closed: bool

    constructor (samples: seq<Sample>)
      ensures this.samples == samples && index == 0 && !closed
    {
      this.samples := samples;
      index, closed := 0, false;
    }

    method Run(request: Request, cancelled: bool) returns (r: Result<Sample, AdapterError>)
      modifies this`index
      ensures cancelled ==> r == Err(AdapterError(CancelledByUser, None)) && index == old(index)
      ensures !cancelled ==> index == old(index) + 1
      ensures !cancelled && samples != [] ==> r == Ok(samples[old(index) % |samples|])
      ensures !cancelled && samples == [] ==>
        r == Ok(MockSample(request, old(index)))
        && (Complete(r.value) <==> request.maxTokens >= 0 && IsFinite(r.value.latency))
    {
      if cancelled {
        return Err(AdapterError(CancelledByUser, None));
      }
      var sample: Sample;
      if samples != [] {
        sample := samples[index % |samples|];
      } else {
        var step := index + 1;
        var generatedTokens := if request.maxTokens <= 16 + step then request.maxTokens else 16 + step;
        var latency := (40 + step) as real / 100.0;
        sample := Sample((50 + step) as real / 1000.0, latency, Some(generatedTokens), Some(generatedTokens as real / latency),
          Ascii("mock:" + Decimal(request.seed) + ":" + Decimal(index)));
        MockSampleIsComplete(request, index);
      }
      index := index + 1;
      return Ok(sample);
    }

    method Close()
      modifies this`closed
      ensures closed
    {
      closed := true;
    }
  }

  /** The mock's own samples can close a successful run exactly when the token limit is not negative and the latency,
      which grows with every call, is still finite. */
  lemma MockSampleIsComplete(request: Request, index: nat)
    ensures var s := MockSample(request, index);
      && (Complete(s) <==> request.maxTokens >= 0 && IsFinite(s.latency))
      && s.generatedTokens.value <= request.maxTokens
      && (index < 9007199254740000 ==> IsFinite(s.latency))
  {
    hide Ascii, Decimal, IsFinite;
    var s := MockSample(request, index);
    assert s.latency == (41 + index) as real / 100.0 > 0.0 && s.ttft == (51 + index) as real / 1000.0 <= s.latency;
    if index < 9007199254740000 { SmallIsFinite(s.latency); }
    if request.maxTokens >= 0 {
      RateBelowHundred(s.generatedTokens.value, s.latency);
      SmallIsFinite(s.tokensPerSecond.value);
    }
  }

  lemma RateBelowHundred(tokens: nat, latency: real)
    requires latency > 0.0 && tokens as real <= 100.0 * latency
    ensures 0.0 <= tokens as real / latency <= 100.0
  {
    Quotient(tokens as real, latency);
    TimesCompare(100.0, tokens as real / latency, latency);
  }
}
