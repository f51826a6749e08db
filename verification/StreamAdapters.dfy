/** The Ollama and OpenAI-compatible stream consumers (benchmark/http_adapters.py). */
module StreamAdapters {
  import opened Outcomes
  import opened Positional
  import opened Binary64
  import opened Json
  import opened Adapters
  import opened LineStream

  /** `json.loads`: a value, an error the consumers catch, or any other exception. */
  datatype Parsed = Value(json: Json) | Malformed | Unexpected

  /** A response together with the parser and the successive perf_counter readings. */
  datatype Feed = Feed(response: Response, parse: seq<Octet> -> Parsed, started: real, clock: nat -> real)

  function Parse(f: Feed, text: seq<Octet>): Parsed {
    f.parse(text)
  }

  function Now(f: Feed, tick: nat): real {
    f.clock(tick)
  }

  datatype Protocol = Ollama | OpenAi

  datatype Consumed = Sampled(sample: Sample) | Failed(error: AdapterError) | SocketFailed | Crashed

  // ----- Reading one line -----

  function Field(j: Json, name: string): Json {
    if j.Obj? && name in j.fields then j.fields[name] else Null
  }

  predicate IsText(j: Json) {
    j.Str? && j.text != ""
  }

  /** A non-negative int; JSON booleans do not count. */
  predicate IsCount(j: Json) {
    j.Int? && j.whole >= 0
  }

  predicate IsSpace(b: Octet) {
    b == 32 || 9 <= b <= 13
  }

  function StripLeft(s: seq<Octet>): seq<Octet> {
    if s != [] && IsSpace(s[0]) then StripLeft(s[1..]) else s
  }

  function StripRight(s: seq<Octet>): seq<Octet> {
    if s != [] && IsSpace(s[|s| - 1]) then StripRight(s[..|s| - 1]) else s
  }

  /** `bytes.strip`. */
  function Strip(s: seq<Octet>): seq<Octet> {
    StripRight(StripLeft(s))
  }

  const DATA_PREFIX: seq<Octet> := [100, 97, 116, 97, 58]    // data:
  const DONE_MARKER: seq<Octet> := [91, 68, 79, 78, 69, 93]  // [DONE]

  /** What a line means: nothing, the end marker, or a parsed chunk. */
  datatype Item = Ignored | EndMarker | Chunk(parsed: Parsed)

  function ReadItem(f: Feed, p: Protocol, line: seq<Octet>): Item {
    match p
    case Ollama => Chunk(Parse(f, line))
    case OpenAi =>
      var stripped := Strip(line);
      if !(DATA_PREFIX <= stripped) then Ignored
      else
        var data := Strip(stripped[|DATA_PREFIX|..]);
        if data == DONE_MARKER then EndMarker else Chunk(Parse(f, data))
  }

  /** The chunk carries non-empty generated text. */
  predicate HasText(p: Protocol, item: Item) {
    item.Chunk? && item.parsed.Value? &&
    match p
    case Ollama => IsText(Field(item.parsed.json, "response"))
    case OpenAi =>
      var choices := Field(item.parsed.json, "choices");
      choices.Arr? && exists i :: 0 <= i < |choices.items| && IsText(Field(Field(choices.items[i], "delta"), "content"))
  }

  /** The token count a chunk reports, when it is acceptable. */
  function CountIn(p: Protocol, item: Item): Option<nat> {
    if item.Chunk? && item.parsed.Value? && p.OpenAi? then
      var count := Field(Field(item.parsed.json, "usage"), "completion_tokens");
      if IsCount(count) then Some(count.whole) else None
    else None
  }

  /** The consumer goes on to the next line. */
  predicate ReadsOn(p: Protocol, item: Item) {
    item.Ignored? ||
    (item.Chunk? && item.parsed.Value? && item.parsed.json.Obj? && (p.Ollama? ==> Field(item.parsed.json, "done") != Bool(true)))
  }

  // ----- The verdicts -----

  /** The difference of two clock readings, rounded to a double. */
  function Elapsed(from: real, to: real): real {
    if from <= to then Rounded(to - from) else -Rounded(from - to)
  }

  /** Timings of a failure sample: first text at reading 0, the failure at reading `tick`. */
  function FailureSample(f: Feed, tick: nat, tokens: Option<nat>, raw: seq<Octet>): Sample {
    Sample(Elapsed(f.started, Now(f, 0)), Elapsed(f.started, Now(f, tick)), tokens, None, raw)
  }

  /** An error of the given kind, with a sample once text was seen. */
  function Fail(f: Feed, kind: ErrorKind, seen: bool, tick: nat, tokens: Option<nat>, raw: seq<Octet>): Consumed {
    Failed(AdapterError(kind, if seen then Some(FailureSample(f, tick, tokens, raw)) else None))
  }

  predicate OllamaMetrics(j: Json) {
    var duration := Field(j, "eval_duration");
    IsCount(Field(j, "eval_count")) && duration.Int? && duration.whole > 0
  }

  /** `tokens / (duration_ns / 1_000_000_000)`: None where a conversion overflows, and possibly infinite. */
  function OllamaRate(count: nat, duration: nat): (r: Option<real>)
    requires duration > 0
    ensures r.Some? ==> r.value >= 0.0
  {
    match IntOverInt(duration, 1000000000)
    case None => None
    case Some(seconds) =>
      SecondsArePositive(duration);
      IntOverFloat(count, seconds)
  }

  function Seconds(duration: nat): (r: real)
    ensures r >= 0.0
  {
    Over(duration as real, 1000000000 as real)
  }

  /** A nanosecond is far above the smallest double. */
  lemma SecondsArePositive(duration: nat)
    requires duration > 0
    ensures Rounded(Seconds(duration)) >= 0.0000000009
  {
    hide Rounded;
    BillionthGrid();
    RoundedExact(1, -30);
    RoundedMonotone(Grid(1, -30), Seconds(duration));
  }

  lemma BillionthGrid()
    ensures 0.0000000009 <= Grid(1, -30) <= 0.000000001
  {
    assert Pow(2, 15) == 32768;
    PowAdd(2, 15, 15);
  }

  /** `max(finished - first_token_at, 1e-12)`; rounding the larger is taking the larger of the rounded. */
  function GenerationSeconds(f: Feed): (r: real)
    ensures r >= 0.0000000000009
  {
    var elapsed := Now(f, 1) - Now(f, 0);
    GenerationIsPositive(if elapsed > 0.000000000001 then elapsed else 0.000000000001);
    Rounded(if elapsed > 0.000000000001 then elapsed else 0.000000000001)
  }

  lemma GenerationIsPositive(x: real)
    requires x >= 0.000000000001
    ensures Rounded(x) >= 0.0000000000009
  {
    hide Rounded;
    TrillionthGrid();
    RoundedExact(1, -40);
    RoundedMonotone(Grid(1, -40), x);
  }

  lemma TrillionthGrid()
    ensures 0.0000000000009 <= Grid(1, -40) <= 0.000000000001
  {
    assert Pow(2, 10) == 1024;
    PowAdd(2, 10, 10);
    PowAdd(2, 20, 20);
  }

  /** A measurement, unless computing its rate raises, which no handler of the consumers catches. */
  function Measurement(f: Feed, count: nat, rate: Option<real>, raw: seq<Octet>): Consumed {
    match rate
    case None => Crashed
    case Some(r) => Sampled(Sample(Elapsed(f.started, Now(f, 0)), Elapsed(f.started, Now(f, 1)), Some(count), Some(r), raw))
  }

  /** What follows the OpenAI loop: a measurement if text, end marker and token count were all seen. */
  function OpenAiFinish(f: Feed, marker: bool, seen: bool, tokens: Option<nat>, raw: seq<Octet>): Consumed {
    if marker && seen && tokens.Some? then
      Measurement(f, tokens.value, IntOverFloat(tokens.value, GenerationSeconds(f)), raw)
    else Fail(f, if seen then PartialOutput else General, seen, 2, tokens, raw)
  }

  /** The verdict when the stream itself stops. */
  function Ending(f: Feed, p: Protocol, failure: Option<StreamFailure>, seen: bool, tokens: Option<nat>, raw: seq<Octet>): Consumed {
    match failure
    case Some(ByAdapter(kind)) => Fail(f, kind, seen, 1, tokens, raw)
    case Some(BySocket) => if seen then Fail(f, PartialOutput, true, 1, tokens, raw) else SocketFailed
    case None =>
      match p
      case Ollama => Fail(f, if seen then PartialOutput else General, seen, 1, tokens, raw)
      case OpenAi => OpenAiFinish(f, false, seen, tokens, raw)
  }

  /** The verdict on a line that ends the reading; seen tells whether text came before it. */
  function Verdict(f: Feed, p: Protocol, item: Item, seen: bool, tokens: Option<nat>, raw: seq<Octet>): Consumed
    requires !ReadsOn(p, item)
  {
    match item
    case EndMarker => OpenAiFinish(f, true, seen, tokens, raw)
    case Chunk(Unexpected) => Crashed
    case Chunk(Malformed) => Fail(f, if seen then PartialOutput else General, seen, 1, tokens, raw)
    case Chunk(Value(j)) =>
      if !j.Obj? then Fail(f, General, seen, 1, tokens, raw)
      else if !(seen || HasText(p, item)) then Fail(f, General, false, 1, tokens, raw)
      else if !OllamaMetrics(j) then Fail(f, General, true, 2, tokens, raw)
      else
        var count, duration := Field(j, "eval_count").whole, Field(j, "eval_duration").whole;
        Measurement(f, count, OllamaRate(count, duration), raw)
  }

  // ----- The whole stream -----

  ghost function Items(f: Feed, p: Protocol, lines: seq<seq<Octet>>): (r: seq<Item>)
    ensures |r| == |lines| && forall i :: 0 <= i < |lines| ==> r[i] == ReadItem(f, p, lines[i])
  {
    seq(|lines|, i requires 0 <= i < |lines| => ReadItem(f, p, lines[i]))
  }

  /** The first item that does not let the consumer read on, or the number of items. */
  ghost function StopAt(p: Protocol, items: seq<Item>): (n: nat)
    ensures n <= |items|
    ensures forall i :: 0 <= i < n ==> ReadsOn(p, items[i])
    ensures n < |items| ==> !ReadsOn(p, items[n])
  {
    if items == [] || !ReadsOn(p, items[0]) then 0 else 1 + StopAt(p, items[1..])
  }

  ghost predicate TextIn(p: Protocol, items: seq<Item>) {
    exists i :: 0 <= i < |items| && HasText(p, items[i])
  }

  /** The last acceptable token count reported. */
  ghost function LastCount(p: Protocol, items: seq<Item>): Option<nat> {
    if items == [] then None
    else if CountIn(p, items[|items| - 1]).Some? then CountIn(p, items[|items| - 1])
    else LastCount(p, items[..|items| - 1])
  }

  /** What consuming a stream must give, told from the whole stream rather than line by line. */
  ghost function ResultOf(f: Feed, p: Protocol, s: Stream): Consumed {
    var items := Items(f, p, s.lines);
    var n := StopAt(p, items);
    var before := items[..n];
    if n < |items| then Verdict(f, p, items[n], TextIn(p, before), LastCount(p, before), Concat(s.lines[..n + 1]))
    else Ending(f, p, s.failure, TextIn(p, before), LastCount(p, before), Concat(s.lines))
  }

  /** The consumer has read these lines and gone on after each of them. */
  ghost predicate Reading(f: Feed, p: Protocol, done: seq<seq<Octet>>, pos: nat, n: nat, seen: bool, tokens: Option<nat>, raw: seq<Octet>) {
    && Reached(f.response, done, pos, n) && raw == Concat(done)
    && (forall i :: 0 <= i < |done| ==> ReadsOn(p, ReadItem(f, p, done[i])))
    && seen == TextIn(p, Items(f, p, done)) && tokens == LastCount(p, Items(f, p, done))
  }

  /** `OllamaAdapter._consume`. */
  method ConsumeOllama(f: Feed) returns (r: Consumed)
    ensures r == ResultOf(f, Ollama, StreamFrom(f.response, 0, 0))
  {
    hide Reading, ResultOf, Verdict, ReadItem, ReadsOn, HasText, Ending, NextAt, Now, CountIn;
    var total, turns := 0, 0;
    ghost var done: seq<seq<Octet>> := [];
    var textSeen := false;
    var raw: seq<Octet> := [];
    Starts(f, Ollama);
    while true
      invariant total <= |f.response.content| && Reading(f, Ollama, done, total, turns, textSeen, None, raw)
      decreases |f.response.content| - total
    {
      var next := NextAt(f.response, total, turns);
      if !next.Line? {
        Ends(f, Ollama, done, total, turns, textSeen, None, raw);
        return Ending(f, Ollama, if next.Raise? then Some(next.failure) else None, textSeen, None, raw);
      }
      var item := ReadItem(f, Ollama, next.bytes);
      Steps(f, Ollama, done, total, turns, textSeen, None, raw);
      OllamaItem(f, next.bytes);
      raw := raw + next.bytes;
      if !ReadsOn(Ollama, item) {
        r := EndOllama(f, item, textSeen, raw);
        return;
      }
      total, turns, done := total + |next.bytes|, turns + 1, done + [next.bytes];
      textSeen := textSeen || HasText(Ollama, item);
    }
  }

  lemma OllamaItem(f: Feed, line: seq<Octet>)
    ensures ReadItem(f, Ollama, line).Chunk? && CountIn(Ollama, ReadItem(f, Ollama, line)) == None
  {
  }

  /** The branches of Ollama's `_consume` that end the reading at a line, with their clock readings. */
  method EndOllama(f: Feed, item: Item, seen: bool, raw: seq<Octet>) returns (r: Consumed)
    requires !ReadsOn(Ollama, item) && item.Chunk?
    ensures r == Verdict(f, Ollama, item, seen, None, raw)
  {
    var textSeen, ticks := seen, if seen then 1 else 0;
    match item.parsed {
      case Unexpected => return Crashed;
      case Malformed => return Fail(f, if textSeen then PartialOutput else General, textSeen, ticks, None, raw);
      case Value(chunk) =>
        if !chunk.Obj? {
          return Fail(f, General, textSeen, ticks, None, raw);
        }
        if IsText(Field(chunk, "response")) && !textSeen {
          textSeen, ticks := true, ticks + 1;
        }
        ticks := ticks + 1;  // finished = perf_counter()
        if !textSeen || !OllamaMetrics(chunk) {
          return Fail(f, General, textSeen, ticks, None, raw);
        }
        var count, duration := Field(chunk, "eval_count").whole, Field(chunk, "eval_duration").whole;
        var seconds := IntOverInt(duration, 1000000000);
        if seconds.None? {
          return Crashed;
        }
        SecondsArePositive(duration);
        var rate := IntOverFloat(count, seconds.value);
        if rate.None? {
          return Crashed;
        }
        return Sampled(Sample(Elapsed(f.started, Now(f, 0)), Elapsed(f.started, Now(f, 1)), Some(count), rate, raw));
    }
  }

  /** `OpenAICompatibleAdapter._consume`. */
  method ConsumeOpenAi(f: Feed) returns (r: Consumed)
    ensures r == ResultOf(f, OpenAi, StreamFrom(f.response, 0, 0))
  {
    hide Reading, ResultOf, Verdict, ReadItem, ReadsOn, HasText, Ending, NextAt, Now, CountIn;
    var total, turns := 0, 0;
    ghost var done: seq<seq<Octet>> := [];
    var contentSeen := false;
    var completionTokens: Option<nat> := None;
    var raw: seq<Octet> := [];
    Starts(f, OpenAi);
    while true
      invariant total <= |f.response.content|
      invariant Reading(f, OpenAi, done, total, turns, contentSeen, completionTokens, raw)
      decreases |f.response.content| - total
    {
      var next := NextAt(f.response, total, turns);
      if !next.Line? {
        Ends(f, OpenAi, done, total, turns, contentSeen, completionTokens, raw);
        return Ending(f, OpenAi, if next.Raise? then Some(next.failure) else None, contentSeen, completionTokens, raw);
      }
      var item := ReadItem(f, OpenAi, next.bytes);
      Steps(f, OpenAi, done, total, turns, contentSeen, completionTokens, raw);
      raw := raw + next.bytes;
      if !ReadsOn(OpenAi, item) {
        r := EndOpenAi(f, item, contentSeen, completionTokens, raw);
        return;
      }
      total, turns, done := total + |next.bytes|, turns + 1, done + [next.bytes];
      contentSeen := contentSeen || HasText(OpenAi, item);
      if CountIn(OpenAi, item).Some? {
        completionTokens := CountIn(OpenAi, item);
      }
    }
  }

  /** The branches of the OpenAI `_consume` that end the reading at a line. */
  method EndOpenAi(f: Feed, item: Item, contentSeen: bool, completionTokens: Option<nat>, raw: seq<Octet>) returns (r: Consumed)
    requires !ReadsOn(OpenAi, item)
    ensures r == Verdict(f, OpenAi, item, contentSeen, completionTokens, raw)
  {
    if item.EndMarker? {
      var finished := Now(f, 1);
      if !contentSeen || completionTokens.None? {
        return Fail(f, if contentSeen then PartialOutput else General, contentSeen, 2, completionTokens, raw);
      }
      var rate := IntOverFloat(completionTokens.value, GenerationSeconds(f));
      if rate.None? {
        return Crashed;
      }
      return Sampled(Sample(Elapsed(f.started, Now(f, 0)), Elapsed(f.started, finished), completionTokens, rate, raw));
    }
    match item.parsed {
      case Unexpected => return Crashed;
      case Malformed => return Fail(f, if contentSeen then PartialOutput else General, contentSeen, 1, completionTokens, raw);
      case Value(_) => return Fail(f, General, contentSeen, 1, completionTokens, raw);
    }
  }

  // ----- The loops follow the stream -----

  lemma Starts(f: Feed, p: Protocol)
    ensures Reading(f, p, [], 0, 0, false, None, [])
  {
    ReachedStart(f.response);
  }

  /** The stream stops here. */
  lemma Ends(f: Feed, p: Protocol, done: seq<seq<Octet>>, pos: nat, n: nat, seen: bool, tokens: Option<nat>, raw: seq<Octet>)
    requires pos <= |f.response.content| && Reading(f, p, done, pos, n, seen, tokens, raw)
    requires !NextAt(f.response, pos, n).Line?
    ensures var next := NextAt(f.response, pos, n);
      ResultOf(f, p, StreamFrom(f.response, 0, 0))
        == Ending(f, p, if next.Raise? then Some(next.failure) else None, seen, tokens, raw)
  {
    hide NextAt, Ending, ReadItem, ReadsOn, HasText, CountIn;
    ReachedEnd(f.response, done, pos, n);
    var items := Items(f, p, done);
    assert StopAt(p, items) == |items|;
    assert items[..|items|] == items;
  }

  /** One more line: either the verdict falls on it, or the consumer reads on. */
  lemma Steps(f: Feed, p: Protocol, done: seq<seq<Octet>>, pos: nat, n: nat, seen: bool, tokens: Option<nat>, raw: seq<Octet>)
    requires pos <= |f.response.content| && Reading(f, p, done, pos, n, seen, tokens, raw)
    requires NextAt(f.response, pos, n).Line?
    ensures var line := NextAt(f.response, pos, n).bytes;
      var item := ReadItem(f, p, line);
      if ReadsOn(p, item)
      then Reading(f, p, done + [line], pos + |line|, n + 1, seen || HasText(p, item),
                   if CountIn(p, item).Some? then CountIn(p, item) else tokens, raw + line)
      else ResultOf(f, p, StreamFrom(f.response, 0, 0)) == Verdict(f, p, item, seen, tokens, raw + line)
  {
    hide NextAt, Verdict, Reached, ReadItem, ReadsOn, HasText, CountIn, StreamFrom, Concat, ResultOf, TextIn, LastCount;
    var line := NextAt(f.response, pos, n).bytes;
    ReachedNext(f.response, done, pos, n, line);
    ConcatLast(done, line);
    AppendItem(f, p, done, line);
    if !ReadsOn(p, ReadItem(f, p, line)) {
      VerdictFalls(f, p, done, line, pos + |line|, n + 1);
    }
  }

  lemma AppendItem(f: Feed, p: Protocol, done: seq<seq<Octet>>, line: seq<Octet>)
    ensures var before, items, item := Items(f, p, done), Items(f, p, done + [line]), ReadItem(f, p, line);
      && items == before + [item]
      && (TextIn(p, items) <==> TextIn(p, before) || HasText(p, item))
      && LastCount(p, items) == if CountIn(p, item).Some? then CountIn(p, item) else LastCount(p, before)
  {
    hide ReadItem, HasText, CountIn;
    var before, items, item := Items(f, p, done), Items(f, p, done + [line]), ReadItem(f, p, line);
    assert items == before + [item];
    assert items[..|items| - 1] == before;
    assert items[|done|] == item && forall i :: 0 <= i < |done| ==> items[i] == before[i];
  }

  lemma VerdictFalls(f: Feed, p: Protocol, done: seq<seq<Octet>>, line: seq<Octet>, pos: nat, n: nat)
    requires Reached(f.response, done + [line], pos, n) && !ReadsOn(p, ReadItem(f, p, line))
    requires forall i :: 0 <= i < |done| ==> ReadsOn(p, ReadItem(f, p, done[i]))
    ensures ResultOf(f, p, StreamFrom(f.response, 0, 0))
         == Verdict(f, p, ReadItem(f, p, line), TextIn(p, Items(f, p, done)), LastCount(p, Items(f, p, done)), Concat(done + [line]))
  {
    hide Verdict, ReadItem, ReadsOn, HasText, CountIn, Concat, Ending;
    var lines := StreamFrom(f.response, 0, 0).lines;
    var items := Items(f, p, lines);
    assert forall i :: 0 <= i < |done| ==> lines[i] == done[i];
    assert lines[|done|] == line;
    assert StopAt(p, items) == |done|;
    assert lines[..|done| + 1] == done + [line];
    assert items[..|done|] == Items(f, p, done);
  }

  // ----- What the consumers guarantee -----

  /** perf_counter never goes back, and no difference of its readings overflows. */
  ghost predicate SoundClock(f: Feed) {
    && f.started <= f.clock(0) && (forall i: nat, j: nat :: i <= j ==> f.clock(i) <= f.clock(j))
    && (forall i: nat :: f.clock(i) - f.started < Threshold())
  }

  /** The lines consumed: up to and including the one the verdict falls on. */
  ghost function ConsumedLines(f: Feed, p: Protocol, s: Stream): (lines: seq<seq<Octet>>)
    ensures lines <= s.lines
  {
    var n := StopAt(p, Items(f, p, s.lines));
    s.lines[..if n < |s.lines| then n + 1 else n]
  }

  /** The stream says everything a measurement needs: text, the protocol's end marker and a valid token count. */
  ghost predicate Completed(f: Feed, p: Protocol, s: Stream) {
    var items := Items(f, p, s.lines);
    var n := StopAt(p, items);
    n < |items| && TextIn(p, items[..n + 1]) &&
    match p
    case Ollama =>
      var end := items[n].parsed;
      items[n].Chunk? && end.Value? && end.json.Obj? && Field(end.json, "done") == Bool(true) && OllamaMetrics(end.json)
    case OpenAi => items[n].EndMarker? && LastCount(p, items[..n]).Some?
  }

  lemma TextUpTo(p: Protocol, items: seq<Item>, n: nat)
    requires n < |items|
    ensures TextIn(p, items[..n + 1]) <==> TextIn(p, items[..n]) || HasText(p, items[n])
  {
    hide HasText;
    var now, before := items[..n + 1], items[..n];
    assert now[n] == items[n] && forall i :: 0 <= i < n ==> now[i] == before[i];
  }

  /** The token count and the rate of a complete stream; no rate means that computing it raises. */
  ghost function CountOf(f: Feed, p: Protocol, s: Stream): nat
    requires Completed(f, p, s)
  {
    var items := Items(f, p, s.lines);
    var n := StopAt(p, items);
    match p
    case Ollama => Field(items[n].parsed.json, "eval_count").whole
    case OpenAi => LastCount(p, items[..n]).value
  }

  /** The duration that ends a complete Ollama stream. */
  ghost function DurationOf(f: Feed, s: Stream): nat
    requires Completed(f, Ollama, s)
  {
    var items := Items(f, Ollama, s.lines);
    Field(items[StopAt(Ollama, items)].parsed.json, "eval_duration").whole
  }

  ghost function RateOf(f: Feed, p: Protocol, s: Stream): Option<real>
    requires Completed(f, p, s)
  {
    match p
    case Ollama => OllamaRate(CountOf(f, p, s), DurationOf(f, s))
    case OpenAi => IntOverFloat(CountOf(f, p, s), GenerationSeconds(f))
  }

  /** A sample is returned exactly when the stream is complete and its rate can be computed; a complete stream without a
      rate crashes the consumer. The sample carries the stream's count and rate. */
  lemma SampledExactlyWhenCompleted(f: Feed, p: Protocol, s: Stream)
    ensures var r := ResultOf(f, p, s);
      && (r.Sampled? <==> Completed(f, p, s) && RateOf(f, p, s).Some?)
      && (Completed(f, p, s) && RateOf(f, p, s).None? ==> r.Crashed?)
      && (r.Sampled? ==> r.sample.generatedTokens == Some(CountOf(f, p, s)) && r.sample.tokensPerSecond == RateOf(f, p, s))
  {
    hide HasText, OllamaMetrics, OllamaRate, FailureSample, CountIn, Items, Elapsed, IntOverFloat;
    var items := Items(f, p, s.lines);
    var n := StopAt(p, items);
    if n < |items| { TextUpTo(p, items, n); }
    OllamaHasNoMarker(f, p, s.lines);
    MarkerHasNoText(p);
    MetricsAreNumbers(if n < |items| && items[n].Chunk? && items[n].parsed.Value? then items[n].parsed.json else Null);
  }

  lemma MetricsAreNumbers(j: Json)
    ensures OllamaMetrics(j) ==> IsCount(Field(j, "eval_count")) && Field(j, "eval_duration").Int? && Field(j, "eval_duration").whole > 0
  {
  }

  lemma OllamaHasNoMarker(f: Feed, p: Protocol, lines: seq<seq<Octet>>)
    ensures p.Ollama? ==> forall i :: 0 <= i < |lines| ==> Items(f, p, lines)[i].Chunk?
  {
  }

  lemma MarkerHasNoText(p: Protocol)
    ensures !HasText(p, EndMarker)
  {
  }

  /** How a result must account for the raw bytes consumed, given whether text was seen in them. */
  predicate Faithful(r: Consumed, seen: bool, raw: seq<Octet>) {
    match r
    case Sampled(s) =>
      && seen && WellTimed(s) && s.rawResponse == raw && NaturalCount(s) && s.generatedTokens.Some?
      && s.tokensPerSecond.Some? && (Complete(s) <==> IsFinite(s.tokensPerSecond.value))
    case Failed(e) =>
      && (e.sample.Some? <==> seen)
      && (e.sample.Some? ==> WellTimed(e.sample.value) && e.sample.value.rawResponse == raw && NaturalCount(e.sample.value)
                             && e.sample.value.tokensPerSecond.None?)
    case SocketFailed => !seen
    case Crashed => true
  }

  predicate NaturalCount(s: Sample) {
    s.generatedTokens.Some? ==> s.generatedTokens.value >= 0
  }

  lemma ReadingsOrdered(f: Feed, tick: nat)
    requires SoundClock(f)
    ensures 0.0 <= Elapsed(f.started, Now(f, 0)) <= Elapsed(f.started, Now(f, tick))
    ensures IsFinite(Elapsed(f.started, Now(f, tick)))
  {
    hide Rounded, Threshold, IsFinite;
    assert f.clock(0) <= f.clock(tick);
    RoundedMonotone(f.clock(0) - f.started, f.clock(tick) - f.started);
    FiniteExactly(f.clock(tick) - f.started);
  }

  lemma FailIsFaithful(f: Feed, kind: ErrorKind, seen: bool, tick: nat, tokens: Option<nat>, raw: seq<Octet>)
    requires SoundClock(f)
    ensures Faithful(Fail(f, kind, seen, tick, tokens, raw), seen, raw)
  {
    ReadingsOrdered(f, tick);
  }

  lemma MeasurementIsFaithful(f: Feed, count: nat, rate: Option<real>, raw: seq<Octet>)
    requires SoundClock(f) && (rate.Some? ==> rate.value >= 0.0)
    ensures Faithful(Measurement(f, count, rate, raw), true, raw)
  {
    hide Elapsed, IsFinite, SoundClock;
    ReadingsOrdered(f, 1);
  }

  lemma FinishIsFaithful(f: Feed, marker: bool, seen: bool, tokens: Option<nat>, raw: seq<Octet>)
    requires SoundClock(f)
    ensures Faithful(OpenAiFinish(f, marker, seen, tokens, raw), seen, raw)
  {
    hide Faithful, Fail, Measurement, SoundClock, IntOverFloat;
    FailIsFaithful(f, if seen then PartialOutput else General, seen, 2, tokens, raw);
    if tokens.Some? { MeasurementIsFaithful(f, tokens.value, IntOverFloat(tokens.value, GenerationSeconds(f)), raw); }
  }

  lemma EndingIsFaithful(f: Feed, p: Protocol, failure: Option<StreamFailure>, seen: bool, tokens: Option<nat>, raw: seq<Octet>)
    requires SoundClock(f)
    ensures Faithful(Ending(f, p, failure, seen, tokens, raw), seen, raw)
  {
    hide Fail, OpenAiFinish, Complete, WellTimed;
    FinishIsFaithful(f, false, seen, tokens, raw);
    FailIsFaithful(f, if seen then PartialOutput else General, seen, 1, tokens, raw);
    match failure {
      case Some(ByAdapter(kind)) => FailIsFaithful(f, kind, seen, 1, tokens, raw);
      case _ =>
    }
  }

  lemma VerdictIsFaithful(f: Feed, p: Protocol, item: Item, seen: bool, tokens: Option<nat>, raw: seq<Octet>)
    requires SoundClock(f) && !ReadsOn(p, item)
    ensures Faithful(Verdict(f, p, item, seen, tokens, raw), seen || HasText(p, item), raw)
  {
    hide Fail, OpenAiFinish;
    FinishIsFaithful(f, true, seen, tokens, raw);
    FailIsFaithful(f, if seen then PartialOutput else General, seen, 1, tokens, raw);
    FailIsFaithful(f, General, seen, 1, tokens, raw);
    FailIsFaithful(f, General, false, 1, tokens, raw);
    FailIsFaithful(f, General, true, 2, tokens, raw);
    if item.Chunk? && item.parsed.Value? && OllamaMetrics(item.parsed.json) {
      var count, duration := Field(item.parsed.json, "eval_count").whole, Field(item.parsed.json, "eval_duration").whole;
      MeasurementIsFaithful(f, count, OllamaRate(count, duration), raw);
    }
  }

  /** A returned sample is complete exactly when its rate is finite; an error carries a sample exactly when text was seen,
      and a well-timed one; in both cases the raw bytes are exactly the lines consumed. */
  lemma SamplesAreFaithful(f: Feed, p: Protocol, s: Stream)
    requires SoundClock(f)
    ensures Faithful(ResultOf(f, p, s), TextIn(p, Items(f, p, ConsumedLines(f, p, s))), Concat(ConsumedLines(f, p, s)))
  {
    hide Faithful, Verdict, Ending, ReadsOn, HasText, SoundClock, ReadItem, CountIn, Concat;
    var items := Items(f, p, s.lines);
    var n := StopAt(p, items);
    if n < |items| {
      TextUpTo(p, items, n);
      assert Items(f, p, ConsumedLines(f, p, s)) == items[..n + 1];
      VerdictIsFaithful(f, p, items[n], TextIn(p, items[..n]), LastCount(p, items[..n]), Concat(s.lines[..n + 1]));
    } else {
      assert ConsumedLines(f, p, s) == s.lines && items[..n] == items;
      EndingIsFaithful(f, p, s.failure, TextIn(p, items), LastCount(p, items), Concat(s.lines));
    }
  }

  /** The raw bytes of any sample are a prefix of the body, of at most 2 MiB. */
  lemma RawIsBoundedPrefix(f: Feed, p: Protocol)
    ensures var raw := Concat(ConsumedLines(f, p, StreamFrom(f.response, 0, 0)));
      raw <= f.response.content && |raw| <= 2097152
  {
    var s := StreamFrom(f.response, 0, 0);
    var lines := ConsumedLines(f, p, s);
    assert lines == s.lines[..|lines|];
    YieldedLinesArePrefix(f.response, 0, 0, |lines|);
    if lines == [] { assert Concat(lines) == []; }
  }

  // ----- Which numbers give a finite rate? -----

  /** An Ollama line has a rate exactly when neither of its numbers is too large for a float, and the rate is finite
      exactly when the quotient of the two floats is below the threshold too. */
  lemma OllamaRateExactly(count: nat, duration: nat)
    requires duration > 0
    ensures OllamaRate(count, duration).Some? <==> Seconds(duration) < Threshold() && count as real < Threshold()
    ensures Rounded(Seconds(duration)) > 0.0
    ensures OllamaRate(count, duration).Some? ==>
      (IsFinite(OllamaRate(count, duration).value) <==> Over(Rounded(count as real), Rounded(Seconds(duration))) < Threshold())
  {
    hide Rounded, Threshold, IsFinite, IntOverFloat, Over;
    SecondsArePositive(duration);
    FiniteExactly(Seconds(duration));
    FiniteQuotientExactly(count, Rounded(Seconds(duration)));
  }

  /** Counts and durations up to 2^53 always give a finite rate, under both protocols. */
  lemma SmallNumbersFit(f: Feed, count: nat, duration: nat)
    requires count as real <= P53 && 0 < duration && duration as real <= P53
    ensures OllamaRate(count, duration).Some? && IsFinite(OllamaRate(count, duration).value)
    ensures IntOverFloat(count, GenerationSeconds(f)).Some? && IsFinite(IntOverFloat(count, GenerationSeconds(f)).value)
  {
    hide Rounded, Threshold, IsFinite, IntOverFloat, OllamaRate, GenerationSeconds, Scale, Over, Times;
    SecondsArePositive(duration);
    OllamaRateExactly(count, duration);
    IntegersAreExact(count);
    SmallQuotient(count as real, Rounded(Seconds(duration)));
    SmallQuotient(count as real, GenerationSeconds(f));
    FiniteQuotientExactly(count, GenerationSeconds(f));
    SmallBelowThreshold();
    SmallDuration(duration);
  }

  lemma SmallDuration(duration: nat)
    requires duration as real <= P53
    ensures Seconds(duration) <= P53
  {
  }

  lemma SmallBelowThreshold()
    ensures 20000000000000000000000000000.0 < Threshold()
  {
    hide Scale, Threshold;
    ThresholdBetween();
    ScaleMonotone(53, 970);
    ScaleOfNat(53);
    PowersToP53();
  }

  lemma SmallQuotient(x: real, d: real)
    requires 0.0 <= x <= P53 && d >= 0.0000000000009
    ensures Over(x, d) <= 20000000000000000000000000000.0
  {
    hide Times, Over;
    var most := 20000000000000000000000000000.0;
    TimesMonotone(0.0000000000009, d, most);
    TimesCommutes(d, most);
    ConstantProduct();
    TimesCompare(most, Over(x, d), d);
  }

  lemma ConstantProduct()
    ensures Times(0.0000000000009, 20000000000000000000000000000.0) >= P53
  {
  }

  /** A count of 2^996 or more over one nanosecond gives an infinite rate, and from 2^1024 on it raises. */
  lemma HugeCountRate(k: nat)
    requires k >= 996
    ensures k < MAX_EXPONENT ==> OllamaRate(Pow(2, k), 1).Some? && !IsFinite(OllamaRate(Pow(2, k), 1).value)
    ensures k >= MAX_EXPONENT ==> OllamaRate(Pow(2, k), 1).None?
  {
    hide Rounded, Threshold, IsFinite, IntOverFloat, Scale, Pow, OllamaRate, Times, Over, Seconds;
    SmallSeconds();
    var d := Rounded(Seconds(1));
    OllamaRateExactly(Pow(2, k), 1);
    SecondsArePositive(1);
    ScaleOfNat(k);
    LimitScales();
    ThresholdBetween();
    SmallBelowThreshold();
    if k < MAX_EXPONENT {
      ScaleMonotone(k, 1023);
      ScaleDoubles(1023);
      ScaleDoubles(970);
      PowerIsExact(k);
      NanosecondBelow();
      HugeQuotient(k, d);
    } else {
      ScaleMonotone(MAX_EXPONENT, k);
    }
  }

  lemma SmallSeconds()
    ensures Seconds(1) < 20000000000000000000000000000.0
  {
  }

  lemma PowerIsExact(k: nat)
    ensures Rounded(Scale(k)) == Scale(k)
  {
    hide Rounded, Scale, Times;
    RoundedExact(1, k);
    TimesOne(Scale(k));
  }

  lemma NanosecondBelow()
    ensures Rounded(Seconds(1)) <= Scale(-29)
  {
    hide Rounded;
    assert Pow(2, 14) == 16384 && Pow(2, 15) == 32768;
    PowAdd(2, 14, 15);
    RoundedExact(1, -29);
    TimesOne(Scale(-29));
    RoundedMonotone(Seconds(1), Grid(1, -29));
  }

  lemma HugeQuotient(k: nat, d: real)
    requires k >= 996 && 0.0 < d <= Scale(-29)
    ensures Over(Scale(k), d) >= Scale(MAX_EXPONENT)
  {
    hide Scale, Times, Pow, Over;
    var limit := Scale(MAX_EXPONENT);
    ScaleShift(-29, 1024);
    ScaleOfNat(1024);
    ScaleMonotone(995, k);
    TimesMonotone(d, Scale(-29), limit);
    TimesCommutes(d, limit);
    TimesCommutes(Scale(-29), limit);
    TimesCompare(Over(Scale(k), d), limit, d);
  }

  /** A one-line Ollama stream that reports 2^k tokens in one nanosecond. */
  function HugeFeed(k: nat): Feed {
    Feed(Response([NEWLINE], _ => false, _ => None),
      _ => Value(Obj(map["response" := Str("x"), "done" := Bool(true), "eval_count" := Int(Pow(2, k)), "eval_duration" := Int(1)])),
      0.0, _ => 1.0)
  }

  /** Its consumer returns a sample that no record accepts, or crashes. */
  lemma HugeCountResult(k: nat)
    requires k >= 996
    ensures var r := ResultOf(HugeFeed(k), Ollama, StreamFrom(HugeFeed(k).response, 0, 0));
      if k < MAX_EXPONENT then r.Sampled? && !Complete(r.sample) else r.Crashed?
    ensures SoundClock(HugeFeed(k))
  {
    hide OllamaRate, Pow, Threshold, IsFinite, Rounded, Scale, Times, Elapsed;
    var f := HugeFeed(k);
    HugeCountRate(k);
    SmallBelowThreshold();
    assert NextAt(f.response, 0, 0) == Line([NEWLINE]) && NextAt(f.response, 1, 1) == End;
    var s := StreamFrom(f.response, 0, 0);
    assert StreamFrom(f.response, 1, 1) == Stream([], None);
    assert s.lines == [[NEWLINE]] && s.failure == None;
    var items := Items(f, Ollama, s.lines);
    assert StopAt(Ollama, items) == 0 && items[..0] == [];
  }

  // ----- The numbers of a measurement -----

  /** The same stream, had the exchange started at another time. */
  function StartedAt(f: Feed, started: real): Feed {
    f.(started := started)
  }

  /** The count and the rate of a measurement do not depend on when the exchange started. */
  lemma RateIgnoresStart(f: Feed, p: Protocol, s: Stream, started: real)
    requires ResultOf(f, p, s).Sampled?
    ensures ResultOf(StartedAt(f, started), p, s).Sampled?
    ensures ResultOf(StartedAt(f, started), p, s).sample.tokensPerSecond == ResultOf(f, p, s).sample.tokensPerSecond
    ensures ResultOf(StartedAt(f, started), p, s).sample.generatedTokens == ResultOf(f, p, s).sample.generatedTokens
  {
    hide ResultOf, OllamaRate, IntOverFloat, HasText, CountIn, ReadsOn;
    var g := StartedAt(f, started);
    SampledExactlyWhenCompleted(f, p, s);
    SampledExactlyWhenCompleted(g, p, s);
    assert Items(g, p, s.lines) == Items(f, p, s.lines) by {
      forall i | 0 <= i < |s.lines| ensures ReadItem(g, p, s.lines[i]) == ReadItem(f, p, s.lines[i]) {}
    }
  }

  /** Time to first token and latency run from the start of the exchange to the first text and to the end. */
  lemma TimingsOfMeasurement(f: Feed, p: Protocol, s: Stream)
    requires ResultOf(f, p, s).Sampled? && SoundClock(f)
    ensures var sample := ResultOf(f, p, s).sample;
      sample.ttft == Rounded(f.clock(0) - f.started) && sample.latency == Rounded(f.clock(1) - f.started)
  {
    hide Rounded, OllamaRate, IntOverFloat, HasText, CountIn, Items, Threshold;
    assert f.clock(0) <= f.clock(1);
  }

  /** Where doubles hold the count and the generation time exactly, an OpenAI measurement's rate is the rounded quotient
      of the two; shorter times count as 1e-12. */
  lemma OpenAiRate(f: Feed, s: Stream, count: nat)
    requires ResultOf(f, OpenAi, s).Sampled? && ResultOf(f, OpenAi, s).sample.generatedTokens == Some(count)
    requires count as real <= P53
    ensures var time := f.clock(1) - f.clock(0);
      time >= 0.000000000001 && Rounded(time) == time ==>
        ResultOf(f, OpenAi, s).sample.tokensPerSecond == Some(Rounded(Over(count as real, time)))
    ensures f.clock(1) - f.clock(0) < 0.000000000001 ==>
      Rounded(0.000000000001) > 0.0
      && ResultOf(f, OpenAi, s).sample.tokensPerSecond == Some(Rounded(Over(count as real, Rounded(0.000000000001))))
  {
    hide ResultOf, Rounded, HasText, CountIn, Items, Over, IsFinite, FloatOf, Completed;
    SampledExactlyWhenCompleted(f, OpenAi, s);
    FloatOfNatural(count);
    IntegersAreExact(count);
    GenerationIsPositive(0.000000000001);
  }

  /** Where doubles hold both numbers exactly, an Ollama line's rate is the rounded quotient of the count by the seconds. */
  lemma OllamaRateIsQuotient(count: nat, duration: nat)
    requires 0 < duration && count as real <= P53 && duration as real <= P53
    requires Rounded(duration as real / 1000000000.0) == duration as real / 1000000000.0
    ensures duration as real / 1000000000.0 > 0.0
    ensures OllamaRate(count, duration) == Some(Rounded(Over(count as real, duration as real / 1000000000.0)))
  {
    hide Rounded, IsFinite, FloatOf, Times, Threshold;
    SecondsQuotient(duration);
    SecondsArePositive(duration);
    SmallSecondsAreFinite(duration);
    FloatOfNatural(count);
    SmallBelowThreshold();
    IntegersAreExact(count);
  }

  lemma SecondsQuotient(duration: nat)
    ensures Over(duration as real, 1000000000 as real) == duration as real / 1000000000.0 == Seconds(duration)
  {
  }

  lemma SmallSecondsAreFinite(duration: nat)
    requires duration as real <= P53
    ensures IsFinite(Rounded(Seconds(duration)))
  {
    hide Rounded, IsFinite;
    SmallDuration(duration);
    SmallBelowThreshold();
    FiniteExactly(Seconds(duration));
  }

  // ----- Which error? -----

  /** The kind of an error follows from how the reading ended: an adapter error raised by the stream keeps its kind; a
      line that is not JSON, a socket failure after text and an end before the protocol's end are partial once text was
      seen; everything else is general. */
  lemma ErrorKinds(f: Feed, p: Protocol, s: Stream)
    requires ResultOf(f, p, s).Failed?
    ensures var kind, items := ResultOf(f, p, s).error.kind, Items(f, p, s.lines);
      var n := StopAt(p, items);
      var seen := TextIn(p, items[..n]);
      if n == |items| then
        (match s.failure
         case Some(ByAdapter(raised)) => kind == raised
         case Some(BySocket) => kind == PartialOutput && seen
         case None => kind == if seen then PartialOutput else General)
      else if items[n].EndMarker? || items[n].parsed.Malformed? then kind == if seen then PartialOutput else General
      else kind == General
  {
    hide HasText, CountIn, Items, FailureSample, OllamaRate, IntOverFloat, OllamaMetrics, Concat, TextIn, LastCount, GenerationSeconds;
  }

  /** The sample on an error holds the time to the first text, a latency taken later, and the count seen so far. */
  lemma SampleOfError(f: Feed, p: Protocol, s: Stream)
    requires ResultOf(f, p, s).Failed? && ResultOf(f, p, s).error.sample.Some? && SoundClock(f)
    ensures var sample, items := ResultOf(f, p, s).error.sample.value, Items(f, p, s.lines);
      && sample.ttft == Rounded(f.clock(0) - f.started)
      && (sample.latency == Rounded(f.clock(1) - f.started) || sample.latency == Rounded(f.clock(2) - f.started))
      && sample.generatedTokens == LastCount(p, items[..StopAt(p, items)])
  {
    hide HasText, CountIn, Items, Rounded, Threshold, OllamaRate, IntOverFloat, OllamaMetrics, Concat, TextIn, LastCount, Field, GenerationSeconds;
    assert f.clock(0) <= f.clock(1) && f.clock(0) <= f.clock(2);
  }

  // ----- Which fields are read? -----

  /** Ollama's text is a non-empty string under "response"; OpenAI's is one under "content" in the "delta" of some choice. */
  lemma TextFields(m: map<string, Json>)
    ensures HasText(Ollama, Chunk(Value(Obj(m)))) <==> "response" in m && m["response"].Str? && m["response"].text != ""
    ensures HasText(OpenAi, Chunk(Value(Obj(m)))) <==>
      && "choices" in m && m["choices"].Arr?
      && exists i :: 0 <= i < |m["choices"].items| && ChoiceHasText(m["choices"].items[i])
  {
    if "choices" in m && m["choices"].Arr? {
      var items := m["choices"].items;
      assert forall i :: 0 <= i < |items| ==> (ChoiceHasText(items[i]) <==> IsText(Field(Field(items[i], "delta"), "content")));
    }
  }

  predicate ChoiceHasText(choice: Json) {
    && choice.Obj? && "delta" in choice.fields && choice.fields["delta"].Obj?
    && var delta := choice.fields["delta"].fields;
       "content" in delta && delta["content"].Str? && delta["content"].text != ""
  }

  /** OpenAI's count is a non-negative int under "completion_tokens" in "usage"; Ollama reports none before its last line. */
  lemma CountFields(m: map<string, Json>, n: nat)
    ensures CountIn(OpenAi, Chunk(Value(Obj(m)))) == Some(n) <==>
      "usage" in m && m["usage"].Obj? && "completion_tokens" in m["usage"].fields && m["usage"].fields["completion_tokens"] == Int(n)
    ensures CountIn(Ollama, Chunk(Value(Obj(m)))) == None
  {
  }

  /** The last line of Ollama has "done" true and natural "eval_count" and positive "eval_duration". */
  lemma FinalFields(m: map<string, Json>)
    ensures ReadsOn(Ollama, Chunk(Value(Obj(m)))) <==> !("done" in m && m["done"] == Bool(true))
    ensures OllamaMetrics(Obj(m)) <==>
      && "eval_count" in m && m["eval_count"].Int? && m["eval_count"].whole >= 0
      && "eval_duration" in m && m["eval_duration"].Int? && m["eval_duration"].whole > 0
  {
  }

  /** What stripping removes: exactly the blank bytes at both ends. */
  lemma StripTrims(before: seq<Octet>, core: seq<Octet>, after: seq<Octet>)
    requires forall i :: 0 <= i < |before| ==> before[i] in [9, 10, 11, 12, 13, 32]
    requires forall i :: 0 <= i < |after| ==> after[i] in [9, 10, 11, 12, 13, 32]
    requires core != [] ==> core[0] !in [9, 10, 11, 12, 13, 32] && core[|core| - 1] !in [9, 10, 11, 12, 13, 32]
    ensures Strip(before + core + after) == core
  {
    if core == [] {
      StripLeftBlank(before + after, []);
      assert before + core + after == before + after + [];
    } else {
      StripLeftBlank(before, core + after);
      assert before + core + after == before + (core + after);
      StripRightBlank(core, after);
    }
  }

  lemma {:induction false} StripLeftBlank(blank: seq<Octet>, rest: seq<Octet>)
    requires forall i :: 0 <= i < |blank| ==> IsSpace(blank[i])
    requires rest != [] ==> !IsSpace(rest[0])
    ensures StripLeft(blank + rest) == rest
  {
    if blank == [] {
      assert blank + rest == rest;
    } else {
      assert (blank + rest)[0] == blank[0] && (blank + rest)[1..] == blank[1..] + rest;
      StripLeftBlank(blank[1..], rest);
    }
  }

  lemma {:induction false} StripRightBlank(rest: seq<Octet>, blank: seq<Octet>)
    requires forall i :: 0 <= i < |blank| ==> IsSpace(blank[i])
    requires rest != [] ==> !IsSpace(rest[|rest| - 1])
    ensures StripRight(rest + blank) == rest
  {
    if blank == [] {
      assert rest + blank == rest;
    } else {
      var all := rest + blank;
      assert all[|all| - 1] == blank[|blank| - 1] && all[..|all| - 1] == rest + blank[..|blank| - 1];
      StripRightBlank(rest, blank[..|blank| - 1]);
    }
  }

  // ----- One stream of each protocol, in numbers -----

  /** Started at 0, first text at 1, finished at 2. */
  function SteadyClock(n: nat): real {
    if n == 0 then 1.0 else 2.0
  }

  /** `data:1`, `data:2` and `data:[DONE]`, parsed as a content chunk and a usage chunk. */
  function SteadyOpenAi(): Feed {
    Feed(Response(DATA_PREFIX + [49, 10] + DATA_PREFIX + [50, 10] + DATA_PREFIX + DONE_MARKER + [10], _ => false, _ => None),
      text => if text == [49]
        then Value(Obj(map["choices" := Arr([Obj(map["delta" := Obj(map["content" := Str("hi")])])])]))
        else Value(Obj(map["usage" := Obj(map["completion_tokens" := Int(10)])])),
      0.0, SteadyClock)
  }

  const LINE_ONE: seq<Octet> := DATA_PREFIX + [49, 10]
  const LINE_TWO: seq<Octet> := DATA_PREFIX + [50, 10]
  const LINE_DONE: seq<Octet> := DATA_PREFIX + DONE_MARKER + [10]

  lemma SteadyLines()
    ensures StreamFrom(SteadyOpenAi().response, 0, 0).lines == [LINE_ONE, LINE_TWO, LINE_DONE]
  {
    hide NextAt, StreamFrom;
    var r := SteadyOpenAi().response;
    assert r.content == LINE_ONE + LINE_TWO + LINE_DONE;
    assert r.content[0..7] == LINE_ONE && r.content[7..14] == LINE_TWO && r.content[14..26] == LINE_DONE;
    LineAt(r, 0, 0, LINE_ONE);
    LineAt(r, 7, 1, LINE_TWO);
    LineAt(r, 14, 2, LINE_DONE);
    NothingAt(r, 26, 3);
    StreamStep(r, 0, 0, LINE_ONE);
    StreamStep(r, 7, 1, LINE_TWO);
    StreamStep(r, 14, 2, LINE_DONE);
    StreamEnd(r, 26, 3);
  }

  lemma LineAt(r: Response, pos: nat, n: nat, line: seq<Octet>)
    requires pos + |line| <= |r.content| && r.content[pos..pos + |line|] == line
    requires NewlineLast(line) && Terminated(line) && |line| <= 131072 && pos + |line| <= 2097152
    requires !r.cancelled(n) && r.failure(n) == None
    ensures NextAt(r, pos, n) == Line(line)
  {
    hide LineLength;
    assert forall i :: 0 <= i < |line| ==> r.content[pos..][i] == line[i];
    LineLengthExactly(r.content[pos..], MAX_LINE_BYTES + 1, |line|);
  }

  lemma NothingAt(r: Response, pos: nat, n: nat)
    requires pos == |r.content|
    ensures !NextAt(r, pos, n).Line?
  {
  }

  lemma StreamStep(r: Response, pos: nat, n: nat, bytes: seq<Octet>)
    requires pos <= |r.content| && NextAt(r, pos, n) == Line(bytes)
    ensures StreamFrom(r, pos, n).lines == [bytes] + StreamFrom(r, pos + |bytes|, n + 1).lines
  {
  }

  lemma StreamEnd(r: Response, pos: nat, n: nat)
    requires pos <= |r.content| && !NextAt(r, pos, n).Line?
    ensures StreamFrom(r, pos, n).lines == []
  {
  }

  predicate Spells(bytes: seq<Octet>, text: string) {
    |bytes| == |text| && forall i :: 0 <= i < |bytes| ==> bytes[i] as int == text[i] as int
  }

  /** The markers of server-sent events, as text. */
  lemma MarkersSpell()
    ensures Spells(DATA_PREFIX, "data:") && Spells(DONE_MARKER, "[DONE]")
  {
  }

  lemma SteadyItems()
    ensures var f := SteadyOpenAi();
      && ReadItem(f, OpenAi, LINE_ONE) == Chunk(f.parse([49])) && ReadItem(f, OpenAi, LINE_TWO) == Chunk(f.parse([50]))
      && ReadItem(f, OpenAi, LINE_DONE) == EndMarker
  {
    hide Strip;
    assert LINE_ONE == DATA_PREFIX + [49] + [10] && LINE_TWO == DATA_PREFIX + [50] + [10];
    DataLine([49]);
    DataLine([50]);
    DataLine(DONE_MARKER);
  }

  /** A data line carries its payload. */
  lemma DataLine(payload: seq<Octet>)
    requires payload != [] && payload[0] > 32 && payload[|payload| - 1] > 32
    ensures Strip(DATA_PREFIX + payload + [10]) == DATA_PREFIX + payload
    ensures (DATA_PREFIX + payload)[|DATA_PREFIX|..] == payload && Strip(payload) == payload
  {
    hide Strip;
    StripTrims([], DATA_PREFIX + payload, [10]);
    StripTrims([], payload, []);
    assert [] + (DATA_PREFIX + payload) + [10] == DATA_PREFIX + payload + [10] && [] + payload + [] == payload;
  }

  /** Ten tokens between the first text at 1 and the end at 2: ten a second, first text after 1, latency 2. */
  lemma SteadyOpenAiMeasures()
    ensures var f := SteadyOpenAi();
      ResultOf(f, OpenAi, StreamFrom(f.response, 0, 0)) == Sampled(Sample(1.0, 2.0, Some(10), Some(10.0), f.response.content))
  {
    hide ReadItem, IntOverFloat, Elapsed, GenerationSeconds, StreamFrom, HasText, CountIn, Concat, FailureSample, LineLength;
    var f := SteadyOpenAi();
    var s := StreamFrom(f.response, 0, 0);
    SteadyLines();
    SteadyItems();
    var items := Items(f, OpenAi, s.lines);
    var chunk, usage := f.parse([49]).json.fields, f.parse([50]).json.fields;
    TextFields(chunk);
    assert ChoiceHasText(chunk["choices"].items[0]);
    CountFields(chunk, 0);
    CountFields(usage, 10);
    assert items == [Chunk(f.parse([49])), Chunk(f.parse([50])), EndMarker];
    assert ReadsOn(OpenAi, items[0]) && ReadsOn(OpenAi, items[1]) && !ReadsOn(OpenAi, items[2]);
    assert StopAt(OpenAi, items) == 2;
    var before := items[..2];
    assert HasText(OpenAi, before[0]);
    assert LastCount(OpenAi, before) == Some(10);
    assert s.lines[..3] == [LINE_ONE, LINE_TWO, LINE_DONE];
    SteadyBytes();
    SteadyNumbers();
  }

  lemma SteadyBytes()
    ensures Concat([LINE_ONE, LINE_TWO, LINE_DONE]) == SteadyOpenAi().response.content
    ensures [LINE_ONE, LINE_TWO, LINE_DONE][..3] == [LINE_ONE, LINE_TWO, LINE_DONE]
  {
    ConcatLast([LINE_ONE, LINE_TWO], LINE_DONE);
    ConcatLast([LINE_ONE], LINE_TWO);
    ConcatLast([], LINE_ONE);
    assert [LINE_ONE, LINE_TWO, LINE_DONE] == [LINE_ONE, LINE_TWO] + [LINE_DONE] && [LINE_ONE, LINE_TWO] == [LINE_ONE] + [LINE_TWO];
    assert [LINE_ONE] == [] + [LINE_ONE];
  }

  lemma SteadyNumbers()
    ensures var f := SteadyOpenAi();
      && Elapsed(f.started, Now(f, 0)) == 1.0 && Elapsed(f.started, Now(f, 1)) == 2.0
      && IntOverFloat(10, GenerationSeconds(f)) == Some(10.0)
  {
    hide Rounded, FloatOf, Threshold;
    IntegersAreExact(1);
    IntegersAreExact(2);
    IntegersAreExact(10);
    FloatOfNatural(10);
    SmallBelowThreshold();
  }

  /** One line of text and metrics, ten tokens in two seconds. */
  function SteadyOllama(): Feed {
    Feed(Response([NEWLINE], _ => false, _ => None),
      _ => Value(Obj(map["response" := Str("hi"), "done" := Bool(true), "eval_count" := Int(10), "eval_duration" := Int(2000000000)])),
      0.0, SteadyClock)
  }

  /** Five a second, whatever the clock says; the timings are the clock's. */
  lemma SteadyOllamaMeasures()
    ensures var f := SteadyOllama();
      ResultOf(f, Ollama, StreamFrom(f.response, 0, 0)) == Sampled(Sample(1.0, 2.0, Some(10), Some(5.0), [NEWLINE]))
  {
    hide OllamaRate, Threshold, IsFinite, Rounded, Elapsed, IntOverFloat, GenerationSeconds, CountIn, StreamFrom, LineLength;
    var f := SteadyOllama();
    LineAt(f.response, 0, 0, [NEWLINE]);
    NothingAt(f.response, 1, 1);
    StreamStep(f.response, 0, 0, [NEWLINE]);
    StreamEnd(f.response, 1, 1);
    var s := StreamFrom(f.response, 0, 0);
    assert s.lines == [[NEWLINE]];
    var items := Items(f, Ollama, s.lines);
    assert StopAt(Ollama, items) == 0 && items[..0] == [];
    assert Concat(s.lines[..1]) == [NEWLINE];
    IntegersAreExact(2);
    IntegersAreExact(5);
    OllamaRateIsQuotient(10, 2000000000);
    SteadyNumbers();
  }
}
