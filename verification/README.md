# FlopBench: verified models of the core

FlopBench measures local inference endpoints, exports redacted reports, and binds them to Ed25519 receipts that can be
checked offline. This project models the parts whose correctness the rest relies on, and proves what they promise. Code
that is imperative in the source (loops, objects with fields, shared lists) is modelled by methods and classes proved
against specification functions; the laws are lemmas about those functions. `dafny verify dfyconfig.toml` checks
everything.

| files | subject |
|---|---|
| Positional, Base58, DidKey, Base64Url | positional numerals in any base; base58btc, `did:key` and canonical base64url as bijections |
| Receipts | preparing, creating and verifying receipts over abstract canonicalisation, SHA-256 and Ed25519 |
| Json, StringOrder, Diff, DiffLaws, DiffPatch | the bounded structural diff: a prefix of the full diff, symmetric, and a patch when not truncated |
| Binary64, Statistics | rounding to doubles; nearest-rank percentiles with their rank computed in doubles |
| Codes, BenchmarkReport | the pattern of machine-readable codes; the strict report validator and what every accepted report implies |
| Adapters, BenchmarkEngine, BenchmarkLaws | the benchmark loop over arbitrary adapters: outcomes, cancellation, cleanup, validity of its reports |
| LineStream, StreamAdapters | bounded line streams and the two stream consumers |
| Deadline, HttpExchange, HttpRuns | one HTTP exchange on a timeline, and the engine over exchanges and consumers |
| Transport | sending and connecting over scripted sockets |
| Simulator | the session state machine and its scenarios |
| Redaction, RedactionFrame, Export | disclosure levels, what redaction leaves alone, and exports that are always self-consistent |
| Manifest | the release checksum manifest as a printer and a parser |

The environment is a nondeterministic input throughout. An adapter is a sequence of arbitrary behaviours, a response is
a body with a possible failure at each read, a socket is a script of answers, and a clock is a sequence of readings. A
lemma that needs the clock not to go back says so.

What the proofs found, with the lemmas that show it at an input or give the exact condition:

- Base58 text round-trips up to 93 bytes; ninety-four bytes of 255 encode to text the decoder refuses
  (`Base58.NinetyFourBytesCanFail`). The condition is the length of the text (`Base58.DecodeInvertsEncode`).
- A transition with a malformed code raises after the state has moved and before the event is written, so the log falls
  behind the state and the next event starts from a state the log never reached (`Simulator.EmptyCodeBreaksLog`). The log
  is sound if and only if every call that was allowed when made carried a valid code (`Simulator.CoherentExactly`). The
  scenarios only use valid codes.
- A complete diff can be marked truncated (`DiffLaws.CompleteDiffCanBeTruncated`). With exactly 500 differences the flag
  is set exactly when the walk enters another pair of values after the last one (`DiffLaws.BoundedIsPrefixOfFull`).
- The engine converts peak VRAM to float and the validator compares the result with the integer. A peak of 2^53 + 1 bytes
  fails the report (`BenchmarkLaws.InexactPeakFailsReport`). The condition is that each successful peak is below 2^1024
  and zero in every bit after its first 53 (`BenchmarkLaws.ReportsExactlyWhenClean`, `Binary64.FloatOfExactly`).
- The nearest rank is computed in doubles. At 55 percent of 100 samples it is 56, not 55 (`Statistics.FiftyFiveOfHundred`),
  and the smallest double as a percentile takes the largest sample (`Statistics.SmallestPercentileTakesLargest`). The
  result is the smallest sample covering the percentile if and only if the rank taken is the exact one
  or holds the same sample (`Statistics.ExactlyWhenSampleSurvives`), which for up to 2^40 samples always holds at 50
  and 95, the two percentiles of reports (`Statistics.ReportRanksAreExact`).
- `write_checksums` accepts the name `a b`, which `verify_checksums` cannot parse
  (`Manifest.SpacedNameIsWrittenButNotVerified`). Names outside the pattern and manifests over the metadata limit are the
  only reasons a fresh manifest fails to verify (`Manifest.FreshManifestVerifies`).
- The consumers accept any natural token count. A server that reports 2^1000 tokens in one nanosecond makes the rate
  infinite, the record refuses it, and the run ends without a report; from 2^1024 tokens on the division itself raises
  (`HttpRuns.HugeCountFailsRun`). The condition is on the numbers in the stream (`StreamAdapters.OllamaRateExactly`,
  `Binary64.FiniteQuotientExactly`), and counts and durations up to 2^53 always meet it
  (`HttpRuns.SmallNumbersGiveRates`).
- If closing a response raises, its connection is not closed (`HttpExchange.ConnectionCanLeak`); otherwise it is closed
  once and last (`HttpExchange.CleanupOnEveryPath`).

## Model

| member | source | states |
|---|---|---|
| Positional.RebaseRoundTrip | src/flopbench/receipt/codec.py:20-45 | changing base and changing back is the identity on every digit string, leading zeros included, for any two bases |
| Positional.NumeralLength | src/flopbench/receipt/codec.py:26-28 | a number needs at most k digits exactly when it is below base^k |
| Positional.BitLengthPerByte | src/flopbench/receipt/codec.py:43 | the byte width the decoder computes from the bit length is exactly the number of base-256 digits |
| Positional.ToBytesIsNumeral | src/flopbench/receipt/codec.py:43 | writing the number in that many bytes gives its shortest base-256 numeral |
| Positional.DecimalDenotes | src/flopbench/simulator/engine.py:91 | decimal text spells the digits of its number |
| Base58.SymbolsSpellAlphabet | src/flopbench/receipt/codec.py:11 | symbol k is character k of the published alphabet |
| Base58.SymbolTablesAgree | src/flopbench/receipt/codec.py:11-12 | the index table is the inverse of the alphabet: a character has index k exactly when it is symbol k |
| Base58.EncodeBase58btc | src/flopbench/receipt/codec.py:20-29 | the repeated-division loop yields the change of base from 256 to 58 with one `1` per leading zero byte |
| Base58.DecodeBase58btc | src/flopbench/receipt/codec.py:32-45 | the Horner loop refuses empty, overlong and foreign text, and otherwise yields the change of base from 58 to 256 |
| Base58.DecodeInvertsEncode | src/flopbench/receipt/codec.py:20-45 | for all byte strings: decoding returns the encoded bytes exactly when the text has 1 to 128 characters |
| Base58.EncodeInvertsDecode | src/flopbench/receipt/codec.py:20-45 | re-encoding anything the decoder accepts returns exactly that text, leading `1`s included |
| Base58.EncodedInjective | src/flopbench/receipt/codec.py:20-29 | different byte strings of any length have different encodings |
| Base58.ShortStringsRoundTrip | src/flopbench/receipt/codec.py:20-45 | every string of 1 to 93 bytes stays within 128 characters and round-trips |
| Base58.NinetyFourBytesCanFail | src/flopbench/receipt/codec.py:35-36 | 93 is the largest such length: 94 bytes of 255 encode to text the decoder refuses |
| DidKey.DecodeInvertsEncode | src/flopbench/receipt/codec.py:48-70 | every 32-byte key decodes from its own DID |
| DidKey.EncodeInvertsDecode | src/flopbench/receipt/codec.py:48-70 | an accepted DID is the only DID of the key it resolves to |
| DidKey.AcceptedDids | src/flopbench/receipt/codec.py:56-70 | the accepted DIDs are exactly the encodings of 32-byte keys |
| DidKey.ClassifiedByContents | src/flopbench/receipt/codec.py:62-70 | every text in the window is judged by the bytes it encodes: another multicodec and another key length give their own errors, the rest is the key |
| DidKey.DidShape | src/flopbench/receipt/codec.py:48-53 | for every key the base58 part has exactly 47 characters and starts with `6Mk`; the DID has 56 and starts with `did:key:z6Mk` |
| Base64Url.LettersSpellAlphabet | src/flopbench/receipt/codec.py:76 | letter k is character k of table 2 of RFC 4648 |
| Base64Url.OctetsOfSextets | src/flopbench/receipt/codec.py:73-76 | the encoder's sextets decode to the same bytes, have zero spare bits, and number ceil(4n/3) |
| Base64Url.SextetsOfOctets | src/flopbench/receipt/codec.py:84-90 | decoded sextets re-encode to themselves exactly when their spare low bits are zero |
| Base64Url.SextetsDenoteBytes | src/flopbench/receipt/codec.py:73-76 | the encoded sextets denote the same number as the bytes, shifted by the spare bits of an incomplete last group |
| Base64Url.DecodeInvertsEncode | src/flopbench/receipt/codec.py:73-91 | for all byte strings: decode returns the encoded bytes exactly when they are non-empty and the text is within the limit |
| Base64Url.AcceptedText | src/flopbench/receipt/codec.py:79-91 | text is accepted exactly when it is in the alphabet, within the limit, not of length 1 mod 4, and has zero pad bits; it is then the unique encoding of its bytes |
| Base64Url.SignaturesAreSixtyFourBytes | src/flopbench/receipt/codec.py:94-107 | accepted 86-character signatures and 64-byte strings correspond one to one |
| Receipts.AcceptedDidFits | src/flopbench/receipt/models.py:34 | an accepted DID always satisfies the payload's 20..128 bound and the receipt's DID pattern |
| Receipts.PreparedExactly | src/flopbench/receipt/service.py:49-75 | a request is prepared exactly for an accepted DID, a supported schema, UTC time and canonical bytes of length 1..3072, and it carries exactly those bytes |
| Receipts.SignedReceiptVerifies | src/flopbench/receipt/service.py:78-134 | any signature the verifier accepts on the prepared bytes gives a receipt that verification accepts by rebuilding the same bytes |
| Receipts.CreatedExactly | src/flopbench/receipt/service.py:89-103 | from every prepared request a receipt is created exactly when the signature decodes and is accepted for the DID's key on the canonical bytes; a rejected one gives `receipt.signature_invalid`, and every created receipt verifies |
| Receipts.RejectedSignature | src/flopbench/receipt/service.py:83-86 | a receipt whose metadata fit is refused with exactly that error when the verifier rejects its signature |
| Receipts.RequestMatchesClaims | src/flopbench/receipt/models.py:56-73 | a signing request is valid exactly when it carries the one encoding and the digest of its payload's canonical bytes, for an accepted DID |
| Receipts.ReceiptFields | src/flopbench/contracts.py:300-312 | a receipt that verifies has well-formed fields, and each field on its own can make one ill-formed |
| Receipts.SupportedSchemas | src/flopbench/receipt/service.py:30-40 | exactly two report schemas can be signed |
| Receipts.AcceptedExactly | src/flopbench/receipt/service.py:106-134 | a receipt is accepted exactly for its own schema and digest, UTC time, and a signature valid for the DID's key on bytes rebuilt from the receipt alone |
| Receipts.ReceiptBindsOneReport | src/flopbench/receipt/service.py:109-112 | an accepted receipt is refused, with the matching error, for every export with another digest or schema |
| Json.SameReflexive | src/flopbench/reporting/compare.py:57 | Python's `==` on finite JSON values, under which 1, 1.0 and True agree, is reflexive |
| StringOrder.Sorted | src/flopbench/reporting/compare.py:38 | `sorted` lists every string of a set once, in code-point order |
| StringOrder.CodePointOrder | src/flopbench/reporting/compare.py:38 | the order of keys is by code point: a prefix first, otherwise by the first difference |
| Diff.Differ.Add | src/flopbench/reporting/compare.py:25-30 | a full list takes nothing more and the flag is set; otherwise the change is appended |
| Diff.Differ.Walk | src/flopbench/reporting/compare.py:32-58 | the recursive walk over the shared list and flag has the effect of running the unbounded walk's events through the bound |
| Diff.Differ.WalkChild | src/flopbench/reporting/compare.py:39-45 | a child on one side is reported as added or removed, a child on both sides is walked |
| Diff.DiffExports | src/flopbench/reporting/compare.py:21-71 | the list and flag are those of the bounded run over both documents |
| DiffLaws.RunKeepsPrefix | src/flopbench/reporting/compare.py:25-36 | the bound keeps the first 500 changes of any event sequence, and the flag says that an event followed the 500th |
| DiffLaws.BoundedIsPrefixOfFull | src/flopbench/reporting/compare.py:21-71 | the changes are the first min(500, total) of the full diff; more than 500 force the flag, fewer forbid it, exactly 500 set it when the last event is a visit |
| DiffLaws.CompleteDiffCanBeTruncated | src/flopbench/reporting/compare.py:32-36 | two lists with 500 differences followed by an equal item give a complete diff marked truncated |
| DiffLaws.SwappedInputs | src/flopbench/reporting/compare.py:21-71 | swapping the documents swaps added/removed and before/after, and keeps paths, order and flag |
| DiffLaws.FullListsDifferences | src/flopbench/reporting/compare.py:32-58 | the full diff contains an entry exactly when its path names a real difference with those values |
| DiffLaws.FullIsIncreasing | src/flopbench/reporting/compare.py:38-48 | entries come in strict path order, so no path repeats |
| DiffPatch.DifferencesRebuild | src/flopbench/reporting/compare.py:32-58 | any list of exactly the differences, in any order, turns the left document into one equal to the right |
| DiffPatch.UntruncatedDiffIsPatch | src/flopbench/reporting/compare.py:21-71 | an untruncated diff lists all differences and nothing else, each path once, and applying it rebuilds the right document |
| DiffPatch.EveryEntryIsReal | src/flopbench/reporting/compare.py:21-71 | truncated or not, every listed entry is a real difference and no path repeats |
| DiffPatch.EmptyDiffMeansEqual | src/flopbench/reporting/compare.py:57-58 | the diff is empty and untruncated exactly when Python calls the documents equal |
| DiffPatch.EmptyDiffMeansSameNumbers | src/flopbench/reporting/compare.py:57-58 | the diff is empty exactly when the documents are identical once every boolean and integer is written as the float of its value |
| DiffPatch.EmptyDiffOfWordyDocuments | src/flopbench/reporting/compare.py:57-58 | between documents without numbers and booleans, the diff is empty exactly when they are identical |
| DiffPatch.DiffOfLeaves | src/flopbench/reporting/compare.py:57-58 | between two leaves, the diff is empty exactly when they are identical or the same number, and otherwise it is the one change |
| Binary64.RoundedExact | src/flopbench/validator_doctor/metrics.py:15 | a real with at most 53 significant bits on a grid no finer than 2^-1074 is its own double |
| Binary64.RoundedMonotone | src/flopbench/validator_doctor/metrics.py:15 | rounding to the nearest double, ties to even, never reverses an order |
| Binary64.RoundsToZero | src/flopbench/validator_doctor/metrics.py:15 | only reals up to half the smallest double round to zero |
| Binary64.FloatOfExactly | src/flopbench/benchmark/engine.py:170-172 | `float(n)` is n exactly when n is below 2^1024 in magnitude and zero in every bit after its first 53 |
| Binary64.FirstInexactInteger | src/flopbench/benchmark/engine.py:170-172 | 2^53 + 1 becomes 2^53 |
| Binary64.FiniteExactly | src/flopbench/benchmark/http_adapters.py:223 | a real rounds to a finite double exactly when it is below (2^53 - 1/2) * 2^971 |
| Binary64.FiniteQuotientExactly | src/flopbench/benchmark/http_adapters.py:400 | an int over a positive float raises exactly when the int reaches that threshold, and is finite exactly when the quotient of the floats stays below it |
| Statistics.RankInRange | src/flopbench/validator_doctor/metrics.py:15-16 | the computed rank is within the list for every legal input, and zero exactly when percentile / 100 underflows |
| Statistics.ReportRanksAreExact | src/flopbench/validator_doctor/metrics.py:15 | at 50 and 95 percent rounding never moves the rank, for up to 2^40 samples |
| Statistics.FiftyFiveOfHundred | src/flopbench/validator_doctor/metrics.py:15 | at 55 percent of 100 samples the computed rank is 56 and the exact one 55 |
| Statistics.ResultHasRank | src/flopbench/validator_doctor/metrics.py:9-16 | for every legal input the result is a sample, and a value is at or above it exactly when at least the computed rank of samples are at or below the value; an underflow takes the largest |
| Statistics.NearestRankIsPercentile | src/flopbench/validator_doctor/metrics.py:9-16 | where the rank taken is the exact one, the result is x exactly when x is the smallest sample with at least p percent of samples at or below it |
| Statistics.ReportPercentilesAreExact | src/flopbench/validator_doctor/metrics.py:9-16 | at 50 and 95 percent that holds without a condition, for up to 2^40 samples |
| Statistics.ExactlyWhenSampleSurvives | src/flopbench/validator_doctor/metrics.py:9-16 | for all samples the result is that smallest sample if and only if the sample at the rank taken equals the one at the exact rank |
| Statistics.ExactlyWhenRankSurvives | src/flopbench/validator_doctor/metrics.py:9-16 | where no sample repeats, that is if and only if the rank taken is the exact one |
| Statistics.OrderIndependent | src/flopbench/validator_doctor/metrics.py:14 | permuting the samples changes nothing |
| Statistics.MonotoneInPercentile | src/flopbench/validator_doctor/metrics.py:9-16 | a lower percentile gives no larger result if and only if it does not underflow or the higher one already gives the largest sample |
| Statistics.SmallestPercentileTakesLargest | src/flopbench/validator_doctor/metrics.py:15-16 | an underflowing percentile returns 2 of 1 and 2, although 1 covers it and the median is 1 |
| Statistics.PointwiseOrder | src/flopbench/benchmark/models.py:85-90 | lists ordered sample by sample have ordered percentiles |
| BenchmarkReport.OrderedAtIsNearestRank | src/flopbench/benchmark/models.py:110-114 | the validator's own percentile formula agrees with the nearest-rank function at 50 and 95, index errors included |
| BenchmarkReport.SamplesArePaired | src/flopbench/benchmark/models.py:189-200 | in every accepted report each success contributes one TTFT and one latency in the same position, and TTFT is the smaller |
| BenchmarkReport.TtftPercentilesBelowLatency | src/flopbench/benchmark/models.py:71-116 | in every accepted report TTFT p50 and p95 are at most latency p50 and p95 |
| BenchmarkReport.MedianBelowP95 | src/flopbench/benchmark/models.py:103-116 | in every valid summary p50 is at most p95 |
| BenchmarkReport.EveryMeasuredRunIsCounted | src/flopbench/benchmark/models.py:175-188 | the counters of an accepted report add up to the measured runs, and the error rate is the share that did not succeed, within tolerance |
| BenchmarkReport.SummaryIsDetermined | src/flopbench/benchmark/models.py:160-201 | two accepted reports with the same runs and workload have equal counters, samples and percentiles, and nearly equal error rates |
| BenchmarkReport.SamplesAreRecordFields | src/flopbench/benchmark/models.py:189-200 | in every accepted report the TTFT, latency and throughput samples are those fields of the successful measured runs, in run order, and the peak samples are the peaks of those that have one |
| BenchmarkReport.AcceptedReportShape | src/flopbench/benchmark/models.py:160-185 | every accepted report has a UTC clock that does not go back, numbered runs with the warmups first, and each counter equal to the number of measured runs that ended that way |
| BenchmarkReport.NearRateAccepted | src/flopbench/benchmark/models.py:186-188 | an error rate within 1e-12 of the exact share is accepted |
| Adapters.DeterministicMockAdapter.constructor | src/flopbench/benchmark/adapters.py:70-73 | starts open at index zero |
| Adapters.DeterministicMockAdapter.Run | src/flopbench/benchmark/adapters.py:78-95 | cancellation raises and changes nothing; otherwise the index advances by one, given samples are returned cyclically, and a made-up one is complete exactly for a token limit of zero or more and a finite latency |
| Adapters.DeterministicMockAdapter.Close | src/flopbench/benchmark/adapters.py:97-98 | marks the adapter closed |
| Adapters.MockSampleIsComplete | src/flopbench/benchmark/adapters.py:84-93 | at every index the made-up sample stays within max_tokens, and can close a successful run exactly when max_tokens is not negative and its latency, which grows with the index, is finite |
| BenchmarkEngine.RunBenchmark | src/flopbench/benchmark/engine.py:77-230 | a bad timeout raises before anything is called; otherwise report or failure and the whole sequence of collaborator calls are as specified |
| BenchmarkEngine.RunLoop | src/flopbench/benchmark/engine.py:100-160 | the loop completes exactly when no offset lets an exception escape, and then leaves one record per offset |
| BenchmarkEngine.RunOffset | src/flopbench/benchmark/engine.py:101-160 | one turn: skipped after cancellation, else called between observer start and stop and classified into one of five outcomes |
| BenchmarkEngine.CountOutcomes | src/flopbench/benchmark/engine.py:166-168 | the counter dictionary holds, for each of the five outcomes, how many runs ended that way |
| BenchmarkEngine.BuildCounters | src/flopbench/benchmark/engine.py:166-169 | the counters and error rate of the report are those of the measured runs |
| BenchmarkLaws.EscapeMeansMisbehaviour | src/flopbench/benchmark/engine.py:120-160 | an exception leaves the loop at an offset exactly when that offset is called and the adapter or observer misbehaves: a raise, an incomplete success, an infinite number, an unacceptable sample or error code, a negative peak |
| BenchmarkLaws.CancellationHasACause | src/flopbench/benchmark/engine.py:103-143 | cancellation is observed at an offset exactly when the event was signalled by then or an earlier call was cancelled or interrupted |
| BenchmarkLaws.RecordTells | src/flopbench/benchmark/engine.py:53-74 | every record field by field: position, prompt and warmup from the workload; outcome, numbers, digest, code and peak from what happened at its offset |
| BenchmarkLaws.ReportTells | src/flopbench/benchmark/engine.py:164-230 | a returned report names its adapter, model, workload and times, holds one record per offset, and labels each metric with its unit and how it was obtained |
| BenchmarkLaws.CancellationLasts | src/flopbench/benchmark/engine.py:103 | once cancellation is observed it is observed at every later offset |
| BenchmarkLaws.CancelledRecordsFormSuffix | src/flopbench/benchmark/engine.py:103-113 | after a cancelled record every later record is an unstarted cancelled one |
| BenchmarkLaws.LoopCallsOfOffset | src/flopbench/benchmark/engine.py:100-149 | the calls the loop makes for one offset are exactly that offset's own, made once |
| BenchmarkLaws.CleanupIsExact | src/flopbench/benchmark/engine.py:98-162 | whatever escapes: the model is loaded first, the adapter closed once and last, nothing is called after cancellation, every observer start that returns is matched by one stop around one run, and requests rotate the prompts and count the seed up |
| BenchmarkLaws.EnteredUntilEscape | src/flopbench/benchmark/engine.py:100-162 | every offset is entered unless one escapes, and none after that one |
| BenchmarkLaws.FloatPeaksMatch | src/flopbench/benchmark/engine.py:170-172 | the converted peaks equal the recorded ones exactly when a double can hold each of them |
| BenchmarkLaws.SmallPeaksRepresentable | src/flopbench/benchmark/engine.py:170-172 | peaks up to 2^53 bytes are never a problem |
| BenchmarkLaws.ReportIsValid | src/flopbench/benchmark/engine.py:164-230 | a report over valid, well-numbered records is built and passes all validators exactly when the clock is sound and a double can hold every successful peak |
| BenchmarkLaws.ReportsExactlyWhenClean | src/flopbench/benchmark/engine.py:90-230 | for every workload and environment a report is returned exactly when model, adapter, observer and clock behave and doubles can hold the peaks, and it then satisfies every record, metric and report validator |
| BenchmarkLaws.ObservedRunReports | src/flopbench/benchmark/engine.py:164-230 | one successful run with an observed peak is reported exactly when a double can hold the peak |
| BenchmarkLaws.InexactPeakFailsReport | src/flopbench/benchmark/models.py:189-200 | a peak of 2^53 bytes is reported; one byte more, and the report's own validator refuses it |
| LineStream.BoundedLines | src/flopbench/benchmark/response_limits.py:37-48 | the loop yields the specified lines and stops for the specified reason |
| LineStream.YieldedLinesArePrefix | src/flopbench/benchmark/response_limits.py:37-48 | any first k lines are a prefix of the body within 2 MiB, each non-empty and at most 128 KiB |
| LineStream.LineLengthExactly | src/flopbench/benchmark/response_limits.py:42 | a line ends at the first newline, at the limit or with the body, whichever comes first |
| LineStream.LinesEndAtNewlines | src/flopbench/benchmark/response_limits.py:37-48 | in every stream a newline is a line's last byte at most, and every line with another after it ends with one |
| LineStream.StopsForAReason | src/flopbench/benchmark/response_limits.py:39-47 | a stream stops by cancellation, which is looked at before each read, by the read itself, by a limit, or at the end of the body |
| LineStream.QuietStreamYieldsBody | src/flopbench/benchmark/response_limits.py:43-44 | a stream that ends without raising has yielded the whole body |
| StreamAdapters.ConsumeOllama | src/flopbench/benchmark/http_adapters.py:181-238 | the loop's result is the one told from the whole stream: first deciding line, text seen before it, raw bytes up to it |
| StreamAdapters.EndOllama | src/flopbench/benchmark/http_adapters.py:190-232 | each branch that ends the reading at a line takes its clock readings in order and gives that line's verdict |
| StreamAdapters.ConsumeOpenAi | src/flopbench/benchmark/http_adapters.py:335-414 | the same for server-sent events: ignored lines, the end marker, content deltas and the last valid token count |
| StreamAdapters.EndOpenAi | src/flopbench/benchmark/http_adapters.py:350-408 | each branch that ends the reading at a line gives that line's verdict |
| StreamAdapters.SampledExactlyWhenCompleted | src/flopbench/benchmark/http_adapters.py:181-251 | for every line stream and failure point a sample is returned exactly when text, the end marker and valid metrics were seen and the rate can be computed, and it carries that count and rate; a complete stream without a rate crashes the consumer |
| StreamAdapters.OllamaRateExactly | src/flopbench/benchmark/http_adapters.py:223 | a final line has a rate exactly when neither of its numbers is too large for a float, and a finite one exactly when the quotient of the floats stays below the threshold |
| StreamAdapters.SmallNumbersFit | src/flopbench/benchmark/http_adapters.py:395-400 | counts and durations up to 2^53 give a finite rate under both protocols |
| StreamAdapters.HugeCountRate | src/flopbench/benchmark/http_adapters.py:223 | 2^k tokens in one nanosecond give an infinite rate from k = 996, and raise from k = 1024 |
| StreamAdapters.HugeCountResult | src/flopbench/benchmark/http_adapters.py:205-225 | on a one-line stream with such a count the consumer returns a sample that no successful record accepts, or crashes |
| StreamAdapters.RateIgnoresStart | src/flopbench/benchmark/http_adapters.py:395-400 | count and rate of a measurement do not change with the start of the exchange |
| StreamAdapters.TimingsOfMeasurement | src/flopbench/benchmark/http_adapters.py:219-222 | TTFT and latency run from the start to the first text and to the end |
| StreamAdapters.OpenAiRate | src/flopbench/benchmark/http_adapters.py:395-400 | where doubles hold count and generation time, the rate is their rounded quotient; a shorter time counts as 1e-12 |
| StreamAdapters.OllamaRateIsQuotient | src/flopbench/benchmark/http_adapters.py:223 | where doubles hold count and seconds, the rate is their rounded quotient |
| StreamAdapters.SteadyOpenAiMeasures | src/flopbench/benchmark/http_adapters.py:335-402 | a three-line stream with ten tokens between 1 and 2 gives 10 per second, TTFT 1 and latency 2 |
| StreamAdapters.SteadyOllamaMeasures | src/flopbench/benchmark/http_adapters.py:181-225 | a one-line stream with ten tokens in two seconds gives 5 per second |
| StreamAdapters.ErrorKinds | src/flopbench/benchmark/http_adapters.py:190-238 | an error of the stream keeps its kind; malformed lines, socket failures and early ends are partial once text was seen; everything else is general |
| StreamAdapters.SampleOfError | src/flopbench/benchmark/http_adapters.py:416-430 | the sample on an error holds the time to the first text, a latency taken later and the last count seen |
| StreamAdapters.TextFields | src/flopbench/benchmark/http_adapters.py:365-378 | text is a non-empty string under `response`, or under `content` in the `delta` of some choice |
| StreamAdapters.CountFields | src/flopbench/benchmark/http_adapters.py:379-387 | the count is a non-negative int under `completion_tokens` in `usage` |
| StreamAdapters.FinalFields | src/flopbench/benchmark/http_adapters.py:205-217 | Ollama's last line has `done` true, a natural `eval_count` and a positive `eval_duration` |
| StreamAdapters.StripTrims | src/flopbench/benchmark/http_adapters.py:346-349 | stripping removes exactly the blank bytes at both ends |
| StreamAdapters.MarkersSpell | src/flopbench/benchmark/http_adapters.py:347-350 | the markers are `data:` and `[DONE]` |
| StreamAdapters.SamplesAreFaithful | src/flopbench/benchmark/http_adapters.py:335-430 | an error carries a sample exactly when text was seen; every sample has finite 0 <= ttft <= latency, natural counts, and as raw bytes exactly the lines consumed; a returned one is complete exactly when its rate is finite |
| StreamAdapters.RawIsBoundedPrefix | src/flopbench/benchmark/http_adapters.py:188-189 | the raw bytes consumed are a prefix of the body of at most 2 MiB |
| HttpExchange.Attempt | src/flopbench/benchmark/http_adapters.py:99-117 | the calls made are the first steps of the fixed order, none but the last of them leaves the try block, and it leaves by what that call raised |
| HttpExchange.HttpAdapter.Exchange | src/flopbench/benchmark/http_adapters.py:69-131 | reply and calls are decided by the first step that leaves, an interrupt included; a returned sample took every step and both closes; the adapter keeps a connection exactly when a close did not return |
| HttpExchange.HttpAdapter.Close | src/flopbench/benchmark/http_adapters.py:146-149 | a connection left behind is closed, once |
| HttpExchange.CleanupOnEveryPath | src/flopbench/benchmark/http_adapters.py:127-131 | on every path, uncaught exceptions and interrupts included: the response is closed once and exactly when it was obtained, after every other call; the connection is closed once and last, unless closing the response raises or is interrupted |
| HttpExchange.ConnectionCanLeak | src/flopbench/benchmark/http_adapters.py:127-131 | an exchange that succeeds until its response fails to close never closes its connection and loses its sample |
| Deadline.ChecksLast | src/flopbench/benchmark/transport.py:29-33 | what one check found, a later one finds or tops |
| HttpExchange.PrecedenceOfErrors | src/flopbench/benchmark/http_adapters.py:118-126 | on one timeline: an error is a cancellation if the event was set by the last check, a timeout if not and the deadline had passed, and otherwise what the failing stage, the refused response or the consumer says; its sample is the consumer's |
| HttpExchange.ChecksAreCounted | src/flopbench/benchmark/http_adapters.py:118-126 | the handler's check is the one after all checks the steps made |
| HttpExchange.ReturnedExactly | src/flopbench/benchmark/http_adapters.py:99-117 | a sample is returned exactly when every stage succeeds, all four checks pass, both ends close and no interrupt arrives |
| HttpExchange.LastCheckDecides | src/flopbench/benchmark/http_adapters.py:116 | all four checks pass exactly when neither cancellation nor the deadline has come by the last |
| HttpExchange.SamplesComeFromConsumer | src/flopbench/benchmark/http_adapters.py:115-120 | every sample handed on, in a return or on an error, is the consumer's |
| HttpRuns.RepliesAreWellBehaved | src/flopbench/benchmark/http_adapters.py:69-131 | whatever connection, response, clock and user do, the engine accepts a reply exactly when it is not an uncaught exception and, if it is a measurement, the numbers in the stream give a finite rate; an interrupt is accepted |
| HttpRuns.CodesOfReplies | src/flopbench/benchmark/adapters.py:30-47 | each error class is recorded with its own code |
| HttpRuns.SmallNumbersGiveRates | src/flopbench/benchmark/http_adapters.py:205-225 | streams with counts and durations up to 2^53 always give a finite rate |
| HttpRuns.HttpRunReports | src/flopbench/benchmark/engine.py:90-230 | a benchmark over HTTP exchanges returns a valid report exactly when the model loads, the clock is sound, doubles can hold the peaks, and at every offset reached before cancellation the observer behaves and the engine accepts the reply |
| HttpRuns.HugeCountFailsRun | src/flopbench/benchmark/engine.py:53-74 | a server that claims 2^996 tokens or more in one nanosecond leaves the run without a report |
| Transport.Connection.Send | src/flopbench/benchmark/transport.py:134-151 | the socket is handed a prefix of the data, in order and once, of exactly the length the turns accept, and all of it exactly when no exception is raised; each exception has its cause |
| Transport.Connection.SendChunk | src/flopbench/benchmark/transport.py:140-151 | one turn offers at most 65536 of the bytes left and delivers what the socket accepts of them |
| Transport.Sockets.Connect | src/flopbench/benchmark/transport.py:78-122 | only the returned socket stays open, and none when connect raises; the first address that is not passed over decides how it ends |
| Transport.TryAddress | src/flopbench/benchmark/transport.py:91-116 | the polling loop and the handshake loop of one attempt end as specified |
| Transport.ConnectedExactly | src/flopbench/benchmark/transport.py:91-116 | an attempt connects exactly when the code is one to wait on, the first poll that decides anything finds the socket ready without error, and under TLS the first deciding handshake step completes it |
| Transport.PollFailure | src/flopbench/benchmark/transport.py:95-101 | the first poll that decides anything fixes how the wait ends |
| Transport.HandshakeFailure | src/flopbench/benchmark/transport.py:107-115 | the first handshake step that decides anything fixes how the handshake ends |
| Transport.Handshake | src/flopbench/benchmark/transport.py:107-115 | the handshake loop ends with the first decisive step |
| Codes.CodeCharacters | src/flopbench/simulator/models.py:118 | the characters of machine-readable codes |
| Simulator.SessionMachine.constructor | src/flopbench/simulator/machine.py:44-54 | the log starts as a chain with one creation event |
| Simulator.SessionMachine.Transition | src/flopbench/simulator/machine.py:81-104 | a refused call changes nothing; an allowed call with a valid code moves the state and appends one linked event; an allowed call with a malformed code moves the state, raises and appends nothing |
| Simulator.CoherenceOfCall | src/flopbench/simulator/machine.py:89-104 | a call keeps a sound log sound exactly when it is refused or its code is valid, and no call repairs an unsound one |
| Simulator.CoherentExactly | src/flopbench/simulator/machine.py:44-104 | after any sequence of calls the log is a chain that ends in the state if and only if every call that was allowed when made carried a valid code |
| Simulator.EmptyCodeBreaksLog | src/flopbench/simulator/models.py:118 | an empty code on the first transition leaves the state ahead of the log, and the next event does not link |
| Simulator.LogsAreChains | src/flopbench/simulator/machine.py:44-104 | the sound sessions that calls can produce are exactly the chains of valid events from creation: index is position, times increase, each event links to the one before |
| Simulator.ChainIsWalk | src/flopbench/simulator/machine.py:11-38 | the states a sound log tells of follow the transition table from creation |
| Simulator.VisitedIsWalk | src/flopbench/simulator/machine.py:11-38 | the states a machine was in, told by events or not, follow the transition table from creation |
| Simulator.LogIsBounded | src/flopbench/simulator/machine.py:11-38 | no sequence of calls, accepted, refused or malformed, writes more than eight events |
| Simulator.SettlementIsEarned | src/flopbench/simulator/machine.py:11-38 | a walk that settles begins created, offered, accepted, running, submitted and ends through validation or a challenge |
| Simulator.SettledMachineWasSubmitted | src/flopbench/simulator/machine.py:11-38 | however the calls go, a settled machine was in those five states first, in that order |
| Simulator.SubmissionIsFifth | src/flopbench/simulator/machine.py:11-38 | submission is only ever the fifth state, after the four before it in order |
| Simulator.TerminalIsLast | src/flopbench/simulator/machine.py:34-37 | nothing follows a terminal state |
| Simulator.TransitionTable | src/flopbench/simulator/machine.py:11-38 | the twenty edges, and the four states without one |
| Simulator.AccountingFor | src/flopbench/simulator/engine.py:61-71 | slashed plus refunded is the stake; a fee is charged exactly on settlement and stake slashed exactly on rejection |
| Simulator.Amounts | src/flopbench/simulator/engine.py:25-27 | fee 25, stake 100, and 40 slashed on rejection |
| Simulator.Reasons | src/flopbench/simulator/engine.py:111-119 | which scenarios are challenged, and with which reason |
| Simulator.ScenarioFollowsPath | src/flopbench/simulator/engine.py:74-136 | for every scenario and request the calls are all accepted with valid codes, the log is sound and follows the documented path to a terminal state |
| Simulator.RunSimulation | src/flopbench/simulator/engine.py:74-146 | the log is that of exactly the scenario's calls, with their actors, codes and observations; it ends terminal, and a challenge is recorded exactly on rejection |
| Simulator.RunValidation | src/flopbench/simulator/engine.py:93-136 | the miner's submission, the sample, and settlement or challenge and rejection, call by call; a full rerun only on a sample mismatch |
| Redaction.PublicReportAgrees | src/flopbench/probe/privacy.py:9-26 | both implementations of public redaction give the same probe, unless it still holds credentials |
| Redaction.RedactionIsFinal | src/flopbench/reporting/redaction.py:38-77 | what a level promises to remove is gone, and no later redaction at any level brings it back |
| Redaction.HiddenExactly | src/flopbench/reporting/redaction.py:38-77 | a report hides what a level promises exactly when redacting it at that level changes nothing but its label |
| Redaction.RedactionComposes | src/flopbench/reporting/redaction.py:38-81 | redacting at a level and then at a stricter one is redacting at the stricter one |
| RedactionFrame.RedactionRewrites | src/flopbench/reporting/redaction.py:38-81 | the dump of a redacted report is the original dump with the privacy label and the fields a shared level hides rewritten, and every other value as it was |
| RedactionFrame.UnchangedReports | src/flopbench/reporting/redaction.py:68-76 | benchmark reports at every level, and private doctor reports, are unchanged |
| RedactionFrame.RedactedExactly | src/flopbench/reporting/redaction.py:79-81 | redaction fails exactly when some string or field name in the redacted dump is a secret |
| RedactionFrame.SecretsAreSomewhere | src/flopbench/reporting/redaction.py:23-35 | the scan finds a secret exactly when one stands at some path of the value |
| RedactionFrame.ProbeDumpTells | src/flopbench/reporting/redaction.py:79 | every field of a probe is scanned under its own name |
| RedactionFrame.HostDumpTells | src/flopbench/reporting/redaction.py:45 | the same for the host names and addresses |
| RedactionFrame.ProbePartsTell | src/flopbench/reporting/redaction.py:49-56 | the same for its disks and devices |
| RedactionFrame.ReadinessDumpTells | src/flopbench/reporting/redaction.py:65-67 | the same for readiness reports |
| RedactionFrame.DoctorDumpTells | src/flopbench/reporting/redaction.py:68-74 | the same for doctor reports |
| RedactionFrame.BenchmarkDumpTells | src/flopbench/reporting/redaction.py:75-76 | the same for benchmark reports |
| Redaction.StricterSucceeds | src/flopbench/reporting/redaction.py:23-81 | success at a level implies success at every stricter one |
| Export.ExportsAreConsistent | src/flopbench/reporting/service.py:90-129 | every built export passes the context validator, matches its digest, hides what its level promises, and fingerprints the source only when private |
| Export.ExportSucceedsExactly | src/flopbench/reporting/service.py:98-129 | exporting fails only for credentials or values without a canonical form, never for an inconsistent context |
| Export.ContextRefusals | src/flopbench/reporting/models.py:47-73 | each mismatch of fingerprint, tool version, profile, binding or label is refused |
| Export.ConsistentDocumentsAreBuilt | src/flopbench/reporting/models.py:47-73 | every consistent document over a payload at its level is one the exporter builds |
| Export.DigestCoversDocument | src/flopbench/reporting/models.py:88-93 | label, payload, comparison profile and provenance can be read back from what is hashed |
| Export.AlteredExportIsRefused | src/flopbench/reporting/models.py:88-93 | another digest is refused, and another document unless it hashes to the same digest |
| Manifest.WriteChecksums | src/flopbench/release.py:165-179 | the manifest is one sorted line per artifact; an empty or unsafe directory, an existing manifest and non-ASCII text raise |
| Manifest.HashArtifacts | src/flopbench/release.py:173-176 | the loop prints every artifact's line in order, and gives up at the first unsafe file |
| Manifest.VerifyChecksums | src/flopbench/release.py:182-206 | the parse loop and the later comparisons fail for the specified reason or accept |
| Manifest.TextSplitsIntoLines | src/flopbench/release.py:176-190 | the printed manifest is ASCII and splits into exactly the printed lines |
| Manifest.LinesRecordDigests | src/flopbench/release.py:193-197 | parsing printed lines of distinct names records exactly their digests |
| Manifest.ManifestRoundTrip | src/flopbench/release.py:165-197 | parsing undoes printing for every directory whose names match the pattern |
| Manifest.FreshManifestVerifies | src/flopbench/release.py:165-206 | a fresh manifest verifies its directory exactly when every name matches the pattern and the manifest is within the metadata limit |
| Manifest.SpacedNameIsWrittenButNotVerified | src/flopbench/release.py:15-18 | a file named `a b` is written to the manifest, which then fails to verify |
| Manifest.ManifestPinsDirectory | src/flopbench/release.py:182-206 | that manifest accepts a later directory exactly when all files are safe and names and digests are unchanged: nothing added, removed or altered |
| Manifest.Characters | src/flopbench/release.py:16 | the characters of digests and names, and where text is broken into lines |
| Manifest.LineIsRead | src/flopbench/release.py:16 | a line is read exactly when it is a 64-character digest, two spaces and a name |
| Manifest.TextBreaks | src/flopbench/release.py:190 | text is broken at the next break, a carriage return and newline counting as one |
| Manifest.RecordedExactly | src/flopbench/release.py:193-197 | a manifest parses exactly when every line is read and no name repeats, and records exactly what its lines say |
| Manifest.RepeatedNameIsMalformed | src/flopbench/release.py:195-196 | a repeated name is malformed, whatever the directory holds |
| Manifest.WrittenExactly | src/flopbench/release.py:165-179 | writing succeeds exactly for one or more regular files of at most 512 MiB, no manifest yet, and an ASCII text |
| Manifest.VerifiedExactly | src/flopbench/release.py:182-206 | verification succeeds exactly for an ASCII text within 8 MiB that records the directory's names and digests, over files of at most 512 MiB |

## Left out

- Floating point outside ranks, peaks, and the timings and rates of the stream consumers: the error rate and the mock's made-up numbers are exact reals. The mock's own divisions raise only after more than 2^1000 calls.
- Statistics.RankInRange: stated for up to 2^53 samples, as are the lemmas built on it. A longer list could not be held in memory.
- SHA-256, Ed25519, JCS canonicalisation, UUIDs and the JSON text parser: arbitrary functions given as inputs.
- The secret patterns: an arbitrary predicate on strings.
- Redaction.StricterSucceeds: assumes that the stricter level's own label does not match a secret pattern, because the patterns are arbitrary here.
- BenchmarkReport.SummaryIsDetermined: the error rate is pinned only within twice the tolerance, because the source compares it with `isclose`.
- StreamAdapters.SamplesAreFaithful: assumes a monotone clock whose differences do not overflow a float, which a process uptime in seconds never does; the HttpRuns lemmas inherit this.
- HttpExchange.PrecedenceOfErrors: assumes that time does not go back, that the cancellation event is never cleared, and that the consumer's own cancellations and timeouts happened before the handler looked.
- Pydantic coercion and the string patterns of digests, versions and identifiers; fields fixed to one literal value; human-readable error messages.
- Rendered diff paths: paths are segment sequences. The rendered text does not escape `/`, so two segment paths can render alike.
- The digests in the diff result, and `compare_benchmarks`. NaN floats, which JSON reports cannot hold.
- Fields that no disclosure level touches are kept as one opaque map in each report.
- In the engine: an adapter whose `close` raises, a clock that raises, a keyboard interrupt outside `adapter.run`, and a cancellation event that someone clears. Inside an exchange an interrupt may arrive during any call.
- In an exchange: connecting, sending and reading the head of the response are stages that succeed or fail; the transport model is not composed into them. A `TimeoutError` cannot reach the consumers, because the socket reader retries it. `_json`, `_path` and model identities are not part of this model.
- A `ValueError` of the JSON parser other than the three the consumers catch: it escapes, as in the source, and is counted as an uncaught exception.
- In the transport: waiting is its check alone, `select` does not fail, and a script that ends means that the deadline has passed. Termination of the real loops rests on that deadline.
- In the manifest: the case-insensitive path order of Windows, the check that the directory itself is a regular one, races with other writers, and the partial file that a non-ASCII name leaves behind.
- Event identifiers, actors and the construction of requests in the simulator.
- Active disk tests, VRAM sampling, endpoint validation, readiness rules, profile and workload loaders, the web application, the command line and the dashboard.
