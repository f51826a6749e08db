/** Bounded line-by-line reading of a response body (benchmark/response_limits.py). */
module LineStream {
  import opened Outcomes
  import opened Adapters

  const MAX_RESPONSE_BYTES: nat := 2 * 1024 * 1024
  const MAX_LINE_BYTES: nat := 128 * 1024
  const NEWLINE: Octet := 10

  /** Why reading stops early: an adapter error raised by a check or a limit, or a socket or HTTP failure. */
  datatype StreamFailure = ByAdapter(kind: ErrorKind) | BySocket

  /** The body a server would deliver, and what interferes with the n-th read of it. */
  datatype Response = Response(
    content: seq<Octet>,
    cancelled: nat -> bool,               // the cancel event, as seen before the n-th read
    failure: nat -> Option<StreamFailure> // the n-th read raises instead of returning
  )

  /** `readline(limit)`: up to and including the first newline, at most limit bytes. */
  function LineLength(rest: seq<Octet>, limit: nat): (n: nat)
    ensures n <= |rest| && n <= limit
    ensures n == 0 <==> rest == [] || limit == 0
  {
    if rest == [] || limit == 0 then 0
    else if rest[0] == NEWLINE then 1
    else 1 + LineLength(rest[1..], limit - 1)
  }

  datatype Next = Line(bytes: seq<Octet>) | End | Raise(failure: StreamFailure)

  /** One turn of the generator at byte position pos, before its n-th read. */
  function NextAt(r: Response, pos: nat, n: nat): (next: Next)
    requires pos <= |r.content|
    ensures next.Line? ==> 0 < |next.bytes| && pos + |next.bytes| <= |r.content|
  {
    if r.cancelled(n) then Raise(ByAdapter(CancelledByUser))
    else if r.failure(n).Some? then Raise(r.failure(n).value)
    else
      var length := LineLength(r.content[pos..], MAX_LINE_BYTES + 1);
      if length == 0 then End
      else if length > MAX_LINE_BYTES || pos + length > MAX_RESPONSE_BYTES then Raise(ByAdapter(General))
      else Line(r.content[pos..pos + length])
  }

  lemma LineIsNext(r: Response, pos: nat, n: nat)
    requires pos <= |r.content| && NextAt(r, pos, n).Line?
    ensures var bytes := NextAt(r, pos, n).bytes;
      && |bytes| <= MAX_LINE_BYTES && pos + |bytes| <= MAX_RESPONSE_BYTES
      && bytes == r.content[pos..pos + |bytes|]
      && r.content[..pos] + bytes == r.content[..pos + |bytes|]
      && bytes + r.content[pos + |bytes|..] == r.content[pos..]
  {
  }

  /** Everything the generator would yield from here on, and how it would stop. */
  datatype Stream = Stream(lines: seq<seq<Octet>>, failure: Option<StreamFailure>)

  ghost function StreamFrom(r: Response, pos: nat, n: nat): Stream
    requires pos <= |r.content|
    decreases |r.content| - pos
  {
    match NextAt(r, pos, n)
    case End => Stream([], None)
    case Raise(f) => Stream([], Some(f))
    case Line(bytes) =>
      var rest := StreamFrom(r, pos + |bytes|, n + 1);
      Stream([bytes] + rest.lines, rest.failure)
  }

  function Concat(lines: seq<seq<Octet>>): seq<Octet> {
    if lines == [] then [] else Concat(lines[..|lines| - 1]) + lines[|lines| - 1]
  }

  /** Having yielded these lines, the generator stands at byte pos before its n-th read. */
  ghost predicate Reached(r: Response, lines: seq<seq<Octet>>, pos: nat, n: nat) {
    && pos <= |r.content|
    && StreamFrom(r, 0, 0) == Stream(lines + StreamFrom(r, pos, n).lines, StreamFrom(r, pos, n).failure)
    && Concat(lines) == r.content[..pos]
  }

  lemma ReachedStart(r: Response)
    ensures Reached(r, [], 0, 0)
  {
  }

  lemma ReachedNext(r: Response, lines: seq<seq<Octet>>, pos: nat, n: nat, bytes: seq<Octet>)
    requires Reached(r, lines, pos, n) && NextAt(r, pos, n) == Line(bytes)
    ensures Reached(r, lines + [bytes], pos + |bytes|, n + 1)
  {
    hide LineLength;
    LineIsNext(r, pos, n);
    ConcatLast(lines, bytes);
    var rest := StreamFrom(r, pos + |bytes|, n + 1).lines;
    assert lines + ([bytes] + rest) == (lines + [bytes]) + rest;
  }

  lemma ReachedEnd(r: Response, lines: seq<seq<Octet>>, pos: nat, n: nat)
    requires Reached(r, lines, pos, n) && !NextAt(r, pos, n).Line?
    ensures StreamFrom(r, 0, 0) == Stream(lines, if NextAt(r, pos, n).Raise? then Some(NextAt(r, pos, n).failure) else None)
  {
    assert lines + [] == lines;
  }

  lemma ConcatLast(lines: seq<seq<Octet>>, last: seq<Octet>)
    ensures Concat(lines + [last]) == Concat(lines) + last
  {
    assert (lines + [last])[..|lines|] == lines;
  }

  /** `bounded_lines`, drained: the loop that keeps a running total and yields until it stops. */
  method BoundedLines(r: Response) returns (lines: seq<seq<Octet>>, failure: Option<StreamFailure>)
    ensures Stream(lines, failure) == StreamFrom(r, 0, 0)
  {
    hide Reached, StreamFrom, LineLength;
    lines := [];
    var total, turns := 0, 0;
    ReachedStart(r);
    while true
      invariant total <= |r.content| && Reached(r, lines, total, turns)
      decreases |r.content| - total
    {
      var before := total;
      if NextAt(r, before, turns).Line? {
        ReachedNext(r, lines, before, turns, NextAt(r, before, turns).bytes);
      } else {
        ReachedEnd(r, lines, before, turns);
      }
      if r.cancelled(turns) {
        return lines, Some(ByAdapter(CancelledByUser));
      }
      if r.failure(turns).Some? {
        return lines, r.failure(turns);
      }
      var line := ReadLine(r.content, before);
      if line == [] {
        return lines, None;
      }
      total := total + |line|;
      if |line| > MAX_LINE_BYTES || total > MAX_RESPONSE_BYTES {
        return lines, Some(ByAdapter(General));
      }
      lines, turns := lines + [line], turns + 1;
    }
  }

  /** `response.readline(MAX_LINE_BYTES + 1)`, one byte after another. */
  method ReadLine(content: seq<Octet>, pos: nat) returns (line: seq<Octet>)
    requires pos <= |content|
    ensures line == content[pos..pos + LineLength(content[pos..], MAX_LINE_BYTES + 1)]
  {
    var n := 0;
    while pos + n < |content| && n <= MAX_LINE_BYTES
      invariant pos + n <= |content| && n <= MAX_LINE_BYTES + 1
      invariant LineLength(content[pos..], MAX_LINE_BYTES + 1) == n + LineLength(content[pos + n..], MAX_LINE_BYTES + 1 - n)
    {
      n := n + 1;
      if content[pos + n - 1] == NEWLINE {
        break;
      }
      assert content[pos + n - 1..][1..] == content[pos + n..];
    }
    line := content[pos..pos + n];
  }

  /** A line ends at the first newline, at the limit, or with the body, whichever comes first. */
  lemma {:induction false} LineLengthExactly(rest: seq<Octet>, limit: nat, n: nat)
    ensures LineLength(rest, limit) == n <==>
      && n <= limit && n <= |rest| && (forall i :: 0 <= i < n - 1 ==> rest[i] != 10)
      && (n == limit || n == |rest| || (n > 0 && rest[n - 1] == 10))
    decreases limit
  {
    if rest != [] && limit > 0 && rest[0] != NEWLINE && n > 0 {
      LineLengthExactly(rest[1..], limit - 1, n - 1);
      assert forall i :: 0 <= i < |rest[1..]| ==> rest[1..][i] == rest[i + 1];
    }
  }

  /** No newline before the last byte. */
  predicate NewlineLast(line: seq<Octet>) {
    forall j :: 0 <= j < |line| - 1 ==> line[j] != 10
  }

  predicate Terminated(line: seq<Octet>) {
    line != [] && line[|line| - 1] == 10
  }

  lemma NextLineEnds(r: Response, pos: nat, n: nat)
    requires pos <= |r.content| && NextAt(r, pos, n).Line?
    ensures NewlineLast(NextAt(r, pos, n).bytes)
    ensures pos + |NextAt(r, pos, n).bytes| < |r.content| ==> Terminated(NextAt(r, pos, n).bytes)
  {
    hide LineLength;
    LineLengthExactly(r.content[pos..], MAX_LINE_BYTES + 1, LineLength(r.content[pos..], MAX_LINE_BYTES + 1));
  }

  predicate WellEnded(lines: seq<seq<Octet>>) {
    && (forall i :: 0 <= i < |lines| ==> NewlineLast(lines[i]))
    && (forall i :: 0 <= i < |lines| - 1 ==> Terminated(lines[i]))
  }

  lemma PrependLine(first: seq<Octet>, rest: seq<seq<Octet>>)
    requires WellEnded(rest) && NewlineLast(first) && (rest != [] ==> Terminated(first))
    ensures WellEnded([first] + rest)
  {
  }

  /** In every stream, a newline is a line's last byte at most, and every line with another after it ends with one. */
  lemma {:induction false} LinesEndAtNewlines(r: Response, pos: nat, n: nat)
    requires pos <= |r.content|
    ensures WellEnded(StreamFrom(r, pos, n).lines)
    decreases |r.content| - pos
  {
    hide LineLength, WellEnded, NewlineLast, Terminated;
    if NextAt(r, pos, n).Line? {
      var bytes := NextAt(r, pos, n).bytes;
      var rest := StreamFrom(r, pos + |bytes|, n + 1).lines;
      LinesEndAtNewlines(r, pos + |bytes|, n + 1);
      NextLineEnds(r, pos, n);
      PrependLine(bytes, rest);
    } else {
      NoLines();
    }
  }

  /** Why a stream stops after its lines: cancellation is looked at before each read, then the read itself fails or not,
      then the limits are checked; only the end of the body is no failure. */
  lemma {:induction false} StopsForAReason(r: Response, pos: nat, n: nat)
    requires pos <= |r.content|
    ensures var s := StreamFrom(r, pos, n);
      var last, end := n + |s.lines|, pos + |Concat(s.lines)|;
      && end <= |r.content|
      && (forall i :: n <= i < last ==> !r.cancelled(i) && r.failure(i).None?)
      && s.failure == if r.cancelled(last) then Some(ByAdapter(CancelledByUser))
                      else if r.failure(last).Some? then r.failure(last)
                      else if end == |r.content| then None
                      else Some(ByAdapter(General))
    decreases |r.content| - pos
  {
    hide LineLength, Concat;
    NoLines();
    if NextAt(r, pos, n).Line? {
      var bytes := NextAt(r, pos, n).bytes;
      StopsForAReason(r, pos + |bytes|, n + 1);
      ConcatFirst(bytes, StreamFrom(r, pos + |bytes|, n + 1).lines);
    } else {
      LineLengthExactly(r.content[pos..], MAX_LINE_BYTES + 1, 0);
    }
  }

  lemma NoLines()
    ensures Concat([]) == [] && WellEnded([])
  {
  }

  /** Whatever happens, the lines yielded are a prefix of the body within both limits. */
  lemma {:induction false} YieldedLinesArePrefix(r: Response, pos: nat, n: nat, k: nat)
    requires pos <= |r.content| && k <= |StreamFrom(r, pos, n).lines|
    ensures var raw := Concat(StreamFrom(r, pos, n).lines[..k]);
      raw <= r.content[pos..] && (k > 0 ==> pos + |raw| <= 2097152)
    ensures forall i :: 0 <= i < k ==> 0 < |StreamFrom(r, pos, n).lines[i]| <= 131072
    decreases k
  {
    hide NextAt;
    if k > 0 {
      LineIsNext(r, pos, n);
      var bytes := NextAt(r, pos, n).bytes;
      var lines, rest := StreamFrom(r, pos, n).lines, StreamFrom(r, pos + |bytes|, n + 1).lines;
      YieldedLinesArePrefix(r, pos + |bytes|, n + 1, k - 1);
      assert lines[..k] == [bytes] + rest[..k - 1];
      ConcatFirst(bytes, rest[..k - 1]);
    }
  }

  lemma {:induction false} ConcatFirst(first: seq<Octet>, rest: seq<seq<Octet>>)
    ensures Concat([first] + rest) == first + Concat(rest)
  {
    var all := [first] + rest;
    if rest == [] {
      assert all[..0] == [];
    } else {
      var init := rest[..|rest| - 1];
      assert all[..|all| - 1] == [first] + init;
      ConcatFirst(first, init);
    }
  }

  /** Reading stops short of the whole body only by raising: an undisturbed stream yields all of it. */
  lemma {:induction false} QuietStreamYieldsBody(r: Response, pos: nat, n: nat)
    requires pos <= |r.content| && StreamFrom(r, pos, n).failure == None
    ensures Concat(StreamFrom(r, pos, n).lines) == r.content[pos..]
    decreases |r.content| - pos
  {
    match NextAt(r, pos, n)
    case Line(bytes) =>
      LineIsNext(r, pos, n);
      var rest := StreamFrom(r, pos + |bytes|, n + 1).lines;
      QuietStreamYieldsBody(r, pos + |bytes|, n + 1);
      ConcatFirst(bytes, rest);
    case _ =>
  }
}
