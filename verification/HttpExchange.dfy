/** One HTTP exchange: stages, error precedence and cleanup (benchmark/http_adapters.py). */
module HttpExchange {
  import opened Outcomes
  import opened Adapters
  import opened Deadline
  import opened StreamAdapters

  // ----- Everything the exchange does not control -----

  /** How a library call inside the try block ends. The connection and the response run checks of their own while they
      wait; such a check looks at the event and at the clock at these two instants. */
  datatype Stage = Fine | StoppedByCheck(seen: real, read: real) | ByTimeout | BySocketError | ByOther

  /** The k-th check of the exchange itself looks at the event at instant at(2k) and at the clock at at(2k + 1). */
  datatype Script = Script(
    time: Timeline,
    at: nat -> real,
    connect: Stage,
    request: Stage,
    getResponse: Stage,
    accepted: bool,             // reject_unsafe_response lets the response through
    consumed: Consumed,
    interrupted: Call -> bool,  // a keyboard interrupt arrives during this call
    responseCloses: bool,       // response.close does not raise
    connectionCloses: bool)     // connection.close does not raise

  function OwnCheck(x: Script, k: nat): Check {
    CheckAt(x.time, x.at(2 * k), x.at(2 * k + 1))
  }

  // ----- The calls of an exchange, in order -----

  datatype Call = Checked(k: nat) | Connect | SendRequest | GetResponse | Inspect | Read | CloseResponse | CloseConnection

  /** The try block: four checks around five calls. */
  const STEPS: seq<Call> :=
    [Checked(0), Connect, Checked(1), SendRequest, GetResponse, Checked(2), Inspect, Read, Checked(3)]

  /** What leaves the try block early. */
  datatype Exit = RaisesAdapter(error: AdapterError) | RaisesTimeout | RaisesSocket | RaisesOther | RaisesInterrupt

  /** No handler of the exchange looks at this exit. */
  predicate Unhandled(e: Exit) {
    e.RaisesOther? || e.RaisesInterrupt?
  }

  function StageExit(x: Script, s: Stage): Option<Exit> {
    match s
    case Fine => None
    case StoppedByCheck(seen, read) =>
      Some(RaisesAdapter(AdapterError(if CancelledBy(x.time, seen) then CancelledByUser else TimedOut, None)))
    case ByTimeout => Some(RaisesTimeout)
    case BySocketError => Some(RaisesSocket)
    case ByOther => Some(RaisesOther)
  }

  function CallExit(x: Script, c: Call): Option<Exit> {
    if x.interrupted(c) then Some(RaisesInterrupt) else CallResult(x, c)
  }

  /** The same when no interrupt arrives. */
  function CallResult(x: Script, c: Call): Option<Exit> {
    match c
    case Checked(k) => if OwnCheck(x, k).Pass? then None else Some(RaisesAdapter(AdapterError(KindOf(OwnCheck(x, k)), None)))
    case Connect => StageExit(x, x.connect)
    case SendRequest => StageExit(x, x.request)
    case GetResponse => StageExit(x, x.getResponse)
    case Inspect => if x.accepted then None else Some(RaisesAdapter(AdapterError(General, None)))
    case Read =>
      (match x.consumed
       case Sampled(_) => None
       case Failed(e) => Some(RaisesAdapter(e))
       case SocketFailed => Some(RaisesSocket)
       case Crashed => Some(RaisesOther))
    case _ => None
  }

  /** The first step from i on that leaves the try block, or the number of steps. */
  function LeavingStep(x: Script, i: nat): (n: nat)
    requires i <= |STEPS|
    ensures i <= n <= |STEPS|
    ensures forall j :: i <= j < n ==> CallExit(x, STEPS[j]).None?
    ensures n < |STEPS| ==> CallExit(x, STEPS[n]).Some?
    decreases |STEPS| - i
  {
    if i == |STEPS| || CallExit(x, STEPS[i]).Some? then i else LeavingStep(x, i + 1)
  }

  lemma LeavingStepUnique(x: Script, n: nat)
    requires n <= |STEPS| && forall j :: 0 <= j < n ==> CallExit(x, STEPS[j]).None?
    requires n < |STEPS| ==> CallExit(x, STEPS[n]).Some?
    ensures LeavingStep(x, 0) == n
  {
    hide CallExit;
    var m := LeavingStep(x, 0);
    assert !(m < n) && !(n < m);
  }

  /** How many checks the first n + 1 steps make: the number of the handler's own check when step n leaves. */
  function ChecksThrough(n: nat): nat {
    if n < 2 then 1 else if n < 5 then 2 else if n < 8 then 3 else 4
  }

  datatype Reply = Returned(sample: Sample) | Raised(error: AdapterError) | Interrupted | Escaped

  /** The error an exit is turned into, before the handler looks at the event and the clock again. */
  function Underlying(exit: Exit): AdapterError
    requires !Unhandled(exit)
  {
    match exit
    case RaisesAdapter(e) => e
    case RaisesTimeout => AdapterError(TimedOut, None)
    case RaisesSocket => AdapterError(General, None)
  }

  /** The step at which an exchange leaves its try block, and how. */
  function LeftAt(x: Script): nat {
    LeavingStep(x, 0)
  }

  predicate Opened(x: Script) {
    LeftAt(x) > 4
  }

  /** Both ends close, or the one that fails hides everything that went before. */
  predicate Closes(x: Script) {
    (Opened(x) ==> ResponseCloses(x)) && ConnectionCloses(x)
  }

  predicate ResponseCloses(x: Script) {
    x.responseCloses && !x.interrupted(CloseResponse)
  }

  predicate ConnectionCloses(x: Script) {
    x.connectionCloses && !x.interrupted(CloseConnection)
  }

  /** What a close that does not return raises in place of everything before it. */
  function ClosingReply(x: Script): Reply {
    var failing := if Opened(x) && !ResponseCloses(x) then CloseResponse else CloseConnection;
    if x.interrupted(failing) then Interrupted else Escaped
  }

  function ReplyTo(x: Script): Reply {
    var n := LeftAt(x);
    if !Closes(x) then ClosingReply(x)
    else if n == |STEPS| then
      assert CallExit(x, STEPS[7]).None?;
      Returned(x.consumed.sample)
    else
      var exit := CallExit(x, STEPS[n]).value;
      if exit.RaisesOther? then Escaped
      else if exit.RaisesInterrupt? || x.interrupted(Checked(ChecksThrough(n))) then Interrupted
      else
        var e, last := Underlying(exit), OwnCheck(x, ChecksThrough(n));
        Raised(if last.Pass? then e else AdapterError(KindOf(last), e.sample))
  }

  /** Every call an exchange makes: the steps up to the one that leaves, the handler's check, and the two closes. */
  function CallsOf(x: Script): seq<Call> {
    var n := LeftAt(x);
    STEPS[..if n < |STEPS| then n + 1 else n]
    + (if n < |STEPS| && !Unhandled(CallExit(x, STEPS[n]).value) then [Checked(ChecksThrough(n))] else [])
    + Closing(Opened(x), ResponseCloses(x))
  }

  function Closing(responded: bool, responseCloses: bool): seq<Call> {
    if !responded then [CloseConnection] else if responseCloses then [CloseResponse, CloseConnection] else [CloseResponse]
  }

  // ----- The adapter -----

  class HttpAdapter {
    var active: bool  // `_active` holds a connection

    constructor ()
      ensures !active
    {
      active := false;
    }

    /** `_exchange`: its handlers check once more before they report, and its finally block closes both ends. */
    method Exchange(x: Script) returns (r: Reply, calls: seq<Call>)
      modifies this
      ensures r == ReplyTo(x) && calls == CallsOf(x)
      ensures active <==> !Closes(x)
      ensures r.Returned? ==> !active && calls == STEPS + [CloseResponse, CloseConnection] && x.consumed == Sampled(r.sample)
      ensures calls[|calls| - 1] == CloseConnection || (calls[|calls| - 1] == CloseResponse && active && (r.Escaped? || r.Interrupted?))
    {
      hide CallExit, OwnCheck, StageExit;
      active := true;
      var exit, responded;
      exit, responded, calls := Attempt(x);
      var n := |calls| - if exit.Some? then 1 else 0;
      LeavingStepUnique(x, n);
      if exit.None? {
        assert CallExit(x, STEPS[7]).None?;
        ReadSucceeds(x);
        r := Returned(x.consumed.sample);
      } else if Unhandled(exit.value) {
        r := if exit.value.RaisesOther? then Escaped else Interrupted;
      } else {
        var k := ChecksThrough(n);
        var e, last := Underlying(exit.value), OwnCheck(x, k);
        calls := calls + [Checked(k)];
        r := if x.interrupted(Checked(k)) then Interrupted
             else Raised(if last.Pass? then e else AdapterError(KindOf(last), e.sample));
      }
      var closes, failure := CloseBoth(x, responded);
      calls := calls + closes;
      if failure.None? {
        active := false;
      } else {
        r := failure.value;
      }
    }

    /** `close`. */
    method Close() returns (calls: seq<Call>)
      modifies this
      ensures !active && calls == if old(active) then [CloseConnection] else []
    {
      calls := [];
      if active {
        calls := [CloseConnection];
        active := false;
      }
    }
  }

  lemma ReadSucceeds(x: Script)
    requires CallExit(x, Read).None?
    ensures x.consumed.Sampled?
  {
  }

  /** The finally block; it is left early when a close raises or is interrupted. */
  method CloseBoth(x: Script, responded: bool) returns (calls: seq<Call>, failure: Option<Reply>)
    requires responded == Opened(x)
    ensures calls == Closing(responded, ResponseCloses(x))
    ensures failure == if Closes(x) then None else Some(ClosingReply(x))
  {
    calls := [];
    if responded {
      calls := [CloseResponse];
      if x.interrupted(CloseResponse) {
        return calls, Some(Interrupted);
      }
      if !x.responseCloses {
        return calls, Some(Escaped);
      }
    }
    calls := calls + [CloseConnection];
    if x.interrupted(CloseConnection) {
      return calls, Some(Interrupted);
    }
    return calls, if x.connectionCloses then None else Some(Escaped);
  }

  /** The try block. */
  method Attempt(x: Script) returns (exit: Option<Exit>, responded: bool, calls: seq<Call>)
    ensures exit.Some? ==> calls != [] && CallExit(x, calls[|calls| - 1]) == exit
    ensures |calls| <= |STEPS| && calls == STEPS[..|calls|] && (exit.None? ==> calls == STEPS)
    ensures forall j :: 0 <= j < |calls| - (if exit.Some? then 1 else 0) ==> CallExit(x, STEPS[j]).None?
    ensures responded <==> |calls| > 5 || (|calls| == 5 && exit.None?)
  {
    responded, calls := false, [Checked(0)];
    exit := RunCheck(x, 0);
    if exit.Some? { return; }
    calls, exit := calls + [Connect], RunStage(x, Connect, x.connect);
    if exit.Some? { return; }
    calls := calls + [Checked(1)];
    exit := RunCheck(x, 1);
    if exit.Some? { return; }
    calls, exit := calls + [SendRequest], RunStage(x, SendRequest, x.request);
    if exit.Some? { return; }
    calls, exit := calls + [GetResponse], RunStage(x, GetResponse, x.getResponse);
    if exit.Some? { return; }
    responded, calls := true, calls + [Checked(2)];
    exit := RunCheck(x, 2);
    if exit.Some? { return; }
    calls := calls + [Inspect];
    exit := RunInspection(x);
    if exit.Some? { return; }
    calls := calls + [Read];
    exit := RunConsumer(x);
    if exit.Some? { return; }
    calls := calls + [Checked(3)];
    exit := RunCheck(x, 3);
  }

  function RunStage(x: Script, c: Call, s: Stage): Option<Exit> {
    if x.interrupted(c) then Some(RaisesInterrupt) else StageExit(x, s)
  }

  /** `reject_unsafe_response`. */
  method RunInspection(x: Script) returns (exit: Option<Exit>)
    ensures exit == CallExit(x, Inspect)
  {
    if x.interrupted(Inspect) {
      return Some(RaisesInterrupt);
    }
    return if x.accepted then None else Some(RaisesAdapter(AdapterError(General, None)));
  }

  /** The call of `consume`. */
  method RunConsumer(x: Script) returns (exit: Option<Exit>)
    ensures exit == CallExit(x, Read)
  {
    if x.interrupted(Read) {
      return Some(RaisesInterrupt);
    }
    match x.consumed {
      case Failed(e) => return Some(RaisesAdapter(e));
      case SocketFailed => return Some(RaisesSocket);
      case Crashed => return Some(RaisesOther);
      case Sampled(_) => return None;
    }
  }

  /** The nested `check`. */
  method RunCheck(x: Script, k: nat) returns (exit: Option<Exit>)
    ensures exit == CallExit(x, Checked(k))
  {
    var seen, read := x.at(2 * k), x.at(2 * k + 1);
    if x.interrupted(Checked(k)) {
      return Some(RaisesInterrupt);
    }
    if CancelledBy(x.time, seen) {
      return Some(RaisesAdapter(AdapterError(CancelledByUser, None)));
    }
    if OverdueBy(x.time, read) {
      return Some(RaisesAdapter(AdapterError(TimedOut, None)));
    }
    return None;
  }

  // ----- Cleanup -----

  /** On every path, uncaught exceptions and interrupts included: the response is closed exactly when there is one, once,
      and after it was obtained and everything else was done; the connection is closed once and last, unless closing the
      response raises or is interrupted first, and then it is not closed at all. */
  lemma CleanupOnEveryPath(x: Script)
    ensures var calls := CallsOf(x);
      var responded := GetResponse in calls && x.getResponse.Fine? && !x.interrupted(GetResponse);
      && (CloseResponse in calls <==> responded)
      && (CloseConnection in calls <==> !responded || ResponseCloses(x))
      && (forall i :: 0 <= i < |calls| && calls[i].CloseConnection? ==> i == |calls| - 1)
      && (forall i, j :: 0 <= i < j < |calls| && calls[i].CloseResponse? ==> calls[j].CloseConnection?)
  {
    hide CallExit, StageExit, OwnCheck, Closing;
    var n := LeftAt(x);
    var made := STEPS[..if n < |STEPS| then n + 1 else n];
    var handled := if n < |STEPS| && !Unhandled(CallExit(x, STEPS[n]).value) then [Checked(ChecksThrough(n))] else [];
    StepsMade(|made|);
    ResponseWasObtained(x);
    CloseOrder(made + handled, Opened(x), ResponseCloses(x));
  }

  lemma CloseOrder(before: seq<Call>, responded: bool, responseCloses: bool)
    requires forall i :: 0 <= i < |before| ==> !before[i].CloseResponse? && !before[i].CloseConnection?
    ensures var calls := before + Closing(responded, responseCloses);
      && (CloseResponse in calls <==> responded)
      && (CloseConnection in calls <==> !responded || responseCloses)
      && (forall i :: 0 <= i < |calls| && calls[i].CloseConnection? ==> i == |calls| - 1)
      && (forall i, j :: 0 <= i < j < |calls| && calls[i].CloseResponse? ==> calls[j].CloseConnection?)
      && (GetResponse in calls <==> GetResponse in before)
  {
  }

  lemma StepsMade(k: nat)
    requires k <= |STEPS|
    ensures GetResponse in STEPS[..k] <==> k >= 5
    ensures forall i :: 0 <= i < k ==> !STEPS[i].CloseResponse? && !STEPS[i].CloseConnection?
  {
    if k >= 5 { assert STEPS[..k][4] == GetResponse; }
  }

  lemma ResponseWasObtained(x: Script)
    ensures Opened(x) <==> LeftAt(x) >= 4 && x.getResponse.Fine? && !x.interrupted(GetResponse)
  {
    hide StageExit, OwnCheck;
    StageExitFails(x, x.getResponse);
    if LeftAt(x) == 4 { assert CallExit(x, STEPS[4]).Some?; }
    if LeftAt(x) > 4 { assert CallExit(x, STEPS[4]).None?; }
  }

  lemma StageExitFails(x: Script, s: Stage)
    ensures StageExit(x, s).None? <==> s.Fine?
  {
  }

  // ----- Precedence -----

  /** Time passes from each check to the next, stages run between the checks around them, and a stage stopped by a check
      of its own was stopped for a reason. */
  ghost predicate Ordered(x: Script) {
    && (forall i: nat, j: nat :: i <= j ==> x.at(i) <= x.at(j))
    && StoppedBefore(x, x.connect, 1) && StoppedBefore(x, x.request, 2) && StoppedBefore(x, x.getResponse, 2)
    && (x.consumed.Failed? && x.consumed.error.kind.CancelledByUser? ==> CancelledBy(x.time, x.at(6)))
    && (x.consumed.Failed? && x.consumed.error.kind.TimedOut? ==> CancelledBy(x.time, x.at(6)) || OverdueBy(x.time, x.at(7)))
  }

  predicate StoppedBefore(x: Script, s: Stage, k: nat) {
    s.StoppedByCheck? ==> s.seen <= x.at(2 * k) && s.read <= x.at(2 * k + 1) && !CheckAt(x.time, s.seen, s.read).Pass?
  }

  /** What went wrong, told from the script: the failing stage, the refused response or the consumer's own error. */
  predicate WentWrong(x: Script, kind: ErrorKind, sample: Option<Sample>) {
    || (kind.TimedOut? && sample == None && (x.connect.ByTimeout? || x.request.ByTimeout? || x.getResponse.ByTimeout?))
    || (kind.General? && sample == None
          && (x.connect.BySocketError? || x.request.BySocketError? || x.getResponse.BySocketError? || !x.accepted || x.consumed.SocketFailed?))
    || x.consumed == Failed(AdapterError(kind, sample))
  }

  /** The kind of a reported error follows from the time of the last check: cancelled if the event was set by then, timed
      out if not and the deadline had passed, and otherwise by what went wrong, with every check passed. A sample is only
      ever the consumer's, and it is kept. */
  lemma PrecedenceOfErrors(x: Script)
    requires Ordered(x) && ReplyTo(x).Raised?
    ensures var e, k := ReplyTo(x).error, ChecksThrough(LeftAt(x));
      var cancelled := x.time.cancelledFrom.Some? && x.time.cancelledFrom.value <= x.at(2 * k);
      var overdue := x.at(2 * k + 1) - x.time.started >= x.time.timeout;
      && LeftAt(x) < |STEPS|
      && (cancelled ==> e.kind.CancelledByUser?)
      && (!cancelled && overdue ==> e.kind.TimedOut?)
      && (!cancelled && !overdue ==> WentWrong(x, e.kind, e.sample) && forall i: nat :: i <= k ==> OwnCheck(x, i).Pass?)
      && (e.sample.Some? ==> x.consumed.Failed? && x.consumed.error.sample == e.sample)
      && (LeftAt(x) == 7 && x.consumed.Failed? ==> x.consumed.error.sample == e.sample)
  {
    var n := LeftAt(x);
    var k := ChecksThrough(n);
    forall i: nat | i <= k ensures !OwnCheck(x, i).Pass? ==> !OwnCheck(x, k).Pass? {
      ChecksLast(x.time, x.at(2 * i), x.at(2 * i + 1), x.at(2 * k), x.at(2 * k + 1));
    }
    ExitsExplained(x, n);
  }

  /** What leaves the try block at each step. */
  lemma ExitsExplained(x: Script, n: nat)
    requires n < |STEPS| && CallExit(x, STEPS[n]).Some? && !x.interrupted(STEPS[n])
    ensures var exit := CallExit(x, STEPS[n]).value;
      && (exit.RaisesTimeout? ==> x.connect.ByTimeout? || x.request.ByTimeout? || x.getResponse.ByTimeout?)
      && (exit.RaisesSocket? ==>
            x.connect.BySocketError? || x.request.BySocketError? || x.getResponse.BySocketError? || x.consumed.SocketFailed?)
      && (n == 6 ==> exit == RaisesAdapter(AdapterError(General, None)) && !x.accepted)
      && (n == 7 && exit.RaisesAdapter? ==> x.consumed == Failed(exit.error))
  {
  }

  /** The handler's check is the one after all checks the steps made. */
  lemma ChecksAreCounted(n: nat, i: nat, k: nat)
    requires n < |STEPS| && i < |STEPS| && STEPS[i] == Checked(k)
    ensures i <= n <==> k < ChecksThrough(n)
    ensures 1 <= ChecksThrough(n) <= 4
  {
  }

  /** A sample is returned exactly when every stage succeeds, all four checks pass, both ends close and no interrupt
      arrives. */
  lemma ReturnedExactly(x: Script, s: Sample)
    ensures ReplyTo(x) == Returned(s)
       <==> x.connect.Fine? && x.request.Fine? && x.getResponse.Fine? && x.accepted && x.consumed == Sampled(s)
            && x.responseCloses && x.connectionCloses && (forall k :: 0 <= k < 4 ==> OwnCheck(x, k).Pass?)
            && (forall i :: 0 <= i < |STEPS| ==> !x.interrupted(STEPS[i]))
            && !x.interrupted(CloseResponse) && !x.interrupted(CloseConnection)
  {
    hide OwnCheck, StageExit;
    StageExitFails(x, x.connect);
    StageExitFails(x, x.request);
    StageExitFails(x, x.getResponse);
    var n := LeftAt(x);
    assert STEPS[0] == Checked(0) && STEPS[2] == Checked(1) && STEPS[5] == Checked(2) && STEPS[8] == Checked(3);
  }

  /** On one timeline the last check speaks for all four: nothing had come by then, or some check would have failed. */
  lemma LastCheckDecides(x: Script)
    requires Ordered(x)
    ensures (forall k :: 0 <= k < 4 ==> OwnCheck(x, k).Pass?)
       <==> !(x.time.cancelledFrom.Some? && x.time.cancelledFrom.value <= x.at(6)) && x.at(7) - x.time.started < x.time.timeout
  {
    assert OwnCheck(x, 3) == CheckAt(x.time, x.at(6), x.at(7));
    forall k: nat | k < 4 ensures !OwnCheck(x, k).Pass? ==> !OwnCheck(x, 3).Pass? {
      ChecksLast(x.time, x.at(2 * k), x.at(2 * k + 1), x.at(6), x.at(7));
    }
  }

  /** Every sample an exchange hands on comes from the consumer. */
  lemma SamplesComeFromConsumer(x: Script)
    ensures ReplyTo(x).Returned? ==> x.consumed == Sampled(ReplyTo(x).sample)
    ensures ReplyTo(x).Raised? && ReplyTo(x).error.sample.Some? ==>
      x.consumed.Failed? && x.consumed.error.sample == ReplyTo(x).error.sample
  {
    hide OwnCheck;
    if LeftAt(x) > 7 { assert CallExit(x, STEPS[7]).None?; }
  }

  /** An exchange that succeeds until its response fails to close. */
  function LeakingScript(s: Sample): Script {
    Script(Timeline(0.0, 60.0, None), _ => 1.0, Fine, Fine, Fine, true, Sampled(s), _ => false, false, true)
  }

  /** Its connection is never closed, and the sample is lost. */
  lemma ConnectionCanLeak(s: Sample)
    ensures var x := LeakingScript(s);
      CallsOf(x) == STEPS + [CloseResponse] && ReplyTo(x).Escaped? && !Closes(x)
  {
    var x := LeakingScript(s);
    LeavingStepUnique(x, |STEPS|);
    assert STEPS[..|STEPS|] == STEPS;
  }
}
