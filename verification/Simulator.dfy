/** The session state machine and the teaching scenarios (simulator/machine.py, simulator/engine.py). */
module Simulator {
  import opened Outcomes
  import opened Positional
  import opened Codes

  datatype SessionState =
    | Created | Offered | Accepted | Running | Submitted | Validating
    | Settled | Challenged | Rejected | TimedOut | Cancelled

  datatype Role = Agent | Miner | Validator | TheSimulator

  const INVALID_TRANSITION := "simulation.invalid_transition"
  const VALIDATION_ERROR := "validation error"

  function AllowedTransitions(s: SessionState): set<SessionState> {
    match s
    case Created => {Offered, Cancelled}
    case Offered => {Accepted, Rejected, TimedOut, Cancelled}
    case Accepted => {Running, Cancelled, TimedOut}
    case Running => {Submitted, Cancelled, TimedOut}
    case Submitted => {Validating, Challenged}
    case Validating => {Settled, Challenged, TimedOut}
    case Challenged => {Settled, Rejected, TimedOut}
    case _ => {}
  }

  predicate Allowed(from: SessionState, to: SessionState) {
    to in AllowedTransitions(from)
  }

  predicate IsTerminal(s: SessionState) {
    AllowedTransitions(s) == {}
  }

  /** recordedAt is in milliseconds after the fixed simulation epoch. */
  datatype Event = Event(index: nat, recordedAt: nat, actor: Role, fromState: Option<SessionState>, toState: SessionState,
                         code: string, observation: Option<string>)

  /** The transition table, edge by edge; the four states without an edge are terminal. */
  lemma TransitionTable(from: SessionState, to: SessionState)
    ensures Allowed(from, to) <==> (from, to) in {
      (Created, Offered), (Created, Cancelled),
      (Offered, Accepted), (Offered, Rejected), (Offered, TimedOut), (Offered, Cancelled),
      (Accepted, Running), (Accepted, Cancelled), (Accepted, TimedOut),
      (Running, Submitted), (Running, Cancelled), (Running, TimedOut),
      (Submitted, Validating), (Submitted, Challenged),
      (Validating, Settled), (Validating, Challenged), (Validating, TimedOut),
      (Challenged, Settled), (Challenged, Rejected), (Challenged, TimedOut)}
    ensures IsTerminal(from) <==> from in {Settled, Rejected, TimedOut, Cancelled}
  {
  }

  // ----- The log -----

  /** What a sound log looks like: it starts at creation, and each event links to the one before it. */
  predicate IsChain(events: seq<Event>) {
    && events != []
    && events[0].fromState == None && events[0].toState == Created
    && (forall i :: 0 <= i < |events| ==> events[i].index == i == events[i].recordedAt)
    && (forall i :: 0 < i < |events| ==> Linked(events[i - 1], events[i]))
  }

  predicate Linked(before: Event, after: Event) {
    after.fromState == Some(before.toState) && Allowed(before.toState, after.toState)
  }

  /** How far along the longest path to a terminal state a session is; every allowed transition moves it on. */
  function Progress(s: SessionState): nat {
    match s
    case Created => 0
    case Offered => 1
    case Accepted => 2
    case Running => 3
    case Submitted => 4
    case Validating => 5
    case Challenged => 6
    case _ => 7
  }

  /** The states a log passes through. */
  function States(events: seq<Event>): (r: seq<SessionState>)
    ensures |r| == |events|
  {
    seq(|events|, i requires 0 <= i < |events| => events[i].toState)
  }

  /** One call of `transition`. */
  datatype Call = Call(toState: SessionState, actor: Role, code: string, observation: Option<string>)

  /** What a machine holds. */
  datatype Session = Session(state: SessionState, events: seq<Event>)

  /** The log is a chain and tells the state. */
  predicate Coherent(s: Session) {
    IsChain(s.events) && s.events[|s.events| - 1].toState == s.state
  }

  const CREATION := Event(0, 0, Agent, None, Created, "session.created", None)
  const NEW_SESSION := Session(Created, [CREATION])

  /** One call: refused, or accepted, or accepted and then unable to build its event. The state moves before the event
      is built, so a malformed code leaves the state ahead of the log. */
  function After(s: Session, c: Call): Session {
    if !Allowed(s.state, c.toState) then s
    else if !ValidCode(c.code) then s.(state := c.toState)
    else Session(c.toState, s.events + [Event(|s.events|, |s.events|, c.actor, Some(s.state), c.toState, c.code, c.observation)])
  }

  /** A new machine after a sequence of calls. */
  function Replay(calls: seq<Call>): Session {
    if calls == [] then NEW_SESSION else After(Replay(calls[..|calls| - 1]), calls[|calls| - 1])
  }

  class SessionMachine {
    var state: SessionState
    var events: seq<Event>

    function Holds(): Session
      reads this
    {
      Session(state, events)
    }

    constructor ()
      ensures Holds() == NEW_SESSION && Coherent(Holds()) && States(events) == [Created]
    {
      state := Created;
      events := [CREATION];
    }

    /** `transition`: the state is assigned before the event is built and appended. */
    method Transition(toState: SessionState, actor: Role, code: string, observation: Option<string>)
      returns (r: Result<Event, string>)
      modifies this
      ensures Holds() == After(old(Holds()), Call(toState, actor, code, observation))
      ensures !Allowed(old(state), toState) ==>
        r == Err(INVALID_TRANSITION) && state == old(state) && events == old(events)
      ensures Allowed(old(state), toState) && !ValidCode(code) ==>
        r == Err(VALIDATION_ERROR) && state == toState && events == old(events)
      ensures Allowed(old(state), toState) && ValidCode(code) ==>
        r == Ok(Event(|old(events)|, |old(events)|, actor, Some(old(state)), toState, code, observation))
        && state == toState && events == old(events) + [r.value] && States(events) == old(States(events)) + [toState]
      ensures old(Coherent(Holds())) ==> (Coherent(Holds()) <==> !Allowed(old(state), toState) || ValidCode(code))
    {
      hide ValidCode, IsChain;
      CoherenceOfCall(Holds(), Call(toState, actor, code, observation));
      if toState !in AllowedTransitions(state) {
        return Err(INVALID_TRANSITION);
      }
      var previous := state;
      state := toState;
      if !ValidCode(code) {
        return Err(VALIDATION_ERROR);
      }
      var event := Event(|events|, |events|, actor, Some(previous), toState, code, observation);
      events := events + [event];
      return Ok(event);
    }
  }

  // ----- When is the log sound? -----

  /** The log never shows more progress than the state. */
  predicate Lagging(s: Session) {
    s.events != [] && Progress(s.events[|s.events| - 1].toState) <= Progress(s.state)
  }

  lemma AllowedMovesOn(from: SessionState, to: SessionState)
    requires Allowed(from, to)
    ensures Progress(from) < Progress(to)
  {
  }

  /** A call keeps a sound log sound exactly when it is refused or carries a valid code, and never repairs an unsound one. */
  lemma CoherenceOfCall(s: Session, c: Call)
    ensures Coherent(s) ==> (Coherent(After(s, c)) <==> !Allowed(s.state, c.toState) || ValidCode(c.code))
    ensures Lagging(s) ==> Lagging(After(s, c)) && (Coherent(After(s, c)) ==> Coherent(s))
  {
    hide ValidCode, Allowed, Progress;
    if Allowed(s.state, c.toState) {
      AllowedMovesOn(s.state, c.toState);
      if ValidCode(c.code) && s.events != [] { AppendedLink(s, c); }
    }
  }

  lemma AppendedLink(s: Session, c: Call)
    requires s.events != [] && Allowed(s.state, c.toState) && ValidCode(c.code)
    ensures Coherent(After(s, c)) <==> Coherent(s)
  {
    hide ValidCode, Allowed;
    var t := After(s, c).events;
    assert forall i :: 0 <= i < |s.events| ==> t[i] == s.events[i];
    if IsChain(t) { assert Linked(t[|t| - 2], t[|t| - 1]); }
  }

  /** Every call that was allowed when it was made carried a valid code. */
  predicate CodesValid(calls: seq<Call>) {
    forall i :: 0 <= i < |calls| && Allowed(Replay(calls[..i]).state, calls[i].toState) ==> ValidCode(calls[i].code)
  }

  /** After any sequence of calls the log is a chain that ends in the state, if and only if every call that was allowed
      when it was made carried a valid code. */
  lemma {:induction false} CoherentExactly(calls: seq<Call>)
    ensures Coherent(Replay(calls)) <==> CodesValid(calls)
    ensures Lagging(Replay(calls))
  {
    hide ValidCode, Allowed, IsChain, After;
    NewSessionIsCoherent();
    if calls != [] {
      var n := |calls| - 1;
      CoherentExactly(calls[..n]);
      CoherenceOfCall(Replay(calls[..n]), calls[n]);
      CodesValidSplit(calls);
    }
  }

  lemma NewSessionIsCoherent()
    ensures Coherent(NEW_SESSION)
  {
  }

  lemma CodesValidSplit(calls: seq<Call>)
    requires calls != []
    ensures var n := |calls| - 1;
      CodesValid(calls) <==> CodesValid(calls[..n]) && (Allowed(Replay(calls[..n]).state, calls[n].toState) ==> ValidCode(calls[n].code))
  {
    hide ValidCode, Allowed, Replay;
    var n := |calls| - 1;
    assert forall i :: 0 <= i < n ==> calls[..n][..i] == calls[..i];
  }

  /** An empty code on the first transition: the state moves and no event is written; the next legal event then starts
      from a state the log never reached. */
  lemma EmptyCodeBreaksLog()
    ensures var calls := [Call(Offered, Miner, "", None), Call(Accepted, Agent, "agent.accept", None)];
      && Replay(calls[..1]) == Session(Offered, [CREATION]) && !Coherent(Replay(calls[..1]))
      && Replay(calls) == Session(Accepted, [CREATION, Event(1, 1, Agent, Some(Offered), Accepted, "agent.accept", None)])
      && !IsChain(Replay(calls).events)
  {
    var calls := [Call(Offered, Miner, "", None), Call(Accepted, Agent, "agent.accept", None)];
    SessionCodes();
    assert calls[..1][..0] == [] && calls[..1] == [calls[0]];
    assert Replay(calls[..1]) == Session(Offered, [CREATION]);
    assert Replay(calls) == After(Replay(calls[..1]), calls[1]);
    assert !Linked(Replay(calls).events[0], Replay(calls).events[1]);
  }

  /** The calls that would write a log after its creation event. */
  function CallsOf(events: seq<Event>): (calls: seq<Call>)
    requires events != []
    ensures |calls| == |events| - 1
  {
    seq(|events| - 1, i requires 0 <= i < |events| - 1 =>
      Call(events[i + 1].toState, events[i + 1].actor, events[i + 1].code, events[i + 1].observation))
  }

  predicate EventsValid(events: seq<Event>) {
    forall i :: 0 <= i < |events| ==> ValidCode(events[i].code)
  }

  lemma {:induction false} ChainIsReplayed(events: seq<Event>)
    requires IsChain(events) && events[0] == CREATION && EventsValid(events)
    ensures Replay(CallsOf(events)) == Session(events[|events| - 1].toState, events)
    decreases |events|
  {
    hide ValidCode, Allowed;
    var n := |events|;
    if n > 1 {
      var init := events[..n - 1];
      ChainIsReplayed(init);
      assert Linked(events[n - 2], events[n - 1]);
      assert CallsOf(events)[..n - 2] == CallsOf(init);
      assert events == init + [events[n - 1]];
    }
  }

  lemma {:induction false} ReplayWritesValidEvents(calls: seq<Call>)
    ensures var events := Replay(calls).events; events != [] && events[0] == CREATION && EventsValid(events)
  {
    SessionCodes();
    hide ValidCode, Allowed;
    if calls != [] { ReplayWritesValidEvents(calls[..|calls| - 1]); }
  }

  /** The sound sessions that sequences of calls can produce are exactly the chains of valid events from creation. */
  lemma LogsAreChains(s: Session)
    requires Coherent(s)
    ensures (exists calls :: Replay(calls) == s) <==> s.events[0] == CREATION && EventsValid(s.events)
  {
    hide EventsValid, ValidCode, Allowed;
    forall calls | Replay(calls) == s ensures s.events[0] == CREATION && EventsValid(s.events) {
      ReplayWritesValidEvents(calls);
    }
    if s.events[0] == CREATION && EventsValid(s.events) { ChainIsReplayed(s.events); }
  }

  // ----- Which states can a session pass through? -----

  /** A walk through the transition table from creation. */
  predicate IsWalk(states: seq<SessionState>) {
    states != [] && states[0] == Created && forall i :: 0 < i < |states| ==> Allowed(states[i - 1], states[i])
  }

  lemma ChainIsWalk(events: seq<Event>)
    requires IsChain(events)
    ensures IsWalk(States(events))
  {
    forall i | 0 < i < |events| ensures Allowed(States(events)[i - 1], States(events)[i]) {
      assert Linked(events[i - 1], events[i]);
    }
  }

  /** The states a machine was in, whether or not an event tells of them. */
  function Visited(calls: seq<Call>): (states: seq<SessionState>)
    ensures states != []
  {
    if calls == [] then [Created]
    else
      var before, last := calls[..|calls| - 1], calls[|calls| - 1];
      Visited(before) + if Allowed(Replay(before).state, last.toState) then [last.toState] else []
  }

  lemma {:induction false} VisitedIsWalk(calls: seq<Call>)
    ensures IsWalk(Visited(calls)) && Visited(calls)[|Visited(calls)| - 1] == Replay(calls).state
    ensures |Replay(calls).events| <= |Visited(calls)|
  {
    hide ValidCode, Allowed;
    if calls != [] { VisitedIsWalk(calls[..|calls| - 1]); }
  }

  lemma WalkIsBounded(states: seq<SessionState>)
    requires IsWalk(states)
    ensures |states| <= 8
  {
    ProgressAlongWalk(states, |states| - 1);
  }

  lemma {:induction false} ProgressAlongWalk(states: seq<SessionState>, i: nat)
    requires IsWalk(states) && i < |states|
    ensures i <= Progress(states[i])
  {
    if i > 0 {
      ProgressAlongWalk(states, i - 1);
      AllowedMovesOn(states[i - 1], states[i]);
    }
  }

  /** However many calls are made, accepted, refused or malformed, a machine writes at most eight events. */
  lemma LogIsBounded(calls: seq<Call>)
    ensures |Replay(calls).events| <= 8
  {
    VisitedIsWalk(calls);
    WalkIsBounded(Visited(calls));
  }

  /** A walk that settles starts with offer, acceptance, running and submission, and was validated or challenged just
      before. */
  lemma SettlementIsEarned(states: seq<SessionState>)
    requires IsWalk(states) && states[|states| - 1] == Settled
    ensures |states| >= 7 && states[..5] == [Created, Offered, Accepted, Running, Submitted]
    ensures states[|states| - 2] in {Validating, Challenged}
  {
    var n := |states|;
    assert n > 0;
    hide IsWalk;
    Predecessor(states, n - 1);
    Predecessor(states, n - 2);
    if states[n - 3] == Submitted {
      SubmissionIsFifth(states, n - 3);
    } else {
      Predecessor(states, n - 3);
      SubmissionIsFifth(states, n - 4);
    }
  }

  /** However the calls go, a machine is only ever settled after all of these states. */
  lemma SettledMachineWasSubmitted(calls: seq<Call>)
    requires Replay(calls).state == Settled
    ensures |Visited(calls)| >= 7 && Visited(calls)[..5] == [Created, Offered, Accepted, Running, Submitted]
  {
    VisitedIsWalk(calls);
    SettlementIsEarned(Visited(calls));
  }

  lemma Predecessor(states: seq<SessionState>, k: nat)
    requires IsWalk(states) && k < |states| && states[k] != Created
    ensures k > 0 && Allowed(states[k - 1], states[k])
  {
  }

  lemma OnlyFirstIsCreated(states: seq<SessionState>, k: nat)
    requires IsWalk(states) && 0 < k < |states|
    ensures states[k] != Created
  {
    assert Allowed(states[k - 1], states[k]);
  }

  lemma SubmissionIsFifth(states: seq<SessionState>, k: nat)
    requires IsWalk(states) && k < |states| && states[k] == Submitted
    ensures k == 4 && states[..5] == [Created, Offered, Accepted, Running, Submitted]
  {
    Predecessor(states, k);
    Predecessor(states, k - 1);
    Predecessor(states, k - 2);
    Predecessor(states, k - 3);
    if k > 4 { OnlyFirstIsCreated(states, k - 4); }
  }

  /** Nothing follows a terminal state. */
  lemma TerminalIsLast(states: seq<SessionState>, i: nat)
    requires IsWalk(states) && i + 1 < |states|
    ensures !IsTerminal(states[i])
  {
    assert Allowed(states[i], states[i + 1]);
  }

  // ----- Scenarios -----

  datatype Scenario =
    | Success | WrongModel | HighLatency | CannedAnswer | Timeout | MinerCancel | ValidatorMatch | ValidatorMismatch

  datatype Request = Request(scenario: Scenario, modelDigest: string, maxLatencyMs: nat)

  datatype Challenge = Challenge(reason: string, action: string, fullRerun: bool, outcome: string)

  const REQUESTED_FEE := 25
  const MOCK_STAKE := 100
  const MOCK_SLASH := 40

  datatype Accounting = Accounting(requestedFee: nat, chargedFee: nat, stake: nat, slashed: nat, refunded: nat)

  function AccountingFor(final: SessionState): (a: Accounting)
    ensures a.slashed + a.refunded == a.stake
    ensures a.chargedFee > 0 <==> final == Settled
    ensures a.slashed > 0 <==> final == Rejected
  {
    var slashed := if final == Rejected then MOCK_SLASH else 0;
    Accounting(REQUESTED_FEE, if final == Settled then REQUESTED_FEE else 0, MOCK_STAKE, slashed, MOCK_STAKE - slashed)
  }

  /** The challenge a scenario provokes, if any. */
  function ChallengeReason(s: Scenario): Option<string> {
    match s
    case WrongModel => Some("model_digest_mismatch")
    case HighLatency => Some("latency_limit_exceeded")
    case CannedAnswer => Some("canned_answer_detected")
    case ValidatorMismatch => Some("validator_sample_mismatch")
    case _ => None
  }

  /** The states a scenario passes through, as the documentation draws them. */
  function Path(s: Scenario): seq<SessionState> {
    [Created, Offered, Accepted, Running] +
    match s
    case MinerCancel => [Cancelled]
    case Timeout => [TimedOut]
    case _ =>
      [Submitted, Validating] + if ChallengeReason(s).Some? then [Challenged, Rejected] else [Settled]
  }

  /** The amounts: the fee is charged on settlement alone, and forty of the stake of a hundred are slashed on rejection. */
  lemma Amounts(final: SessionState)
    ensures AccountingFor(final) == match final
      case Settled => Accounting(25, 25, 100, 0, 100)
      case Rejected => Accounting(25, 0, 100, 40, 60)
      case _ => Accounting(25, 0, 100, 0, 100)
  {
  }

  /** Which scenarios are challenged, and why. */
  lemma Reasons(s: Scenario)
    ensures ChallengeReason(s) == if s.WrongModel? then Some("model_digest_mismatch")
      else if s.HighLatency? then Some("latency_limit_exceeded")
      else if s.CannedAnswer? then Some("canned_answer_detected")
      else if s.ValidatorMismatch? then Some("validator_sample_mismatch") else None
  {
  }

  // ----- What a scenario does -----

  const OPENING: seq<Call> := [
    Call(Offered, Miner, "miner.offer", None), Call(Accepted, Agent, "agent.accept", None), Call(Running, Miner, "miner.start", None)]

  /** What the miner submits. */
  function Submission(request: Request, wrongDigest: string): string {
    "model=" + (if request.scenario.WrongModel? then wrongDigest else request.modelDigest)
      + ";latency_ms=" + Decimal(if request.scenario.HighLatency? then 750 else 240)
      + ";answer=" + (if request.scenario.CannedAnswer? then "canned" else "generated")
  }

  function ValidationCalls(request: Request, wrongDigest: string): seq<Call> {
    [Call(Submitted, Miner, "miner.submitted", Some(Submission(request, wrongDigest))),
     Call(Validating, Validator, "validator.sample", None)]
    + match ChallengeReason(request.scenario)
      case None => [Call(Settled, Validator, "validator.settled", None)]
      case Some(reason) =>
        [Call(Challenged, Validator, "challenge." + reason, None), Call(Rejected, Validator, "challenge.rejected", None)]
  }

  /** Every call a scenario makes, with its actor, code and observation. */
  function ScenarioCalls(request: Request, wrongDigest: string): seq<Call> {
    OPENING + ClosingCalls(request, wrongDigest)
  }

  function ClosingCalls(request: Request, wrongDigest: string): seq<Call> {
    match request.scenario
    case MinerCancel => [Call(Cancelled, Miner, "miner.cancelled", None)]
    case Timeout => [Call(TimedOut, TheSimulator, "policy.execution_timeout", Some("limit=" + Decimal(request.maxLatencyMs) + "ms"))]
    case _ => ValidationCalls(request, wrongDigest)
  }

  /** The calls are allowed one after another, with valid codes, from this state on. */
  predicate Follows(state: SessionState, calls: seq<Call>)
    decreases calls
  {
    calls == [] || (Allowed(state, calls[0].toState) && ValidCode(calls[0].code) && Follows(calls[0].toState, calls[1..]))
  }

  function Targets(calls: seq<Call>): (r: seq<SessionState>)
    ensures |r| == |calls|
  {
    seq(|calls|, i requires 0 <= i < |calls| => calls[i].toState)
  }

  /** Calls that follow a session are all accepted, and write one event each. */
  lemma {:induction false} FollowedCalls(calls: seq<Call>, more: seq<Call>)
    requires Coherent(Replay(calls)) && Follows(Replay(calls).state, more)
    ensures Coherent(Replay(calls + more))
    ensures States(Replay(calls + more).events) == States(Replay(calls).events) + Targets(more)
    decreases more
  {
    hide ValidCode, Allowed, IsChain, Coherent, States, Replay, Targets;
    if more == [] {
      assert calls + more == calls;
      NoTargets();
    } else {
      FollowedCall(calls, more[0]);
      FollowedCalls(calls + [more[0]], more[1..]);
      assert calls + more == calls + [more[0]] + more[1..];
      FirstTarget(more);
    }
  }

  lemma NoTargets()
    ensures Targets([]) == []
  {
  }

  lemma FirstTarget(calls: seq<Call>)
    requires calls != []
    ensures Targets(calls) == [calls[0].toState] + Targets(calls[1..])
  {
  }

  lemma FollowedCall(calls: seq<Call>, c: Call)
    requires Coherent(Replay(calls)) && Allowed(Replay(calls).state, c.toState) && ValidCode(c.code)
    ensures Coherent(Replay(calls + [c])) && Replay(calls + [c]).state == c.toState
    ensures States(Replay(calls + [c]).events) == States(Replay(calls).events) + [c.toState]
  {
    hide ValidCode, Allowed, IsChain;
    ReplayOneMore(calls, c);
    CoherenceOfCall(Replay(calls), c);
  }

  lemma ValidationFollows(request: Request, wrongDigest: string)
    ensures Follows(Running, ValidationCalls(request, wrongDigest))
    ensures Targets(ValidationCalls(request, wrongDigest)) == [Submitted, Validating]
      + if ChallengeReason(request.scenario).Some? then [Challenged, Rejected] else [Settled]
  {
    ScenarioTransitions();
    ValidationCodes();
    ChallengeCode(request.scenario);
    hide ValidCode, Allowed, Decimal, Submission;
    var calls := ValidationCalls(request, wrongDigest);
    assert calls[1..][1..] == calls[2..] && calls[2..][1..] == calls[3..];
    if |calls| == 3 {
      assert calls[3..] == [] && Follows(Validating, calls[2..]);
    } else {
      assert calls[3..][1..] == [] && Follows(Challenged, calls[3..]) && Follows(Validating, calls[2..]);
    }
    assert Follows(Submitted, calls[1..]);
  }

  lemma {:induction false} FollowsConcat(state: SessionState, a: seq<Call>, b: seq<Call>)
    requires a != [] && Follows(state, a) && Follows(a[|a| - 1].toState, b)
    ensures Follows(state, a + b)
    decreases a
  {
    hide ValidCode, Allowed;
    assert (a + b)[0] == a[0] && (a + b)[1..] == a[1..] + b;
    if |a| > 1 {
      FollowsConcat(a[0].toState, a[1..], b);
    } else {
      assert a[1..] + b == b;
    }
  }

  lemma OpeningFollows()
    ensures Follows(Created, OPENING) && Targets(OPENING) == [Offered, Accepted, Running]
  {
    ScenarioTransitions();
    SessionCodes();
    hide ValidCode, Allowed;
    assert OPENING[1..][1..] == [OPENING[2]] && [OPENING[2]][1..] == [];
  }

  /** Every scenario's calls are accepted, its log is sound and its states are the documented path. */
  lemma ScenarioFollowsPath(request: Request, wrongDigest: string)
    ensures var s := Replay(ScenarioCalls(request, wrongDigest));
      Coherent(s) && States(s.events) == Path(request.scenario) && IsTerminal(s.state)
  {
    OpeningFollows();
    ClosingFollows(request, wrongDigest);
    NewReplay();
    hide ValidCode, Allowed, ClosingCalls, IsChain, Coherent, Replay, Follows, Path, Targets, IsTerminal;
    var calls := ScenarioCalls(request, wrongDigest);
    FollowsConcat(Created, OPENING, ClosingCalls(request, wrongDigest));
    FollowedCalls([], calls);
    assert [] + calls == calls;
    TargetsConcat(OPENING, ClosingCalls(request, wrongDigest));
    LastState(Replay(calls));
  }

  lemma TargetsConcat(a: seq<Call>, b: seq<Call>)
    ensures Targets(a + b) == Targets(a) + Targets(b)
  {
  }

  lemma ClosingFollows(request: Request, wrongDigest: string)
    ensures var calls := ClosingCalls(request, wrongDigest);
      && Follows(Running, calls) && [Created, Offered, Accepted, Running] + Targets(calls) == Path(request.scenario)
      && IsTerminal(Path(request.scenario)[|Path(request.scenario)| - 1])
  {
    ScenarioTransitions();
    SessionCodes();
    ValidationFollows(request, wrongDigest);
    hide ValidCode, Allowed, Decimal, ValidationCalls;
    var calls := ClosingCalls(request, wrongDigest);
    if request.scenario.MinerCancel? || request.scenario.Timeout? { assert calls[1..] == []; }
  }

  lemma NewReplay()
    ensures Replay([]) == NEW_SESSION && Coherent(NEW_SESSION) && States(NEW_SESSION.events) == [Created]
  {
  }

  lemma LastState(s: Session)
    requires Coherent(s)
    ensures States(s.events) != [] && s.state == States(s.events)[|States(s.events)| - 1]
  {
  }

  datatype SimulationResult = SimulationResult(
    events: seq<Event>, challenge: Option<Challenge>, accounting: Accounting, finalState: SessionState)

  /** The transitions the scenarios rely on, and the states they end in. */
  lemma ScenarioTransitions()
    ensures Allowed(Created, Offered) && Allowed(Offered, Accepted) && Allowed(Accepted, Running)
    ensures Allowed(Running, Cancelled) && Allowed(Running, TimedOut) && Allowed(Running, Submitted)
    ensures Allowed(Submitted, Validating) && Allowed(Validating, Settled) && Allowed(Validating, Challenged)
    ensures Allowed(Challenged, Rejected)
    ensures IsTerminal(Settled) && IsTerminal(Rejected) && IsTerminal(TimedOut) && IsTerminal(Cancelled)
  {
  }

  /** The code of a challenge event is valid for every reason. */
  lemma ChallengeCode(s: Scenario)
    ensures ChallengeReason(s).Some? ==> ValidCode("challenge." + ChallengeReason(s).value)
  {
    ValidationCodes();
    if ChallengeReason(s).Some? { ValidWithSuffix("challenge.", ChallengeReason(s).value); }
  }

  /** `run_simulation`: it makes exactly the scenario's calls, so its log is sound and follows the documented path to a
      terminal state, and a challenge is recorded exactly on rejection. */
  method RunSimulation(request: Request, wrongDigest: string) returns (r: SimulationResult)
    ensures r.events == Replay(ScenarioCalls(request, wrongDigest)).events
    ensures IsChain(r.events) && States(r.events) == Path(request.scenario)
    ensures r.finalState == r.events[|r.events| - 1].toState && IsTerminal(r.finalState)
    ensures r.accounting == AccountingFor(r.finalState)
    ensures r.challenge.Some? <==> r.finalState == Rejected
    ensures r.challenge == ExpectedChallenge(request.scenario)
  {
    ScenarioFollowsPath(request, wrongDigest);
    ChallengeMeansRejection(request.scenario);
    hide IsChain, Decimal, AccountingFor, States, Allowed, IsTerminal, After, Submission, Path, ChallengeReason;
    var machine := OpenSession();
    var challenge: Option<Challenge> := None;
    if request.scenario.MinerCancel? {
      var _ := machine.Transition(Cancelled, Miner, "miner.cancelled", None);
    } else if request.scenario.Timeout? {
      var _ := machine.Transition(TimedOut, TheSimulator, "policy.execution_timeout",
        Some("limit=" + Decimal(request.maxLatencyMs) + "ms"));
    } else {
      challenge := RunValidation(machine, request, wrongDigest);
    }
    if request.scenario.MinerCancel? || request.scenario.Timeout? {
      var last := ScenarioCalls(request, wrongDigest)[3];
      assert ScenarioCalls(request, wrongDigest) == OPENING + [last];
      ReplayOneMore(OPENING, last);
    }
    LastOfPath(request, wrongDigest);
    r := SimulationResult(machine.events, challenge, AccountingFor(machine.state), machine.state);
  }

  /** The challenge a scenario leaves. */
  function ExpectedChallenge(s: Scenario): Option<Challenge> {
    match ChallengeReason(s)
    case None => None
    case Some(reason) =>
      Some(Challenge(reason, if s.ValidatorMismatch? then "full-rerun" else "sample", s.ValidatorMismatch?, "rejected"))
  }

  lemma ChallengeMeansRejection(s: Scenario)
    ensures ExpectedChallenge(s).Some? <==> Path(s)[|Path(s)| - 1] == Rejected
    ensures s.MinerCancel? || s.Timeout? ==> ExpectedChallenge(s) == None
  {
  }

  lemma LastOfPath(request: Request, wrongDigest: string)
    ensures var s := Replay(ScenarioCalls(request, wrongDigest));
      s.events != [] && s.state == s.events[|s.events| - 1].toState == Path(request.scenario)[|Path(request.scenario)| - 1]
  {
    ScenarioFollowsPath(request, wrongDigest);
    LastState(Replay(ScenarioCalls(request, wrongDigest)));
  }

  lemma ReplayOneMore(calls: seq<Call>, c: Call)
    ensures Replay(calls + [c]) == After(Replay(calls), c)
  {
    assert (calls + [c])[..|calls|] == calls;
  }

  method OpenSession() returns (machine: SessionMachine)
    ensures fresh(machine) && machine.Holds() == Replay(OPENING)
  {
    hide After, Coherent, States, Allowed, ValidCode;
    machine := new SessionMachine();
    var _ := machine.Transition(Offered, Miner, "miner.offer", None);
    var _ := machine.Transition(Accepted, Agent, "agent.accept", None);
    var _ := machine.Transition(Running, Miner, "miner.start", None);
    ReplayOneMore([], OPENING[0]);
    ReplayOneMore([OPENING[0]], OPENING[1]);
    ReplayOneMore([OPENING[0], OPENING[1]], OPENING[2]);
    assert [] + [OPENING[0]] == [OPENING[0]] && [OPENING[0]] + [OPENING[1]] == [OPENING[0], OPENING[1]];
    assert [OPENING[0], OPENING[1]] + [OPENING[2]] == OPENING;
  }

  /** The miner submits and the validator settles, or challenges and rejects. */
  method RunValidation(machine: SessionMachine, request: Request, wrongDigest: string) returns (challenge: Option<Challenge>)
    requires machine.Holds() == Replay(OPENING)
    modifies machine
    ensures machine.Holds() == Replay(OPENING + ValidationCalls(request, wrongDigest))
    ensures challenge == ExpectedChallenge(request.scenario)
  {
    ValidationReplay(request, wrongDigest);
    hide After, Coherent, States, Allowed, ValidCode, Decimal, Replay, ValidationCalls, IsChain;
    var scenario := request.scenario;
    var digest := if scenario.WrongModel? then wrongDigest else request.modelDigest;
    var latency := if scenario.HighLatency? then 750 else 240;
    var answer := if scenario.CannedAnswer? then "canned" else "generated";
    var observation := "model=" + digest + ";latency_ms=" + Decimal(latency) + ";answer=" + answer;
    assert observation == Submission(request, wrongDigest);
    var _ := machine.Transition(Submitted, Miner, "miner.submitted", Some(observation));
    var _ := machine.Transition(Validating, Validator, "validator.sample", None);
    var reason: Option<string> := None;
    if scenario.WrongModel? {
      reason := Some("model_digest_mismatch");
    } else if scenario.HighLatency? {
      reason := Some("latency_limit_exceeded");
    } else if scenario.CannedAnswer? {
      reason := Some("canned_answer_detected");
    } else if scenario.ValidatorMismatch? {
      reason := Some("validator_sample_mismatch");
    }
    assert reason == ChallengeReason(scenario);
    if reason.None? {
      var _ := machine.Transition(Settled, Validator, "validator.settled", None);
      return None;
    }
    var _ := machine.Transition(Challenged, Validator, "challenge." + reason.value, None);
    var fullRerun := scenario.ValidatorMismatch?;
    challenge := Some(Challenge(reason.value, if fullRerun then "full-rerun" else "sample", fullRerun, "rejected"));
    var _ := machine.Transition(Rejected, Validator, "challenge.rejected", None);
  }

  /** The calls of the validation, one after another. */
  lemma ValidationReplay(request: Request, wrongDigest: string)
    ensures var s0 := Replay(OPENING);
      var s1 := After(s0, Call(Submitted, Miner, "miner.submitted", Some(Submission(request, wrongDigest))));
      var s2 := After(s1, Call(Validating, Validator, "validator.sample", None));
      Replay(OPENING + ValidationCalls(request, wrongDigest)) == match ChallengeReason(request.scenario)
        case None => After(s2, Call(Settled, Validator, "validator.settled", None))
        case Some(reason) =>
          After(After(s2, Call(Challenged, Validator, "challenge." + reason, None)), Call(Rejected, Validator, "challenge.rejected", None))
  {
    hide After, Submission, Replay;
    var calls := ValidationCalls(request, wrongDigest);
    ReplayOneMore(OPENING, calls[0]);
    ReplayOneMore(OPENING + [calls[0]], calls[1]);
    ReplayOneMore(OPENING + [calls[0]] + [calls[1]], calls[2]);
    if |calls| == 3 {
      assert OPENING + calls == OPENING + [calls[0]] + [calls[1]] + [calls[2]];
    } else {
      ReplayOneMore(OPENING + [calls[0]] + [calls[1]] + [calls[2]], calls[3]);
      assert OPENING + calls == OPENING + [calls[0]] + [calls[1]] + [calls[2]] + [calls[3]];
    }
  }
}
