/** Sending and connecting under partial progress (benchmark/transport.py). */
module Transport {
  import opened Outcomes
  import opened Adapters
  import opened Deadline

  const SEND_CHUNK := 65536

  /** How a transport call raises. */
  datatype Failure = SocketError | ByCheck(kind: ErrorKind)

  // ----- send -----

  /** What one socket.send call does with a chunk: takes some of it, would block (for reading or writing), or fails. */
  datatype SendEvent = Takes(count: nat) | WouldBlock | Breaks

  /** One turn of the send loop: the check, the socket's answer, and the check made while waiting. */
  datatype Turn = Turn(check: Check, event: SendEvent, waitCheck: Check)

  /** What one call accepts of the bytes left, of which it is offered at most 65536. */
  function AcceptedBy(e: SendEvent, left: nat): (n: nat)
    ensures n <= left
  {
    if e.Takes? then Least(e.count, Least(65536, left)) else 0
  }

  /** How many of the first `total` bytes the socket has accepted in turns first to last - 1. */
  function Taken(turns: seq<Turn>, first: nat, last: nat, total: nat): (n: nat)
    requires first <= last <= |turns|
    ensures n <= total
    decreases last - first
  {
    if first == last then 0
    else
      var before := Taken(turns, first, last - 1, total);
      before + AcceptedBy(turns[last - 1].event, total - before)
  }

  lemma TakenTurn(turns: seq<Turn>, first: nat, turn: nat, total: nat)
    requires first <= turn < |turns|
    ensures var before := Taken(turns, first, turn, total);
      Taken(turns, first, turn + 1, total) == before + AcceptedBy(turns[turn].event, total - before)
  {
  }

  lemma NothingTaken(turns: seq<Turn>, turn: nat, total: nat)
    requires turn <= |turns|
    ensures Taken(turns, turn, turn, total) == 0
  {
  }

  lemma Prefixes(before: seq<Octet>, data: seq<Octet>)
    ensures forall n: nat :: n <= |data| ==>
      before <= before + data[..n] <= before + data && (before + data[..n] == before + data <==> n == |data|)
  {
    forall n: nat | n <= |data|
      ensures before <= before + data[..n] <= before + data && (before + data[..n] == before + data <==> n == |data|)
    {
      assert before + data[..n] + data[n..] == before + data;
    }
  }

  lemma DeliverMore(before: seq<Octet>, data: seq<Octet>, sent: nat, count: nat)
    requires sent + count <= |data|
    ensures before + data[..sent] + data[sent..sent + count] == before + data[..sent + count]
  {
    assert data[..sent] + data[sent..sent + count] == data[..sent + count];
  }

  function Least(a: nat, b: nat): nat {
    if a <= b then a else b
  }

  /** The check that stops a sender standing before this turn: the one made while waiting, the next one, or the deadline. */
  function StoppedBy(turns: seq<Turn>, first: nat, turn: nat): ErrorKind
    requires first <= turn <= |turns|
  {
    if turn > first && turns[turn - 1].event.WouldBlock? && !turns[turn - 1].waitCheck.Pass? then KindOf(turns[turn - 1].waitCheck)
    else if turn < |turns| && !turns[turn].check.Pass? then KindOf(turns[turn].check)
    else TimedOut
  }

  /** A connected socket; after the scripted turns the deadline has passed. */
  class Connection {
    const turns: seq<Turn>
    var turn: nat
    var delivered: seq<Octet>

    constructor (turns: seq<Turn>)
      ensures this.turns == turns && turn == 0 && delivered == []
    {
      this.turns := turns;
      turn, delivered := 0, [];
    }

    /** `BoundedConnection.send`. */
    method Send(data: seq<Octet>) returns (failure: Option<Failure>)
      requires turn <= |turns|
      modifies this
      ensures old(turn) <= turn <= |turns|
      ensures old(delivered) <= delivered <= old(delivered) + data
      ensures failure.None? <==> delivered == old(delivered) + data
      ensures delivered == old(delivered) + data[..Taken(turns, old(turn), turn, |data|)]
      ensures forall i :: old(turn) <= i < turn ==> turns[i].check.Pass?
      ensures failure == Some(SocketError) ==> turn > old(turn) && (turns[turn - 1].event.Breaks? || turns[turn - 1].event == Takes(0))
      ensures failure.Some? && failure.value.ByCheck? ==> failure.value.kind == StoppedBy(turns, old(turn), turn)
    {
      Prefixes(delivered, data);
      failure := SendLoop(data);
    }

    /** Its loop over the bytes that remain. */
    method SendLoop(data: seq<Octet>) returns (failure: Option<Failure>)
      requires turn <= |turns|
      modifies this
      ensures old(turn) <= turn <= |turns|
      ensures delivered == old(delivered) + data[..Taken(turns, old(turn), turn, |data|)]
      ensures failure.None? <==> Taken(turns, old(turn), turn, |data|) == |data|
      ensures forall i :: old(turn) <= i < turn ==> turns[i].check.Pass?
      ensures failure == Some(SocketError) ==> turn > old(turn) && (turns[turn - 1].event.Breaks? || turns[turn - 1].event == Takes(0))
      ensures failure.Some? && failure.value.ByCheck? ==> failure.value.kind == StoppedBy(turns, old(turn), turn)
    {
      NothingTaken(turns, turn, |data|);
      hide Taken, AcceptedBy;
      var sent: nat := 0;  // where the remaining window of data begins
      while sent < |data|
        invariant old(turn) <= turn <= |turns| && sent <= |data|
        invariant delivered == old(delivered) + data[..sent] && sent == Taken(turns, old(turn), turn, |data|)
        invariant forall i :: old(turn) <= i < turn ==> turns[i].check.Pass?
        invariant turn > old(turn) && turns[turn - 1].event.WouldBlock? ==> turns[turn - 1].waitCheck.Pass?
        decreases |turns| - turn
      {
        if turn == |turns| {
          return Some(ByCheck(TimedOut));
        }
        if !turns[turn].check.Pass? {
          return Some(ByCheck(KindOf(turns[turn].check)));
        }
        TakenTurn(turns, old(turn), turn, |data|);
        var count;
        failure, count := SendChunk(data, sent);
        DeliverMore(old(delivered), data, sent, count);
        sent := sent + count;
        if failure.Some? {
          return;
        }
      }
      return None;
    }

    /** One call of socket.send on the window, and the wait that follows it if it would block. */
    method SendChunk(data: seq<Octet>, sent: nat) returns (failure: Option<Failure>, count: nat)
      requires turn < |turns| && sent < |data|
      modifies this
      ensures turn == old(turn) + 1
      ensures count == AcceptedBy(turns[old(turn)].event, |data| - sent)
      ensures delivered == old(delivered) + data[sent..sent + count]
      ensures failure == match turns[old(turn)].event
        case Breaks => Some(SocketError)
        case WouldBlock => if turns[old(turn)].waitCheck.Pass? then None else Some(ByCheck(KindOf(turns[old(turn)].waitCheck)))
        case Takes(n) => if n == 0 then Some(SocketError) else None
      ensures failure.Some? ==> count == 0
    {
      var now := turns[turn];
      turn, count := turn + 1, 0;
      match now.event {
        case Breaks => failure := Some(SocketError);
        case WouldBlock => failure := if now.waitCheck.Pass? then None else Some(ByCheck(KindOf(now.waitCheck)));
        case Takes(_) =>
          var offered := if |data| - sent <= SEND_CHUNK then |data| - sent else SEND_CHUNK;
          count := if now.event.count <= offered then now.event.count else offered;
          failure := if count == 0 then Some(SocketError) else None;
      }
      delivered := delivered + data[sent..sent + count];
    }
  }

  // ----- connect -----

  datatype Poll = Poll(check: Check, ready: bool, soError: int)

  datatype HandshakeStep = HandshakeStep(check: Check, event: HandshakeEvent, waitCheck: Check)
  datatype HandshakeEvent = Completes | WantsIo | TlsFails

  /** Everything that can happen to one resolved address. */
  datatype Address = Address(
    check: Check,
    creatable: bool,           // socket.socket does not raise
    code: int,                 // connect_ex
    polls: seq<Poll>,
    wrapFails: bool,
    handshake: seq<HandshakeStep>)

  const EINPROGRESS := 115
  const EWOULDBLOCK := 11
  const EALREADY := 114
  const WSAEWOULDBLOCK := 10035

  predicate Pending(code: int) {
    code == 0 || code == EINPROGRESS || code == EWOULDBLOCK || code == EALREADY || code == WSAEWOULDBLOCK
  }

  /** The wait for a non-blocking connect, from its i-th poll on. */
  function PollFrom(polls: seq<Poll>, i: nat): Option<Failure>
    requires i <= |polls|
    decreases |polls| - i
  {
    if i == |polls| then Some(ByCheck(TimedOut))
    else if !polls[i].check.Pass? then Some(ByCheck(KindOf(polls[i].check)))
    else if !polls[i].ready then PollFrom(polls, i + 1)
    else if polls[i].soError != 0 then Some(SocketError)
    else None
  }

  function HandshakeFrom(steps: seq<HandshakeStep>, i: nat): Option<Failure>
    requires i <= |steps|
    decreases |steps| - i
  {
    if i == |steps| then Some(ByCheck(TimedOut))
    else if !steps[i].check.Pass? then Some(ByCheck(KindOf(steps[i].check)))
    else match steps[i].event
      case Completes => None
      case TlsFails => Some(SocketError)
      case WantsIo =>
        if !steps[i].waitCheck.Pass? then Some(ByCheck(KindOf(steps[i].waitCheck))) else HandshakeFrom(steps, i + 1)
  }

  /** How an attempt on a created socket fails, if it does. */
  function AttemptFailure(a: Address, tls: bool): Option<Failure> {
    if !Pending(a.code) then Some(SocketError)
    else if a.code != 0 && PollFrom(a.polls, 0).Some? then PollFrom(a.polls, 0)
    else if tls && a.wrapFails then Some(SocketError)
    else if tls then HandshakeFrom(a.handshake, 0)
    else None
  }

  // ----- The same by index: the first decisive poll and handshake step -----

  predicate PollIdles(p: Poll) {
    p.check.Pass? && !p.ready
  }

  predicate FirstPoll(polls: seq<Poll>, i: int) {
    0 <= i < |polls| && !PollIdles(polls[i]) && forall j :: 0 <= j < i ==> PollIdles(polls[j])
  }

  predicate StepIdles(s: HandshakeStep) {
    s.check.Pass? && s.event.WantsIo? && s.waitCheck.Pass?
  }

  predicate FirstStep(steps: seq<HandshakeStep>, i: int) {
    0 <= i < |steps| && !StepIdles(steps[i]) && forall j :: 0 <= j < i ==> StepIdles(steps[j])
  }

  lemma {:induction false} PollsDecide(polls: seq<Poll>, i: nat)
    requires i <= |polls| && forall j :: 0 <= j < i ==> PollIdles(polls[j])
    ensures PollFrom(polls, i).None?
       <==> exists k :: FirstPoll(polls, k) && polls[k].check.Pass? && polls[k].soError == 0
    decreases |polls| - i
  {
    if i < |polls| {
      if PollIdles(polls[i]) { PollsDecide(polls, i + 1); } else { assert FirstPoll(polls, i); }
    }
  }

  lemma {:induction false} StepsDecide(steps: seq<HandshakeStep>, i: nat)
    requires i <= |steps| && forall j :: 0 <= j < i ==> StepIdles(steps[j])
    ensures HandshakeFrom(steps, i).None?
       <==> exists k :: FirstStep(steps, k) && steps[k].check.Pass? && steps[k].event.Completes?
    decreases |steps| - i
  {
    if i < |steps| {
      if StepIdles(steps[i]) { StepsDecide(steps, i + 1); } else { assert FirstStep(steps, i); }
    }
  }

  /** An attempt connects exactly when the connect code is one to wait on, the first poll that decides anything finds the
      socket ready without an error, and under TLS the first handshake step that decides anything completes it. */
  lemma ConnectedExactly(a: Address, tls: bool)
    ensures AttemptFailure(a, tls).None? <==>
      && a.code in {0, 11, 114, 115, 10035}
      && (a.code == 0 || exists k :: FirstPoll(a.polls, k) && a.polls[k].check.Pass? && a.polls[k].soError == 0)
      && (tls ==> (
            && !a.wrapFails
            && exists k :: FirstStep(a.handshake, k) && a.handshake[k].check.Pass? && a.handshake[k].event.Completes?))
  {
    PollsDecide(a.polls, 0);
    StepsDecide(a.handshake, 0);
  }

  /** An attempt that fails by a check fails by the kind that check found, or because the deadline outlasts the script. */
  lemma {:induction false} HandshakeFailure(steps: seq<HandshakeStep>, i: nat, k: nat)
    requires i <= k < |steps| && !StepIdles(steps[k]) && forall j :: i <= j < k ==> StepIdles(steps[j])
    ensures HandshakeFrom(steps, i) ==
      if !steps[k].check.Pass? then Some(ByCheck(KindOf(steps[k].check)))
      else if steps[k].event.Completes? then None
      else if steps[k].event.TlsFails? then Some(SocketError)
      else Some(ByCheck(KindOf(steps[k].waitCheck)))
    decreases k - i
  {
    if i < k { HandshakeFailure(steps, i + 1, k); }
  }

  lemma {:induction false} PollFailure(polls: seq<Poll>, i: nat, k: nat)
    requires i <= k < |polls| && !PollIdles(polls[k]) && forall j :: i <= j < k ==> PollIdles(polls[j])
    ensures PollFrom(polls, i) ==
      if !polls[k].check.Pass? then Some(ByCheck(KindOf(polls[k].check)))
      else if polls[k].soError != 0 then Some(SocketError) else None
    decreases k - i
  {
    if i < k { PollFailure(polls, i + 1, k); }
  }

  /** The loop passes over this address: only a socket error on a created socket lets it. */
  predicate PassedOver(a: Address, tls: bool) {
    a.check.Pass? && a.creatable && AttemptFailure(a, tls) == Some(SocketError)
  }

  /** How connect ends when it reaches this address and does not pass over it. */
  function EndsWith(a: Address, tls: bool): Option<Failure>
    requires !PassedOver(a, tls)
  {
    if !a.check.Pass? then Some(ByCheck(KindOf(a.check)))
    else if !a.creatable then Some(SocketError)
    else AttemptFailure(a, tls)
  }

  predicate FirstToDecide(addresses: seq<Address>, tls: bool, i: int) {
    0 <= i < |addresses| && !PassedOver(addresses[i], tls) && forall j :: 0 <= j < i ==> PassedOver(addresses[j], tls)
  }

  /** The process's open sockets. */
  class Sockets {
    var open: set<nat>
    var created: nat

    constructor ()
      ensures open == {} && created == 0
    {
      open, created := {}, 0;
    }

    predicate Valid()
      reads this
    {
      forall s :: s in open ==> s < created
    }

    /** `connect`: the first address that is not passed over decides; no other socket stays open. */
    method Connect(addresses: seq<Address>, tls: bool) returns (sock: nat, failure: Option<Failure>)
      requires Valid()
      modifies this
      ensures Valid()
      ensures failure.None? ==> sock !in old(open) && open == old(open) + {sock}
      ensures failure.Some? ==> open == old(open)
      ensures (forall i :: 0 <= i < |addresses| ==> PassedOver(addresses[i], tls)) ==> failure == Some(SocketError)
      ensures forall i :: FirstToDecide(addresses, tls, i) ==> failure == EndsWith(addresses[i], tls)
    {
      hide AttemptFailure;
      sock := 0;
      for i := 0 to |addresses|
        invariant Valid() && open == old(open) && created >= old(created)
        invariant forall j :: 0 <= j < i ==> PassedOver(addresses[j], tls)
      {
        var a := addresses[i];
        if !a.check.Pass? {
          return sock, Some(ByCheck(KindOf(a.check)));
        }
        if !a.creatable {
          return sock, Some(SocketError);
        }
        sock := created;
        open, created := open + {sock}, created + 1;
        failure := TryAddress(a, tls);
        if failure.None? {
          return;
        }
        open := open - {sock};
        assert open == old(open);
        if failure != Some(SocketError) {
          return;
        }
      }
      return sock, Some(SocketError);
    }
  }

  /** The body of connect's try block on one socket. */
  method TryAddress(a: Address, tls: bool) returns (failure: Option<Failure>)
    ensures failure == AttemptFailure(a, tls)
  {
    var result := a.code;
    if !Pending(result) {
      return Some(SocketError);
    }
    var i := 0;
    while result != 0
      invariant i <= |a.polls|
      invariant result != 0 ==> a.code != 0 && PollFrom(a.polls, i) == PollFrom(a.polls, 0)
      invariant result == 0 ==> a.code == 0 || PollFrom(a.polls, 0).None?
      decreases |a.polls| - i, result != 0
    {
      if i == |a.polls| {
        return Some(ByCheck(TimedOut));
      }
      var poll := a.polls[i];
      if !poll.check.Pass? {
        return Some(ByCheck(KindOf(poll.check)));
      }
      if poll.ready {
        result := poll.soError;
        if result != 0 {
          return Some(SocketError);
        }
      }
      i := i + 1;
    }
    if !tls {
      return None;
    }
    if a.wrapFails {
      return Some(SocketError);
    }
    failure := Handshake(a.handshake);
  }

  method Handshake(steps: seq<HandshakeStep>) returns (failure: Option<Failure>)
    ensures failure == HandshakeFrom(steps, 0)
  {
    for i := 0 to |steps|
      invariant HandshakeFrom(steps, i) == HandshakeFrom(steps, 0)
    {
      if !steps[i].check.Pass? {
        return Some(ByCheck(KindOf(steps[i].check)));
      }
      match steps[i].event {
        case Completes => return None;
        case TlsFails => return Some(SocketError);
        case WantsIo =>
          if !steps[i].waitCheck.Pass? {
            return Some(ByCheck(KindOf(steps[i].waitCheck)));
          }
      }
    }
    return Some(ByCheck(TimedOut));
  }
}
