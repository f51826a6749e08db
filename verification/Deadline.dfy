/** Cancellation and the deadline on one timeline (`check_deadline`, benchmark/transport.py). */
module Deadline {
  import opened Outcomes
  import opened Adapters

  datatype Check = Pass | SawCancel | SawDeadline

  function KindOf(c: Check): ErrorKind
    requires !c.Pass?
  {
    if c.SawCancel? then CancelledByUser else TimedOut
  }

  /** When the exchange started, how long it may take, and from when on the event is set, if ever. */
  datatype Timeline = Timeline(started: real, timeout: real, cancelledFrom: Option<real>)

  predicate CancelledBy(t: Timeline, instant: real) {
    t.cancelledFrom.Some? && t.cancelledFrom.value <= instant
  }

  predicate OverdueBy(t: Timeline, instant: real) {
    instant - t.started >= t.timeout
  }

  /** `check_deadline`, which looks at the event at one instant and then at the clock. */
  function CheckAt(t: Timeline, seen: real, read: real): (c: Check)
    ensures c.SawCancel? <==> CancelledBy(t, seen)
    ensures c.Pass? <==> !CancelledBy(t, seen) && !OverdueBy(t, read)
  {
    if CancelledBy(t, seen) then SawCancel else if OverdueBy(t, read) then SawDeadline else Pass
  }

  /** What one check found, a later one finds or tops. */
  lemma ChecksLast(t: Timeline, seen: real, read: real, laterSeen: real, laterRead: real)
    requires seen <= laterSeen && read <= laterRead
    ensures CheckAt(t, seen, read).SawCancel? ==> CheckAt(t, laterSeen, laterRead).SawCancel?
    ensures !CheckAt(t, seen, read).Pass? ==> !CheckAt(t, laterSeen, laterRead).Pass?
  {
  }
}
