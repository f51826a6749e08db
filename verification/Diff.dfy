/** The bounded structural diff of two JSON documents (reporting/compare.py). */
module Diff {
  import opened Outcomes
  import opened Json
  import opened StringOrder

  const MAX_DIFF_CHANGES := 500

  /** One step into a document; a path is the list of steps from the root. */
  datatype Segment = Key(name: string) | Index(at: nat)
  type Path = seq<Segment>

  datatype Change =
    | Added(path: Path, after: Json)
    | Removed(path: Path, before: Json)
    | Changed(path: Path, before: Json, after: Json)

  // ----- The unbounded walk -----

  /** What the walk does in order: it enters a pair of values, or it reports a change. */
  datatype Event = Visit | Emit(change: Change)

  function Trace(before: Json, after: Json, path: Path): seq<Event>
    decreases before, 1, 0
  {
    [Visit] +
    if before.Obj? && after.Obj? then
      KeyTrace(before, after, Sorted(before.fields.Keys + after.fields.Keys), path)
    else if before.Arr? && after.Arr? then
      ItemTrace(before, after, 0, path)
    else if LeafEqual(before, after) then []
    else [Emit(Changed(path, before, after))]
  }

  function KeyTrace(before: Json, after: Json, keys: seq<string>, path: Path): seq<Event>
    requires before.Obj? && after.Obj?
    requires forall k :: k in keys ==> k in before.fields.Keys + after.fields.Keys
    decreases before, 0, |keys|
  {
    if keys == [] then [] else ChildTrace(before, after, Key(keys[0]), path) + KeyTrace(before, after, keys[1..], path)
  }

  function ItemTrace(before: Json, after: Json, index: nat, path: Path): seq<Event>
    requires before.Arr? && after.Arr? && index <= Longest(before, after)
    decreases before, 0, Longest(before, after) - index
  {
    if index == Longest(before, after) then []
    else ChildTrace(before, after, Index(index), path) + ItemTrace(before, after, index + 1, path)
  }

  function Longest(before: Json, after: Json): nat
    requires before.Arr? && after.Arr?
  {
    if |before.items| >= |after.items| then |before.items| else |after.items|
  }

  /** The value one step below a container, if there is one. */
  function Child(j: Json, s: Segment): (r: Option<Json>)
    ensures r.Some? ==> r.value < j
  {
    if s.Key? && j.Obj? && s.name in j.fields then Some(j.fields[s.name])
    else if s.Index? && j.Arr? && s.at < |j.items| then Some(j.items[s.at])
    else None
  }

  /** The loop body: a child on one side only is reported, a child on both sides is walked. */
  function ChildTrace(before: Json, after: Json, s: Segment, path: Path): seq<Event>
    requires Child(before, s).Some? || Child(after, s).Some?
    decreases before, 0, 0
  {
    match (Child(before, s), Child(after, s))
    case (None, Some(y)) => [Emit(Added(path + [s], y))]
    case (Some(x), None) => [Emit(Removed(path + [s], x))]
    case (Some(x), Some(y)) => Trace(x, y, path + [s])
  }

  // ----- The bound -----

  datatype Log = Log(changes: seq<Change>, truncated: bool)

  function Step(log: Log, e: Event): Log {
    if |log.changes| >= MAX_DIFF_CHANGES then log.(truncated := true)
    else match e
      case Visit => log
      case Emit(c) => log.(changes := log.changes + [c])
  }

  function Run(log: Log, events: seq<Event>): Log
    decreases events
  {
    if events == [] then log else Run(Step(log, events[0]), events[1..])
  }

  lemma {:induction false} RunAppend(log: Log, s: seq<Event>, t: seq<Event>)
    ensures Run(log, s + t) == Run(Run(log, s), t)
    decreases s
  {
    if s == [] {
      assert s + t == t;
    } else {
      assert (s + t)[0] == s[0] && (s + t)[1..] == s[1..] + t;
      RunAppend(Step(log, s[0]), s[1..], t);
    }
  }

  /** Once the list is full, every further event only sets the flag. */
  lemma {:induction false} RunFull(log: Log, events: seq<Event>)
    requires |log.changes| >= MAX_DIFF_CHANGES && events != []
    ensures Run(log, events) == log.(truncated := true)
    decreases events
  {
    if |events| > 1 { RunFull(Step(log, events[0]), events[1..]); }
  }

  /** `diff_exports`: the shared list and flag that the nested `add` and `walk` update. */
  class Differ {
    var changes: seq<Change>
    var truncated: bool

    constructor ()
      ensures State() == Log([], false)
    {
      changes, truncated := [], false;
    }

    function State(): Log
      reads this
    {
      Log(changes, truncated)
    }

    method Add(change: Change)
      modifies this
      ensures State() == Run(old(State()), [Emit(change)])
    {
      if |changes| >= MAX_DIFF_CHANGES {
        truncated := true;
        return;
      }
      changes := changes + [change];
    }

    method Walk(before: Json, after: Json, path: Path)
      modifies this
      ensures State() == Run(old(State()), Trace(before, after, path))
      decreases before, 1
    {
      ghost var start := State();
      if |changes| >= MAX_DIFF_CHANGES {
        RunFull(start, Trace(before, after, path));
        truncated := true;
        return;
      }
      assert Step(start, Visit) == start;
      if before.Obj? && after.Obj? {
        var keys := Sorted(before.fields.Keys + after.fields.Keys);
        for i := 0 to |keys|
          invariant Run(State(), KeyTrace(before, after, keys[i..], path)) == Run(start, KeyTrace(before, after, keys, path))
        {
          RunAppend(State(), ChildTrace(before, after, Key(keys[i]), path), KeyTrace(before, after, keys[i + 1..], path));
          assert keys[i..][1..] == keys[i + 1..];
          WalkChild(before, after, Key(keys[i]), path);
        }
        return;
      }
      if before.Arr? && after.Arr? {
        for i := 0 to Longest(before, after)
          invariant Run(State(), ItemTrace(before, after, i, path)) == Run(start, ItemTrace(before, after, 0, path))
        {
          RunAppend(State(), ChildTrace(before, after, Index(i), path), ItemTrace(before, after, i + 1, path));
          WalkChild(before, after, Index(i), path);
        }
        return;
      }
      if !LeafEqual(before, after) {
        Add(Changed(path, before, after));
      }
    }

    method WalkChild(before: Json, after: Json, s: Segment, path: Path)
      requires Child(before, s).Some? || Child(after, s).Some?
      modifies this
      ensures State() == Run(old(State()), ChildTrace(before, after, s, path))
      decreases before, 0
    {
      var child := path + [s];
      match (Child(before, s), Child(after, s)) {
        case (None, Some(y)) => Add(Added(child, y));
        case (Some(x), None) => Add(Removed(child, x));
        case (Some(x), Some(y)) => Walk(x, y, child);
      }
    }
  }

  method DiffExports(left: Json, right: Json) returns (changes: seq<Change>, truncated: bool)
    ensures Log(changes, truncated) == Bounded(left, right)
  {
    var differ := new Differ();
    differ.Walk(left, right, []);
    changes, truncated := differ.changes, differ.truncated;
  }

  function Bounded(left: Json, right: Json): Log {
    Run(Log([], false), Trace(left, right, []))
  }

  /** The simple unbounded diff. */
  function Full(left: Json, right: Json): seq<Change> {
    Emitted(Trace(left, right, []))
  }

  function Emitted(events: seq<Event>): (cs: seq<Change>)
    ensures forall c :: c in cs <==> Emit(c) in events
  {
    if events == [] then []
    else (if events[0].Emit? then [events[0].change] else []) + Emitted(events[1..])
  }
}
