/** What the bounded diff means: which changes it reports, and what they rebuild. */
module DiffLaws {
  import opened Outcomes
  import opened Json
  import opened StringOrder
  import opened Diff

  // ----- The bounded diff is a prefix of the unbounded one -----

  lemma {:induction false} EmittedAppend(s: seq<Event>, t: seq<Event>)
    ensures Emitted(s + t) == Emitted(s) + Emitted(t)
  {
    if s == [] {
      assert s + t == t;
    } else {
      assert (s + t)[0] == s[0] && (s + t)[1..] == s[1..] + t;
      EmittedAppend(s[1..], t);
    }
  }

  function Least(a: nat, b: nat): nat {
    if a <= b then a else b
  }

  /** The list keeps the first 500 changes; the flag says that an event came after the 500th. */
  lemma {:induction false} RunKeepsPrefix(events: seq<Event>)
    ensures Run(Log([], false), events).changes
         == Emitted(events)[..Least(MAX_DIFF_CHANGES, |Emitted(events)|)]
    ensures Run(Log([], false), events).truncated
       <==> events != [] && |Emitted(events[..|events| - 1])| >= MAX_DIFF_CHANGES
  {
    if events != [] {
      var init, last := events[..|events| - 1], events[|events| - 1];
      assert events == init + [last];
      RunKeepsPrefix(init);
      RunAppend(Log([], false), init, [last]);
      EmittedAppend(init, [last]);
      assert Run(Run(Log([], false), init), [last]) == Step(Run(Log([], false), init), last);
      if init != [] {
        assert init == init[..|init| - 1] + [init[|init| - 1]];
        EmittedAppend(init[..|init| - 1], [init[|init| - 1]]);
      }
    }
  }

  /** More than 500 differences force the flag and fewer forbid it; at exactly 500 the flag says
      that the walk entered another pair of values after the 500th difference. */
  lemma BoundedIsPrefixOfFull(left: Json, right: Json)
    ensures var full, bounded, trace := Full(left, right), Bounded(left, right), Trace(left, right, []);
      && bounded.changes == full[..Least(500, |full|)]
      && (bounded.truncated <==> |full| > 500 || (|full| == 500 && trace[|trace| - 1].Visit?))
      && (!bounded.truncated ==> bounded.changes == full)
  {
    var trace := Trace(left, right, []);
    var init, last := trace[..|trace| - 1], trace[|trace| - 1];
    RunKeepsPrefix(trace);
    assert trace == init + [last];
    EmittedAppend(init, [last]);
    assert Emitted([last]) == if last.Emit? then [last.change] else [];
  }

  /** Two lists that differ in their first 500 items and agree in the last. */
  function FiveHundredThenEqual(first: int): Json {
    Arr(seq(MAX_DIFF_CHANGES + 1, i => if i < MAX_DIFF_CHANGES then Int(first) else Int(2)))
  }

  lemma {:induction false} FiveHundredThenEqualTrace(index: nat)
    requires index <= MAX_DIFF_CHANGES
    ensures var trace := ItemTrace(FiveHundredThenEqual(0), FiveHundredThenEqual(1), index, []);
      trace != [] && trace[|trace| - 1].Visit? && |Emitted(trace)| == MAX_DIFF_CHANGES - index
    decreases MAX_DIFF_CHANGES - index
  {
    hide Trace, ChildTrace, Emitted;
    var left, right := FiveHundredThenEqual(0), FiveHundredThenEqual(1);
    var here, rest := ChildTrace(left, right, Index(index), []), ItemTrace(left, right, index + 1, []);
    ItemOfFiveHundred(index);
    EmittedAppend(here, rest);
    if index < MAX_DIFF_CHANGES {
      FiveHundredThenEqualTrace(index + 1);
    }
  }

  lemma ItemOfFiveHundred(index: nat)
    requires index <= MAX_DIFF_CHANGES
    ensures var here := ChildTrace(FiveHundredThenEqual(0), FiveHundredThenEqual(1), Index(index), []);
      && |Emitted(here)| == (if index < MAX_DIFF_CHANGES then 1 else 0)
      && here != [] && (index == MAX_DIFF_CHANGES ==> here[|here| - 1].Visit?)
    ensures Emitted([]) == []
  {
    var left, right := FiveHundredThenEqual(0), FiveHundredThenEqual(1);
    var x, y := left.items[index], right.items[index];
    assert Child(left, Index(index)) == Some(x) && Child(right, Index(index)) == Some(y);
    assert x == Int(if index < MAX_DIFF_CHANGES then 0 else 2) && y == Int(if index < MAX_DIFF_CHANGES then 1 else 2);
    LeafTrace(x, y, [Index(index)]);
    assert [] + [Index(index)] == [Index(index)];
  }

  lemma LeafTrace(x: Json, y: Json, path: Path)
    requires x.Int? && y.Int?
    ensures Trace(x, y, path) == if x == y then [Visit] else [Visit, Emit(Changed(path, x, y))]
    ensures |Emitted(Trace(x, y, path))| == if x == y then 0 else 1
  {
    if x != y { EmittedAppend([Visit], [Emit(Changed(path, x, y))]); }
  }

  /** A complete diff can be marked truncated: the walk enters one more pair of values after the 500th difference. */
  lemma CompleteDiffCanBeTruncated()
    ensures var left, right := FiveHundredThenEqual(0), FiveHundredThenEqual(1);
      Bounded(left, right).truncated && Bounded(left, right).changes == Full(left, right)
  {
    var left, right := FiveHundredThenEqual(0), FiveHundredThenEqual(1);
    FiveHundredThenEqualTrace(0);
    EmittedAppend([Visit], ItemTrace(left, right, 0, []));
    BoundedIsPrefixOfFull(left, right);
  }

  // ----- Swapping the inputs -----

  function Swap(c: Change): Change {
    match c
    case Added(p, y) => Removed(p, y)
    case Removed(p, x) => Added(p, x)
    case Changed(p, x, y) => Changed(p, y, x)
  }

  function SwapEvent(e: Event): Event {
    if e.Emit? then Emit(Swap(e.change)) else Visit
  }

  function SwapEvents(t: seq<Event>): (r: seq<Event>)
    ensures |r| == |t| && forall i :: 0 <= i < |t| ==> r[i] == SwapEvent(t[i])
  {
    seq(|t|, i requires 0 <= i < |t| => SwapEvent(t[i]))
  }

  function SwapChanges(cs: seq<Change>): (r: seq<Change>)
    ensures |r| == |cs| && forall i :: 0 <= i < |cs| ==> r[i] == Swap(cs[i])
  {
    seq(|cs|, i requires 0 <= i < |cs| => Swap(cs[i]))
  }

  lemma {:induction false} SwapTrace(before: Json, after: Json, path: Path)
    ensures Trace(after, before, path) == SwapEvents(Trace(before, after, path))
    decreases before, 1, 0
  {
    if before.Obj? && after.Obj? {
      assert before.fields.Keys + after.fields.Keys == after.fields.Keys + before.fields.Keys;
      SwapKeyTrace(before, after, Sorted(before.fields.Keys + after.fields.Keys), path);
    } else if before.Arr? && after.Arr? {
      SwapItemTrace(before, after, 0, path);
    }
  }

  lemma {:induction false} SwapKeyTrace(before: Json, after: Json, keys: seq<string>, path: Path)
    requires before.Obj? && after.Obj?
    requires forall k :: k in keys ==> k in before.fields.Keys + after.fields.Keys
    ensures forall k :: k in keys ==> k in after.fields.Keys + before.fields.Keys
    ensures KeyTrace(after, before, keys, path) == SwapEvents(KeyTrace(before, after, keys, path))
    decreases before, 0, |keys|
  {
    assert forall k :: k in keys ==> k in after.fields.Keys + before.fields.Keys;
    if keys != [] {
      assert keys[0] in keys;
      SwapChildTrace(before, after, Key(keys[0]), path);
      SwapKeyTrace(before, after, keys[1..], path);
    }
  }

  lemma {:induction false} SwapItemTrace(before: Json, after: Json, index: nat, path: Path)
    requires before.Arr? && after.Arr? && index <= Longest(before, after)
    ensures ItemTrace(after, before, index, path) == SwapEvents(ItemTrace(before, after, index, path))
    decreases before, 0, Longest(before, after) - index
  {
    if index < Longest(before, after) {
      SwapChildTrace(before, after, Index(index), path);
      SwapItemTrace(before, after, index + 1, path);
    }
  }

  lemma {:induction false} SwapChildTrace(before: Json, after: Json, s: Segment, path: Path)
    requires Child(before, s).Some? || Child(after, s).Some?
    ensures ChildTrace(after, before, s, path) == SwapEvents(ChildTrace(before, after, s, path))
    decreases before, 0, 0
  {
    if Child(before, s).Some? && Child(after, s).Some? {
      SwapTrace(Child(before, s).value, Child(after, s).value, path + [s]);
    }
  }

  lemma {:induction false} RunSwaps(log: Log, t: seq<Event>)
    ensures Run(Log(SwapChanges(log.changes), log.truncated), SwapEvents(t))
         == Log(SwapChanges(Run(log, t).changes), Run(log, t).truncated)
    decreases t
  {
    if t != [] {
      var next := Step(log, t[0]);
      assert Step(Log(SwapChanges(log.changes), log.truncated), SwapEvent(t[0]))
          == Log(SwapChanges(next.changes), next.truncated);
      assert SwapEvents(t)[1..] == SwapEvents(t[1..]);
      RunSwaps(next, t[1..]);
    }
  }

  /** Swapping the documents swaps every entry in place and keeps paths, order and flag. */
  lemma SwappedInputs(left: Json, right: Json)
    ensures var forward, backward := Bounded(left, right), Bounded(right, left);
      backward == Log(SwapChanges(forward.changes), forward.truncated)
  {
    SwapTrace(left, right, []);
    assert SwapChanges([]) == [];
    RunSwaps(Log([], false), Trace(left, right, []));
  }

  // ----- Which changes are reported: a declarative account -----

  function Get(j: Json, path: Path): Option<Json>
    decreases path
  {
    if path == [] then Some(j)
    else match Child(j, path[0])
      case None => None
      case Some(x) => Get(x, path[1..])
  }

  /** The container on both sides just above a place that exists on one side only. */
  predicate SharedParent(before: Json, after: Json, path: Path) {
    path != [] &&
    var parent := path[..|path| - 1];
    Get(before, parent).Some? && Get(after, parent).Some? && SameKind(Get(before, parent).value, Get(after, parent).value)
  }

  /** Entry c names a place where the documents really differ, with the values found there. */
  predicate IsDifference(before: Json, after: Json, c: Change) {
    match c
    case Added(p, y) => SharedParent(before, after, p) && Get(before, p) == None && Get(after, p) == Some(y)
    case Removed(p, x) => SharedParent(before, after, p) && Get(before, p) == Some(x) && Get(after, p) == None
    case Changed(p, x, y) => Get(before, p) == Some(x) && Get(after, p) == Some(y) && !SameKind(x, y) && !LeafEqual(x, y)
  }

  /** The same entry, with its path read from depth n on. */
  function Below(c: Change, n: nat): Change
    requires n <= |c.path|
  {
    c.(path := c.path[n..])
  }

  /** c, read from a shared container, is the business of the child its path starts with. */
  predicate InFirstChild(before: Json, after: Json, c: Change)
    requires c.path != []
  {
    match (Child(before, c.path[0]), Child(after, c.path[0]))
    case (None, None) => false
    case (None, Some(y)) => c == Added([c.path[0]], y)
    case (Some(x), None) => c == Removed([c.path[0]], x)
    case (Some(x), Some(y)) => IsDifference(x, y, Below(c, 1))
  }

  /** Differences below a shared container are the differences of its children. */
  lemma DifferenceInChild(before: Json, after: Json, c: Change)
    requires SameKind(before, after)
    ensures IsDifference(before, after, c) <==> (c.path != [] && InFirstChild(before, after, c))
  {
    var p := c.path;
    if |p| == 1 {
      assert p == [p[0]] && p[1..] == [] && p[..|p| - 1] == [];
      assert Get(before, p) == Child(before, p[0]) && Get(after, p) == Child(after, p[0]);
    } else if |p| > 1 {
      var parent := p[..|p| - 1];
      assert parent[0] == p[0] && parent[1..] == p[1..][..|p[1..]| - 1];
    }
  }

  lemma {:induction false} TraceReports(before: Json, after: Json, path: Path, c: Change)
    ensures Emit(c) in Trace(before, after, path) <==> path <= c.path && IsDifference(before, after, Below(c, |path|))
    decreases before, 1, 0
  {
    if before.Obj? && after.Obj? {
      KeyTraceReports(before, after, Sorted(before.fields.Keys + after.fields.Keys), path, c);
      SomeChild(before, after, path, c);
    } else if before.Arr? && after.Arr? {
      ItemTraceReports(before, after, 0, path, c);
      SomeChild(before, after, path, c);
    } else if path <= c.path {
      LeafDifference(before, after, Below(c, |path|));
      assert c.path[|path|..] == [] <==> c.path == path;
    }
  }

  lemma SomeChild(before: Json, after: Json, path: Path, c: Change)
    requires SameKind(before, after)
    ensures (path <= c.path && IsDifference(before, after, Below(c, |path|)))
       <==> (exists s :: InChild(before, after, s, path, c))
  {
    if path <= c.path {
      DifferenceInChild(before, after, Below(c, |path|));
      if |c.path| > |path| {
        var s := c.path[|path|];
        FirstChildIsChild(before, after, path, c);
        forall t | InChild(before, after, t, path, c) ensures t == s {
          assert (path + [t])[|path|] == t;
        }
      }
    }
    forall s | InChild(before, after, s, path, c) ensures path <= c.path && |path| < |c.path| {
      assert path <= path + [s];
    }
  }

  lemma FirstChildIsChild(before: Json, after: Json, path: Path, c: Change)
    requires path <= c.path && |path| < |c.path|
    ensures InFirstChild(before, after, Below(c, |path|)) <==> InChild(before, after, c.path[|path|], path, c)
  {
    var s, q := c.path[|path|], c.path[|path|..];
    assert path + [s] <= c.path;
    assert q[1..] == c.path[|path| + 1..];
    assert q == [s] <==> c.path == path + [s];
  }

  lemma LeafDifference(before: Json, after: Json, c: Change)
    requires !SameKind(before, after)
    ensures IsDifference(before, after, c) <==> c == Changed([], before, after) && !LeafEqual(before, after)
  {
  }

  /** Change c lies below path + [s] and is the business of child s. */
  predicate InChild(before: Json, after: Json, s: Segment, path: Path, c: Change) {
    path + [s] <= c.path &&
    match (Child(before, s), Child(after, s))
    case (None, None) => false
    case (None, Some(y)) => c == Added(path + [s], y)
    case (Some(x), None) => c == Removed(path + [s], x)
    case (Some(x), Some(y)) => IsDifference(x, y, Below(c, |path| + 1))
  }

  lemma {:induction false} ChildTraceReports(before: Json, after: Json, s: Segment, path: Path, c: Change)
    requires Child(before, s).Some? || Child(after, s).Some?
    ensures Emit(c) in ChildTrace(before, after, s, path) <==> InChild(before, after, s, path, c)
    decreases before, 0, 0
  {
    hide Trace, IsDifference;
    if Child(before, s).Some? && Child(after, s).Some? {
      TraceReports(Child(before, s).value, Child(after, s).value, path + [s], c);
    }
  }

  lemma {:induction false} KeyTraceReports(before: Json, after: Json, keys: seq<string>, path: Path, c: Change)
    requires before.Obj? && after.Obj?
    requires forall k :: k in keys ==> k in before.fields.Keys + after.fields.Keys
    ensures Emit(c) in KeyTrace(before, after, keys, path)
       <==> exists k :: k in keys && InChild(before, after, Key(k), path, c)
    decreases before, 0, |keys|
  {
    hide InChild, ChildTrace;
    if keys != [] {
      assert keys[0] in keys;
      ChildTraceReports(before, after, Key(keys[0]), path, c);
      KeyTraceReports(before, after, keys[1..], path, c);
    }
  }

  lemma {:induction false} ItemTraceReports(before: Json, after: Json, index: nat, path: Path, c: Change)
    requires before.Arr? && after.Arr? && index <= Longest(before, after)
    ensures Emit(c) in ItemTrace(before, after, index, path)
       <==> exists i :: index <= i < Longest(before, after) && InChild(before, after, Index(i), path, c)
    decreases before, 0, Longest(before, after) - index
  {
    hide InChild, ChildTrace;
    if index < Longest(before, after) {
      var here, rest := ChildTrace(before, after, Index(index), path), ItemTrace(before, after, index + 1, path);
      ChildTraceReports(before, after, Index(index), path, c);
      ItemTraceReports(before, after, index + 1, path, c);
      assert Emit(c) in here + rest <==> Emit(c) in here || Emit(c) in rest;
    }
  }

  /** The unbounded diff lists exactly the differences. */
  lemma FullListsDifferences(left: Json, right: Json, c: Change)
    ensures c in Full(left, right) <==> IsDifference(left, right, c)
  {
    TraceReports(left, right, [], c);
    assert c.path[0..] == c.path;
  }

  // ----- The order of the report -----

  predicate SegmentLess(s: Segment, t: Segment) {
    (s.Key? && t.Key? && s != t && Leq(s.name, t.name)) || (s.Index? && t.Index? && s.at < t.at)
  }

  predicate PathLess(p: Path, q: Path) {
    p != [] && q != [] && (SegmentLess(p[0], q[0]) || (p[0] == q[0] && PathLess(p[1..], q[1..])))
  }

  predicate Increasing(cs: seq<Change>) {
    forall i, j :: 0 <= i < j < |cs| ==> PathLess(cs[i].path, cs[j].path)
  }

  lemma {:induction false} PathLessIrreflexive(p: Path)
    ensures !PathLess(p, p)
  {
    if p != [] { PathLessIrreflexive(p[1..]); }
  }

  lemma {:induction false} PathLessBelow(path: Path, s: Segment, t: Segment, p: Path, q: Path)
    requires path + [s] <= p && path + [t] <= q && SegmentLess(s, t)
    ensures PathLess(p, q)
  {
    if path == [] {
      assert p[0] == ([] + [s])[0] && q[0] == ([] + [t])[0];
    } else {
      assert p[0] == (path + [s])[0] == path[0] && q[0] == (path + [t])[0] == path[0];
      assert (path + [s])[1..] == path[1..] + [s] && (path + [t])[1..] == path[1..] + [t];
      PathLessBelow(path[1..], s, t, p[1..], q[1..]);
    }
  }

  lemma IncreasingAppend(cs: seq<Change>, ds: seq<Change>)
    requires Increasing(cs) && Increasing(ds)
    requires forall c, d :: c in cs && d in ds ==> PathLess(c.path, d.path)
    ensures Increasing(cs + ds)
  {
  }

  lemma EmittedOne(e: Event)
    ensures Emitted([]) == [] && Emitted([e]) == if e.Emit? then [e.change] else []
  {
  }

  lemma {:induction false} TraceIncreasing(before: Json, after: Json, path: Path)
    ensures Increasing(Emitted(Trace(before, after, path)))
    decreases before, 1, 0
  {
    hide KeyTrace, ItemTrace, PathLess, Emitted;
    EmittedOne(Visit);
    if before.Obj? && after.Obj? {
      KeyTraceIncreasing(before, after, Sorted(before.fields.Keys + after.fields.Keys), path);
      EmittedAppend([Visit], KeyTrace(before, after, Sorted(before.fields.Keys + after.fields.Keys), path));
    } else if before.Arr? && after.Arr? {
      ItemTraceIncreasing(before, after, 0, path);
      EmittedAppend([Visit], ItemTrace(before, after, 0, path));
    } else if !LeafEqual(before, after) {
      EmittedAppend([Visit], [Emit(Changed(path, before, after))]);
      EmittedOne(Emit(Changed(path, before, after)));
    } else {
      assert Trace(before, after, path) == [Visit];
    }
  }

  lemma {:induction false} ChildTraceIncreasing(before: Json, after: Json, s: Segment, path: Path)
    requires Child(before, s).Some? || Child(after, s).Some?
    ensures Increasing(Emitted(ChildTrace(before, after, s, path)))
    decreases before, 0, 0
  {
    if Child(before, s).Some? && Child(after, s).Some? {
      TraceIncreasing(Child(before, s).value, Child(after, s).value, path + [s]);
    }
  }

  lemma {:induction false} KeyTraceIncreasing(before: Json, after: Json, keys: seq<string>, path: Path)
    requires before.Obj? && after.Obj?
    requires forall k :: k in keys ==> k in before.fields.Keys + after.fields.Keys
    requires forall i, j :: 0 <= i < j < |keys| ==> keys[i] != keys[j] && Leq(keys[i], keys[j])
    ensures Increasing(Emitted(KeyTrace(before, after, keys, path)))
    decreases before, 0, |keys|
  {
    hide ChildTrace, PathLess, IsDifference;
    if keys != [] {
      assert keys[0] in keys;
      var here, rest := ChildTrace(before, after, Key(keys[0]), path), KeyTrace(before, after, keys[1..], path);
      ChildTraceIncreasing(before, after, Key(keys[0]), path);
      KeyTraceIncreasing(before, after, keys[1..], path);
      EmittedAppend(here, rest);
      forall c, d | c in Emitted(here) && d in Emitted(rest) ensures PathLess(c.path, d.path) {
        ChildTraceReports(before, after, Key(keys[0]), path, c);
        KeyTraceReports(before, after, keys[1..], path, d);
        var k :| k in keys[1..] && InChild(before, after, Key(k), path, d);
        PathLessBelow(path, Key(keys[0]), Key(k), c.path, d.path);
      }
      IncreasingAppend(Emitted(here), Emitted(rest));
    }
  }

  lemma {:induction false} ItemTraceIncreasing(before: Json, after: Json, index: nat, path: Path)
    requires before.Arr? && after.Arr? && index <= Longest(before, after)
    ensures Increasing(Emitted(ItemTrace(before, after, index, path)))
    decreases before, 0, Longest(before, after) - index
  {
    hide ChildTrace, PathLess, Emitted;
    if index < Longest(before, after) {
      var here, rest := ChildTrace(before, after, Index(index), path), ItemTrace(before, after, index + 1, path);
      ChildTraceIncreasing(before, after, Index(index), path);
      ItemTraceIncreasing(before, after, index + 1, path);
      EmittedAppend(here, rest);
      ItemsInOrder(before, after, index, path);
      IncreasingAppend(Emitted(here), Emitted(rest));
    } else {
      EmittedOne(Visit);
    }
  }

  lemma ItemsInOrder(before: Json, after: Json, index: nat, path: Path)
    requires before.Arr? && after.Arr? && index < Longest(before, after)
    ensures var here, rest := ChildTrace(before, after, Index(index), path), ItemTrace(before, after, index + 1, path);
      forall c, d :: c in Emitted(here) && d in Emitted(rest) ==> PathLess(c.path, d.path)
  {
    hide ChildTrace, ItemTrace, PathLess, IsDifference;
    var here, rest := ChildTrace(before, after, Index(index), path), ItemTrace(before, after, index + 1, path);
    forall c, d | c in Emitted(here) && d in Emitted(rest) ensures PathLess(c.path, d.path) {
      ChildTraceReports(before, after, Index(index), path, c);
      ItemTraceReports(before, after, index + 1, path, d);
      var i :| index + 1 <= i < Longest(before, after) && InChild(before, after, Index(i), path, d);
      PathLessBelow(path, Index(index), Index(i), c.path, d.path);
    }
  }

  /** The unbounded diff is in path order, keys by code point and items by index, so no path repeats. */
  lemma FullIsIncreasing(left: Json, right: Json)
    ensures Increasing(Full(left, right))
    ensures forall i, j :: 0 <= i < j < |Full(left, right)| ==> Full(left, right)[i].path != Full(left, right)[j].path
  {
    var cs := Full(left, right);
    TraceIncreasing(left, right, []);
    forall i, j | 0 <= i < j < |cs| ensures cs[i].path != cs[j].path {
      PathLessIrreflexive(cs[i].path);
    }
  }
}
