/** The diff as a patch: applying an untruncated diff to the left document rebuilds the right one. */
module DiffPatch {
  import opened Outcomes
  import opened Json
  import opened Diff
  import opened DiffLaws

  /** The entry about the whole document, if the list has one. */
  function AtRoot(cs: seq<Change>): (r: Option<Change>)
    ensures r.Some? ==> r.value in cs && r.value.path == []
    ensures r.None? ==> forall c :: c in cs ==> c.path != []
  {
    if cs == [] then None else if cs[0].path == [] then Some(cs[0]) else AtRoot(cs[1..])
  }

  /** The entries about one child, with paths read from that child. */
  function Under(s: Segment, cs: seq<Change>): (r: seq<Change>)
    ensures forall d :: d in r <==> d.(path := [s] + d.path) in cs
  {
    if cs == [] then [] else
      var c := cs[0];
      assert c.path != [] ==> c.path == [c.path[0]] + c.path[1..];
      var rest := Under(s, cs[1..]);
      if c.path != [] && c.path[0] == s then
        assert forall d: Change :: d.(path := [s] + d.path) == c <==> d == Below(c, 1);
        [Below(c, 1)] + rest
      else rest
  }

  function HeadKeys(cs: seq<Change>): (r: set<string>)
  {
    set c | c in cs && c.path != [] && c.path[0].Key? :: c.path[0].name
  }

  function Extent(cs: seq<Change>): (n: nat)
    ensures forall c :: c in cs && c.path != [] && c.path[0].Index? ==> c.path[0].at < n
  {
    if cs == [] then 0 else
      var n := Extent(cs[1..]);
      if cs[0].path != [] && cs[0].path[0].Index? && cs[0].path[0].at >= n then cs[0].path[0].at + 1 else n
  }

  /** The document with every listed change made at once. */
  function Apply(doc: Json, cs: seq<Change>): Json
    decreases doc, 1, 0
  {
    match AtRoot(cs)
    case Some(Changed(_, _, y)) => y
    case _ =>
      match doc
      case Obj(m) =>
        Obj(map k | k in m.Keys + HeadKeys(cs) && Slot(doc, Key(k), cs).Some? :: Slot(doc, Key(k), cs).value)
      case Arr(items) =>
        Arr(Present(seq(Bound(doc, cs), i requires 0 <= i => Slot(doc, Index(i), cs))))
      case _ => doc
  }

  /** What stands at one child's place after the changes; None means nothing does. */
  function Slot(doc: Json, s: Segment, cs: seq<Change>): Option<Json>
    decreases doc, 0, 0
  {
    var sub := Under(s, cs);
    match AtRoot(sub)
    case Some(Added(_, y)) => Some(y)
    case Some(Removed(_, _)) => None
    case _ =>
      match Child(doc, s)
      case None => None
      case Some(x) => Some(Apply(x, sub))
  }

  function Bound(doc: Json, cs: seq<Change>): (n: nat)
    requires doc.Arr?
  {
    if |doc.items| >= Extent(cs) then |doc.items| else Extent(cs)
  }

  function Present(slots: seq<Option<Json>>): seq<Json> {
    if slots == [] then []
    else (match slots[0] case None => [] case Some(x) => [x]) + Present(slots[1..])
  }

  /** cs lists the differences between two documents, all of them and nothing else. */
  ghost predicate Lists(cs: seq<Change>, before: Json, after: Json) {
    forall c :: c in cs <==> IsDifference(before, after, c)
  }

  ghost predicate SlotMatches(slot: Option<Json>, target: Option<Json>) {
    match (slot, target)
    case (None, None) => true
    case (Some(x), Some(y)) => Same(x, y)
    case _ => false
  }

  /** In whatever order they come, the differences rebuild the right document from the left one. */
  lemma {:induction false} DifferencesRebuild(before: Json, after: Json, cs: seq<Change>)
    requires Lists(cs, before, after)
    ensures Same(Apply(before, cs), after)
    decreases before, 1, 0
  {
    if before.Obj? && after.Obj? {
      NoRootEntry(before, after, cs);
      ObjectRebuilds(before, after, cs);
    } else if before.Arr? && after.Arr? {
      NoRootEntry(before, after, cs);
      ListRebuilds(before, after, cs);
    } else {
      LeafRebuilds(before, after, cs);
    }
  }

  lemma NoRootEntry(before: Json, after: Json, cs: seq<Change>)
    requires Lists(cs, before, after) && SameKind(before, after)
    ensures AtRoot(cs) == None
  {
    if AtRoot(cs).Some? {
      DifferenceInChild(before, after, AtRoot(cs).value);
    }
  }

  lemma LeafRebuilds(before: Json, after: Json, cs: seq<Change>)
    requires Lists(cs, before, after) && !SameKind(before, after)
    ensures Same(Apply(before, cs), after)
  {
    if LeafEqual(before, after) {
      if cs != [] {
        LeafDifference(before, after, cs[0]);
        assert false;
      }
      assert Apply(before, cs) == before || before.Obj? || before.Arr?;
    } else {
      LeafDifference(before, after, Changed([], before, after));
      LeafDifference(before, after, AtRoot(cs).value);
      SameReflexive(after);
    }
  }

  lemma {:induction false} SlotRebuilds(before: Json, after: Json, s: Segment, cs: seq<Change>)
    requires Lists(cs, before, after) && SameKind(before, after)
    ensures SlotMatches(Slot(before, s, cs), Child(after, s))
    decreases before, 0, 0
  {
    var sub := Under(s, cs);
    forall d ensures d in sub <==> InFirstChild(before, after, d.(path := [s] + d.path)) {
      DifferenceInChild(before, after, d.(path := [s] + d.path));
    }
    match (Child(before, s), Child(after, s)) {
      case (None, None) =>
        assert AtRoot(sub).Some? ==> AtRoot(sub).value in sub;
      case (None, Some(y)) =>
        SingleEntry(sub, s, Added([], y));
        SameReflexive(y);
      case (Some(x), None) =>
        SingleEntry(sub, s, Removed([], x));
      case (Some(x), Some(y)) =>
        forall d ensures d in sub <==> IsDifference(x, y, d) {
          assert Below(d.(path := [s] + d.path), 1) == d;
        }
        DifferencesRebuild(x, y, sub);
    }
  }

  lemma SingleEntry(sub: seq<Change>, s: Segment, entry: Change)
    requires entry.path == []
    requires forall d :: d in sub <==> d.(path := [s] + d.path) == entry.(path := [s])
    ensures AtRoot(sub) == Some(entry)
  {
    assert [s] + entry.path == [s];
    assert entry in sub;
    var d := AtRoot(sub).value;
    assert d.(path := [s] + d.path) == entry.(path := [s]);
  }

  lemma {:induction false} ObjectRebuilds(before: Json, after: Json, cs: seq<Change>)
    requires Lists(cs, before, after) && before.Obj? && after.Obj? && AtRoot(cs) == None
    ensures Same(Apply(before, cs), after)
    decreases before, 0, 1
  {
    var r := Apply(before, cs);
    forall k ensures k in r.fields <==> k in after.fields
      ensures k in after.fields ==> Same(r.fields[k], after.fields[k])
    {
      SlotRebuilds(before, after, Key(k), cs);
      if k in after.fields && k !in before.fields {
        var c := Added([Key(k)], after.fields[k]);
        DifferenceInChild(before, after, c);
        assert c in cs;
        assert k in HeadKeys(cs);
      }
    }
  }

  lemma {:induction false} ListRebuilds(before: Json, after: Json, cs: seq<Change>)
    requires Lists(cs, before, after) && before.Arr? && after.Arr? && AtRoot(cs) == None
    ensures Same(Apply(before, cs), after)
    decreases before, 0, 2
  {
    var slots := seq(Bound(before, cs), i requires 0 <= i => Slot(before, Index(i), cs));
    BoundCovers(before, after, cs);
    forall i | 0 <= i < |slots| ensures SlotMatches(slots[i], Item(after.items, i)) {
      SlotRebuilds(before, after, Index(i), cs);
    }
    PresentMatches(slots, after.items);
  }

  lemma BoundCovers(before: Json, after: Json, cs: seq<Change>)
    requires Lists(cs, before, after) && before.Arr? && after.Arr?
    ensures |after.items| <= Bound(before, cs)
  {
    if |after.items| > |before.items| {
      var i := |after.items| - 1;
      var c := Added([Index(i)], after.items[i]);
      DifferenceInChild(before, after, c);
      assert c in cs;
    }
  }

  function Item(items: seq<Json>, i: nat): Option<Json> {
    if i < |items| then Some(items[i]) else None
  }

  lemma {:induction false} PresentMatches(slots: seq<Option<Json>>, target: seq<Json>)
    requires |target| <= |slots|
    requires forall i :: 0 <= i < |slots| ==> SlotMatches(slots[i], Item(target, i))
    ensures var r := Present(slots); |r| == |target| && forall i :: 0 <= i < |r| ==> Same(r[i], target[i])
  {
    if slots != [] {
      assert SlotMatches(slots[0], Item(target, 0));
      var rest := if target == [] then [] else target[1..];
      forall i | 0 <= i < |slots[1..]| ensures SlotMatches(slots[1..][i], Item(rest, i)) {
        assert SlotMatches(slots[i + 1], Item(target, i + 1));
      }
      PresentMatches(slots[1..], rest);
    }
  }

  /** An untruncated diff lists every difference once, in path order, and rebuilds the right document. */
  lemma UntruncatedDiffIsPatch(left: Json, right: Json)
    requires !Bounded(left, right).truncated
    ensures var cs := Bounded(left, right).changes;
      && Lists(cs, left, right) && Increasing(cs) && Same(Apply(left, cs), right)
  {
    BoundedIsPrefixOfFull(left, right);
    forall c ensures c in Full(left, right) <==> IsDifference(left, right, c) {
      FullListsDifferences(left, right, c);
    }
    FullIsIncreasing(left, right);
    DifferencesRebuild(left, right, Full(left, right));
  }

  /** Truncated or not, every listed entry is a real difference and no path repeats. */
  lemma EveryEntryIsReal(left: Json, right: Json)
    ensures var cs := Bounded(left, right).changes;
      && Increasing(cs) && forall c :: c in cs ==> IsDifference(left, right, c)
  {
    BoundedIsPrefixOfFull(left, right);
    FullIsIncreasing(left, right);
    forall c | c in Full(left, right) ensures IsDifference(left, right, c) {
      FullListsDifferences(left, right, c);
    }
  }

  lemma {:induction false} EmptyPatch(doc: Json)
    ensures Apply(doc, []) == doc
    decreases doc
  {
    match doc
    case Obj(m) =>
      forall k | k in m ensures Slot(doc, Key(k), []) == Some(m[k]) { EmptyPatch(m[k]); }
      assert Apply(doc, []).fields == m;
    case Arr(items) =>
      forall i | 0 <= i < |items| ensures Slot(doc, Index(i), []) == Some(items[i]) { EmptyPatch(items[i]); }
      var slots := seq(Bound(doc, []), i requires 0 <= i => Slot(doc, Index(i), []));
      PresentAll(slots, items);
    case _ =>
  }

  lemma {:induction false} PresentAll(slots: seq<Option<Json>>, items: seq<Json>)
    requires |slots| == |items| && forall i :: 0 <= i < |slots| ==> slots[i] == Some(items[i])
    ensures Present(slots) == items
  {
    if slots != [] {
      PresentAll(slots[1..], items[1..]);
      assert items == [items[0]] + items[1..];
    }
  }

  lemma {:induction false} SameHasNoDifference(before: Json, after: Json, c: Change)
    requires Same(before, after)
    ensures !IsDifference(before, after, c)
    decreases before
  {
    if SameKind(before, after) {
      DifferenceInChild(before, after, c);
      if c.path != [] && Child(before, c.path[0]).Some? && Child(after, c.path[0]).Some? {
        SameHasNoDifference(Child(before, c.path[0]).value, Child(after, c.path[0]).value, Below(c, 1));
      }
    } else {
      LeafDifference(before, after, c);
    }
  }

  /** The diff is empty and untruncated exactly when Python calls the documents equal. */
  lemma EmptyDiffMeansEqual(left: Json, right: Json)
    ensures Bounded(left, right) == Log([], false) <==> Same(left, right)
  {
    BoundedIsPrefixOfFull(left, right);
    if Bounded(left, right) == Log([], false) {
      UntruncatedDiffIsPatch(left, right);
      EmptyPatch(left);
    }
    if Same(left, right) && Full(left, right) != [] {
      FullListsDifferences(left, right, Full(left, right)[0]);
      SameHasNoDifference(left, right, Full(left, right)[0]);
    }
  }

  // ----- Which documents give an empty diff, told without the comparison itself -----

  /** The document with every boolean and integer written as the float of the same value. */
  function Decimalized(j: Json): Json {
    match j
    case Bool(b) => Float(if b then 1.0 else 0.0)
    case Int(i) => Float(i as real)
    case Obj(m) => Obj(map k | k in m :: Decimalized(m[k]))
    case Arr(items) => Arr(seq(|items|, i requires 0 <= i < |items| => Decimalized(items[i])))
    case _ => j
  }

  lemma {:induction false} SameMeansSameNumbers(a: Json, b: Json)
    ensures Same(a, b) <==> Decimalized(a) == Decimalized(b)
    decreases a
  {
    if a.Obj? && b.Obj? {
      SameFields(a, b);
    } else if a.Arr? && b.Arr? {
      SameItems(a, b);
    }
  }

  lemma {:induction false} SameFields(a: Json, b: Json)
    requires a.Obj? && b.Obj?
    ensures Same(a, b) <==> Decimalized(a) == Decimalized(b)
    decreases a, 0
  {
    var x, y := Decimalized(a).fields, Decimalized(b).fields;
    assert x.Keys == a.fields.Keys && y.Keys == b.fields.Keys;
    forall k | k in a.fields && k in b.fields ensures Same(a.fields[k], b.fields[k]) <==> x[k] == y[k] {
      SameMeansSameNumbers(a.fields[k], b.fields[k]);
    }
    if Same(a, b) { assert x == y; }
    if x == y {
      forall k | k in a.fields ensures k in b.fields && Same(a.fields[k], b.fields[k]) {
        assert k in y.Keys && x[k] == y[k];
      }
    }
  }

  lemma {:induction false} SameItems(a: Json, b: Json)
    requires a.Arr? && b.Arr?
    ensures Same(a, b) <==> Decimalized(a) == Decimalized(b)
    decreases a, 0
  {
    var x, y := Decimalized(a).items, Decimalized(b).items;
    forall i | 0 <= i < |a.items| && i < |b.items| ensures Same(a.items[i], b.items[i]) <==> x[i] == y[i] {
      SameMeansSameNumbers(a.items[i], b.items[i]);
    }
    if Same(a, b) { assert x == y; }
    if x == y {
      forall i | 0 <= i < |a.items| ensures i < |b.items| && Same(a.items[i], b.items[i]) {
        assert |x| == |y| && x[i] == y[i];
      }
    }
  }

  /** The diff is empty and untruncated exactly when the documents are identical once numbers are written alike. */
  lemma EmptyDiffMeansSameNumbers(left: Json, right: Json)
    ensures Bounded(left, right) == Log([], false) <==> Decimalized(left) == Decimalized(right)
  {
    EmptyDiffMeansEqual(left, right);
    SameMeansSameNumbers(left, right);
  }

  /** No number or boolean anywhere. */
  predicate Wordy(j: Json) {
    match j
    case Bool(_) => false
    case Int(_) => false
    case Float(_) => false
    case Obj(m) => forall k :: k in m ==> Wordy(m[k])
    case Arr(items) => forall i :: 0 <= i < |items| ==> Wordy(items[i])
    case _ => true
  }

  lemma {:induction false} WordyIsDecimalized(j: Json)
    requires Wordy(j)
    ensures Decimalized(j) == j
    decreases j
  {
    match j
    case Obj(m) =>
      forall k | k in m ensures Decimalized(m[k]) == m[k] { WordyIsDecimalized(m[k]); }
      assert Decimalized(j).fields == m;
    case Arr(items) =>
      forall i | 0 <= i < |items| ensures Decimalized(items[i]) == items[i] { WordyIsDecimalized(items[i]); }
      assert Decimalized(j).items == items;
    case _ =>
  }

  /** Between documents without numbers and booleans, the diff is empty exactly when they are identical. */
  lemma EmptyDiffOfWordyDocuments(left: Json, right: Json)
    requires Wordy(left) && Wordy(right)
    ensures Bounded(left, right) == Log([], false) <==> left == right
  {
    EmptyDiffMeansSameNumbers(left, right);
    WordyIsDecimalized(left);
    WordyIsDecimalized(right);
  }

  /** The leaf j is the number x; true counts as one and false as zero. */
  predicate IsNumber(j: Json, x: real) {
    j == Float(x) || (j.Int? && j.whole as real == x) || (j == Bool(true) && x == 1.0) || (j == Bool(false) && x == 0.0)
  }

  /** Between leaves, the diff is empty exactly when they are identical or the same number; otherwise it is one change. */
  lemma DiffOfLeaves(left: Json, right: Json)
    requires !left.Obj? && !left.Arr? && !right.Obj? && !right.Arr?
    ensures Bounded(left, right) ==
      if left == right || exists x :: IsNumber(left, x) && IsNumber(right, x) then Log([], false)
      else Log([Changed([], left, right)], false)
  {
    EmptyDiffMeansSameNumbers(left, right);
    if Decimalized(left) == Decimalized(right) && left != right {
      assert IsNumber(left, Decimalized(left).number) && IsNumber(right, Decimalized(left).number);
    }
    UnequalLeaves(left, right);
  }

  lemma UnequalLeaves(left: Json, right: Json)
    requires !left.Obj? && !left.Arr? && !right.Obj? && !right.Arr?
    ensures Bounded(left, right) == Log([], false) || Bounded(left, right) == Log([Changed([], left, right)], false)
  {
    var c := Changed([], left, right);
    var trace := Trace(left, right, []);
    if trace == [Visit, Emit(c)] {
      assert trace[1..] == [Emit(c)] && trace[1..][1..] == [];
      assert Run(Log([], false), trace) == Run(Log([], false), [Emit(c)]) == Run(Log([c], false), []);
    } else {
      assert trace == [Visit] && trace[0] == Visit && trace[1..] == [];
      assert Step(Log([], false), Visit) == Log([], false);
      assert Run(Log([], false), trace) == Run(Log([], false), []);
    }
  }
}
