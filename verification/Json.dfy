/** JSON trees as Python values, with the equality Python's `==` gives them. */
module Json {
  import opened Outcomes

  datatype Json =
    | Null
    | Bool(truth: bool)
    | Int(whole: int)
    | Float(number: real)  // finite floats only
    | Str(text: string)
    | Arr(items: seq<Json>)
    | Obj(fields: map<string, Json>)

  /** Python compares booleans, ints and floats by numeric value: True == 1 == 1.0. */
  function Numeric(j: Json): Option<real> {
    match j
    case Bool(b) => Some(if b then 1.0 else 0.0)
    case Int(i) => Some(i as real)
    case Float(r) => Some(r)
    case _ => None
  }

  predicate SameKind(a: Json, b: Json) {
    (a.Obj? && b.Obj?) || (a.Arr? && b.Arr?)
  }

  /** `==` on two values that are not both dicts and not both lists. */
  predicate LeafEqual(a: Json, b: Json)
    requires !SameKind(a, b)
  {
    if Numeric(a).Some? && Numeric(b).Some? then Numeric(a) == Numeric(b) else a == b
  }

  /** `==` on any two values. */
  ghost predicate Same(a: Json, b: Json)
    decreases a
  {
    if a.Obj? && b.Obj? then
      a.fields.Keys == b.fields.Keys && forall k :: k in a.fields ==> Same(a.fields[k], b.fields[k])
    else if a.Arr? && b.Arr? then
      |a.items| == |b.items| && forall i :: 0 <= i < |a.items| ==> Same(a.items[i], b.items[i])
    else
      LeafEqual(a, b)
  }

  lemma {:induction false} SameReflexive(a: Json)
    ensures Same(a, a)
    decreases a
  {
    match a
    case Obj(m) => forall k | k in m ensures Same(m[k], m[k]) { SameReflexive(m[k]); }
    case Arr(s) => forall i | 0 <= i < |s| ensures Same(s[i], s[i]) { SameReflexive(s[i]); }
    case _ =>
  }
}
