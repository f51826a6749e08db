/** Strings in code-point order, and finite sets of them as sorted sequences. */
module StringOrder {

  predicate Leq(a: string, b: string) {
    a == "" || (b != "" && (a[0] < b[0] || (a[0] == b[0] && Leq(a[1..], b[1..]))))
  }

  /** a is before b where the two first differ. */
  predicate FirstLess(a: string, b: string, i: int) {
    0 <= i < |a| && i < |b| && a[..i] == b[..i] && a[i] < b[i]
  }

  /** The order is by code point: one string is a prefix of the other, or smaller where they first differ. */
  lemma {:induction false} CodePointOrder(a: string, b: string)
    ensures Leq(a, b) <==> a <= b || exists i :: FirstLess(a, b, i)
  {
    if a != "" && b != "" {
      if a[0] == b[0] {
        CodePointOrder(a[1..], b[1..]);
        assert a == [a[0]] + a[1..] && b == [b[0]] + b[1..];
        forall i | FirstLess(a[1..], b[1..], i) ensures FirstLess(a, b, i + 1) {
          assert a[..i + 1] == [a[0]] + a[1..][..i] && b[..i + 1] == [b[0]] + b[1..][..i];
        }
        forall i | FirstLess(a, b, i) ensures i > 0 && FirstLess(a[1..], b[1..], i - 1) {
          assert a[1..][..i - 1] == a[..i][1..] && b[1..][..i - 1] == b[..i][1..];
        }
      } else {
        if a[0] < b[0] { assert FirstLess(a, b, 0); }
        forall i | FirstLess(a, b, i) ensures i == 0 { FirstCharacters(a, b, i); }
      }
    }
  }

  lemma FirstCharacters(a: string, b: string, i: int)
    requires FirstLess(a, b, i)
    ensures if i == 0 then a[0] < b[0] else a[0] == b[0]
  {
    if i > 0 { assert a[..i][0] == a[0] && b[..i][0] == b[0]; }
  }

  lemma {:induction false} LeqReflexive(a: string)
    ensures Leq(a, a)
  {
    if a != "" { LeqReflexive(a[1..]); }
  }

  lemma {:induction false} LeqTotal(a: string, b: string)
    ensures Leq(a, b) || Leq(b, a)
  {
    if a != "" && b != "" { LeqTotal(a[1..], b[1..]); }
  }

  lemma {:induction false} LeqAntisymmetric(a: string, b: string)
    requires Leq(a, b) && Leq(b, a)
    ensures a == b
  {
    if a != "" {
      LeqAntisymmetric(a[1..], b[1..]);
      assert a == [a[0]] + a[1..] && b == [b[0]] + b[1..];
    }
  }

  lemma {:induction false} LeqTransitive(a: string, b: string, c: string)
    requires Leq(a, b) && Leq(b, c)
    ensures Leq(a, c)
  {
    if a != "" && a[0] == b[0] == c[0] { LeqTransitive(a[1..], b[1..], c[1..]); }
  }

  predicate IsLeast(k: string, s: set<string>) {
    k in s && forall o :: o in s ==> Leq(k, o)
  }

  lemma {:induction false} LeastExists(s: set<string>)
    requires s != {}
    ensures exists k :: IsLeast(k, s)
  {
    var x :| x in s;
    var rest := s - {x};
    LeqReflexive(x);
    if rest == {} {
      assert s == {x};
      assert IsLeast(x, s);
    } else {
      LeastExists(rest);
      var k :| IsLeast(k, rest);
      LeqTotal(x, k);
      if Leq(k, x) {
        assert IsLeast(k, s);
      } else {
        forall o | o in s ensures Leq(x, o) {
          if o != x { LeqTransitive(x, k, o); }
        }
        assert IsLeast(x, s);
      }
    }
  }

  lemma LeastUnique(s: set<string>)
    ensures forall k, l :: IsLeast(k, s) && IsLeast(l, s) ==> k == l
  {
    forall k, l | IsLeast(k, s) && IsLeast(l, s) ensures k == l {
      LeqAntisymmetric(k, l);
    }
  }

  /** `sorted(s)`. */
  function Sorted(s: set<string>): (r: seq<string>)
    ensures forall k :: k in r <==> k in s
    ensures forall i, j :: 0 <= i < j < |r| ==> r[i] != r[j] && Leq(r[i], r[j])
  {
    if s == {} then [] else
      LeastExists(s);
      LeastUnique(s);
      var k :| k in s && IsLeast(k, s);
      [k] + Sorted(s - {k})
  }

  lemma SortedSingleton(x: string)
    ensures Sorted({x}) == [x]
  {
    var r := Sorted({x});
    assert x in r;
    forall i | 0 <= i < |r| ensures r[i] == x {
      assert r[i] in r && r[i] in {x};
    }
  }
}
