/** Positional numerals, most significant digit first, in any base of at least two. */
module Positional {

  type Byte = x: int | 0 <= x < 256

  function Pow(b: nat, n: nat): (r: nat)
    ensures b > 0 ==> r > 0
  {
    if n == 0 then 1 else b * Pow(b, n - 1)
  }

  predicate Digits(s: seq<int>, base: int) {
    forall i :: 0 <= i < |s| ==> 0 <= s[i] < base
  }

  /** The number a digit string denotes (`int.from_bytes(.., "big")` when the base is 256). */
  function Value(s: seq<int>, base: nat): int {
    if s == [] then 0 else Value(s[..|s| - 1], base) * base + s[|s| - 1]
  }

  /** The shortest digit string denoting n; zero has no digits. */
  function Numeral(n: nat, base: nat): (s: seq<int>)
    requires base >= 2
    ensures Digits(s, base)
    ensures n > 0 ==> s != [] && s[0] != 0
    ensures n == 0 ==> s == []
    decreases n
  {
    if n == 0 then [] else
      DivShrinks(n, base);
      Numeral(n / base, base) + [n % base]
  }

  function LeadingZeros(s: seq<int>): (k: nat)
    ensures k <= |s|
    ensures forall i :: 0 <= i < k ==> s[i] == 0
    ensures k < |s| ==> s[k] != 0
  {
    if s != [] && s[0] == 0 then 1 + LeadingZeros(s[1..]) else 0
  }

  function Zeros(k: nat): (s: seq<int>)
    ensures |s| == k && forall i :: 0 <= i < k ==> s[i] == 0
  {
    seq(k, _ => 0)
  }

  /** Change of base that keeps one leading zero for each leading zero of the input. */
  function Rebase(s: seq<int>, from: nat, to: nat): (r: seq<int>)
    requires from >= 2 && to >= 2 && Digits(s, from)
    ensures Digits(r, to)
  {
    ValueInRange(s, from);
    Zeros(LeadingZeros(s)) + Numeral(Value(s, from), to)
  }

  lemma DivShrinks(n: nat, base: nat)
    requires n > 0 && base >= 2
    ensures 0 <= n / base < n
  {
  }

  lemma ShiftInRange(v: nat, p: nat, d: nat, base: nat)
    requires v < p && d < base
    ensures v * base + d < base * p
  {
    assert (v + 1) * base <= p * base;
  }

  lemma ShiftGrows(v: nat, p: nat, d: nat, base: nat)
    requires p <= v
    ensures base * p <= v * base + d
  {
    assert p * base <= v * base;
  }

  lemma {:induction false} ValueInRange(s: seq<int>, base: nat)
    requires base >= 2 && Digits(s, base)
    ensures 0 <= Value(s, base) < Pow(base, |s|)
    ensures s != [] && s[0] != 0 ==> Value(s, base) >= Pow(base, |s| - 1)
  {
    if s != [] {
      var init, last := s[..|s| - 1], s[|s| - 1];
      ValueInRange(init, base);
      ShiftInRange(Value(init, base), Pow(base, |init|), last, base);
      if s[0] != 0 && init != [] {
        ShiftGrows(Value(init, base), Pow(base, |init| - 1), last, base);
      }
    }
  }

  lemma {:induction false} ValueOfNumeral(n: nat, base: nat)
    requires base >= 2
    ensures Value(Numeral(n, base), base) == n
    decreases n
  {
    if n > 0 {
      DivShrinks(n, base);
      var q, r := n / base, n % base;
      ValueOfNumeral(q, base);
      ValueOfShift(Numeral(q, base), r, base);
      NumeralUnfold(n, base);
      DivModExpand(n, base);
    }
  }

  lemma NumeralUnfold(n: nat, base: nat)
    requires n > 0 && base >= 2
    ensures n / base >= 0 && Numeral(n, base) == Numeral(n / base, base) + [n % base]
  {
    DivShrinks(n, base);
  }

  lemma DivModExpand(n: nat, base: nat)
    requires base >= 2
    ensures n == n / base * base + n % base
  {
  }

  lemma ValueOfShift(s: seq<int>, d: int, base: nat)
    ensures Value(s + [d], base) == Value(s, base) * base + d
  {
    assert (s + [d])[..|s|] == s;
  }

  lemma {:induction false} NumeralOfValue(s: seq<int>, base: nat)
    requires base >= 2 && Digits(s, base)
    requires s != [] ==> s[0] != 0
    ensures Value(s, base) >= 0 && Numeral(Value(s, base), base) == s
  {
    if s != [] {
      var init, last := s[..|s| - 1], s[|s| - 1];
      NumeralOfValue(init, base);
      ValueInRange(s, base);
      DivModUnique(Value(init, base), last, base);
      assert s == init + [last];
    }
  }

  lemma DivModUnique(q: nat, r: nat, base: nat)
    requires base >= 2 && r < base
    ensures (q * base + r) / base == q && (q * base + r) % base == r
  {
    var n := q * base + r;
    assert n == (n / base) * base + n % base;
    var d := n / base - q;
    assert d * base == r - n % base;
  }

  lemma {:induction false} ValueSkipsLeadingZeros(k: nat, s: seq<int>, base: nat)
    ensures Value(Zeros(k) + s, base) == Value(s, base)
    decreases k + |s|
  {
    var t := Zeros(k) + s;
    if s != [] {
      ValueSkipsLeadingZeros(k, s[..|s| - 1], base);
      assert t[..|t| - 1] == Zeros(k) + s[..|s| - 1];
    } else if k > 0 {
      ValueSkipsLeadingZeros(k - 1, [], base);
      assert t[..|t| - 1] == Zeros(k - 1) + [];
    }
  }

  lemma {:induction false} LeadingZerosOfPadded(k: nat, s: seq<int>)
    requires s != [] ==> s[0] != 0
    ensures LeadingZeros(Zeros(k) + s) == k
  {
    var t := Zeros(k) + s;
    assert forall i :: 0 <= i < k ==> t[i] == 0;
    assert s != [] ==> t[k] == s[0];
  }

  /** A numeral has at most k digits exactly when its number is below base^k. */
  lemma NumeralLength(n: nat, base: nat, k: nat)
    requires base >= 2
    ensures |Numeral(n, base)| <= k <==> n < Pow(base, k)
  {
    var s := Numeral(n, base);
    ValueOfNumeral(n, base);
    ValueInRange(s, base);
    if |s| <= k {
      PowMonotone(base, |s|, k);
    } else {
      PowMonotone(base, k, |s| - 1);
    }
  }

  lemma {:induction false} PowMonotone(b: nat, m: nat, n: nat)
    requires b > 0 && m <= n
    ensures Pow(b, m) <= Pow(b, n)
    decreases n
  {
    if m < n {
      PowMonotone(b, m, n - 1);
      assert b * Pow(b, n - 1) >= Pow(b, n - 1);
    }
  }

  lemma {:induction false} PowAdd(b: nat, m: nat, n: nat)
    ensures Pow(b, m + n) == Pow(b, m) * Pow(b, n)
  {
    if m > 0 {
      PowAdd(b, m - 1, n);
      MulAssociates(b, Pow(b, m - 1), Pow(b, n));
    }
  }

  lemma MulAssociates(x: nat, y: nat, z: nat)
    ensures x * (y * z) == (x * y) * z
  {
  }

  lemma MulMonotone(a: nat, b: nat, c: nat, d: nat)
    requires a <= b && c <= d
    ensures a * c <= b * d
  {
    assert a * c <= b * c <= b * d;
  }

  /** Comparisons of powers multiply ... */
  lemma PowProduct(a: nat, m: nat, p: nat, b: nat, n: nat, q: nat)
    requires Pow(a, m) <= Pow(b, n) && Pow(a, p) <= Pow(b, q)
    ensures Pow(a, m + p) <= Pow(b, n + q)
  {
    PowAdd(a, m, p);
    PowAdd(b, n, q);
    MulMonotone(Pow(a, m), Pow(b, n), Pow(a, p), Pow(b, q));
  }

  /** ... and repeat. */
  lemma {:induction false} PowRepeat(a: nat, m: nat, b: nat, n: nat, k: nat)
    requires Pow(a, m) <= Pow(b, n)
    ensures Pow(a, m * k) <= Pow(b, n * k)
    decreases k
  {
    if k > 0 {
      PowRepeat(a, m, b, n, k - 1);
      PowProduct(a, m, m * (k - 1), b, n, n * (k - 1));
      assert m + m * (k - 1) == m * k && n + n * (k - 1) == n * k;
    }
  }

  /** Splitting off the leading zeros leaves the numeral of the same number. */
  lemma Decomposition(s: seq<int>, base: nat)
    requires base >= 2 && Digits(s, base)
    ensures Value(s, base) >= 0
    ensures s == Zeros(LeadingZeros(s)) + Numeral(Value(s, base), base)
  {
    var k := LeadingZeros(s);
    assert s == Zeros(k) + s[k..];
    ValueSkipsLeadingZeros(k, s[k..], base);
    NumeralOfValue(s[k..], base);
  }

  /** Changing base and changing back is the identity, leading zeros included. */
  lemma RebaseRoundTrip(s: seq<int>, from: nat, to: nat)
    requires from >= 2 && to >= 2 && Digits(s, from)
    ensures Rebase(Rebase(s, from, to), to, from) == s
  {
    ValueInRange(s, from);
    var k, n := LeadingZeros(s), Value(s, from);
    var r := Numeral(n, to);
    LeadingZerosOfPadded(k, r);
    ValueSkipsLeadingZeros(k, r, to);
    ValueOfNumeral(n, to);
    Decomposition(s, from);
  }

  // ----- Concatenation -----

  lemma {:induction false} ValueOfConcat(s: seq<int>, t: seq<int>, base: nat)
    ensures Value(s + t, base) == Value(s, base) * Pow(base, |t|) + Value(t, base)
  {
    if t == [] {
      assert s + t == s;
    } else {
      var init, last := t[..|t| - 1], t[|t| - 1];
      ValueOfConcat(s, init, base);
      ValueOfShift(s + init, last, base);
      assert s + t == (s + init) + [last];
      Regroup(Value(s, base), Pow(base, |init|), Value(init, base), base);
    }
  }

  lemma Regroup(a: int, p: int, v: int, base: int)
    ensures (a * p + v) * base == a * (base * p) + v * base
  {
  }

  // ----- The widths Python computes -----

  /** `int.bit_length`. */
  function BitLength(n: nat): nat {
    |Numeral(n, 2)|
  }

  /** `int.to_bytes(width, "big")` for a number that fits. */
  function ToBytes(n: nat, width: nat): (s: seq<Byte>)
    ensures |s| == width
  {
    if width == 0 then [] else ToBytes(n / 256, width - 1) + [n % 256]
  }

  lemma {:induction false} BitLengthPerByte(n: nat)
    ensures (BitLength(n) + 7) / 8 == |Numeral(n, 256)|
    decreases n
  {
    if 0 < n {
      var k := |Numeral(n, 256)|;
      NumeralLength(n, 256, k);
      NumeralLength(n, 256, k - 1);
      ByteIsEightBits(k);
      ByteIsEightBits(k - 1);
      NumeralLength(n, 2, 8 * k);
      NumeralLength(n, 2, 8 * (k - 1));
    }
  }

  lemma {:induction false} ByteIsEightBits(k: nat)
    ensures Pow(256, k) == Pow(2, 8 * k)
  {
    if k > 0 {
      ByteIsEightBits(k - 1);
      PowAdd(2, 8, 8 * (k - 1));
      assert Pow(2, 8) == 256;
    }
  }

  lemma {:induction false} ToBytesIsNumeral(n: nat)
    ensures ToBytes(n, |Numeral(n, 256)|) == Numeral(n, 256)
    decreases n
  {
    if n > 0 {
      ToBytesIsNumeral(n / 256);
    }
  }

  /** Decimal text of an integer (`str`). */
  function Decimal(n: int): string
    decreases n < 0
  {
    if n < 0 then "-" + Decimal(-n)
    else if n == 0 then "0"
    else var d := Numeral(n, 10);
      seq(|d|, i requires 0 <= i < |d| => ('0' as int + d[i]) as char)
  }

  /** The decimal text of a positive number spells its digits, and they denote it. */
  lemma DecimalDenotes(n: nat)
    requires n > 0
    ensures exists d :: Digits(d, 10) && d != [] && d[0] != 0 && Value(d, 10) == n && SpelledBy(Decimal(n), d)
    ensures Decimal(0) == "0" && Decimal(0 - n) == "-" + Decimal(n)
  {
    ValueOfNumeral(n, 10);
    assert SpelledBy(Decimal(n), Numeral(n, 10));
  }

  predicate SpelledBy(text: string, d: seq<int>) {
    |text| == |d| && forall i :: 0 <= i < |d| ==> 0 <= d[i] < 10 && text[i] == "0123456789"[d[i]]
  }
}
