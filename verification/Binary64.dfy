/** Python's floats: rounding a non-negative real to IEEE 754 binary64, half to even. */
module Binary64 {
  import opened Outcomes
  import opened Positional

  const MIN_EXPONENT: int := -1074
  const P52: real := 4503599627370496.0
  const P53: real := 9007199254740992.0

  /** 2^e for any integer e. */
  function Scale(e: int): (r: real)
    ensures r > 0.0
  {
    if e >= 0 then Pow(2, e) as real else Reciprocal(Pow(2, -e))
  }

  function Reciprocal(n: nat): (r: real)
    requires n > 0
    ensures r > 0.0 && r * n as real == 1.0
  {
    1.0 / n as real
  }

  lemma ScaleDoubles(e: int)
    ensures Scale(e + 1) == 2.0 * Scale(e)
  {
    if e < 0 {
      var n := Pow(2, -e - 1);
      assert Pow(2, -e) == 2 * n;
      HalfReciprocal(n);
    }
  }

  lemma HalfReciprocal(n: nat)
    requires n > 0
    ensures Reciprocal(n) == 2.0 * Reciprocal(2 * n)
  {
  }

  lemma {:induction false} ScaleMonotone(d: int, e: int)
    requires d <= e
    ensures Scale(d) <= Scale(e)
    ensures d < e ==> 2.0 * Scale(d) <= Scale(e)
    decreases e - d
  {
    hide Scale;
    if d < e {
      ScaleMonotone(d, e - 1);
      ScaleDoubles(e - 1);
    }
  }

  // ----- Products, kept behind a name -----

  function Times(a: real, b: real): (r: real)
    ensures a >= 0.0 && b >= 0.0 ==> r >= 0.0
  {
    Product(a, b);
    a * b
  }

  lemma Product(a: real, b: real)
    ensures a >= 0.0 && b >= 0.0 ==> a * b >= 0.0
    ensures a > 0.0 && b > 0.0 ==> a * b > 0.0
  {
  }

  lemma TimesDistributes(a: real, b: real, s: real)
    ensures Times(a, s) - Times(b, s) == Times(a - b, s)
  {
  }

  lemma TimesPositive(a: real, s: real)
    requires s > 0.0
    ensures a > 0.0 ==> Times(a, s) > 0.0
    ensures a < 0.0 ==> Times(a, s) < 0.0
    ensures a == 0.0 ==> Times(a, s) == 0.0
  {
    Product(a, s);
    Product(-a, s);
  }

  /** Multiplying by a positive scale keeps every comparison. */
  lemma TimesCompare(a: real, b: real, s: real)
    requires s > 0.0
    ensures Times(a, s) >= Times(b, s) <==> a >= b
    ensures Times(a, s) == Times(b, s) <==> a == b
  {
    hide Times;
    TimesDistributes(a, b, s);
    TimesPositive(a - b, s);
  }

  lemma TimesMonotone(a: real, b: real, c: real)
    requires a <= b && 0.0 <= c
    ensures Times(a, c) <= Times(b, c)
  {
    if c > 0.0 { TimesCompare(b, a, c); }
  }

  lemma TimesCommutes(a: real, b: real)
    ensures Times(a, b) == Times(b, a)
  {
  }

  lemma TimesOne(a: real)
    ensures Times(1.0, a) == a && Times(a, 1.0) == a
  {
  }

  lemma TimesZero(a: real, b: real)
    ensures a == 0.0 ==> Times(a, b) == 0.0
  {
  }

  lemma TimesConstants(s: real)
    ensures Times(P53, s) == P53 * s && Times(P52, s) == P52 * s && Times(0.5, s) == 0.5 * s
  {
  }

  lemma TimesTwo(a: real, s: real)
    ensures Times(a, 2.0 * s) == Times(2.0 * a, s)
  {
  }

  // ----- The grid of doubles around a real -----

  /** How many steps of 2^e make x. */
  function Steps(x: real, e: int): (r: real)
    ensures Times(r, Scale(e)) == x
    ensures x >= 0.0 ==> r >= 0.0
  {
    Quotient(x, Scale(e));
    x / Scale(e)
  }

  lemma Quotient(x: real, s: real)
    requires s > 0.0
    ensures Times(x / s, s) == x && (x >= 0.0 ==> x / s >= 0.0)
  {
  }

  /** The exponent of the grid that x is rounded to: the finest from e on with fewer than 2^53 steps below x. */
  function ExponentFrom(x: real, e: int): (r: int)
    requires x >= 0.0
    ensures r >= e && x < P53 * Scale(r)
    ensures r > e ==> x >= P52 * Scale(r)
    decreases Steps(x, e).Floor
  {
    if x < P53 * Scale(e) then e else
      ScaleDoubles(e);
      StepsHalve(x, e);
      ExponentFrom(x, e + 1)
  }

  lemma StepsHalve(x: real, e: int)
    requires x >= P53 * Scale(e)
    ensures 0 <= Steps(x, e + 1).Floor < Steps(x, e).Floor
  {
    hide Scale, Steps, Times;
    ScaleDoubles(e);
    var s, a, b := Scale(e), Steps(x, e), Steps(x, e + 1);
    TimesTwo(b, s);
    TimesCompare(a, 2.0 * b, s);
    TimesConstants(s);
    TimesCompare(a, P53, s);
    HalfFloor(a, b);
  }

  lemma HalfFloor(a: real, b: real)
    requires a == 2.0 * b && a >= 2.0
    ensures 0 <= b.Floor < a.Floor
  {
  }

  /** The steps are known from any way to count them. */
  lemma StepsAre(x: real, e: int, a: real)
    requires Times(a, Scale(e)) == x
    ensures Steps(x, e) == a
  {
    hide Scale, Times, Steps;
    TimesCompare(Steps(x, e), a, Scale(e));
  }

  function Exponent(x: real): (r: int)
    requires x >= 0.0
    ensures r >= MIN_EXPONENT && x < P53 * Scale(r)
    ensures r > MIN_EXPONENT ==> x >= P52 * Scale(r)
  {
    ExponentFrom(x, MIN_EXPONENT)
  }

  lemma ExponentUnique(x: real, e: int)
    requires x >= 0.0 && e >= MIN_EXPONENT
    requires x < P53 * Scale(e) && (e > MIN_EXPONENT ==> x >= P52 * Scale(e))
    ensures Exponent(x) == e
  {
    hide Scale, Exponent;
    var r := Exponent(x);
    if r < e { ScaleMonotone(r, e); }
    if e < r { ScaleMonotone(e, r); }
  }

  /** The nearest integer, ties to the even one. */
  function RoundEven(y: real): (q: int)
    ensures q as real - 0.5 <= y <= q as real + 0.5
  {
    var q := y.Floor;
    var rest := y - q as real;
    if rest < 0.5 || (rest == 0.5 && q % 2 == 0) then q else q + 1
  }

  lemma RoundEvenMonotone(y: real, z: real)
    requires y <= z
    ensures RoundEven(y) <= RoundEven(z)
  {
  }

  lemma RoundEvenWithin(y: real, m: int)
    ensures y <= m as real ==> RoundEven(y) <= m
    ensures y >= m as real ==> RoundEven(y) >= m
  {
  }

  lemma RoundEvenExact(k: int)
    ensures RoundEven(k as real) == k
  {
  }

  /** The double nearest to x, as a real; there is no largest one here (see `FloatOf`). */
  function Rounded(x: real): (r: real)
    requires x >= 0.0
    ensures r >= 0.0
  {
    var e := Exponent(x);
    RoundEvenWithin(Steps(x, e), 0);
    Times(RoundEven(Steps(x, e)) as real, Scale(e))
  }

  // ----- Laws of rounding -----

  /** m steps of 2^e. */
  function Grid(m: nat, e: int): (r: real)
    ensures r >= 0.0
  {
    Times(m as real, Scale(e))
  }

  /** A real with at most 53 significant bits is its own double. */
  lemma RoundedExact(m: nat, e: int)
    requires e >= -1074 && m as real <= P53
    ensures Rounded(Grid(m, e)) == Grid(m, e)
  {
    hide Scale, Steps, Exponent, Times;
    var x := Grid(m, e);
    var r := Exponent(x);
    if r <= e {
      var k := Multiple(m, e, r);
      StepsAre(x, r, k as real);
      RoundEvenExact(k);
    } else {
      ScaleMonotone(e, r);
      FullGrid(m, e, r);
      StepsAre(x, r, P52);
      RoundEvenExact(4503599627370496);
    }
  }

  /** A grid point is a point of every finer grid. */
  lemma {:induction false} Multiple(m: nat, e: int, r: int) returns (k: nat)
    requires r <= e
    ensures Times(k as real, Scale(r)) == Times(m as real, Scale(e))
    decreases e - r
  {
    hide Scale, Times;
    if r == e {
      k := m;
    } else {
      ScaleDoubles(e - 1);
      k := Multiple(2 * m, e - 1, r);
      TimesTwo(m as real, Scale(e - 1));
    }
  }

  lemma FullGrid(m: nat, e: int, r: int)
    requires e < r && m as real <= P53 && Times(m as real, Scale(e)) >= P52 * Scale(r)
    ensures Times(P52, Scale(r)) == Times(m as real, Scale(e))
  {
    hide Scale, Times;
    ScaleMonotone(e, r);
    TimesCompare(P53, m as real, Scale(e));
    TimesConstants(Scale(e));
    TimesConstants(Scale(r));
  }

  /** Rounding never reverses an order. */
  lemma RoundedMonotone(x: real, y: real)
    requires 0.0 <= x <= y
    ensures Rounded(x) <= Rounded(y)
  {
    hide Scale, Steps, Exponent, RoundEven, Times;
    var d, e := Exponent(x), Exponent(y);
    if d == e {
      RoundedMonotoneOnGrid(x, y, d);
    } else if e < d {
      ScaleMonotone(e, d);
      assert false;
    } else {
      ScaleMonotone(d, e);
      RoundedAtMost(x);
      RoundedAtLeast(y);
    }
  }

  lemma RoundedMonotoneOnGrid(x: real, y: real, e: int)
    requires x <= y
    ensures Times(RoundEven(Steps(x, e)) as real, Scale(e)) <= Times(RoundEven(Steps(y, e)) as real, Scale(e))
  {
    hide Scale, RoundEven, Steps, Times;
    var a, b, s := Steps(x, e), Steps(y, e), Scale(e);
    TimesCompare(b, a, s);
    RoundEvenMonotone(a, b);
    TimesCompare(RoundEven(b) as real, RoundEven(a) as real, s);
  }

  /** Rounding does not cross a grid point. */
  lemma RoundedWithin(x: real, e: int, m: nat)
    requires x >= 0.0
    ensures x <= Grid(m, e) ==> Times(RoundEven(Steps(x, e)) as real, Scale(e)) <= Grid(m, e)
    ensures x >= Grid(m, e) ==> Times(RoundEven(Steps(x, e)) as real, Scale(e)) >= Grid(m, e)
  {
    hide Scale, RoundEven, Steps, Times;
    var a, b, s := Steps(x, e), m as real, Scale(e);
    TimesCompare(a, b, s);
    TimesCompare(b, a, s);
    RoundEvenWithin(a, m);
    TimesCompare(RoundEven(a) as real, b, s);
    TimesCompare(b, RoundEven(a) as real, s);
  }

  lemma RoundedAtMost(x: real)
    requires x >= 0.0
    ensures Rounded(x) <= P53 * Scale(Exponent(x))
  {
    hide Scale, Steps, Exponent, RoundEven, Times;
    TimesConstants(Scale(Exponent(x)));
    RoundedWithin(x, Exponent(x), 9007199254740992);
  }

  lemma RoundedAtLeast(x: real)
    requires x >= 0.0 && Exponent(x) > MIN_EXPONENT
    ensures Rounded(x) >= P52 * Scale(Exponent(x))
  {
    hide Scale, Steps, Exponent, RoundEven, Times;
    TimesConstants(Scale(Exponent(x)));
    RoundedWithin(x, Exponent(x), 4503599627370496);
  }

  /** Only reals up to half the smallest double round to zero. */
  lemma RoundsToZero(x: real)
    requires x >= 0.0
    ensures Rounded(x) == 0.0 <==> x <= 0.5 * Scale(-1074)
  {
    hide Scale, Steps, Exponent, Times;
    var e := Exponent(x);
    var s, y := Scale(e), Steps(x, e);
    TimesConstants(s);
    TimesCompare(0.5, y, s);
    if e > MIN_EXPONENT {
      RoundedAtLeast(x);
      ScaleMonotone(MIN_EXPONENT, e);
    } else {
      TimesPositive(RoundEven(y) as real, s);
    }
  }

  /** Small integers are doubles. */
  lemma IntegersAreExact(n: nat)
    requires n as real <= P53
    ensures Rounded(n as real) == n as real
  {
    hide Times, Rounded;
    RoundedExact(n, 0);
    assert Scale(0) == 1.0;
    TimesOne(n as real);
  }

  /** A double is its own rounding. */
  lemma RoundedIdempotent(x: real)
    requires x >= 0.0
    ensures Rounded(Rounded(x)) == Rounded(x)
  {
    hide Scale, Steps, Exponent, RoundEven, Times;
    var e := Exponent(x);
    var m := RoundEven(Steps(x, e));
    RoundEvenWithin(Steps(x, e), 0);
    RoundedAtMost(x);
    TimesConstants(Scale(e));
    TimesCompare(P53, m as real, Scale(e));
    RoundedExact(m, e);
    assert Rounded(x) == Grid(m, e);
  }

  // ----- float(n) of an integer -----

  const MAX_EXPONENT: int := 1024

  function Magnitude(n: int): nat {
    if n < 0 then -n else n
  }

  /** `float(n)`; None is an OverflowError. */
  function FloatOf(n: int): Option<real> {
    var r := Rounded(Magnitude(n) as real);
    if r >= Scale(MAX_EXPONENT) then None else Some(if n < 0 then -r else r)
  }

  /** The distance between the doubles around an integer. */
  function Spacing(n: nat): (u: nat)
    ensures u > 0
  {
    if BitLength(n) <= 53 then 1 else Pow(2, BitLength(n) - 53)
  }

  /** A double holds n exactly: below 2^1024, and zero in every bit after the first 53. */
  predicate Representable(n: int) {
    Magnitude(n) as real < Scale(MAX_EXPONENT) && Magnitude(n) % Spacing(Magnitude(n)) == 0
  }

  lemma FloatOfExactly(n: int)
    ensures FloatOf(n) == Some(n as real) <==> Representable(n)
  {
    hide Scale, Rounded, Spacing;
    IntegerExactly(Magnitude(n));
  }

  lemma IntegerExactly(n: nat)
    ensures Rounded(n as real) == n as real <==> n % Spacing(n) == 0
  {
    hide Scale, Steps, Exponent, RoundEven, Pow, Rounded;
    BelowP53(n);
    if BitLength(n) <= 53 {
      IntegersAreExact(n);
    } else {
      LongIntegerExactly(n, BitLength(n) - 53);
    }
  }

  lemma BelowP53(n: nat)
    ensures BitLength(n) <= 53 <==> n as real < P53
  {
    NumeralLength(n, 2, 53);
    PowersToP53();
  }

  lemma PowersToP53()
    ensures Pow(2, 52) == 4503599627370496 && Pow(2, 53) == 9007199254740992
  {
    assert Pow(2, 13) == 8192;
    PowAdd(2, 13, 13);
    PowAdd(2, 26, 26);
  }

  lemma LongIntegerExactly(n: nat, k: nat)
    requires k > 0 && BitLength(n) == 53 + k
    ensures Rounded(n as real) == n as real <==> n % Pow(2, k) == 0
  {
    hide Steps, Exponent, RoundEven, Pow, Times;
    var u := Pow(2, k);
    LongInteger(n, k);
    ExponentUnique(n as real, k);
    var y := Steps(n as real, k);
    TimesCompare(RoundEven(y) as real, y, u as real);
    IntegralSteps(n, u, y);
  }

  lemma LongInteger(n: nat, k: nat)
    requires k > 0 && BitLength(n) == 53 + k
    ensures P52 * Pow(2, k) as real <= n as real < P53 * Pow(2, k) as real
  {
    hide Pow;
    NumeralLength(n, 2, 53 + k);
    NumeralLength(n, 2, 52 + k);
    PowAdd(2, 52, k);
    PowAdd(2, 53, k);
    PowersToP53();
  }

  lemma IntegralSteps(n: nat, u: nat, y: real)
    requires u > 0 && Times(y, u as real) == n as real
    ensures RoundEven(y) as real == y <==> n % u == 0
  {
    hide Times;
    if n % u == 0 {
      var q := n / u;
      assert n == q * u;
      TimesIntegers(q, u);
      TimesCompare(y, q as real, u as real);
      RoundEvenExact(q);
    }
    if RoundEven(y) as real == y {
      TimesIntegers(RoundEven(y), u);
      MultipleModulo(RoundEven(y), u);
    }
  }

  lemma TimesIntegers(m: int, u: int)
    ensures Times(m as real, u as real) == (m * u) as real
  {
  }

  lemma MultipleModulo(m: int, u: nat)
    requires u > 0
    ensures m * u % u == 0
  {
    var d := m * u / u - m;
    assert d * u == -(m * u % u);
  }

  /** Every integer up to 2^53 is held exactly ... */
  lemma SmallIntegersRepresentable(n: int)
    requires Magnitude(n) <= 9007199254740992
    ensures Representable(n)
  {
    hide Scale, Spacing;
    var m := Magnitude(n);
    IntegersAreExact(m);
    IntegerExactly(m);
    SmallBelowLimit();
  }

  lemma SmallBelowLimit()
    ensures P53 < Scale(MAX_EXPONENT)
  {
    hide Scale;
    ScaleMonotone(53, 54);
    ScaleMonotone(54, MAX_EXPONENT);
    assert Scale(53) == P53 by { PowersToP53(); ScaleOfNat(53); }
  }

  lemma ScaleOfNat(k: nat)
    ensures Scale(k) == Pow(2, k) as real
  {
  }

  /** ... and the next one is not: it is rounded down to 2^53. */
  lemma FirstInexactInteger()
    ensures FloatOf(9007199254740993) == Some(9007199254740992.0) && !Representable(9007199254740993)
  {
    hide Scale, Rounded, Spacing;
    TieAboveP53();
    SmallBelowLimit();
    FloatOfExactly(9007199254740993);
  }

  lemma TieAboveP53()
    ensures Rounded(9007199254740993.0) == 9007199254740992.0
  {
    hide Steps, Exponent;
    ScaleOfNat(1);
    assert Pow(2, 1) == 2 && Times(4503599627370496.5, 2.0) == 9007199254740993.0;
    ExponentUnique(9007199254740993.0, 1);
    StepsAre(9007199254740993.0, 1, 4503599627370496.5);
  }

  // ----- Overflow and quotients -----

  /** A rounded result from here on is Python's inf. */
  predicate IsFinite(x: real) {
    x < Scale(MAX_EXPONENT)
  }

  /** Below this everything rounds to a finite double: half a step under 2^1024. */
  function Threshold(): real {
    Times(9007199254740991.5, Scale(971))
  }

  lemma {:induction false} ScaleShift(e: int, k: nat)
    ensures Scale(e + k) == Times(Pow(2, k) as real, Scale(e))
  {
    hide Scale, Times;
    if k == 0 {
      TimesOne(Scale(e));
    } else {
      ScaleShift(e, k - 1);
      ScaleDoubles(e + k - 1);
      DoubleTimes(Pow(2, k - 1), Scale(e));
    }
  }

  lemma DoubleTimes(n: nat, s: real)
    ensures 2.0 * Times(n as real, s) == Times((2 * n) as real, s)
  {
  }

  /** A real rounds to a finite double exactly when it is below the threshold. */
  lemma FiniteExactly(x: real)
    requires x >= 0.0
    ensures IsFinite(Rounded(x)) <==> x < Threshold()
  {
    hide Scale, Steps, Exponent, Times, RoundEven;
    var e := Exponent(x);
    LimitScales();
    ThresholdBetween();
    if e < 971 {
      ScaleMonotone(e, 970);
      RoundedAtMost(x);
    } else if e > 971 {
      ScaleMonotone(972, e);
      RoundedAtLeast(x);
    } else {
      FiniteOnLastGrid(x);
    }
  }

  lemma LimitScales()
    ensures Scale(MAX_EXPONENT) == P53 * Scale(971) == P52 * Scale(972)
    ensures P53 * Scale(970) < P53 * Scale(971)
  {
    hide Scale, Times;
    PowersToP53();
    ScaleShift(971, 53);
    ScaleShift(972, 52);
    TimesConstants(Scale(971));
    TimesConstants(Scale(972));
    ScaleMonotone(970, 971);
  }

  lemma ThresholdBetween()
    ensures P53 * Scale(970) < Threshold() < P53 * Scale(971)
  {
    hide Scale;
    ScaleMonotone(970, 971);
  }

  lemma FiniteOnLastGrid(x: real)
    requires x >= 0.0 && Exponent(x) == 971
    ensures IsFinite(Rounded(x)) <==> x < Threshold()
  {
    hide Scale, Steps, Exponent, Times;
    var y, s := Steps(x, 971), Scale(971);
    LimitScales();
    TimesConstants(s);
    TimesCompare(y, 9007199254740991.5, s);
    TimesCompare(RoundEven(y) as real, P53, s);
    TieBelowP53(y);
  }

  lemma TieBelowP53(y: real)
    ensures RoundEven(y) >= 9007199254740992 <==> y >= 9007199254740991.5
  {
  }

  /** An exact quotient, kept behind a name like the products. */
  function Over(x: real, d: real): (r: real)
    requires d > 0.0
    ensures x >= 0.0 ==> r >= 0.0
    ensures Times(r, d) == x
  {
    Quotient(x, d);
    x / d
  }

  /** `n / d` for an int and a positive float: None when n has no float; the result may be infinite. */
  function IntOverFloat(n: nat, d: real): (r: Option<real>)
    requires d > 0.0
    ensures r.Some? ==> r.value >= 0.0
  {
    match FloatOf(n)
    case None => None
    case Some(x) =>
      FloatOfNatural(n);
      Some(Rounded(Over(x, d)))
  }

  lemma FloatOfNatural(n: nat)
    ensures FloatOf(n).Some? <==> n as real < Threshold()
    ensures FloatOf(n).Some? ==> FloatOf(n).value == Rounded(n as real) >= 0.0
  {
    hide Rounded, Scale, Times, Threshold;
    FiniteExactly(n as real);
  }

  /** The quotient of an int by a positive float is a finite float exactly when neither the int nor the quotient reaches
      the threshold. */
  lemma FiniteQuotientExactly(n: nat, d: real)
    requires d > 0.0
    ensures IntOverFloat(n, d).Some? <==> n as real < Threshold()
    ensures IntOverFloat(n, d).Some? ==> (IsFinite(IntOverFloat(n, d).value) <==> Over(Rounded(n as real), d) < Threshold())
  {
    hide Rounded, Scale, Times, Threshold, IsFinite, FloatOf, Over;
    FloatOfNatural(n);
    FiniteExactly(Over(Rounded(n as real), d));
  }

  /** `n / m` for ints: correctly rounded, and None where the source raises OverflowError. */
  function IntOverInt(n: nat, m: nat): (r: Option<real>)
    requires m > 0
    ensures r.Some? ==> r.value >= 0.0 && IsFinite(r.value)
  {
    if IsFinite(Rounded(Over(n as real, m as real))) then Some(Rounded(Over(n as real, m as real))) else None
  }

  lemma SmallIsFinite(x: real)
    requires x <= P53
    ensures IsFinite(x)
  {
    hide Scale;
    SmallBelowLimit();
  }
}
