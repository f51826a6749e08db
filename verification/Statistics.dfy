/** Nearest-rank order statistics (validator_doctor/metrics.py), with the rank computed in binary64. */
module Statistics {
  import opened Outcomes
  import opened Positional
  import opened Binary64

  function Insert(x: real, s: seq<real>): (r: seq<real>) {
    if s == [] || x <= s[0] then [x] + s else [s[0]] + Insert(x, s[1..])
  }

  /** `sorted(values)`. */
  function Sort(v: seq<real>): (s: seq<real>)
    ensures |s| == |v|
    decreases v
  {
    if v == [] then [] else
      InsertLength(v[0], Sort(v[1..]));
      Insert(v[0], Sort(v[1..]))
  }

  lemma {:induction false} InsertLength(x: real, s: seq<real>)
    ensures |Insert(x, s)| == |s| + 1
  {
    if s != [] { InsertLength(x, s[1..]); }
  }

  predicate Ascending(s: seq<real>) {
    forall i, j :: 0 <= i <= j < |s| ==> s[i] <= s[j]
  }

  function CountAtMost(v: seq<real>, x: real): (n: nat)
    ensures n <= |v|
  {
    if v == [] then 0 else (if v[0] <= x then 1 else 0) + CountAtMost(v[1..], x)
  }

  /** `math.ceil`. */
  function Ceil(x: real): (n: int)
    ensures n as real - 1.0 < x <= n as real
  {
    -((-x).Floor)
  }

  /** `math.ceil(percentile / 100 * n)`, each operation rounded to a double. */
  function Rank(n: nat, percentile: real): (k: nat)
    requires percentile > 0.0
  {
    CeilOfShare(percentile / 100.0, n);
    Ceil(Scaled(percentile / 100.0, n))
  }

  /** `share * n` for a share that is itself a rounded quotient. */
  function Scaled(share: real, n: nat): (r: real)
    requires share >= 0.0
    ensures r >= 0.0
  {
    Rounded(Times(Rounded(share), Rounded(n as real)))
  }

  lemma CeilOfShare(share: real, n: nat)
    requires share >= 0.0
    ensures Ceil(Scaled(share, n)) >= 0
  {
  }

  const NO_SAMPLES := "at least one sample is required"
  const BAD_PERCENTILE := "percentile must be in (0, 100]"
  const INDEX_ERROR := "list index out of range"

  /** `ordered[rank - 1]`: rank zero wraps to the last item, and a rank beyond the list raises. */
  function AtRank(ordered: seq<real>, rank: nat): Result<real, string>
    requires ordered != []
  {
    if rank == 0 then Ok(ordered[|ordered| - 1])
    else if rank <= |ordered| then Ok(ordered[rank - 1])
    else Err(INDEX_ERROR)
  }

  /** The rank of the sample that is taken, counting from one. */
  function TakenRank(n: nat, percentile: real): nat
    requires percentile > 0.0
  {
    if Rank(n, percentile) == 0 then n else Rank(n, percentile)
  }

  function NearestRank(values: seq<real>, percentile: real): Result<real, string> {
    if values == [] then Err(NO_SAMPLES)
    else if !(0.0 < percentile <= 100.0) then Err(BAD_PERCENTILE)
    else AtRank(Sort(values), Rank(|values|, percentile))
  }

  // ----- The rank -----

  /** The quotient underflows to zero. */
  predicate Underflows(percentile: real) {
    percentile / 100.0 <= 0.5 * Scale(-1074)
  }

  /** The rank is in range for every list a program can hold and every percentile in (0, 100]; it is zero exactly when
      the quotient underflows. */
  lemma RankInRange(n: nat, percentile: real)
    requires 0 < n && n as real <= P53 && 0.0 < percentile <= 100.0
    ensures 0 <= Rank(n, percentile) <= n
    ensures Rank(n, percentile) == 0 <==> Underflows(percentile)
  {
    hide Rounded, Scale, Ceil, Times;
    var share := percentile / 100.0;
    IntegersAreExact(1);
    assert 0.0 <= share <= 1 as real;
    RoundsToZero(share);
    RoundedMonotone(share, 1 as real);
    RoundedIdempotent(share);
    IntegersAreExact(n);
    ScaledInRange(Rounded(share), n);
    CeilInRange(Scaled(share, n), n);
  }

  lemma CeilInRange(x: real, n: nat)
    requires 0.0 <= x <= n as real
    ensures 0 <= Ceil(x) <= n
    ensures Ceil(x) == 0 <==> x == 0.0
  {
  }

  lemma ScaledInRange(c: real, n: nat)
    requires 0.0 <= c <= 1.0 && Rounded(c) == c && 0 < n && n as real <= P53
    ensures 0.0 <= Rounded(Times(c, n as real)) <= n as real
    ensures Rounded(Times(c, n as real)) == 0.0 <==> c == 0.0
  {
    hide Rounded, Times;
    var y := Times(c, n as real);
    IntegersAreExact(0);
    IntegersAreExact(n);
    ShareOfCount(c, n as real);
    RoundedMonotone(y, n as real);
    RoundedMonotone(c, y);
  }

  lemma ShareOfCount(share: real, m: real)
    requires 0.0 <= share <= 1.0 && m >= 1.0
    ensures share <= Times(share, m) <= m
    ensures share == 0.0 ==> Times(share, m) == 0.0
  {
    hide Times;
    TimesMonotone(share, 1.0, m);
    TimesMonotone(1.0, m, share);
    TimesCommutes(share, m);
    TimesOne(share);
    TimesOne(m);
    TimesZero(share, m);
  }

  /** The least count that makes up the percentile, in exact arithmetic. */
  function ExactRank(n: nat, percentile: real): int {
    Ceil(Times(percentile / 100.0, n as real))
  }

  /** The two percentiles that reports publish: rounding never moves their rank. */
  lemma ReportRanksAreExact(n: nat)
    requires 0 < n <= 0x100_0000_0000
    ensures Rank(n, 50.0) == ExactRank(n, 50.0) && Rank(n, 95.0) == ExactRank(n, 95.0)
  {
    hide Rounded, Times;
    assert 50.0 / 100.0 == 0.5 && 95.0 / 100.0 == 0.95;
    IntegersAreExact(n);
    HalfIsExact(n);
    NinetyFivePercent();
    CeilSurvives(Rounded(0.95), n);
  }

  lemma HalfIsExact(n: nat)
    requires n as real <= P53
    ensures Rounded(0.5) == 0.5 && Rounded(Times(0.5, n as real)) == Times(0.5, n as real)
  {
    hide Rounded;
    assert Scale(-1) == 0.5;
    RoundedExact(1, -1);
    RoundedExact(n, -1);
    assert Grid(1, -1) == 0.5 && Grid(n, -1) == n as real * 0.5;
  }

  /** The double nearest to 0.95 lies just below it. */
  lemma NinetyFivePercent()
    ensures 0.95 - 0.000000000000001 <= Rounded(0.95) <= 0.95
  {
    hide Steps, Exponent;
    UnitInterval();
    ExponentUnique(0.95, -53);
    StepsAre(0.95, -53, 8556839292003942.4);
  }

  lemma UnitInterval()
    ensures Scale(-53) == 1.0 / 9007199254740992.0
  {
    PowersToP53();
  }

  /** A factor just below 0.95 leaves the product above the previous multiple of 1/32, which is a double. */
  lemma CeilSurvives(c: real, n: nat)
    requires 0 < n <= 0x100_0000_0000 && 0.95 - 0.000000000000001 <= c <= 0.95
    ensures Ceil(Rounded(Times(c, n as real))) == Ceil(Times(0.95, n as real))
  {
    hide Rounded, Times;
    var m, y := Ceil(Times(0.95, n as real)), Times(c, n as real);
    Margin(c, n, m);
    RoundedMonotone(y, m as real);
    IntegersAreExact(m);
    ThirtySecondIsExact(m - 1);
    RoundedMonotone((m - 1) as real + 0.03125, y);
  }

  lemma Margin(c: real, n: nat, m: int)
    requires 0 < n <= 0x100_0000_0000 && 0.95 - 0.000000000000001 <= c <= 0.95
    requires m as real - 1.0 < Times(0.95, n as real) <= m as real
    ensures 0 < m <= n && (m - 1) as real + 0.03125 <= Times(c, n as real) <= m as real
  {
    BelowFactor(c, 0.95, n as real, 0.000000000000001);
    assert 19 * n > 20 * (m - 1);
    assert 0.95 * n as real >= (m - 1) as real + 0.05;
  }

  lemma BelowFactor(c: real, d: real, m: real, slack: real)
    requires d - slack <= c <= d && m >= 0.0
    ensures Times(d - slack, m) <= Times(c, m) <= Times(d, m)
  {
    TimesMonotone(d - slack, c, m);
    TimesMonotone(c, d, m);
  }

  lemma ThirtySecondIsExact(k: nat)
    requires k <= 0x100_0000_0000
    ensures Rounded(k as real + 0.03125) == k as real + 0.03125
  {
    hide Rounded;
    ThirtySeconds(32 * k + 1);
    RoundedExact(32 * k + 1, -5);
    assert (32 * k + 1) as real == 32.0 * k as real + 1.0;
  }

  lemma ThirtySeconds(m: nat)
    ensures Grid(m, -5) == m as real * 0.03125
  {
    assert Pow(2, 5) == 32;
    assert Scale(-5) == 0.03125;
  }

  /** At other percentiles rounding can move the rank: at 55 percent of 100 samples it is 56, not 55. */
  lemma FiftyFiveOfHundred()
    ensures Rank(100, 55.0) == 56 && ExactRank(100, 55.0) == 55
  {
    hide Steps, Exponent;
    IntegersAreExact(100);
    UnitInterval();
    ExponentUnique(0.55, -53);
    StepsAre(0.55, -53, 4953959590107545.6);
    FiftyFivePointOver();
  }

  lemma FiftyFivePointOver()
    ensures 55.0 < Rounded(4953959590107546.0 / 9007199254740992.0 * 100.0) <= 56.0
  {
    hide Steps, Exponent;
    ScaleToMinus47();
    var x := 4953959590107546.0 / 9007199254740992.0 * 100.0;
    ExponentUnique(x, -47);
    StepsAre(x, -47, 7740561859543040.625);
  }

  lemma ScaleToMinus47()
    ensures Scale(-47) == 1.0 / 140737488355328.0
  {
    assert Pow(2, 12) == 4096;
    assert Pow(2, 11) == 2048;
    PowAdd(2, 12, 12);
    PowAdd(2, 12, 11);
    PowAdd(2, 24, 23);
  }

  // ----- Sorting -----

  lemma {:induction false} InsertMultiset(x: real, s: seq<real>)
    ensures multiset(Insert(x, s)) == multiset(s) + multiset{x}
  {
    if s != [] && x > s[0] {
      InsertMultiset(x, s[1..]);
      assert s == [s[0]] + s[1..];
    }
  }

  lemma {:induction false} InsertAscending(x: real, s: seq<real>)
    requires Ascending(s)
    ensures Ascending(Insert(x, s))
    ensures Insert(x, s)[0] == if s != [] && s[0] < x then s[0] else x
  {
    if s != [] && x > s[0] {
      InsertAscending(x, s[1..]);
    }
  }

  lemma {:induction false} SortIsSorted(v: seq<real>)
    ensures Ascending(Sort(v)) && multiset(Sort(v)) == multiset(v)
  {
    if v != [] {
      SortIsSorted(v[1..]);
      InsertAscending(v[0], Sort(v[1..]));
      InsertMultiset(v[0], Sort(v[1..]));
      assert v == [v[0]] + v[1..];
    }
  }

  lemma {:induction false} CountAppend(v: seq<real>, w: seq<real>, x: real)
    ensures CountAtMost(v + w, x) == CountAtMost(v, x) + CountAtMost(w, x)
  {
    if v == [] {
      assert v + w == w;
    } else {
      assert (v + w)[1..] == v[1..] + w;
      CountAppend(v[1..], w, x);
    }
  }

  /** The count depends on the values, not on their order. */
  lemma {:induction false} CountOfPermutation(v: seq<real>, w: seq<real>, x: real)
    requires multiset(v) == multiset(w)
    ensures CountAtMost(v, x) == CountAtMost(w, x)
  {
    if v == [] {
      assert |w| == |multiset(w)| == 0;
    } else {
      assert v[0] in multiset(w);
      var i :| 0 <= i < |w| && w[i] == v[0];
      MultisetWithout(v, 0);
      MultisetWithout(w, i);
      CountOfPermutation(v[1..], w[..i] + w[i + 1..], x);
      CountWithout(w, i, x);
    }
  }

  lemma MultisetWithout(w: seq<real>, i: nat)
    requires i < |w|
    ensures multiset(w[..i] + w[i + 1..]) == multiset(w) - multiset{w[i]}
    ensures i == 0 ==> w[..i] + w[i + 1..] == w[1..]
  {
    assert w == w[..i] + [w[i]] + w[i + 1..];
  }

  lemma CountWithout(w: seq<real>, i: nat, x: real)
    requires i < |w|
    ensures CountAtMost(w, x) == CountAtMost(w[..i] + w[i + 1..], x) + (if w[i] <= x then 1 else 0)
  {
    assert w == w[..i] + ([w[i]] + w[i + 1..]);
    CountAppend(w[..i], w[i + 1..], x);
    CountAppend(w[..i], [w[i]] + w[i + 1..], x);
  }

  /** In a sorted list the k smallest values are exactly the first k. */
  lemma {:induction false} CountInSorted(s: seq<real>, k: nat, x: real)
    requires Ascending(s) && k < |s|
    ensures CountAtMost(s, x) > k <==> s[k] <= x
  {
    if k == 0 {
      if s[0] > x { CountNone(s, x); }
    } else {
      CountInSorted(s[1..], k - 1, x);
      if s[0] > x { CountNone(s, x); }
    }
  }

  lemma {:induction false} CountNone(s: seq<real>, x: real)
    requires forall i :: 0 <= i < |s| ==> s[i] > x
    ensures CountAtMost(s, x) == 0
  {
    if s != [] { CountNone(s[1..], x); }
  }

  // ----- What the statistic means -----

  /** At least percentile percent of the samples are at most x. */
  predicate Covers(values: seq<real>, percentile: real, x: real) {
    100.0 * CountAtMost(values, x) as real >= percentile * |values| as real
  }

  /** The smallest sample that covers the percentile. */
  predicate IsPercentile(values: seq<real>, percentile: real, x: real) {
    x in values && Covers(values, percentile, x) && forall y :: y in values && y < x ==> !Covers(values, percentile, y)
  }

  lemma CoversByRank(values: seq<real>, percentile: real, x: real)
    ensures Covers(values, percentile, x) <==> CountAtMost(values, x) >= ExactRank(|values|, percentile)
  {
    assert percentile / 100.0 * |values| as real == percentile * |values| as real / 100.0;
  }

  /** The k-th smallest sample is a sample, and the values at or above it are exactly those with k samples at or below. */
  lemma OrderStatistic(values: seq<real>, k: nat)
    requires 1 <= k <= |values|
    ensures Sort(values)[k - 1] in values
    ensures forall y :: CountAtMost(values, y) >= k <==> Sort(values)[k - 1] <= y
  {
    var s := Sort(values);
    SortIsSorted(values);
    assert s[k - 1] in multiset(values);
    forall y ensures CountAtMost(values, y) >= k <==> s[k - 1] <= y {
      CountOfPermutation(values, s, y);
      CountInSorted(s, k - 1, y);
    }
  }

  /** For every legal input the result is the sample of the rank taken: the values at or above it are exactly those with
      that many samples at or below. A percentile that underflows takes the largest sample. */
  lemma ResultHasRank(values: seq<real>, percentile: real)
    requires 0 < |values| && |values| as real <= P53 && 0.0 < percentile <= 100.0
    ensures NearestRank(values, percentile).Ok? && NearestRank(values, percentile).value in values
    ensures forall y :: CountAtMost(values, y) >= TakenRank(|values|, percentile) <==> NearestRank(values, percentile).value <= y
    ensures Underflows(percentile) ==> TakenRank(|values|, percentile) == |values|
  {
    hide Rank, Underflows, Sort, CountAtMost;
    RankInRange(|values|, percentile);
    OrderStatistic(values, TakenRank(|values|, percentile));
  }

  /** Where the rank taken is the exact one, the result is x exactly when x is the smallest sample covering the percentile. */
  lemma NearestRankIsPercentile(values: seq<real>, percentile: real, x: real)
    requires 0 < |values| && |values| as real <= P53 && 0.0 < percentile <= 100.0
    requires TakenRank(|values|, percentile) == ExactRank(|values|, percentile)
    ensures NearestRank(values, percentile) == Ok(x) <==> IsPercentile(values, percentile, x)
  {
    hide TakenRank, CountAtMost, Covers, ExactRank, NearestRank, Underflows;
    ResultHasRank(values, percentile);
    var r := NearestRank(values, percentile).value;
    CoversByRank(values, percentile, x);
    CoversByRank(values, percentile, r);
    forall y | y in values ensures Covers(values, percentile, y) <==> r <= y {
      CoversByRank(values, percentile, y);
    }
  }

  lemma ExactRankPositive(n: nat, percentile: real)
    requires 0 < n && 0.0 < percentile <= 100.0
    ensures 1 <= ExactRank(n, percentile) <= n
  {
    var share := percentile / 100.0;
    ShareOfCount(share, n as real);
  }

  /** At the percentiles of reports the condition always holds. */
  lemma ReportPercentilesAreExact(values: seq<real>, x: real)
    requires 0 < |values| <= 0x100_0000_0000
    ensures NearestRank(values, 50.0) == Ok(x) <==> IsPercentile(values, 50.0, x)
    ensures NearestRank(values, 95.0) == Ok(x) <==> IsPercentile(values, 95.0, x)
  {
    hide Rank, ExactRank, IsPercentile, NearestRank;
    ReportRanksAreExact(|values|);
    ExactRankPositive(|values|, 50.0);
    ExactRankPositive(|values|, 95.0);
    NearestRankIsPercentile(values, 50.0, x);
    NearestRankIsPercentile(values, 95.0, x);
  }

  /** The condition is exact, for all samples: the result is the smallest sample covering the percentile if and only if
      the sample at the rank taken equals the sample at the exact rank. */
  lemma ExactlyWhenSampleSurvives(values: seq<real>, percentile: real)
    requires 0 < |values| && |values| as real <= P53 && 0.0 < percentile <= 100.0
    ensures NearestRank(values, percentile).Ok?
    ensures 1 <= TakenRank(|values|, percentile) <= |values| && 1 <= ExactRank(|values|, percentile) <= |values|
    ensures IsPercentile(values, percentile, NearestRank(values, percentile).value)
       <==> Sort(values)[TakenRank(|values|, percentile) - 1] == Sort(values)[ExactRank(|values|, percentile) - 1]
  {
    hide Rank, CountAtMost, Covers, ExactRank, NearestRank, Underflows, Sort;
    ResultHasRank(values, percentile);
    ExactRankPositive(|values|, percentile);
    RankInRange(|values|, percentile);
    var r, x := NearestRank(values, percentile).value, Sort(values)[ExactRank(|values|, percentile) - 1];
    SameOrderStatistic(values, TakenRank(|values|, percentile), r);
    OrderStatistic(values, ExactRank(|values|, percentile));
    CoversByRank(values, percentile, r);
    forall y ensures Covers(values, percentile, y) <==> x <= y {
      CoversByRank(values, percentile, y);
    }
    assert Covers(values, percentile, x);
  }

  predicate Distinct(values: seq<real>) {
    forall i, j :: 0 <= i < j < |values| ==> values[i] != values[j]
  }

  /** Over samples without repeats that is the case if and only if the rank taken is the exact one. */
  lemma ExactlyWhenRankSurvives(values: seq<real>, percentile: real)
    requires 0 < |values| && |values| as real <= P53 && 0.0 < percentile <= 100.0 && Distinct(values)
    ensures NearestRank(values, percentile).Ok?
    ensures IsPercentile(values, percentile, NearestRank(values, percentile).value)
       <==> TakenRank(|values|, percentile) == ExactRank(|values|, percentile)
  {
    hide TakenRank, ExactRank, NearestRank, Sort, IsPercentile;
    ExactlyWhenSampleSurvives(values, percentile);
    var k, e := TakenRank(|values|, percentile), ExactRank(|values|, percentile);
    if k != e { SortedDistinct(values, k - 1, e - 1); }
  }

  lemma SameOrderStatistic(values: seq<real>, k: nat, r: real)
    requires 1 <= k <= |values|
    requires forall y :: CountAtMost(values, y) >= k <==> r <= y
    ensures r == Sort(values)[k - 1]
  {
    OrderStatistic(values, k);
    assert CountAtMost(values, r) >= k && CountAtMost(values, Sort(values)[k - 1]) >= k;
  }

  lemma SortedDistinct(values: seq<real>, i: nat, j: nat)
    requires Distinct(values) && i < |values| && j < |values| && i != j
    ensures Sort(values)[i] != Sort(values)[j]
  {
    SortIsSorted(values);
    DistinctOnce(values, Sort(values)[i]);
    if Sort(values)[i] == Sort(values)[j] {
      if i < j { OccursTwice(Sort(values), i, j); } else { OccursTwice(Sort(values), j, i); }
    }
  }

  lemma {:induction false} DistinctOnce(values: seq<real>, x: real)
    requires Distinct(values)
    ensures multiset(values)[x] <= 1
  {
    if values != [] {
      var rest := values[1..];
      DistinctOnce(rest, x);
      assert values == [values[0]] + rest;
      forall j | 0 <= j < |rest| ensures rest[j] != values[0] {
        assert rest[j] == values[j + 1];
      }
    }
  }

  lemma OccursTwice(s: seq<real>, i: nat, j: nat)
    requires i < j < |s| && s[i] == s[j]
    ensures multiset(s)[s[i]] >= 2
  {
    assert s == s[..j] + s[j..];
    assert s[..j][i] in multiset(s[..j]) && s[j..][0] in multiset(s[j..]);
  }

  /** The result does not depend on the order of the samples. */
  lemma OrderIndependent(v: seq<real>, w: seq<real>, percentile: real)
    requires multiset(v) == multiset(w)
    ensures NearestRank(v, percentile) == NearestRank(w, percentile)
  {
    SortIsSorted(v);
    SortIsSorted(w);
    assert |v| == |multiset(v)| == |multiset(w)| == |w|;
    SortedUnique(Sort(v), Sort(w));
  }

  lemma {:induction false} SortedUnique(s: seq<real>, t: seq<real>)
    requires Ascending(s) && Ascending(t) && multiset(s) == multiset(t)
    ensures s == t
  {
    SameLength(s, t);
    if s != [] {
      FirstIsLeast(s, t);
      FirstIsLeast(t, s);
      TailMultiset(s, t);
      AscendingTail(s);
      AscendingTail(t);
      SortedUnique(s[1..], t[1..]);
      assert s == [s[0]] + s[1..] && t == [t[0]] + t[1..];
    }
  }

  lemma SameLength(s: seq<real>, t: seq<real>)
    requires multiset(s) == multiset(t)
    ensures |s| == |t|
  {
    assert |s| == |multiset(s)| == |multiset(t)| == |t|;
  }

  lemma TailMultiset(s: seq<real>, t: seq<real>)
    requires s != [] && t != [] && s[0] == t[0] && multiset(s) == multiset(t)
    ensures multiset(s[1..]) == multiset(t[1..])
  {
    MultisetWithout(s, 0);
    MultisetWithout(t, 0);
  }

  lemma AscendingTail(s: seq<real>)
    requires s != [] && Ascending(s)
    ensures Ascending(s[1..])
  {
  }

  lemma FirstIsLeast(s: seq<real>, t: seq<real>)
    requires s != [] && t != [] && Ascending(s) && multiset(s) == multiset(t)
    ensures s[0] <= t[0]
  {
    assert t[0] in multiset(s);
  }

  /** A higher percentile never gives a smaller result, except where the lower one underflows and the result at the
      higher one is not the largest sample. */
  lemma MonotoneInPercentile(values: seq<real>, p: real, q: real)
    requires 0 < |values| && |values| as real <= P53 && 0.0 < p <= q <= 100.0
    ensures NearestRank(values, p).Ok? && NearestRank(values, q).Ok?
    ensures NearestRank(values, p).value <= NearestRank(values, q).value
       <==> !Underflows(p) || forall y :: y in values ==> y <= NearestRank(values, q).value
  {
    hide Rank, Underflows, Sort;
    RankInRange(|values|, p);
    RankInRange(|values|, q);
    RankMonotone(|values|, p, q);
    LargestIsLast(values);
    var k := TakenRank(|values|, q);
    SortedBetween(values, Rank(|values|, p), k);
  }

  lemma SortedBetween(values: seq<real>, k: nat, l: nat)
    requires 1 <= l <= |values| && k <= |values|
    ensures 1 <= k <= l ==> Sort(values)[k - 1] <= Sort(values)[l - 1]
  {
    SortIsSorted(values);
  }

  lemma LargestIsLast(values: seq<real>)
    requires values != []
    ensures Sort(values)[|values| - 1] in values
    ensures forall y :: y in values ==> y <= Sort(values)[|values| - 1]
  {
    SortIsSorted(values);
    assert Sort(values)[|values| - 1] in multiset(values);
    forall y | y in values ensures y <= Sort(values)[|values| - 1] {
      assert y in multiset(Sort(values));
    }
  }

  lemma RankMonotone(n: nat, p: real, q: real)
    requires 0.0 < p <= q
    ensures Rank(n, p) <= Rank(n, q)
  {
    hide Rounded, Times;
    RoundedMonotone(p / 100.0, q / 100.0);
    var a, b, c := Rounded(p / 100.0), Rounded(q / 100.0), Rounded(n as real);
    TimesMonotone(a, b, c);
    RoundedMonotone(Times(a, c), Times(b, c));
  }

  /** A percentile of one or more never has rank zero, however long the list. */
  lemma NeverUnderflows(n: nat, percentile: real)
    requires n > 0 && 1.0 <= percentile
    ensures Rank(n, percentile) > 0
  {
    hide Rounded, Times, Scale;
    var least := Scale(-7);
    LeastShare();
    RoundedMonotone(least, percentile / 100.0);
    IntegersAreExact(1);
    RoundedMonotone(1 as real, n as real);
    AtLeastProduct(Rounded(percentile / 100.0), Rounded(n as real));
    RoundedMonotone(least, Times(Rounded(percentile / 100.0), Rounded(n as real)));
  }

  lemma LeastShare()
    ensures 0.0 < Scale(-7) <= 0.01 && Rounded(Scale(-7)) == Scale(-7)
  {
    hide Rounded;
    assert Pow(2, 7) == 128;
    RoundedExact(1, -7);
    assert Grid(1, -7) == Scale(-7);
  }

  lemma AtLeastProduct(a: real, m: real)
    requires 0.0 <= a && 1.0 <= m
    ensures a <= Times(a, m)
  {
    hide Times;
    TimesMonotone(1.0, m, a);
    TimesCommutes(a, m);
    TimesOne(a);
  }

  /** The smallest double as a percentile: one sample of two covers it, but the larger one is returned. */
  lemma SmallestPercentileTakesLargest()
    ensures var p := Scale(-1074);
      && NearestRank([1.0, 2.0], p) == Ok(2.0) && !IsPercentile([1.0, 2.0], p, 2.0)
      && NearestRank([1.0, 2.0], 50.0) == Ok(1.0)
  {
    hide Scale, Rank, ExactRank;
    var p := Scale(MIN_EXPONENT);
    ScaleMonotone(MIN_EXPONENT, 0);
    ScaleOfNat(0);
    RankInRange(2, p);
    OneOfTwo();
    assert 1.0 in [1.0, 2.0] && Covers([1.0, 2.0], p, 1.0);
    assert Underflows(p);
    assert Rank(2, 50.0) == 1 by { ReportRanksAreExact(2); }
  }

  lemma OneOfTwo()
    ensures CountAtMost([1.0, 2.0], 1.0) == 1 && ExactRank(2, 50.0) == 1
    ensures Sort([1.0, 2.0]) == [1.0, 2.0]
  {
    assert [1.0, 2.0][1..] == [2.0] && [2.0][1..] == [];
    assert Sort([2.0]) == [2.0];
  }

  /** Lists that are ordered sample by sample have ordered percentiles. */
  lemma PointwiseOrder(v: seq<real>, w: seq<real>, percentile: real)
    requires |v| == |w| && forall i :: 0 <= i < |v| ==> v[i] <= w[i]
    requires NearestRank(v, percentile).Ok?
    ensures NearestRank(w, percentile).Ok? && NearestRank(v, percentile).value <= NearestRank(w, percentile).value
  {
    hide Rank;
    var k := Rank(|v|, percentile);
    SortedPointwise(v, w, if k == 0 then |v| else k);
  }

  lemma SortedPointwise(v: seq<real>, w: seq<real>, k: nat)
    requires |v| == |w| && forall i :: 0 <= i < |v| ==> v[i] <= w[i]
    requires 1 <= k <= |v|
    ensures Sort(v)[k - 1] <= Sort(w)[k - 1]
  {
    OrderStatistic(v, k);
    OrderStatistic(w, k);
    CountOrder(v, w, Sort(w)[k - 1]);
  }

  lemma {:induction false} CountOrder(v: seq<real>, w: seq<real>, x: real)
    requires |v| == |w| && forall i :: 0 <= i < |v| ==> v[i] <= w[i]
    ensures CountAtMost(v, x) >= CountAtMost(w, x)
  {
    if v != [] { CountOrder(v[1..], w[1..], x); }
  }
}
