/**
 * The figures a stamp is cut to: the ceiling over the widest span, the median, and the floor a median's moves stay
 * within.
 */
module GateFigures {
  import opened Ordering

  /**
   * The least multiple of five seconds that leaves a quarter of the widest span, and never under ten seconds, above it.
   */
  function BudgetOver(widest: nat): (budget: nat)
    ensures budget % 5 == 0 && budget >= widest
    ensures 4 * budget >= 5 * widest && budget >= widest + 10
    ensures forall b: nat | b % 5 == 0 && 4 * b >= 5 * widest && b >= widest + 10 :: budget <= b
  {
    var quadrupled := 4 * widest + if widest > 40 then widest else 40;
    (quadrupled + 19) / 20 * 5
  }

  predicate IntLeq(a: int, b: int) { a <= b }

  function InOrder(values: seq<int>): (r: seq<int>)
    ensures Sorted(IntLeq, r) && multiset(r) == multiset(values) && |r| == |values|
  {
    assert |Sort(IntLeq, values)| == |multiset(Sort(IntLeq, values))| == |multiset(values)| == |values|;
    Sort(IntLeq, values)
  }

  /** The median, rounded half up. */
  function Median(values: seq<int>): (m: int)
    requires values != []
  {
    var s, n := InOrder(values), |values|;
    if n % 2 == 1 then s[n / 2] else (s[n / 2 - 1] + s[n / 2] + 1) / 2
  }

  lemma {:induction false} MedianWithin(values: seq<int>, low: int, high: int)
    requires values != [] && forall i | 0 <= i < |values| :: low <= values[i] <= high
    ensures low <= Median(values) <= high
  {
    var s := InOrder(values);
    forall i | 0 <= i < |s| ensures low <= s[i] <= high {
      assert s[i] in multiset(values);
    }
  }

  function Max(values: seq<int>): (m: int)
    requires values != []
    ensures m in values && forall i | 0 <= i < |values| :: values[i] <= m
  {
    if |values| == 1 then values[0]
    else
      var before := Max(values[..|values| - 1]);
      if values[|values| - 1] > before then values[|values| - 1] else before
  }

  // ----- the floor

  function Sizes(moves: seq<int>): (r: seq<int>) {
    seq(|moves|, i requires 0 <= i < |moves| => if moves[i] < 0 then -moves[i] else moves[i])
  }

  function CeilingOf(a: nat, b: nat): nat
    requires b > 0
  {
    (a + b - 1) / b
  }

  /** The nearest-rank p95 of the moves' sizes, in whole percent of the reference, rounded up. */
  function FloorOf(moves: seq<int>, seconds: nat): (floor: nat)
    requires moves != [] && seconds > 0
  {
    var ranked := InOrder(Sizes(moves));
    var p95 := ranked[CeilingOf(95 * |moves|, 100) - 1];
    assert p95 >= 0 by { assert p95 in multiset(Sizes(moves)); }
    CeilingOf(100 * p95, seconds)
  }

  /** How many of the values are at most `bound`. */
  function AtMost(values: seq<int>, bound: int): nat {
    if values == [] then 0 else AtMost(values[..|values| - 1], bound) + if values[|values| - 1] <= bound then 1 else 0
  }

  lemma {:induction false} AtMostConcat(a: seq<int>, b: seq<int>, bound: int)
    ensures AtMost(a + b, bound) == AtMost(a, bound) + AtMost(b, bound)
  {
    if b == [] {
      assert a + b == a;
    } else {
      assert (a + b)[..|a + b| - 1] == a + b[..|b| - 1];
      AtMostConcat(a, b[..|b| - 1], bound);
    }
  }

  function Without(s: seq<int>, q: nat): seq<int>
    requires q < |s|
  {
    s[..q] + s[q + 1..]
  }

  lemma {:induction false} AtMostWithout(s: seq<int>, q: nat, bound: int)
    requires q < |s|
    ensures AtMost(s, bound) == AtMost(Without(s, q), bound) + if s[q] <= bound then 1 else 0
    ensures multiset(s) == multiset(Without(s, q)) + multiset{s[q]}
  {
    assert s == s[..q] + ([s[q]] + s[q + 1..]);
    AtMostConcat(s[..q], [s[q]] + s[q + 1..], bound);
    AtMostConcat([s[q]], s[q + 1..], bound);
    AtMostConcat(s[..q], s[q + 1..], bound);
    assert [s[q]][..0] == [];
  }

  lemma {:induction false} AtMostPermutation(a: seq<int>, b: seq<int>, bound: int)
    requires multiset(a) == multiset(b)
    ensures AtMost(a, bound) == AtMost(b, bound)
  {
    assert |a| == |multiset(a)| == |multiset(b)| == |b|;
    if a != [] {
      assert a[0] in multiset(b);
      var q :| 0 <= q < |b| && b[q] == a[0];
      AtMostWithout(a, 0, bound);
      AtMostWithout(b, q, bound);
      assert multiset(Without(a, 0)) == multiset(a) - multiset{a[0]} == multiset(Without(b, q));
      AtMostPermutation(Without(a, 0), Without(b, q), bound);
    }
  }

  lemma AtMostBounds(s: seq<int>, bound: int)
    ensures AtMost(s, bound) <= |s|
    ensures (forall i | 0 <= i < |s| :: s[i] <= bound) ==> AtMost(s, bound) == |s|
    ensures (forall i | 0 <= i < |s| :: s[i] > bound) ==> AtMost(s, bound) == 0
  {
  }

  lemma {:induction false} AtMostParts(s: seq<int>, k: nat, bound: int)
    requires k <= |s|
    ensures AtMost(s, bound) == AtMost(s[..k], bound) + AtMost(s[k..], bound)
  {
    assert s == s[..k] + s[k..];
    AtMostConcat(s[..k], s[k..], bound);
  }

  /** In sorted order, the value at rank `k` is within the bound exactly where at least `k` values are. */
  lemma {:induction false} RankIff(s: seq<int>, k: nat, bound: int)
    requires Sorted(IntLeq, s) && 0 < k <= |s|
    ensures s[k - 1] <= bound <==> AtMost(s, bound) >= k
  {
    var j := k - 1;
    if s[j] <= bound {
      var low := s[..k];
      forall i | 0 <= i < |low| ensures low[i] <= bound { assert i < j ==> IntLeq(s[i], s[j]); }
      AtMostBounds(low, bound);
      AtMostParts(s, k, bound);
    } else {
      var high := s[j..];
      forall i | 0 <= i < |high| ensures high[i] > bound { assert i > 0 ==> IntLeq(s[j], s[j + i]); }
      AtMostBounds(high, bound);
      AtMostBounds(s[..j], bound);
      AtMostParts(s, j, bound);
    }
  }

  /** This value stands at rank `k` of the values in order: fewer than `k` are below it, at least `k` at or below. */
  ghost predicate AtRank(values: seq<int>, k: nat, value: int) {
    AtMost(values, value - 1) < k <= AtMost(values, value)
  }

  lemma {:induction false} AtRankIff(values: seq<int>, k: nat, value: int)
    requires 0 < k <= |values|
    ensures AtRank(values, k, value) <==> InOrder(values)[k - 1] == value
  {
    var s := InOrder(values);
    RankIff(s, k, value);
    RankIff(s, k, value - 1);
    AtMostPermutation(s, values, value);
    AtMostPermutation(s, values, value - 1);
  }

  /** The two middle values of an even number. */
  ghost predicate Middles(values: seq<int>, a: int, b: int) {
    AtRank(values, |values| / 2, a) && AtRank(values, |values| / 2 + 1, b)
  }

  /** The middle value of an odd number; of an even number the mean of the two middle ones, rounded half up. */
  ghost predicate IsMedian(values: seq<int>, m: int) {
    if |values| % 2 == 1 then AtRank(values, |values| / 2 + 1, m)
    else exists a, b :: Middles(values, a, b) && a + b <= 2 * m <= a + b + 1
  }

  lemma {:induction false} MedianIff(values: seq<int>, m: int)
    requires values != []
    ensures IsMedian(values, m) <==> Median(values) == m
  {
    var s, n := InOrder(values), |values|;
    if n % 2 == 1 {
      AtRankIff(values, n / 2 + 1, m);
    } else {
      forall a, b ensures Middles(values, a, b) <==> s[n / 2 - 1] == a && s[n / 2] == b {
        AtRankIff(values, n / 2, a);
        AtRankIff(values, n / 2 + 1, b);
      }
      assert Middles(values, s[n / 2 - 1], s[n / 2]);
    }
  }

  lemma {:induction false} CeilingIff(a: nat, b: nat, q: nat)
    requires b > 0
    ensures CeilingOf(a, b) <= q <==> a <= q * b
  {
    var c, whole := CeilingOf(a, b), a + b - 1;
    assert whole == b * c + whole % b && 0 <= whole % b < b;
    if c <= q { TimesMonotone(c, q, b); } else { TimesMonotone(q + 1, c, b); }
  }

  lemma {:induction false} TimesMonotone(x: nat, y: nat, b: nat)
    requires x <= y
    ensures x * b <= y * b
  {
    assert y * b == x * b + (y - x) * b;
  }

  /** How many moves are at most `percent` of the reference. */
  function WithinPercent(moves: seq<int>, seconds: nat, percent: nat): nat {
    if moves == [] then 0
    else
      var last := moves[|moves| - 1];
      WithinPercent(moves[..|moves| - 1], seconds, percent)
        + if 100 * (if last < 0 then -last else last) <= percent * seconds then 1 else 0
  }

  lemma {:induction false} WithinIsAtMost(moves: seq<int>, seconds: nat, percent: nat)
    ensures WithinPercent(moves, seconds, percent) == AtMost(Sizes(moves), percent * seconds / 100)
  {
    if moves != [] {
      assert Sizes(moves)[..|moves| - 1] == Sizes(moves[..|moves| - 1]);
      WithinIsAtMost(moves[..|moves| - 1], seconds, percent);
    }
  }

  /** The nearest rank is the least one with ninety-five values in a hundred at or under it. */
  lemma {:induction false} RankWithin(sizes: seq<int>, bound: int)
    requires sizes != []
    ensures var k := CeilingOf(95 * |sizes|, 100);
      && 0 < k <= |sizes| == |InOrder(sizes)|
      && (InOrder(sizes)[k - 1] <= bound <==> 100 * AtMost(sizes, bound) >= 95 * |sizes|)
  {
    var ranked, k := InOrder(sizes), CeilingOf(95 * |sizes|, 100);
    assert |ranked| == |multiset(ranked)| == |multiset(sizes)| == |sizes|;
    RankIff(ranked, k, bound);
    AtMostPermutation(ranked, sizes, bound);
    CeilingIff(95 * |sizes|, 100, AtMost(sizes, bound));
  }

  lemma {:induction false} PercentIff(size: nat, seconds: nat, percent: nat)
    requires seconds > 0
    ensures CeilingOf(100 * size, seconds) <= percent <==> size <= percent * seconds / 100
  {
    CeilingIff(100 * size, seconds, percent);
  }

  /** The floor is the least whole percent of the reference that at least ninety-five moves in a hundred stay within. */
  lemma {:induction false} FloorIsLeast(moves: seq<int>, seconds: nat, percent: nat)
    requires moves != [] && seconds > 0
    ensures FloorOf(moves, seconds) <= percent <==> 100 * WithinPercent(moves, seconds, percent) >= 95 * |moves|
  {
    var sizes := Sizes(moves);
    RankWithin(sizes, percent * seconds / 100);
    WithinIsAtMost(moves, seconds, percent);
    var p95 := InOrder(sizes)[CeilingOf(95 * |moves|, 100) - 1];
    assert p95 >= 0 by { assert p95 in multiset(sizes); }
    PercentIff(p95, seconds, percent);
  }
}
