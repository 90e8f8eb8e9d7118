/** Graham's bound for longest-first list scheduling, over costs by position and shards by index. */
module ShardLoads {

  /** What shard `i` holds after the first `k` files, file `j` costing `p[j]` and placed on `a[j]`. */
  function Load(p: seq<real>, a: seq<nat>, i: nat, k: nat): real
    requires k <= |p| && k <= |a|
  {
    if k == 0 then 0.0 else Load(p, a, i, k - 1) + if a[k - 1] == i then p[k - 1] else 0.0
  }

  function Count(a: seq<nat>, i: nat, k: nat): nat
    requires k <= |a|
  {
    if k == 0 then 0 else Count(a, i, k - 1) + if a[k - 1] == i then 1 else 0
  }

  function Total(p: seq<real>, k: nat): real
    requires k <= |p|
  {
    if k == 0 then 0.0 else Total(p, k - 1) + p[k - 1]
  }

  /** Every file goes to the lightest shard so far, the lowest index breaking a tie. */
  ghost predicate Greedy(p: seq<real>, a: seq<nat>, m: nat) {
    && |a| == |p|
    && (forall k | 0 <= k < |a| :: a[k] < m)
    && (forall k, i | 0 <= k < |a| && 0 <= i < m :: Lighter(p, a, a[k], i, k))
  }

  ghost predicate Lighter(p: seq<real>, a: seq<nat>, x: nat, i: nat, k: nat)
    requires k <= |p| && k <= |a|
  {
    Load(p, a, x, k) < Load(p, a, i, k) || (Load(p, a, x, k) == Load(p, a, i, k) && x <= i)
  }

  ghost predicate Descending(p: seq<real>) {
    && (forall i | 0 <= i < |p| :: 0.0 <= p[i])
    && (forall i, j | 0 <= i <= j < |p| :: p[i] >= p[j])
  }

  ghost predicate AllAtMost(p: seq<real>, a: seq<nat>, m: nat, k: nat, bound: real)
    requires k <= |p| && k <= |a|
  {
    forall i | 0 <= i < m :: Load(p, a, i, k) <= bound
  }

  function LoadsBelow(p: seq<real>, a: seq<nat>, m: nat, k: nat): real
    requires k <= |p| && k <= |a|
  {
    if m == 0 then 0.0 else LoadsBelow(p, a, m - 1, k) + Load(p, a, m - 1, k)
  }

  lemma {:induction false} LoadsBelowStep(p: seq<real>, a: seq<nat>, m: nat, k: nat)
    requires 0 < k <= |p| && k <= |a|
    ensures LoadsBelow(p, a, m, k) == LoadsBelow(p, a, m, k - 1) + if a[k - 1] < m then p[k - 1] else 0.0
  {
    if m > 0 { LoadsBelowStep(p, a, m - 1, k); }
  }

  lemma LoadsBelowNothing(p: seq<real>, a: seq<nat>, m: nat)
    ensures LoadsBelow(p, a, m, 0) == 0.0
  {
  }

  /** Counted by shard or counted by file, the work is the same. */
  lemma {:induction false} CountedTwice(p: seq<real>, a: seq<nat>, m: nat, k: nat)
    requires k <= |p| && k <= |a| && forall j | 0 <= j < k :: a[j] < m
    ensures LoadsBelow(p, a, m, k) == Total(p, k)
  {
    if k == 0 {
      LoadsBelowNothing(p, a, m);
    } else {
      LoadsBelowStep(p, a, m, k);
      CountedTwice(p, a, m, k - 1);
    }
  }

  lemma LoadsBelowAtMost(p: seq<real>, a: seq<nat>, m: nat, k: nat, bound: real)
    requires k <= |p| && k <= |a| && AllAtMost(p, a, m, k, bound)
    ensures LoadsBelow(p, a, m, k) <= m as real * bound
  {
  }

  lemma LoadsBelowAtLeast(p: seq<real>, a: seq<nat>, m: nat, k: nat, bound: real)
    requires k <= |p| && k <= |a| && forall i | 0 <= i < m :: Load(p, a, i, k) >= bound
    ensures LoadsBelow(p, a, m, k) >= m as real * bound
  {
  }

  lemma {:induction false} LoadMonotone(p: seq<real>, a: seq<nat>, i: nat, j: nat, k: nat)
    requires j <= k <= |p| && k <= |a| && forall x | 0 <= x < |p| :: 0.0 <= p[x]
    ensures 0.0 <= Load(p, a, i, j) <= Load(p, a, i, k)
  {
    if j < k { LoadMonotone(p, a, i, j, k - 1); } else if j > 0 { LoadMonotone(p, a, i, j - 1, k - 1); }
  }

  lemma TotalMonotone(p: seq<real>, j: nat, k: nat)
    requires j <= k <= |p| && forall x | 0 <= x < |p| :: 0.0 <= p[x]
    ensures Total(p, j) <= Total(p, k)
  {
  }

  lemma LoadConstant(w: seq<real>, a: seq<nat>, i: nat, k: nat, c: real)
    requires k <= |w| && k <= |a| && forall j | 0 <= j < k && a[j] == i :: w[j] == c
    ensures Load(w, a, i, k) == c * Count(a, i, k) as real
  {
  }

  lemma LoadNone(w: seq<real>, a: seq<nat>, i: nat, k: nat)
    requires k <= |w| && k <= |a| && forall j | 0 <= j < k :: a[j] != i
    ensures Load(w, a, i, k) == 0.0
  {
  }

  lemma {:induction false} LoadOnly(w: seq<real>, a: seq<nat>, i: nat, k: nat, j: nat)
    requires j < k <= |w| && k <= |a| && a[j] == i && forall x | 0 <= x < k && x != j :: a[x] != i
    ensures Load(w, a, i, k) == w[j]
  {
    if j == k - 1 { LoadNone(w, a, i, k - 1); } else { LoadOnly(w, a, i, k - 1, j); }
  }

  lemma {:induction false} LoadOne(p: seq<real>, a: seq<nat>, i: nat, k: nat, j: nat)
    requires j < k <= |p| && k <= |a| && a[j] == i && forall x | 0 <= x < |p| :: 0.0 <= p[x]
    ensures p[j] <= Load(p, a, i, k)
  {
    LoadMonotone(p, a, i, j + 1, k);
    LoadMonotone(p, a, i, 0, j);
  }

  lemma {:induction false} LoadTwo(p: seq<real>, a: seq<nat>, i: nat, k: nat, j: nat, j': nat)
    requires j < j' < k <= |p| && k <= |a| && a[j] == i && a[j'] == i && forall x | 0 <= x < |p| :: 0.0 <= p[x]
    ensures p[j] + p[j'] <= Load(p, a, i, k)
  {
    LoadOne(p, a, i, j', j);
    LoadMonotone(p, a, i, j' + 1, k);
  }

  lemma {:induction false} CountTwo(a: seq<nat>, i: nat, k: nat, j: nat, j': nat)
    requires j < j' < k <= |a| && a[j] == i && a[j'] == i
    ensures Count(a, i, k) >= 2
  {
    if j' == k - 1 { CountOne(a, i, j', j); } else { CountTwo(a, i, k - 1, j, j'); }
  }

  lemma CountOne(a: seq<nat>, i: nat, k: nat, j: nat)
    requires j < k <= |a| && a[j] == i
    ensures Count(a, i, k) >= 1
  {
  }

  lemma CountNone(a: seq<nat>, i: nat, k: nat)
    requires k <= |a| && Count(a, i, k) == 0
    ensures forall j | 0 <= j < k :: a[j] != i
  {
  }

  /** Files each above a third of `t` cannot stand three to a shard that holds at most `t`. */
  lemma {:induction false} LoadAbove(p: seq<real>, a: seq<nat>, i: nat, k: nat, t: real)
    requires k <= |p| && k <= |a| && forall j | 0 <= j < k && a[j] == i :: 3.0 * p[j] > t
    ensures 3.0 * Load(p, a, i, k) >= t * Count(a, i, k) as real
    ensures Count(a, i, k) > 0 ==> 3.0 * Load(p, a, i, k) > t * Count(a, i, k) as real
  {
    if k > 0 {
      LoadAbove(p, a, i, k - 1, t);
      var c := Count(a, i, k - 1) as real;
      assert t * (c + 1.0) == t * c + t;
    }
  }

  lemma {:induction false} AtMostTwo(p: seq<real>, a: seq<nat>, i: nat, k: nat, t: real)
    requires k <= |p| && k <= |a| && forall j | 0 <= j < k && a[j] == i :: 3.0 * p[j] > t
    requires 0.0 <= t && Load(p, a, i, k) <= t
    ensures Count(a, i, k) <= 2
  {
    LoadAbove(p, a, i, k, t);
    var c := Count(a, i, k) as real;
    assert c >= 3.0 ==> t * c >= t * 3.0;
  }

  /** A file alone on its shard so far weighs two places, any other one. */
  function Places(a: seq<nat>, k: nat): (w: seq<real>)
    requires k <= |a|
  {
    seq(k + 1, j requires 0 <= j <= k => if j < k && Count(a, a[j], k) == 1 then 2.0 else 1.0)
  }

  lemma {:induction false} PlacesFilled(a: seq<nat>, m: nat, k: nat)
    requires k <= |a| && (forall j | 0 <= j < k :: a[j] < m) && forall i | 0 <= i < m :: 1 <= Count(a, i, k) <= 2
    ensures Total(Places(a, k), k + 1) >= 2.0 * m as real + 1.0
  {
    var w := Places(a, k);
    forall i | 0 <= i < m ensures Load(w, a, i, k) >= 2.0 {
      LoadConstant(w, a, i, k, if Count(a, i, k) == 1 then 2.0 else 1.0);
    }
    LoadsBelowAtLeast(w, a, m, k, 2.0);
    CountedTwice(w, a, m, k);
  }

  /** In an assignment within `t`, a shard offers two places, and a file no other fits beside takes both. */
  lemma {:induction false} PlacesOffered(p: seq<real>, a: seq<nat>, b: seq<nat>, i: nat, k: nat, t: real)
    requires k < |p| && k < |a| && k < |b| && Descending(p) && 0.0 <= t
    requires forall j | 0 <= j <= k :: 3.0 * p[j] > t
    requires forall j | 0 <= j < k && Count(a, a[j], k) == 1 :: p[j] + p[k] > t
    requires Load(p, b, i, k + 1) <= t
    ensures Load(Places(a, k), b, i, k + 1) <= 2.0
  {
    var w := Places(a, k);
    if j :| 0 <= j < k && b[j] == i && w[j] == 2.0 {
      forall x | 0 <= x <= k && x != j ensures b[x] != i {
        if b[x] == i {
          if x < j { LoadTwo(p, b, i, k + 1, x, j); } else { LoadTwo(p, b, i, k + 1, j, x); }
        }
      }
      LoadOnly(w, b, i, k + 1, j);
    } else {
      LoadConstant(w, b, i, k + 1, 1.0);
      AtMostTwo(p, b, i, k + 1, t);
    }
  }

  lemma {:induction false} NextFits(p: seq<real>, a: seq<nat>, b: seq<nat>, m: nat, k: nat, t: real)
    requires Descending(p) && Greedy(p, a, m) && 0.0 <= t
    requires k < |p| && k < |b| && (forall j | 0 <= j <= k :: b[j] < m) && AllAtMost(p, b, m, k + 1, t)
    requires forall j | 0 <= j <= k :: 3.0 * p[j] > t
    requires AllAtMost(p, a, m, k, t)
    ensures Load(p, a, a[k], k) + p[k] <= t
  {
    var x := a[k];
    if Load(p, a, x, k) + p[k] > t {
      LoadOne(p, b, b[k], k + 1, k);
      forall i | 0 <= i < m ensures 1 <= Count(a, i, k) <= 2 {
        assert Lighter(p, a, x, i, k);
        if Count(a, i, k) == 0 {
          CountNone(a, i, k);
          LoadNone(p, a, i, k);
        }
        AtMostTwo(p, a, i, k, t);
      }
      forall j | 0 <= j < k && Count(a, a[j], k) == 1 ensures p[j] + p[k] > t {
        forall y | 0 <= y < k && y != j ensures a[y] != a[j] {
          if a[y] == a[j] { if y < j { CountTwo(a, a[j], k, y, j); } else { CountTwo(a, a[j], k, j, y); } }
        }
        LoadOnly(p, a, a[j], k, j);
        assert Lighter(p, a, x, a[j], k);
      }
      PlacesFilled(a, m, k);
      var w, k' := Places(a, k), k + 1;
      forall i | 0 <= i < m ensures Load(w, b, i, k') <= 2.0 { PlacesOffered(p, a, b, i, k, t); }
      LoadsBelowAtMost(w, b, m, k', 2.0);
      CountedTwice(w, b, m, k');
      assert false;
    }
  }

  /** Where every file costs more than a third of `t`, longest first stays within `t` whenever any assignment does. */
  lemma {:induction false} LargeFilesFit(p: seq<real>, a: seq<nat>, b: seq<nat>, m: nat, k: nat, t: real)
    requires Descending(p) && Greedy(p, a, m) && 0.0 <= t
    requires k <= |p| && k <= |b| && (forall j | 0 <= j < k :: b[j] < m) && AllAtMost(p, b, m, k, t)
    requires forall j | 0 <= j < k :: 3.0 * p[j] > t
    ensures AllAtMost(p, a, m, k, t)
  {
    if k > 0 {
      var k' := k - 1;
      forall i | 0 <= i < m ensures Load(p, b, i, k') <= t { LoadMonotone(p, b, i, k', k); }
      LargeFilesFit(p, a, b, m, k - 1, t);
      NextFits(p, a, b, m, k - 1, t);
    }
  }

  lemma {:induction false} LastOn(p: seq<real>, a: seq<nat>, i: nat, n: nat) returns (k: nat)
    requires n <= |p| && n <= |a| && Count(a, i, n) > 0
    ensures k < n && a[k] == i && Load(p, a, i, n) == Load(p, a, i, k) + p[k]
    ensures forall j | k < j < n :: a[j] != i
  {
    k := n - 1;
    if a[k] != i { k := LastOn(p, a, i, n - 1); }
  }

  /** The lightest shard holds at most the mean. */
  lemma {:induction false} LightestBelowMean(p: seq<real>, a: seq<nat>, m: nat, k: nat)
    requires Greedy(p, a, m) && k < |p|
    ensures m as real * Load(p, a, a[k], k) <= Total(p, k)
  {
    forall i | 0 <= i < m ensures Load(p, a, i, k) >= Load(p, a, a[k], k) { assert Lighter(p, a, a[k], i, k); }
    LoadsBelowAtLeast(p, a, m, k, Load(p, a, a[k], k));
    CountedTwice(p, a, m, k);
  }

  lemma {:induction false} BoundArithmetic(m: real, start: real, last: real, t: real)
    requires m >= 1.0 && m * start + last <= m * t && 3.0 * last <= t
    ensures 3.0 * m * (start + last) <= (4.0 * m - 1.0) * t
  {
    assert (m - 1.0) * (3.0 * last) <= (m - 1.0) * t;
    assert 3.0 * m * (start + last) == 3.0 * (m * start + last) + (m - 1.0) * (3.0 * last);
    assert (4.0 * m - 1.0) * t == 3.0 * (m * t) + (m - 1.0) * t;
  }

  /** `load` is within 4/3 - 1/(3m) of `best`, written without the division. */
  ghost predicate NearOptimal(m: nat, load: real, best: real) {
    3.0 * m as real * load <= (4.0 * m as real - 1.0) * best
  }

  lemma {:induction false} ScaledUp(m: real, load: real, t: real)
    requires m >= 1.0 && load <= t && 0.0 <= t
    ensures 3.0 * m * load <= (4.0 * m - 1.0) * t
  {
    assert m * load <= m * t;
    assert m * t >= t;
    assert (4.0 * m - 1.0) * t == 4.0 * (m * t) - t;
  }

  lemma {:induction false} LargeLastFits(p: seq<real>, a: seq<nat>, b: seq<nat>, m: nat, t: real, k: nat)
    requires Descending(p) && Greedy(p, a, m) && 0.0 <= t && k < |p|
    requires |b| == |p| && (forall j | 0 <= j < |b| :: b[j] < m) && AllAtMost(p, b, m, |p|, t)
    requires 3.0 * p[k] > t
    ensures Load(p, a, a[k], k) + p[k] <= t
  {
    var k' := k + 1;
    forall x | 0 <= x < m ensures Load(p, b, x, k') <= t { LoadMonotone(p, b, x, k', |p|); }
    LargeFilesFit(p, a, b, m, k', t);
    assert Load(p, a, a[k], k') <= t;
  }

  lemma {:induction false} WorkOfAnyAssignment(p: seq<real>, b: seq<nat>, m: nat, t: real, k: nat)
    requires Descending(p) && k < |p|
    requires |b| == |p| && (forall j | 0 <= j < |b| :: b[j] < m) && AllAtMost(p, b, m, |p|, t)
    ensures Total(p, k) + p[k] <= m as real * t
  {
    TotalMonotone(p, k + 1, |p|);
    CountedTwice(p, b, m, |p|);
    LoadsBelowAtMost(p, b, m, |p|, t);
  }

  lemma {:induction false} SmallLastFits(p: seq<real>, a: seq<nat>, b: seq<nat>, m: nat, t: real, k: nat)
    requires Descending(p) && Greedy(p, a, m) && k < |p|
    requires |b| == |p| && (forall j | 0 <= j < |b| :: b[j] < m) && AllAtMost(p, b, m, |p|, t)
    requires 3.0 * p[k] <= t
    ensures NearOptimal(m, Load(p, a, a[k], k) + p[k], t)
  {
    LightestBelowMean(p, a, m, k);
    WorkOfAnyAssignment(p, b, m, t, k);
    BoundArithmetic(m as real, Load(p, a, a[k], k), p[k], t);
  }

  /** Longest first is within 4/3 - 1/(3m) of any assignment. */
  lemma {:induction false} GreedyBound(p: seq<real>, a: seq<nat>, b: seq<nat>, m: nat, t: real, i: nat)
    requires Descending(p) && Greedy(p, a, m) && i < m
    requires |b| == |p| && (forall j | 0 <= j < |b| :: b[j] < m) && AllAtMost(p, b, m, |p|, t)
    ensures NearOptimal(m, Load(p, a, i, |p|), t)
  {
    var n := |p|;
    LoadMonotone(p, b, i, 0, n);
    if Count(a, i, n) == 0 {
      CountNone(a, i, n);
      LoadNone(p, a, i, n);
      ScaledUp(m as real, 0.0, t);
    } else {
      var k := LastOn(p, a, i, n);
      if 3.0 * p[k] > t {
        LargeLastFits(p, a, b, m, t, k);
        ScaledUp(m as real, Load(p, a, i, n), t);
      } else {
        SmallLastFits(p, a, b, m, t, k);
      }
    }
  }

  /** No file gains by moving: its shard without it is no heavier than any shard. */
  lemma {:induction false} NoMoveHelps(p: seq<real>, a: seq<nat>, m: nat, f: nat, j: nat)
    requires Descending(p) && Greedy(p, a, m) && f < |p| && j < m
    ensures Load(p, a, a[f], |p|) - p[f] <= Load(p, a, j, |p|)
  {
    CountOne(a, a[f], |p|, f);
    var k := LastOn(p, a, a[f], |p|);
    assert Lighter(p, a, a[k], j, k);
    LoadMonotone(p, a, j, k, |p|);
  }

  // ----- which shards receive a file at all

  function Ones(k: nat): (w: seq<real>) {
    seq(k, _ => 1.0)
  }

  lemma {:induction false} OnesTotal(n: nat, k: nat)
    requires k <= n
    ensures Total(Ones(n), k) == k as real
  {
    if k > 0 { OnesTotal(n, k - 1); }
  }

  lemma {:induction false} EachShardFilled(a: seq<nat>, m: nat)
    requires (forall j | 0 <= j < |a| :: a[j] < m) && forall i | 0 <= i < m :: Count(a, i, |a|) >= 1
    ensures |a| >= m
  {
    var w, k := Ones(|a|), |a|;
    forall i | 0 <= i < m ensures Load(w, a, i, k) >= 1.0 { LoadConstant(w, a, i, k, 1.0); }
    LoadsBelowAtLeast(w, a, m, k, 1.0);
    CountedTwice(w, a, m, k);
    OnesTotal(k, k);
  }

  lemma {:induction false} NoShardTwice(a: seq<nat>, m: nat)
    requires (forall j | 0 <= j < |a| :: a[j] < m) && forall i | 0 <= i < m :: Count(a, i, |a|) <= 1
    ensures |a| <= m
  {
    var w, k := Ones(|a|), |a|;
    forall i | 0 <= i < m ensures Load(w, a, i, k) <= 1.0 { LoadConstant(w, a, i, k, 1.0); }
    LoadsBelowAtMost(w, a, m, k, 1.0);
    CountedTwice(w, a, m, k);
    OnesTotal(k, k);
  }

  lemma {:induction false} CountPrefix(a: seq<nat>, a': seq<nat>, i: nat, k: nat)
    requires k <= |a| && k <= |a'| && a[..k] == a'[..k]
    ensures Count(a, i, k) == Count(a', i, k)
  {
    if k > 0 {
      var j := k - 1;
      assert a[..k][j] == a'[..k][j];
      assert a[..j] == a[..k][..j] == a'[..j];
      CountPrefix(a, a', i, j);
    }
  }

  lemma CountMonotone(a: seq<nat>, i: nat, j: nat, k: nat)
    requires j <= k <= |a|
    ensures Count(a, i, j) <= Count(a, i, k)
  {
  }

  /** The files from `q` on cost nothing, those before it something. */
  ghost predicate FreeFrom(p: seq<real>, q: nat) {
    q <= |p| && (forall j | 0 <= j < q :: p[j] > 0.0) && forall j | q <= j < |p| :: p[j] == 0.0
  }

  /** While a shard stands empty, no shard holds two files that cost something. */
  lemma {:induction false} PaidFilesSpread(p: seq<real>, a: seq<nat>, m: nat, q: nat, j: nat, i: nat, k: nat)
    requires Descending(p) && Greedy(p, a, m) && FreeFrom(p, q) && k <= q
    requires j < m && i < m && Count(a, j, |p|) == 0
    ensures Count(a, i, k) <= 1
  {
    if k > 0 {
      PaidFilesSpread(p, a, m, q, j, i, k - 1);
      if a[k - 1] == i && Count(a, i, k - 1) == 1 {
        var x := LastOn(p, a, i, k - 1);
        CountNone(a, j, |p|);
        LoadNone(p, a, j, k - 1);
        assert Lighter(p, a, a[k - 1], j, k - 1);
        LoadOne(p, a, i, k - 1, x);
      }
    }
  }

  lemma {:induction false} FreeFilesTogether(p: seq<real>, a: seq<nat>, m: nat, q: nat, k: nat)
    requires Descending(p) && Greedy(p, a, m) && FreeFrom(p, q) && q <= k < |p|
    ensures a[k] == a[q]
  {
    FreeFilesWeighNothing(p, a, q, a[k], k);
    FreeFilesWeighNothing(p, a, q, a[q], k);
    assert Lighter(p, a, a[k], a[q], k) && Lighter(p, a, a[q], a[k], q);
  }

  lemma FreeFilesWeighNothing(p: seq<real>, a: seq<nat>, q: nat, i: nat, k: nat)
    requires FreeFrom(p, q) && |a| == |p| && q <= k <= |p|
    ensures Load(p, a, i, k) == Load(p, a, i, q)
  {
  }

  lemma {:induction false} EmptyShardNeedsFreeFiles(p: seq<real>, a: seq<nat>, m: nat, q: nat, j: nat)
    requires Descending(p) && Greedy(p, a, m) && FreeFrom(p, q) && j < m && Count(a, j, |p|) == 0
    ensures |p| < m || q + 1 < m
  {
    forall i | 0 <= i < m ensures Count(a, i, q) <= 1 { PaidFilesSpread(p, a, m, q, j, i, q); }
    CountMonotone(a, j, q, |p|);
    var a' := a[..q] + [j];
    forall i | 0 <= i < m ensures Count(a', i, |a'|) <= 1 { CountPrefix(a, a', i, q); }
    NoShardTwice(a', m);
    if |p| >= m && q + 1 == m {
      var z := a[q];
      CountNone(a, j, |p|);
      LoadNone(p, a, j, q);
      assert Lighter(p, a, z, j, q);
      if Count(a, z, q) > 0 {
        var x := LastOn(p, a, z, q);
        LoadOne(p, a, z, q, x);
      }
      var a'' := a' + [z];
      forall i | 0 <= i < m
        ensures Count(a'', i, |a''|) <= 1
      {
        CountPrefix(a', a'', i, |a'|); CountPrefix(a, a', i, q);
      }
      NoShardTwice(a'', m);
    }
  }

  ghost predicate NoneEmpty(a: seq<nat>, m: nat) {
    forall i | 0 <= i < m :: Count(a, i, |a|) > 0
  }

  /**
   * No shard is empty exactly where the files are as many as the shards and all but one shard can have one that costs
   * something.
   */
  lemma {:induction false} NoShardEmpty(p: seq<real>, a: seq<nat>, m: nat, q: nat)
    requires Descending(p) && Greedy(p, a, m) && FreeFrom(p, q) && m > 0
    ensures NoneEmpty(a, m) <==> |p| >= m && q + 1 >= m
  {
    if NoneEmpty(a, m) {
      EachShardFilled(a, m);
      if q < |p| {
        var a' := a[..q] + [a[q]];
        forall i | 0 <= i < m ensures Count(a', i, |a'|) >= 1 {
          CountPrefix(a, a', i, q);
          var x := LastOn(p, a, i, |p|);
          if x < q { CountOne(a, i, q, x); } else { FreeFilesTogether(p, a, m, q, x); }
        }
        EachShardFilled(a', m);
      }
    } else {
      var j :| 0 <= j < m && Count(a, j, |p|) == 0;
      EmptyShardNeedsFreeFiles(p, a, m, q, j);
    }
  }
}
