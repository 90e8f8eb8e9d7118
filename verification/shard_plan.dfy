/** Which of a suite's test files one CI shard runs: longest first, each file to the shard holding least. */
module ShardPlan {
  import opened Ordering
  import opened ShardLoads

  // ----- sums over a list of files

  ghost function Sum(f: string -> real, s: seq<string>): real {
    if s == [] then 0.0 else Sum(f, s[..|s| - 1]) + f(s[|s| - 1])
  }

  lemma {:induction false} SumConcat(f: string -> real, s: seq<string>, t: seq<string>)
    ensures Sum(f, s + t) == Sum(f, s) + Sum(f, t)
  {
    if t == [] {
      assert s + t == s;
    } else {
      var t' := t[..|t| - 1];
      assert (s + t)[..|s + t| - 1] == s + t';
      SumConcat(f, s, t');
    }
  }

  lemma {:induction false} SumRemove(f: string -> real, s: seq<string>, q: nat)
    requires q < |s|
    ensures Sum(f, s) == Sum(f, s[..q] + s[q + 1..]) + f(s[q])
    ensures multiset(s) == multiset(s[..q] + s[q + 1..]) + multiset{s[q]}
  {
    assert s == s[..q] + ([s[q]] + s[q + 1..]);
    SumConcat(f, s[..q], [s[q]] + s[q + 1..]);
    SumConcat(f, [s[q]], s[q + 1..]);
    SumConcat(f, s[..q], s[q + 1..]);
    assert [s[q]][..0] == [];
  }

  lemma {:induction false} SumPermutation(f: string -> real, s: seq<string>, t: seq<string>)
    requires multiset(s) == multiset(t)
    ensures Sum(f, s) == Sum(f, t)
  {
    assert |s| == |multiset(s)| == |multiset(t)| == |t|;
    if s != [] {
      var n := |s| - 1;
      assert s[n] in multiset(t);
      var q :| 0 <= q < |t| && t[q] == s[n];
      SumRemove(f, t, q);
      SumRemove(f, s, n);
      var t' := t[..q] + t[q + 1..];
      assert s[..n] + s[n + 1..] == s[..n];
      assert multiset(s[..n]) == multiset(s) - multiset{s[n]} == multiset(t');
      SumPermutation(f, s[..n], t');
    }
  }

  // ----- what a file costs

  function Known(candidates: seq<string>, costs: map<string, real>): seq<real> {
    if candidates == [] then []
    else
      var last := candidates[|candidates| - 1];
      Known(candidates[..|candidates| - 1], costs) + if last in costs then [costs[last]] else []
  }

  function SumOf(s: seq<real>): real {
    if s == [] then 0.0 else SumOf(s[..|s| - 1]) + s[|s| - 1]
  }

  /** The mean of the rows the candidates have, or one second where they have none. */
  function Unknown(candidates: seq<string>, costs: map<string, real>): real {
    var known := Known(candidates, costs);
    if known == [] then 1.0 else SumOf(known) / |known| as real
  }

  function Price(candidates: seq<string>, costs: map<string, real>): string -> real {
    var unknown := Unknown(candidates, costs);
    path => if path in costs then costs[path] else unknown
  }

  ghost predicate Priced(costs: map<string, real>) {
    forall path | path in costs :: 0.0 <= costs[path]
  }

  lemma {:induction false} KnownSums(candidates: seq<string>, costs: map<string, real>)
    ensures SumOf(Known(candidates, costs)) == Sum(path => if path in costs then costs[path] else 0.0, candidates)
    ensures |Known(candidates, costs)| as real == Sum(path => if path in costs then 1.0 else 0.0, candidates)
  {
    if candidates != [] {
      var last := candidates[|candidates| - 1];
      KnownSums(candidates[..|candidates| - 1], costs);
      var before := Known(candidates[..|candidates| - 1], costs);
      if last in costs { assert (before + [costs[last]])[..|before|] == before; } else { assert before + [] == before; }
    }
  }

  /**
   * A listed file costs its row. Any other costs the mean of the candidates' rows: times their number it is their sum,
   * and it is one second where they have none.
   */
  lemma {:induction false} PriceIs(candidates: seq<string>, costs: map<string, real>, path: string)
    ensures path in costs ==> Price(candidates, costs)(path) == costs[path]
    ensures path !in costs ==>
      var price := Price(candidates, costs)(path);
      var rows := Sum(q => if q in costs then 1.0 else 0.0, candidates);
      if rows == 0.0 then price == 1.0
      else price * rows == Sum(q => if q in costs then costs[q] else 0.0, candidates)
  {
    KnownSums(candidates, costs);
    var known := Known(candidates, costs);
    if known != [] { assert SumOf(known) / |known| as real * |known| as real == SumOf(known); }
  }

  lemma {:induction false} PriceIgnoresOrder(s: seq<string>, t: seq<string>, costs: map<string, real>)
    requires multiset(s) == multiset(t)
    ensures Unknown(s, costs) == Unknown(t, costs)
    ensures Price(s, costs) == Price(t, costs)
  {
    KnownSums(s, costs);
    KnownSums(t, costs);
    SumPermutation(path => if path in costs then costs[path] else 0.0, s, t);
    SumPermutation(path => if path in costs then 1.0 else 0.0, s, t);
    assert |Known(s, costs)| as real == |Known(t, costs)| as real;
  }

  lemma SumOfNonNegative(s: seq<real>)
    requires forall i | 0 <= i < |s| :: 0.0 <= s[i]
    ensures 0.0 <= SumOf(s)
  {
  }

  lemma KnownNonNegative(candidates: seq<string>, costs: map<string, real>)
    requires Priced(costs)
    ensures forall i | 0 <= i < |Known(candidates, costs)| :: 0.0 <= Known(candidates, costs)[i]
  {
  }

  lemma {:induction false} PriceNonNegative(candidates: seq<string>, costs: map<string, real>)
    requires Priced(costs)
    ensures forall path :: 0.0 <= Price(candidates, costs)(path)
  {
    KnownNonNegative(candidates, costs);
    SumOfNonNegative(Known(candidates, costs));
  }

  // ----- the plan

  function ByCost(f: string -> real): (string, string) -> bool {
    (a, b) => f(a) > f(b) || (f(a) == f(b) && StringLeq(a, b))
  }

  lemma {:induction false} ByCostOrder(f: string -> real)
    ensures TotalOrder(ByCost(f))
  {
    StringOrder();
  }

  function Order(candidates: seq<string>, costs: map<string, real>): (order: seq<string>)
    ensures multiset(order) == multiset(candidates) && Sorted(ByCost(Price(candidates, costs)), order)
  {
    ByCostOrder(Price(candidates, costs));
    Sort(ByCost(Price(candidates, costs)), candidates)
  }

  /** The dearer file first, and of two that cost alike the one whose path comes first. */
  lemma {:induction false} OrderIs(candidates: seq<string>, costs: map<string, real>, i: nat, j: nat)
    requires i < j < |Order(candidates, costs)|
    ensures var a, b := Order(candidates, costs)[i], Order(candidates, costs)[j];
      var f := Price(candidates, costs);
      f(a) > f(b) || (f(a) == f(b) && (a <= b || exists k :: FirstDiffers(a, b, k)))
  {
    var a, b, f := Order(candidates, costs)[i], Order(candidates, costs)[j], Price(candidates, costs);
    assert ByCost(f)(a, b);
    StringLeqIff(a, b);
  }

  function CostsOf(f: string -> real, order: seq<string>): (p: seq<real>) {
    seq(|order|, j requires 0 <= j < |order| => f(order[j]))
  }

  /** `min(range(count), key=lambda index: (loads[index], index))`. */
  function Lightest(loads: seq<real>): (x: nat)
    requires loads != []
    ensures x < |loads|
    ensures forall i | 0 <= i < |loads| :: loads[x] < loads[i] || (loads[x] == loads[i] && x <= i)
  {
    if |loads| == 1 then 0
    else
      var before := Lightest(loads[..|loads| - 1]);
      if loads[|loads| - 1] < loads[before] then |loads| - 1 else before
  }

  ghost function LoadsAt(p: seq<real>, a: seq<nat>, m: nat, k: nat): seq<real>
    requires k <= |p| && k <= |a|
  {
    seq(m, i requires 0 <= i < m => Load(p, a, i, k))
  }

  ghost function Assign(p: seq<real>, m: nat, k: nat): (a: seq<nat>)
    requires m > 0 && k <= |p|
    ensures |a| == k && forall j | 0 <= j < k :: a[j] < m
  {
    if k == 0 then []
    else
      var a := Assign(p, m, k - 1);
      a + [Lightest(LoadsAt(p, a, m, k - 1))]
  }

  /** The files of shard `i` among the first `k`, in the order they were placed. */
  ghost function Pick(order: seq<string>, a: seq<nat>, i: nat, k: nat): seq<string>
    requires k <= |order| && k <= |a|
  {
    if k == 0 then [] else Pick(order, a, i, k - 1) + if a[k - 1] == i then [order[k - 1]] else []
  }

  ghost function Picks(order: seq<string>, a: seq<nat>, m: nat): (shards: seq<seq<string>>)
    requires |a| == |order|
    ensures |shards| == m && forall i | 0 <= i < m :: shards[i] == Pick(order, a, i, |order|)
  {
    seq(m, i requires 0 <= i < m => Pick(order, a, i, |order|))
  }

  ghost function PlanOf(candidates: seq<string>, costs: map<string, real>, count: nat): (shards: seq<seq<string>>)
    requires count > 0
    ensures |shards| == count
  {
    var order := Order(candidates, costs);
    var a := Assign(CostsOf(Price(candidates, costs), order), count, |order|);
    EachSorted(Picks(order, a, count))
  }

  method Plan(candidates: seq<string>, costs: map<string, real>, count: nat) returns (shards: seq<seq<string>>)
    requires count > 0
    ensures shards == PlanOf(candidates, costs, count)
  {
    var f := Price(candidates, costs);
    var order := Order(candidates, costs);
    ghost var p := CostsOf(f, order);
    var loads := seq(count, _ => 0.0);
    shards := seq(count, _ => []);
    for k := 0 to |order|
      invariant Placed(order, p, Assign(p, count, k), count, k, loads, shards)
    {
      var lightest := Lightest(loads);
      ghost var before, held := loads, shards;
      loads := loads[lightest := loads[lightest] + f(order[k])];
      shards := shards[lightest := shards[lightest] + [order[k]]];
      PlaceNext(order, p, count, k, before, held, loads, shards);
    }
    PlacedAll(order, p, Assign(p, count, |order|), count, loads, shards);
    shards := EachSorted(shards);
  }

  lemma {:induction false} PlaceNext(
      order: seq<string>, p: seq<real>, m: nat, k: nat, loads: seq<real>, shards: seq<seq<string>>,
      loads': seq<real>, shards': seq<seq<string>>)
    requires m > 0 && k < |order| == |p| && Placed(order, p, Assign(p, m, k), m, k, loads, shards)
    requires var x := Lightest(loads);
      loads' == loads[x := loads[x] + p[k]] && shards' == shards[x := shards[x] + [order[k]]]
    ensures Placed(order, p, Assign(p, m, k + 1), m, k + 1, loads', shards')
  {
    AssignOne(p, m, k, loads);
    PlaceOne(order, p, Assign(p, m, k), Lightest(loads), m, k, loads, shards);
  }

  /** `[sorted(shard) for shard in shards]`. */
  function EachSorted(shards: seq<seq<string>>): (r: seq<seq<string>>)
    ensures |r| == |shards|
    ensures forall i | 0 <= i < |r| :: Sorted(StringLeq, r[i]) && multiset(r[i]) == multiset(shards[i])
  {
    StringOrder();
    seq(|shards|, i requires 0 <= i < |shards| => Sort(StringLeq, shards[i]))
  }

  /** The loop's state after `k` files. */
  ghost predicate Placed(
      order: seq<string>, p: seq<real>, a: seq<nat>, m: nat, k: nat, loads: seq<real>, shards: seq<seq<string>>) {
    && k <= |order| == |p| && |a| == k
    && loads == LoadsAt(p, a, m, k)
    && |shards| == m && forall i | 0 <= i < m :: shards[i] == Pick(order, a, i, k)
  }

  lemma {:induction false} PlaceOne(
      order: seq<string>, p: seq<real>, a: seq<nat>, x: nat, m: nat, k: nat, loads: seq<real>,
      shards: seq<seq<string>>)
    requires Placed(order, p, a, m, k, loads, shards) && k < |order| && x < m
    ensures Placed(order, p, a + [x], m, k + 1, loads[x := loads[x] + p[k]], shards[x := shards[x] + [order[k]]])
  {
    var a' := a + [x];
    forall i | 0 <= i < m
      ensures Load(p, a', i, k + 1) == Load(p, a, i, k) + if i == x then p[k] else 0.0
      ensures Pick(order, a', i, k + 1) == Pick(order, a, i, k) + if i == x then [order[k]] else []
    {
      LoadPrefix(p, a, a', i, k);
      PickPrefix(order, a, a', i, k);
    }
  }

  lemma {:induction false} AssignOne(p: seq<real>, m: nat, k: nat, loads: seq<real>)
    requires m > 0 && k < |p| && loads == LoadsAt(p, Assign(p, m, k), m, k)
    ensures Assign(p, m, k + 1) == Assign(p, m, k) + [Lightest(loads)]
  {
  }

  lemma {:induction false} PlacedAll(
      order: seq<string>, p: seq<real>, a: seq<nat>, m: nat, loads: seq<real>, shards: seq<seq<string>>)
    requires Placed(order, p, a, m, |order|, loads, shards)
    ensures shards == Picks(order, a, m)
  {
  }

  lemma LoadPrefix(p: seq<real>, a: seq<nat>, a': seq<nat>, i: nat, k: nat)
    requires k <= |p| && k <= |a| && a <= a'
    ensures Load(p, a', i, k) == Load(p, a, i, k)
  {
  }

  lemma PickPrefix(order: seq<string>, a: seq<nat>, a': seq<nat>, i: nat, k: nat)
    requires k <= |order| && k <= |a| && a <= a'
    ensures Pick(order, a', i, k) == Pick(order, a, i, k)
  {
  }

  lemma AssignPrefix(p: seq<real>, m: nat, j: nat, k: nat)
    requires m > 0 && j <= k <= |p|
    ensures Assign(p, m, j) <= Assign(p, m, k)
  {
  }

  lemma {:induction false} AssignIsGreedy(p: seq<real>, m: nat)
    requires m > 0
    ensures Greedy(p, Assign(p, m, |p|), m)
  {
    var a := Assign(p, m, |p|);
    forall k, i | 0 <= k < |a| && 0 <= i < m ensures Lighter(p, a, a[k], i, k) {
      AssignPrefix(p, m, k, |p|);
      AssignPrefix(p, m, k + 1, |p|);
      var before := Assign(p, m, k);
      assert a[k] == Assign(p, m, k + 1)[k] == Lightest(LoadsAt(p, before, m, k));
      LoadPrefix(p, before, a, i, k);
      LoadPrefix(p, before, a, a[k], k);
      assert LoadsAt(p, before, m, k)[i] == Load(p, before, i, k);
    }
  }

  // ----- what a split of the files is

  ghost function Flatten(shards: seq<seq<string>>): seq<string> {
    if shards == [] then [] else Flatten(shards[..|shards| - 1]) + shards[|shards| - 1]
  }

  ghost predicate IsSplit(shards: seq<seq<string>>, candidates: seq<string>, count: nat) {
    |shards| == count && multiset(Flatten(shards)) == multiset(candidates)
  }

  ghost function Heaviest(f: string -> real, shards: seq<seq<string>>): real {
    if shards == [] then 0.0
    else
      var before, last := Heaviest(f, shards[..|shards| - 1]), Sum(f, shards[|shards| - 1]);
      if before < last then last else before
  }

  lemma {:induction false} HeaviestBounds(f: string -> real, shards: seq<seq<string>>)
    ensures forall i | 0 <= i < |shards| :: Sum(f, shards[i]) <= Heaviest(f, shards)
    ensures Heaviest(f, shards) == 0.0 || exists i :: 0 <= i < |shards| && Sum(f, shards[i]) == Heaviest(f, shards)
  {
    if shards != [] {
      var before := shards[..|shards| - 1];
      HeaviestBounds(f, before);
      var n := |shards| - 1;
      forall i | 0 <= i < |shards|
        ensures Sum(f, shards[i]) <= Heaviest(f, shards)
      {
        assert i < n ==> before[i] == shards[i];
      }
      if Heaviest(f, before) < Sum(f, shards[n]) {
        assert Sum(f, shards[n]) == Heaviest(f, shards);
      } else if Heaviest(f, before) != 0.0 {
        var i :| 0 <= i < |before| && Sum(f, before[i]) == Heaviest(f, before);
        assert Sum(f, shards[i]) == Heaviest(f, shards);
      }
    }
  }

  lemma {:induction false} FlattenLast(shards: seq<seq<string>>)
    requires shards != []
    ensures var last := |shards| - 1;
      multiset(Flatten(shards)) == multiset(Flatten(shards[..last])) + multiset(shards[last])
  {
  }

  lemma {:induction false} Taken(s: seq<string>, q: nat)
    requires q < |s|
    ensures multiset(s) == multiset(s[..q] + s[q + 1..]) + multiset{s[q]}
  {
    SumRemove(_ => 0.0, s, q);
  }

  ghost function Files(shards: seq<seq<string>>): multiset<string> { multiset(Flatten(shards)) }

  lemma {:induction false} FlattenUpdate(shards: seq<seq<string>>, i: nat, q: nat)
    requires i < |shards| && q < |shards[i]|
    ensures multiset(Flatten(shards)) == multiset(Flatten(shards[i := shards[i][..q] + shards[i][q + 1..]]))
      + multiset{shards[i][q]}
  {
    var last, without := |shards| - 1, shards[i][..q] + shards[i][q + 1..];
    var now, one, front := shards[i := without], multiset{shards[i][q]}, shards[..last];
    FlattenLast(shards);
    FlattenLast(now);
    if i == last {
      Taken(shards[i], q);
      assert now[..last] == front;
      Regrouped(Files(front), multiset(without), one);
    } else {
      FlattenUpdate(front, i, q);
      assert now[..last] == front[i := without];
      Regrouped(multiset(shards[last]), Files(now[..last]), one);
    }
  }

  lemma {:induction false} Regrouped(x: multiset<string>, y: multiset<string>, m: multiset<string>)
    ensures x + (y + m) == (x + y) + m && (y + m) + x == (y + x) + m
  {
  }

  lemma {:induction false} FlattenMember(shards: seq<seq<string>>, x: string) returns (i: nat, q: nat)
    requires x in Flatten(shards)
    ensures i < |shards| && q < |shards[i]| && shards[i][q] == x
  {
    var last := |shards| - 1;
    if x in shards[last] {
      i := last;
      q :| 0 <= q < |shards[i]| && shards[i][q] == x;
    } else {
      i, q := FlattenMember(shards[..last], x);
    }
  }

  /** Every split, however it was made, is an assignment of the files in any one order. */
  lemma {:induction false} SplitAssigns(f: string -> real, order: seq<string>, k: nat, shards: seq<seq<string>>)
    returns (b: seq<nat>)
    requires k <= |order| && multiset(Flatten(shards)) == multiset(order[..k])
    ensures |b| == k && forall j | 0 <= j < k :: b[j] < |shards|
    ensures forall i | 0 <= i < |shards| :: Load(CostsOf(f, order), b, i, k) == Sum(f, shards[i])
    decreases k
  {
    if k == 0 {
      b := [];
      NothingToSplit(shards);
    } else {
      var i, q := LastPlaced(order, k, shards);
      var b' := SplitAssigns(f, order, k - 1, shards[i := shards[i][..q] + shards[i][q + 1..]]);
      b := b' + [i];
      AssignOneMore(f, order, k - 1, shards, i, q, b');
    }
  }

  lemma {:induction false} LastPlaced(order: seq<string>, k: nat, shards: seq<seq<string>>) returns (i: nat, q: nat)
    requires 0 < k <= |order| && multiset(Flatten(shards)) == multiset(order[..k])
    ensures i < |shards| && q < |shards[i]| && shards[i][q] == order[k - 1]
    ensures multiset(Flatten(shards[i := shards[i][..q] + shards[i][q + 1..]])) == multiset(order[..k - 1])
  {
    var x := order[k - 1];
    assert order[..k] == order[..k - 1] + [x];
    assert x in multiset(Flatten(shards));
    i, q := FlattenMember(shards, x);
    FlattenUpdate(shards, i, q);
    assert multiset(order[..k - 1]) == multiset(order[..k]) - multiset{x};
  }

  lemma {:induction false} AssignOneMore(
      f: string -> real, order: seq<string>, k: nat, shards: seq<seq<string>>, i: nat, q: nat, b: seq<nat>)
    requires k < |order| && |b| == k && i < |shards| && q < |shards[i]| && shards[i][q] == order[k]
    requires forall y | 0 <= y < |shards| ::
      Load(CostsOf(f, order), b, y, k) == Sum(f, shards[i := shards[i][..q] + shards[i][q + 1..]][y])
    ensures forall y | 0 <= y < |shards| :: Load(CostsOf(f, order), b + [i], y, k + 1) == Sum(f, shards[y])
  {
    var p, b', k' := CostsOf(f, order), b + [i], k + 1;
    SumRemove(f, shards[i], q);
    forall y | 0 <= y < |shards| ensures Load(p, b', y, k') == Sum(f, shards[y]) {
      LoadPrefix(p, b, b', y, k);
      assert Load(p, b, y, k) == Sum(f, shards[i := shards[i][..q] + shards[i][q + 1..]][y]);
    }
  }

  lemma {:induction false} NothingToSplit(shards: seq<seq<string>>)
    requires multiset(Flatten(shards)) == multiset{}
    ensures forall i | 0 <= i < |shards| :: shards[i] == []
  {
    forall i | 0 <= i < |shards| ensures shards[i] == [] {
      if shards[i] != [] { FlattenHolds(shards, i, 0); }
    }
  }

  lemma {:induction false} FlattenHolds(shards: seq<seq<string>>, i: nat, q: nat)
    requires i < |shards| && q < |shards[i]|
    ensures shards[i][q] in multiset(Flatten(shards))
  {
    if i < |shards| - 1 { FlattenHolds(shards[..|shards| - 1], i, q); }
  }

  lemma {:induction false} PickSum(f: string -> real, order: seq<string>, a: seq<nat>, i: nat, k: nat)
    requires k <= |order| && k <= |a|
    ensures Sum(f, Pick(order, a, i, k)) == Load(CostsOf(f, order), a, i, k)
    ensures |Pick(order, a, i, k)| == Count(a, i, k)
  {
    if k > 0 {
      var before := Pick(order, a, i, k - 1);
      PickSum(f, order, a, i, k - 1);
      assert (before + [order[k - 1]])[..|before|] == before;
      assert before + [] == before;
    }
  }

  ghost function PicksBelow(order: seq<string>, a: seq<nat>, m: nat, k: nat): multiset<string>
    requires k <= |order| && k <= |a|
  {
    if m == 0 then multiset{} else PicksBelow(order, a, m - 1, k) + multiset(Pick(order, a, m - 1, k))
  }

  lemma {:induction false} PicksBelowStep(order: seq<string>, a: seq<nat>, m: nat, k: nat)
    requires 0 < k <= |order| && k <= |a|
    ensures PicksBelow(order, a, m, k)
      == PicksBelow(order, a, m, k - 1) + if a[k - 1] < m then multiset{order[k - 1]} else multiset{}
  {
    if m > 0 { PicksBelowStep(order, a, m - 1, k); }
  }

  lemma {:induction m} PicksBelowNothing(order: seq<string>, a: seq<nat>, m: nat)
    ensures PicksBelow(order, a, m, 0) == multiset{}
  {
  }

  lemma {:induction false} PicksAreAll(order: seq<string>, a: seq<nat>, m: nat, k: nat)
    requires k <= |order| && k <= |a| && forall j | 0 <= j < k :: a[j] < m
    ensures PicksBelow(order, a, m, k) == multiset(order[..k])
  {
    if k == 0 {
      PicksBelowNothing(order, a, m);
    } else {
      PicksBelowStep(order, a, m, k);
      PicksAreAll(order, a, m, k - 1);
      OneMoreTaken(order, k);
    }
  }

  lemma {:induction false} OneMoreTaken(order: seq<string>, k: nat)
    requires 0 < k <= |order|
    ensures multiset(order[..k]) == multiset(order[..k - 1]) + multiset{order[k - 1]}
  {
    assert order[..k] == order[..k - 1] + [order[k - 1]];
  }

  lemma {:induction false} FlattenPicks(shards: seq<seq<string>>, order: seq<string>, a: seq<nat>, k: nat)
    requires k <= |order| && k <= |a|
    requires forall i | 0 <= i < |shards| :: multiset(shards[i]) == multiset(Pick(order, a, i, k))
    ensures multiset(Flatten(shards)) == PicksBelow(order, a, |shards|, k)
  {
    if shards != [] {
      var n := |shards| - 1;
      FlattenPicks(shards[..n], order, a, k);
      FlattenOneMore(shards);
      assert multiset(shards[n]) == multiset(Pick(order, a, n, k));
    }
  }

  lemma {:induction false} FlattenOneMore(shards: seq<seq<string>>)
    requires shards != []
    ensures multiset(Flatten(shards)) == multiset(Flatten(shards[..|shards| - 1])) + multiset(shards[|shards| - 1])
  {
  }

  // ----- what the plan promises

  /** What the theorems below read of a plan: the greedy assignment it comes from. */
  ghost predicate Realises(f: string -> real, shards: seq<seq<string>>, order: seq<string>, a: seq<nat>) {
    && |a| == |order|
    && Descending(CostsOf(f, order))
    && Greedy(CostsOf(f, order), a, |shards|)
    && forall i | 0 <= i < |shards| :: Holds(f, shards[i], order, a, i)
  }

  ghost predicate Holds(f: string -> real, shard: seq<string>, order: seq<string>, a: seq<nat>, i: nat)
    requires |a| == |order|
  {
    && multiset(shard) == multiset(Pick(order, a, i, |order|))
    && Sum(f, shard) == Load(CostsOf(f, order), a, i, |order|)
    && |shard| == Count(a, i, |order|)
  }

  lemma {:induction false} PlanRealises(candidates: seq<string>, costs: map<string, real>, count: nat)
    returns (order: seq<string>, a: seq<nat>)
    requires count > 0 && Priced(costs)
    ensures multiset(order) == multiset(candidates)
    ensures Realises(Price(candidates, costs), PlanOf(candidates, costs, count), order, a)
  {
    var f := Price(candidates, costs);
    order := Order(candidates, costs);
    var p := CostsOf(f, order);
    a := Assign(p, count, |p|);
    PriceNonNegative(candidates, costs);
    AssignIsGreedy(p, count);
    forall i | 0 <= i < count ensures Holds(f, PlanOf(candidates, costs, count)[i], order, a, i) {
      var shard, picked := PlanOf(candidates, costs, count)[i], Pick(order, a, i, |order|);
      assert multiset(shard) == multiset(picked);
      SumPermutation(f, shard, picked);
      PickSum(f, order, a, i, |order|);
      assert |shard| == |multiset(shard)| == |multiset(picked)| == |picked|;
    }
    forall i, j | 0 <= i <= j < |p| ensures p[i] >= p[j] {
      if i < j { assert ByCost(f)(order[i], order[j]); }
    }
  }

  /** Every candidate in exactly one shard, as often as it arrived, and each shard sorted by path. */
  lemma {:induction false} PlanIsSplit(candidates: seq<string>, costs: map<string, real>, count: nat)
    requires count > 0
    ensures IsSplit(PlanOf(candidates, costs, count), candidates, count)
    ensures forall i | 0 <= i < count :: Sorted(StringLeq, PlanOf(candidates, costs, count)[i])
  {
    var order := Order(candidates, costs);
    var a := Assign(CostsOf(Price(candidates, costs), order), count, |order|);
    FlattenPicks(PlanOf(candidates, costs, count), order, a, |order|);
    PicksAreAll(order, a, count, |order|);
    assert order[..|order|] == order;
  }

  /** Every instance that reads one table and one set of files computes one plan, whatever order they arrived in. */
  lemma {:induction false} PlanIgnoresOrder(s: seq<string>, t: seq<string>, costs: map<string, real>, count: nat)
    requires count > 0 && multiset(s) == multiset(t)
    ensures PlanOf(s, costs, count) == PlanOf(t, costs, count)
  {
    PriceIgnoresOrder(s, t, costs);
    ByCostOrder(Price(s, costs));
    SortedUnique(ByCost(Price(s, costs)), Order(s, costs), Order(t, costs));
  }

  lemma {:induction false} RealisedNearOptimal(
      f: string -> real, shards: seq<seq<string>>, order: seq<string>, a: seq<nat>, other: seq<seq<string>>)
    requires Realises(f, shards, order, a) && shards != [] && IsSplit(other, order, |shards|)
    ensures NearOptimal(|shards|, Heaviest(f, shards), Heaviest(f, other))
  {
    var p, m := CostsOf(f, order), |shards|;
    assert order[..|order|] == order;
    var b := SplitAssigns(f, order, |order|, other);
    var t := Heaviest(f, other);
    assert AllAtMost(p, b, m, |p|, t) by { HeaviestBounds(f, other); }
    forall i | 0 <= i < m ensures NearOptimal(m, Sum(f, shards[i]), t) {
      GreedyBound(p, a, b, m, t, i);
      assert Holds(f, shards[i], order, a, i);
    }
    LoadMonotone(p, b, 0, 0, |p|);
    HeaviestWithin(f, shards, m, t);
  }

  /** The heaviest shard is within 4/3 - 1/(3 count) of the heaviest of any split of the same files. */
  lemma {:induction false} PlanNearOptimal(
      candidates: seq<string>, costs: map<string, real>, count: nat, other: seq<seq<string>>)
    requires count > 0 && Priced(costs) && IsSplit(other, candidates, count)
    ensures var f := Price(candidates, costs);
      NearOptimal(count, Heaviest(f, PlanOf(candidates, costs, count)), Heaviest(f, other))
  {
    var order, a := PlanRealises(candidates, costs, count);
    RealisedNearOptimal(Price(candidates, costs), PlanOf(candidates, costs, count), order, a, other);
  }

  lemma {:induction false} HeaviestWithin(f: string -> real, shards: seq<seq<string>>, m: nat, t: real)
    requires m >= 1 && 0.0 <= t
    requires forall i | 0 <= i < |shards| :: NearOptimal(m, Sum(f, shards[i]), t)
    ensures NearOptimal(m, Heaviest(f, shards), t)
  {
    ScaledUp(m as real, 0.0, t);
    HeaviestBounds(f, shards);
  }

  lemma {:induction false} RealisedMoveStable(
      f: string -> real, shards: seq<seq<string>>, order: seq<string>, a: seq<nat>, i: nat, j: nat, file: string)
    requires Realises(f, shards, order, a) && i < |shards| && j < |shards| && file in shards[i]
    ensures Sum(f, shards[i]) <= Sum(f, shards[j]) + f(file)
  {
    assert Holds(f, shards[i], order, a, i) && Holds(f, shards[j], order, a, j);
    assert file in multiset(shards[i]);
    assert file in multiset(Pick(order, a, i, |order|));
    var x := PickedAt(order, a, i, |order|, file);
    NoMoveHelps(CostsOf(f, order), a, |shards|, x, j);
  }

  /** No file gains by moving: its shard without it is no heavier than any shard. */
  lemma {:induction false} PlanMoveStable(
      candidates: seq<string>, costs: map<string, real>, count: nat, i: nat, j: nat, file: string)
    requires count > 0 && Priced(costs) && i < count && j < count && file in PlanOf(candidates, costs, count)[i]
    ensures var f, shards := Price(candidates, costs), PlanOf(candidates, costs, count);
      Sum(f, shards[i]) <= Sum(f, shards[j]) + f(file)
  {
    var order, a := PlanRealises(candidates, costs, count);
    RealisedMoveStable(Price(candidates, costs), PlanOf(candidates, costs, count), order, a, i, j, file);
  }

  lemma {:induction false} PickedAt(order: seq<string>, a: seq<nat>, i: nat, k: nat, file: string) returns (x: nat)
    requires k <= |order| && k <= |a| && file in Pick(order, a, i, k)
    ensures x < k && order[x] == file && a[x] == i
  {
    if a[k - 1] == i && order[k - 1] == file { x := k - 1; } else { x := PickedAt(order, a, i, k - 1, file); }
  }

  lemma {:induction false} DistinctByMultiset(s: seq<string>, t: seq<string>)
    requires multiset(s) == multiset(t) && Distinct(s)
    ensures Distinct(t)
  {
    if i, j :| 0 <= i < j < |t| && t[i] == t[j] {
      SumRemove(_ => 0.0, t, j);
      var t' := t[..j] + t[j + 1..];
      assert t'[i] == t[j];
      assert t[j] in multiset(t');
      assert multiset(s)[t[j]] >= 2;
      OncePerPlace(s, t[j]);
    }
  }

  lemma {:induction false} OncePerPlace(s: seq<string>, x: string)
    requires Distinct(s)
    ensures multiset(s)[x] <= 1
  {
    if s != [] {
      var last := |s| - 1;
      assert s == s[..last] + [s[last]];
      OncePerPlace(s[..last], x);
      if s[last] == x { assert x !in s[..last]; assert x !in multiset(s[..last]); }
    }
  }

  lemma {:induction false} PaidPrefix(f: string -> real, order: seq<string>, k: nat, q: nat)
    requires Distinct(order) && k <= |order|
    requires FreeFrom(CostsOf(f, order), q)
    ensures |set x | 0 <= x < k && x < q :: order[x]| == if k <= q then k else q
  {
    var now := set x | 0 <= x < k && x < q :: order[x];
    if k == 0 {
      assert now == {};
    } else {
      PaidPrefix(f, order, k - 1, q);
      var before := set x | 0 <= x < k - 1 && x < q :: order[x];
      if k <= q { assert now == before + {order[k - 1]}; } else { assert now == before; }
    }
  }

  lemma {:induction false} FindFree(p: seq<real>, k: nat) returns (q: nat)
    requires Descending(p) && k <= |p| && forall j | k <= j < |p| :: p[j] == 0.0
    ensures FreeFrom(p, q)
  {
    if k > 0 && p[k - 1] == 0.0 { q := FindFree(p, k - 1); } else { q := k; }
  }

  lemma {:induction false} PaidFiles(f: string -> real, candidates: seq<string>, order: seq<string>, q: nat)
    requires multiset(order) == multiset(candidates) && Distinct(candidates) && FreeFrom(CostsOf(f, order), q)
    ensures |set path | path in candidates && f(path) > 0.0| == q
  {
    DistinctByMultiset(candidates, order);
    PaidPrefix(f, order, |order|, q);
    var p := CostsOf(f, order);
    var paid := set path | path in candidates && f(path) > 0.0;
    var prefix := set x | 0 <= x < |order| && x < q :: order[x];
    forall path ensures path in candidates <==> path in order {
      assert path in candidates <==> path in multiset(candidates);
      assert path in order <==> path in multiset(order);
    }
    forall path | path in paid ensures path in prefix {
      var x :| 0 <= x < |order| && order[x] == path;
      assert p[x] > 0.0;
    }
    forall path | path in prefix ensures path in paid {
      var x :| 0 <= x < |order| && x < q && order[x] == path;
      assert p[x] > 0.0;
    }
    assert paid == prefix;
  }

  lemma {:induction false} RealisedEmptyIff(
      f: string -> real, shards: seq<seq<string>>, order: seq<string>, a: seq<nat>, q: nat)
    requires Realises(f, shards, order, a) && shards != [] && FreeFrom(CostsOf(f, order), q)
    ensures (forall i | 0 <= i < |shards| :: shards[i] != []) <==> |order| >= |shards| && q + 1 >= |shards|
  {
    NoShardEmpty(CostsOf(f, order), a, |shards|, q);
    if forall i | 0 <= i < |shards| :: shards[i] != [] {
      forall i | 0 <= i < |shards| ensures Count(a, i, |a|) > 0 { assert Holds(f, shards[i], order, a, i); }
    } else {
      var i :| 0 <= i < |shards| && shards[i] == [];
      assert Holds(f, shards[i], order, a, i);
      assert !NoneEmpty(a, |shards|);
    }
  }

  /**
   * An empty shard would run its whole tier; the files being enough rules it out exactly where all but one shard can
   * have a file of positive cost.
   */
  lemma {:induction false} PlanHasNoEmptyShardIff(candidates: seq<string>, costs: map<string, real>, count: nat)
    requires count > 0 && Priced(costs) && Distinct(candidates)
    ensures (forall i | 0 <= i < count :: PlanOf(candidates, costs, count)[i] != [])
       <==> |candidates| >= count
            && |set path | path in candidates && Price(candidates, costs)(path) > 0.0| >= count - 1
  {
    var f := Price(candidates, costs);
    var order, a := PlanRealises(candidates, costs, count);
    var q := FindFree(CostsOf(f, order), |order|);
    PaidFiles(f, candidates, order, q);
    RealisedEmptyIff(f, PlanOf(candidates, costs, count), order, a, q);
    assert |candidates| == |multiset(candidates)| == |multiset(order)| == |order|;
  }

  /** Two files of no cost over two shards, all of which the caller lets through: one shard gets both. */
  lemma {:induction false} FreeFilesLeaveAShardEmpty()
    ensures var candidates, costs := ["a.py", "b.py"], map["a.py" := 0.0, "b.py" := 0.0];
      && Priced(costs) && Distinct(candidates) && |candidates| >= 2
      && exists i | 0 <= i < 2 :: PlanOf(candidates, costs, 2)[i] == []
  {
    var candidates, costs := ["a.py", "b.py"], map["a.py" := 0.0, "b.py" := 0.0];
    PlanHasNoEmptyShardIff(candidates, costs, 2);
    assert (set path | path in candidates && Price(candidates, costs)(path) > 0.0) == {};
  }
}
