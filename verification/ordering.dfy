/** Python's built-in `sorted` and string order, shared by the models of the programs that use them. */
module Ordering {

  ghost predicate TotalOrder<T(!new)>(le: (T, T) -> bool) {
    && (forall x, y :: le(x, y) || le(y, x))
    && (forall x, y :: le(x, y) && le(y, x) ==> x == y)
    && (forall x, y, z :: le(x, y) && le(y, z) ==> le(x, z))
  }

  ghost predicate Sorted<T>(le: (T, T) -> bool, s: seq<T>) {
    forall i, j | 0 <= i < j < |s| :: le(s[i], s[j])
  }

  ghost predicate Distinct<T>(s: seq<T>) {
    forall i, j | 0 <= i < j < |s| :: s[i] != s[j]
  }

  function Insert<T(!new)>(le: (T, T) -> bool, x: T, s: seq<T>): (r: seq<T>)
    requires TotalOrder(le) && Sorted(le, s)
    ensures Sorted(le, r) && multiset(r) == multiset(s) + multiset{x}
  {
    if s == [] then [x]
    else if le(x, s[0]) then
      [x] + s
    else
      assert s == [s[0]] + s[1..];
      var rest := Insert(le, x, s[1..]);
      RestSorted(le, s[0], rest, x, s[1..]);
      [s[0]] + rest
  }

  lemma {:induction false} RestSorted<T(!new)>(le: (T, T) -> bool, first: T, rest: seq<T>, x: T, s: seq<T>)
    requires TotalOrder(le) && Sorted(le, rest) && multiset(rest) == multiset(s) + multiset{x}
    requires !le(x, first) && forall i | 0 <= i < |s| :: le(first, s[i])
    ensures Sorted(le, [first] + rest)
  {
    forall j | 0 <= j < |rest| ensures le(first, rest[j]) {
      assert rest[j] in multiset(rest);
      assert rest[j] == x || rest[j] in s;
    }
  }

  /** `sorted(s, key=...)` for a key that orders its elements totally. */
  function Sort<T(!new)>(le: (T, T) -> bool, s: seq<T>): (r: seq<T>)
    requires TotalOrder(le)
    ensures Sorted(le, r) && multiset(r) == multiset(s)
  {
    if s == [] then []
    else
      assert s == [s[0]] + s[1..];
      Insert(le, s[0], Sort(le, s[1..]))
  }

  lemma {:induction false} FirstOut<T>(s: seq<T>)
    requires s != []
    ensures multiset(s[1..]) == multiset(s) - multiset{s[0]}
  {
    assert s == [s[0]] + s[1..];
  }

  lemma {:induction false} LeastFirst<T(!new)>(le: (T, T) -> bool, s: seq<T>, t: seq<T>)
    requires TotalOrder(le) && Sorted(le, s) && multiset(s) == multiset(t) && s != [] && t != []
    ensures le(s[0], t[0])
  {
    assert t[0] in multiset(s);
  }

  /** A multiset has one sorted arrangement, so `sorted` cannot see its input's order. */
  lemma {:induction false} SortedUnique<T(!new)>(le: (T, T) -> bool, s: seq<T>, t: seq<T>)
    requires TotalOrder(le) && Sorted(le, s) && Sorted(le, t) && multiset(s) == multiset(t)
    ensures s == t
  {
    if s == [] {
      assert multiset(t) == multiset{};
      assert |t| == |multiset(t)|;
    } else {
      assert |t| == |multiset(t)| == |multiset(s)| == |s|;
      LeastFirst(le, s, t);
      LeastFirst(le, t, s);
      FirstOut(s);
      FirstOut(t);
      SortedUnique(le, s[1..], t[1..]);
      assert s == [s[0]] + s[1..] && t == [t[0]] + t[1..];
    }
  }

  /** Python's order on strings: the first differing code point decides, and a proper prefix comes first. */
  predicate StringLeq(a: string, b: string) {
    a == [] || (b != [] && (a[0] < b[0] || (a[0] == b[0] && StringLeq(a[1..], b[1..]))))
  }

  ghost predicate FirstDiffers(a: string, b: string, k: nat) {
    k < |a| && k < |b| && a[..k] == b[..k] && a[k] < b[k]
  }

  /** Said of the whole strings. */
  lemma {:induction false} StringLeqIff(a: string, b: string)
    ensures StringLeq(a, b) <==> a <= b || exists k :: FirstDiffers(a, b, k)
  {
    if a != [] && b != [] {
      var a', b' := a[1..], b[1..];
      assert a == [a[0]] + a' && b == [b[0]] + b';
      if a[0] < b[0] { assert FirstDiffers(a, b, 0); }
      if a[0] == b[0] {
        StringLeqIff(a', b');
        forall k: nat | FirstDiffers(a', b', k) ensures FirstDiffers(a, b, k + 1) {
          assert a[..k + 1] == [a[0]] + a'[..k] && b[..k + 1] == [b[0]] + b'[..k];
        }
        assert a' <= b' ==> a <= b;
      }
      forall k: nat | FirstDiffers(a, b, k) && k > 0 ensures a[0] == b[0] && FirstDiffers(a', b', k - 1) {
        assert a[..k][0] == b[..k][0] && a[..k][1..] == b[..k][1..];
        assert a'[..k - 1] == a[..k][1..] && b'[..k - 1] == b[..k][1..];
      }
    }
  }

  lemma StringLeqTotal(a: string, b: string)
    ensures StringLeq(a, b) || StringLeq(b, a)
  {
  }

  lemma {:induction false} StringLeqAntisymmetric(a: string, b: string)
    requires StringLeq(a, b) && StringLeq(b, a)
    ensures a == b
  {
    if a != [] && b != [] {
      StringLeqAntisymmetric(a[1..], b[1..]);
      assert a == [a[0]] + a[1..] && b == [b[0]] + b[1..];
    }
  }

  lemma StringLeqTransitive(a: string, b: string, c: string)
    requires StringLeq(a, b) && StringLeq(b, c)
    ensures StringLeq(a, c)
  {
  }

  lemma {:induction false} StringOrder()
    ensures TotalOrder(StringLeq)
  {
    forall a, b ensures StringLeq(a, b) || StringLeq(b, a) { StringLeqTotal(a, b); }
    forall a, b ensures StringLeq(a, b) && StringLeq(b, a) ==> a == b {
      if StringLeq(a, b) && StringLeq(b, a) { StringLeqAntisymmetric(a, b); }
    }
    forall a, b, c ensures StringLeq(a, b) && StringLeq(b, c) ==> StringLeq(a, c) {
      if StringLeq(a, b) && StringLeq(b, c) { StringLeqTransitive(a, b, c); }
    }
  }

  // ----- `sorted` over a set

  ghost function Enumerated<T>(s: set<T>): (r: seq<T>)
    ensures multiset(r) == multiset(s)
  {
    if s == {} then []
    else
      var x :| x in s;
      Enumerated(s - {x}) + [x]
  }

  lemma {:induction false} TwiceCounted<T>(s: seq<T>, i: nat, j: nat)
    requires i < j < |s| && s[i] == s[j]
    ensures multiset(s)[s[j]] >= 2
  {
    var t := s[..j] + s[j + 1..];
    assert s == s[..j] + [s[j]] + s[j + 1..];
    assert multiset(s) == multiset(t) + multiset{s[j]};
    assert t[i] == s[j];
    assert s[j] in multiset(t);
  }

  lemma {:induction false} EnumeratedDistinct<T>(s: set<T>, r: seq<T>)
    requires multiset(r) == multiset(s)
    ensures Distinct(r)
  {
    forall i, j | 0 <= i < j < |r| ensures r[i] != r[j] {
      if r[i] == r[j] { TwiceCounted(r, i, j); }
    }
  }

  ghost function SortedMembers<T(!new)>(le: (T, T) -> bool, s: set<T>): (r: seq<T>)
    requires TotalOrder(le)
    ensures (forall x :: x in r <==> x in s) && Distinct(r) && Sorted(le, r) && multiset(r) == multiset(s)
  {
    var r := Sort(le, Enumerated(s));
    assert forall x :: x in r <==> x in multiset(r);
    EnumeratedDistinct(s, r);
    r
  }

  method SortMembers<T(!new,==)>(le: (T, T) -> bool, s: set<T>) returns (r: seq<T>)
    requires TotalOrder(le)
    ensures r == SortedMembers(le, s)
  {
    var left, found: seq<T> := s, [];
    while left != {}
      invariant multiset(found) + multiset(left) == multiset(s)
      decreases |left|
    {
      var x :| x in left;
      found, left := found + [x], left - {x};
    }
    r := Sort(le, found);
    SortedUnique(le, r, SortedMembers(le, s));
  }

  ghost function SortedSet(s: set<string>): (r: seq<string>)
    ensures (forall x :: x in r <==> x in s) && Distinct(r)
  {
    StringOrder();
    SortedMembers(StringLeq, s)
  }

  method SortSet(s: set<string>) returns (r: seq<string>)
    ensures r == SortedSet(s)
  {
    StringOrder();
    r := SortMembers(StringLeq, s);
  }
}
