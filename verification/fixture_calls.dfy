/**
 * Fixtures asked for by name in code a test or a fixture reaches by calling it, over a call graph that may be cyclic.
 */
module FixtureCalls {
  import opened FixtureScopes
  import opened Ordering
  import opened Results

  /** Where a request stands: everything it records but its name. */
  datatype Standing = Standing(scope: Scope, point: bool, origin: Option<nat>)

  datatype Key = Key(node: nat, standing: Standing)

  /** The names one function asks for, up to the first spelling that cannot be read, and that one's refusal. */
  datatype Asked = Asked(names: seq<string>, refusal: Option<string>)

  /** A refusal recorded of the module it stands in. */
  datatype Unfollowed = Unfollowed(path: string, refusal: string)

  /** The functions of the estate, the module of each, what each calls and what it asks for. */
  datatype Code = Code(calls: map<nat, seq<nat>>, asks: map<nat, Asked>, paths: map<nat, string>) {
    predicate Valid() {
      calls.Keys == asks.Keys == paths.Keys && forall n | n in calls :: forall c | c in calls[n] :: c in calls
    }
  }

  function RefusalOf(code: Code, n: nat): seq<Unfollowed>
    requires code.Valid() && n in code.calls
  {
    if code.asks[n].refusal.None? then [] else [Unfollowed(code.paths[n], code.asks[n].refusal.value)]
  }

  function RequestsOf(names: seq<string>, s: Standing): seq<Request> {
    seq(|names|, i requires 0 <= i < |names| => Request(names[i], s.scope, s.point, s.origin))
  }

  /** Every request the nodes reached record, in the order they were reached. */
  ghost function Recorded(code: Code, order: seq<Key>): seq<Request>
    requires code.Valid() && forall k | k in order :: k.node in code.calls
  {
    if order == [] then []
    else
      var last := order[|order| - 1];
      Recorded(code, order[..|order| - 1]) + RequestsOf(code.asks[last.node].names, last.standing)
  }

  /** Every refusal the nodes reached record, in the order they were reached. */
  ghost function Refusals(code: Code, order: seq<Key>): seq<Unfollowed>
    requires code.Valid() && forall k | k in order :: k.node in code.calls
  {
    if order == [] then []
    else
      var last := order[|order| - 1];
      Refusals(code, order[..|order| - 1]) + RefusalOf(code, last.node)
  }

  ghost predicate IsPath(code: Code, path: seq<nat>, a: nat, b: nat) {
    && path != [] && path[0] == a && path[|path| - 1] == b
    && forall i | 0 <= i < |path| - 1 :: path[i] in code.calls && path[i + 1] in code.calls[path[i]]
  }

  ghost predicate Runs(code: Code, a: nat, b: nat) {
    exists path :: IsPath(code, path, a, b)
  }

  lemma {:induction false} RunsItself(code: Code, a: nat)
    ensures Runs(code, a, a)
  {
    assert IsPath(code, [a], a, a);
  }

  lemma {:induction false} CallRuns(code: Code, a: nat, c: nat, b: nat)
    requires a in code.calls && c in code.calls[a] && Runs(code, c, b)
    ensures Runs(code, a, b)
  {
    var path :| IsPath(code, path, c, b);
    assert IsPath(code, [a] + path, a, b);
  }

  /** The functions one standing has yet to reach. */
  ghost function Left(code: Code, reached: set<Key>, s: Standing): set<nat> {
    set n | n in code.calls && Key(n, s) !in reached
  }

  lemma {:induction false} LeftShrinks(code: Code, before: set<Key>, key: Key, after: set<Key>)
    requires key !in before && key.node in code.calls && before + {key} <= after
    ensures Left(code, after, key.standing) < Left(code, before, key.standing)
  {
    assert key.node in Left(code, before, key.standing);
  }

  ghost predicate ReachedAll(nodes: seq<nat>, s: Standing, reached: set<Key>) {
    forall n | n in nodes :: Key(n, s) in reached
  }

  lemma {:induction false} ReachedOneMore(nodes: seq<nat>, i: nat, s: Standing, before: set<Key>, now: set<Key>)
    requires i < |nodes| && ReachedAll(nodes[..i], s, before) && before <= now && Key(nodes[i], s) in now
    ensures ReachedAll(nodes[..i + 1], s, now)
  {
    assert nodes[..i + 1] == nodes[..i] + [nodes[i]];
  }

  /** Every callee of the node stands reached beside it. */
  ghost predicate Closed(code: Code, reached: set<Key>, k: Key)
    requires k.node in code.calls
  {
    ReachedAll(code.calls[k.node], k.standing, reached)
  }

  /** What is newly reached is what the node runs, for one standing, and closed but for what is still open. */
  ghost predicate Grown(code: Code, before: set<Key>, now: set<Key>, from: Key, open: set<Key>) {
    forall k | k in now && k !in before ::
      && k.standing == from.standing && Runs(code, from.node, k.node)
      && k.node in code.calls && (k in open || Closed(code, now, k))
  }

  lemma {:induction false} GrowthBegins(code: Code, before: set<Key>, key: Key)
    requires key.node in code.calls
    ensures Grown(code, before, before + {key}, key, {key})
  {
    RunsItself(code, key.node);
  }

  lemma {:induction false} GrowsOn(code: Code, before: set<Key>, mid: set<Key>, now: set<Key>, key: Key, callee: nat)
    requires key.node in code.calls && callee in code.calls[key.node] && mid <= now
    requires Grown(code, before, mid, key, {key}) && Grown(code, mid, now, Key(callee, key.standing), {})
    ensures Grown(code, before, now, key, {key})
  {
    forall k | k in now && k !in mid ensures Runs(code, key.node, k.node) {
      CallRuns(code, key.node, callee, k.node);
    }
  }

  class Asker {
    const code: Code
    var reached: set<Key>
    var requests: seq<Request>
    var unfollowed: seq<Unfollowed>
    ghost var order: seq<Key>

    constructor (code: Code)
      requires code.Valid()
      ensures this.code == code && Valid() && reached == {} && requests == [] && unfollowed == []
    {
      this.code, reached, requests, unfollowed, order := code, {}, [], [], [];
    }

    ghost predicate Valid()
      reads this
    {
      && code.Valid()
      && (forall k :: k in order <==> k in reached) && (forall k | k in reached :: k.node in code.calls)
      && Distinct(order)
      && requests == Recorded(code, order) && unfollowed == Refusals(code, order)
    }

    /** A node newly reached records what it asks for, and what of it cannot be read. */
    method Record(key: Key)
      requires Valid() && key !in reached && key.node in code.calls
      modifies this
      ensures Valid() && reached == old(reached) + {key} && order == old(order) + [key]
      ensures requests == old(requests) + RequestsOf(code.asks[key.node].names, key.standing)
      ensures unfollowed == old(unfollowed) + RefusalOf(code, key.node)
    {
      requests := requests + RequestsOf(code.asks[key.node].names, key.standing);
      unfollowed := unfollowed + RefusalOf(code, key.node);
      reached, order := reached + {key}, order + [key];
      assert order[..|order| - 1] == old(order);
    }

    method Ask(node: nat, s: Standing)
      requires Valid() && node in code.calls
      modifies this
      ensures Valid() && old(reached) <= reached && old(order) <= order && Key(node, s) in reached
      ensures Grown(code, old(reached), reached, Key(node, s), {})
      decreases Left(code, reached, s)
    {
      var key := Key(node, s);
      if key in reached { return; }
      Record(key);
      GrowthBegins(code, old(reached), key);
      var callees := code.calls[node];
      for i := 0 to |callees|
        invariant Valid() && old(reached) + {key} <= reached && old(order) <= order
        invariant ReachedAll(callees[..i], s, reached)
        invariant Grown(code, old(reached), reached, key, {key})
      {
        ghost var before := reached;
        LeftShrinks(code, old(reached), key, reached);
        Ask(callees[i], s);
        GrowsOn(code, old(reached), before, reached, key, callees[i]);
        ReachedOneMore(callees, i, s, before, reached);
      }
      assert callees[..|callees|] == callees;
    }

    /** Every root in turn, over one shared record of what is reached. */
    method AskAll(roots: seq<Key>)
      requires Valid() && reached == {} && forall k | k in roots :: k.node in code.calls
      modifies this
      ensures Valid()
      ensures forall k :: k in reached <==> FromRoot(code, roots, k)
    {
      for i := 0 to |roots|
        invariant Valid() && Settled(code, roots, reached)
        invariant forall k | k in roots[..i] :: k in reached
      {
        ghost var before := reached;
        Ask(roots[i].node, roots[i].standing);
        assert roots[..i + 1] == roots[..i] + [roots[i]];
        SettledOn(code, roots, before, reached, i);
      }
      assert roots[..|roots|] == roots;
      ghost var now := reached;
      forall k | FromRoot(code, roots, k) ensures k in now { RootReaches(code, roots, now, k); }
    }
  }

  /** What some root of its standing runs. */
  ghost predicate FromRoot(code: Code, roots: seq<Key>, k: Key) {
    exists root | root in roots :: root.standing == k.standing && Runs(code, root.node, k.node)
  }

  ghost predicate Settled(code: Code, roots: seq<Key>, reached: set<Key>) {
    forall k | k in reached :: FromRoot(code, roots, k) && k.node in code.calls && Closed(code, reached, k)
  }

  lemma {:induction false} SettledOn(code: Code, roots: seq<Key>, before: set<Key>, now: set<Key>, i: nat)
    requires i < |roots| && before <= now && Settled(code, roots, before) && Grown(code, before, now, roots[i], {})
    ensures Settled(code, roots, now)
  {
    forall k | k in now && k !in before ensures FromRoot(code, roots, k) { assert roots[i] in roots; }
    forall k | k in before ensures Closed(code, now, k) { assert Closed(code, before, k); }
  }

  lemma {:induction false} RootReaches(code: Code, roots: seq<Key>, reached: set<Key>, k: Key)
    requires code.Valid() && Settled(code, roots, reached) && FromRoot(code, roots, k)
    requires forall root | root in roots :: root in reached
    ensures k in reached
  {
    var root :| root in roots && root.standing == k.standing && Runs(code, root.node, k.node);
    RunReached(code, roots, reached, root, k.node);
  }

  lemma {:induction false} RunReached(code: Code, roots: seq<Key>, reached: set<Key>, from: Key, to: nat)
    requires code.Valid() && Settled(code, roots, reached) && from in reached && Runs(code, from.node, to)
    ensures Key(to, from.standing) in reached
  {
    var path :| IsPath(code, path, from.node, to);
    PathReached(code, roots, reached, path, from, to);
  }

  lemma {:induction false} PathReached(
      code: Code, roots: seq<Key>, reached: set<Key>, path: seq<nat>, from: Key, to: nat)
    requires code.Valid() && Settled(code, roots, reached) && from in reached && IsPath(code, path, from.node, to)
    ensures Key(to, from.standing) in reached
    decreases |path|
  {
    if |path| > 1 {
      assert path[1] in code.calls[path[0]];
      assert Closed(code, reached, from);
      var rest := path[1..];
      forall i | 0 <= i < |rest| - 1 ensures rest[i] in code.calls && rest[i + 1] in code.calls[rest[i]] {
        var j := i + 1;
        assert rest[i] == path[j] && path[j] in code.calls && path[j + 1] in code.calls[path[j]];
      }
      PathReached(code, roots, reached, rest, Key(path[1], from.standing), to);
    }
  }

  /** A name is recorded for a standing exactly where a node reached so asks for it. */
  lemma {:induction false} RecordedIff(code: Code, order: seq<Key>, r: Request)
    requires code.Valid() && forall k | k in order :: k.node in code.calls
    ensures r in Recorded(code, order) <==>
      exists k | k in order :: k.standing == Standing(r.scope, r.point, r.origin) && r.name in code.asks[k.node].names
  {
    if order != [] {
      var before, last := order[..|order| - 1], order[|order| - 1];
      assert order == before + [last];
      RecordedIff(code, before, r);
      var own := RequestsOf(code.asks[last.node].names, last.standing);
      if r in own {
        var i :| 0 <= i < |own| && own[i] == r;
        assert r.name == code.asks[last.node].names[i];
      }
      if last.standing == Standing(r.scope, r.point, r.origin) && r.name in code.asks[last.node].names {
        var i :| 0 <= i < |code.asks[last.node].names| && code.asks[last.node].names[i] == r.name;
        assert own[i] == r;
      }
    }
  }

  /** A refusal is recorded exactly where a node reached holds a spelling that cannot be read. */
  lemma {:induction false} RefusedIff(code: Code, order: seq<Key>, u: Unfollowed)
    requires code.Valid() && forall k | k in order :: k.node in code.calls
    ensures u in Refusals(code, order) <==>
      exists k | k in order :: code.paths[k.node] == u.path && code.asks[k.node].refusal == Some(u.refusal)
  {
    if order != [] {
      var before, last := order[..|order| - 1], order[|order| - 1];
      assert order == before + [last];
      RefusedIff(code, before, u);
    }
  }
}
