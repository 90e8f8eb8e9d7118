/** Where pytest supplies a fixture: an algebra of nested scopes, and which definition answers a request. */
module FixtureScopes {
  import opened Results

  /** A path below the estate's root, part by part. */
  type Path = seq<string>

  /** One place a test may stand: a module, and the classes it is nested in there. */
  datatype Place = Place(file: Path, classes: seq<string>)

  datatype Scope = Scope(path: Path, subtree: bool, classes: seq<string>) {

    /** A directory's scope is no class's. */
    predicate Valid() { subtree ==> classes == [] }

    predicate Holds(t: Place) {
      if subtree then path <= t.file else t.file == path && classes <= t.classes
    }

    /** A test of the estate it holds: one in a file below a directory, never at the directory's own path. */
    predicate Serves(t: Place) {
      Holds(t) && (subtree ==> path != t.file)
    }

    predicate Meets(other: Scope) {
      if subtree && other.subtree then other.path <= path || path <= other.path
      else if subtree || other.subtree then
        var inner, outer := if subtree then other else this, if subtree then this else other;
        outer.path <= inner.path
      else
        var shorter := if |classes| < |other.classes| then |classes| else |other.classes|;
        path == other.path && classes[..shorter] == other.classes[..shorter]
    }

    /** A module or class beats any directory, a deeper class or directory a shallower one. */
    function Rank(): (nat, nat) {
      if subtree then (0, |path|) else (1, |classes|)
    }

    predicate NearerThan(other: Scope) {
      Rank().0 > other.Rank().0 || (Rank().0 == other.Rank().0 && Rank().1 > other.Rank().1)
    }

    function Narrower(other: Scope): Scope {
      if other.NearerThan(this) then other else this
    }

    predicate Covers(other: Scope) {
      if other.subtree then subtree && path <= other.path else Holds(Place(other.path, other.classes))
    }
  }

  // ----- the algebra is the one of sets of places

  /** No path is a directory's and a module's both. */
  ghost predicate Apart(a: Scope, b: Scope) {
    a.subtree != b.subtree ==> a.path != b.path
  }

  lemma {:induction false} MeetsIff(a: Scope, b: Scope)
    requires a.Valid() && b.Valid()
    ensures a.Meets(b) <==> exists t :: a.Holds(t) && b.Holds(t)
    ensures Apart(a, b) ==> (a.Meets(b) <==> exists t :: a.Serves(t) && b.Serves(t))
  {
    if a.Meets(b) {
      var n := a.Narrower(b);
      assert a.Holds(Place(n.path, n.classes)) && b.Holds(Place(n.path, n.classes));
      var file := if n.subtree then n.path + ["test.py"] else n.path;
      assert Apart(a, b) ==> a.Serves(Place(file, n.classes)) && b.Serves(Place(file, n.classes));
    } else if t :| a.Holds(t) && b.Holds(t) {
      BothHoldMeet(a, b, t);
    }
  }

  lemma {:induction false} BothHoldMeet(a: Scope, b: Scope, t: Place)
    requires a.Valid() && b.Valid() && a.Holds(t) && b.Holds(t)
    ensures a.Meets(b)
  {
    if a.subtree && b.subtree {
      assert a.path == t.file[..|a.path|] && b.path == t.file[..|b.path|];
    } else if !a.subtree && !b.subtree {
      assert a.classes == t.classes[..|a.classes|] && b.classes == t.classes[..|b.classes|];
    }
  }

  /** Of two scopes that meet, the narrower is where both reach. */
  lemma {:induction false} NarrowerIsBoth(a: Scope, b: Scope, t: Place)
    requires a.Valid() && b.Valid() && a.Meets(b)
    ensures a.Narrower(b).Holds(t) <==> a.Holds(t) && b.Holds(t)
  {
    if a.subtree == b.subtree && !a.subtree {
      var shorter := if |a.classes| < |b.classes| then |a.classes| else |b.classes|;
      assert a.classes[..|a.classes|] == a.classes && b.classes[..|b.classes|] == b.classes;
    }
  }

  lemma {:induction false} CoversIff(a: Scope, b: Scope)
    requires a.Valid() && b.Valid()
    ensures a.Covers(b) <==> forall t | b.Holds(t) :: a.Holds(t)
    ensures Apart(a, b) ==> (a.Covers(b) <==> forall t | b.Serves(t) :: a.Serves(t))
  {
    HeldIff(a, b);
    if !a.Covers(b) && Apart(a, b) {
      var name := if |a.path| > 0 then a.path[|a.path| - 1] + "x" else "x";
      var t := if b.subtree then Place(b.path + [name], []) else Place(b.path, b.classes);
      assert b.Serves(t) && !a.Serves(t) by {
        if b.subtree { BesideHolds(a, b, name); }
      }
    }
  }

  /** A file of a directory that the other scope does not cover, under a name the other's path does not end in. */
  lemma {:induction false} BesideHolds(a: Scope, b: Scope, name: string)
    requires b.subtree && !a.Covers(b) && (a.path == [] || a.path[|a.path| - 1] != name)
    ensures !a.Holds(Place(b.path + [name], []))
  {
    var file, n := b.path + [name], |a.path|;
    if n <= |b.path| { assert file[..n] == b.path[..n]; }
  }

  lemma {:induction false} HeldIff(a: Scope, b: Scope)
    requires a.Valid() && b.Valid()
    ensures a.Covers(b) <==> forall t | b.Holds(t) :: a.Holds(t)
  {
    if a.Covers(b) {
    } else if b.subtree && !a.subtree {
      // A directory holds a module the other is not.
      var t := Place(if a.path == b.path then b.path + [""] else b.path, []);
      assert b.Holds(t) && !a.Holds(t);
    } else {
      var t := Place(b.path, b.classes);
      assert b.Holds(t) && !a.Holds(t);
    }
  }

  /**
   * Of two scopes that meet, one is nearer than the other exactly where it holds fewer tests, all of them the other's.
   */
  lemma {:induction false} NearerIff(a: Scope, b: Scope)
    requires a.Valid() && b.Valid() && a.Meets(b)
    ensures a.NearerThan(b) <==> (forall t | a.Holds(t) :: b.Holds(t)) && exists t :: b.Holds(t) && !a.Holds(t)
  {
    HeldIff(a, b);
    HeldIff(b, a);
    if a.subtree == b.subtree && !a.subtree {
      assert a.classes[..|a.classes|] == a.classes && b.classes[..|b.classes|] == b.classes;
    }
  }

  /** Rank orders the scopes a place is supplied from: no two of them tie. */
  lemma {:induction false} EqualRankEqual(a: Scope, b: Scope, t: Place)
    requires a.Valid() && b.Valid() && a.Holds(t) && b.Holds(t) && a.Rank() == b.Rank()
    ensures a == b
  {
    if a.subtree {
      assert a.path == t.file[..|a.path|] == b.path;
    } else {
      assert a.classes == t.classes[..|a.classes|] == b.classes;
    }
  }

  // ----- which definition a request is answered with

  datatype Supply = Supply(scope: Scope, name: string)

  /**
   * One name asked for: from one test's own place, or from anywhere a fixture is supplied; `origin` is the asking
   * fixture.
   */
  datatype Request = Request(name: string, scope: Scope, point: bool, origin: Option<nat>)

  /** Each fixture, by its own key, and the places it is supplied under which names. */
  type Supplies = map<nat, seq<Supply>>

  ghost predicate Valid(scopes: Supplies, requests: seq<Request>) {
    && (forall d, s | d in scopes && s in scopes[d] :: s.scope.Valid())
    && forall r | r in requests :: r.scope.Valid() && (r.point ==> !r.scope.subtree)
  }

  predicate Reaches(scope: Scope, r: Request) {
    if r.point then scope.Holds(Place(r.scope.path, r.scope.classes)) else scope.Meets(r.scope)
  }

  /**
   * Whether another fixture of the request's name, nearer than `scope`, supplies everywhere both `scope` and the
   * request reach.
   */
  predicate Shadowed(scopes: Supplies, definition: nat, scope: Scope, r: Request) {
    exists owner | owner in scopes ::
      && owner != definition && r.origin != Some(owner)
      && exists s | s in scopes[owner] ::
           s.name == r.name && s.scope.Covers(scope.Narrower(r.scope)) && s.scope.NearerThan(scope)
  }

  predicate Answers(scopes: Supplies, definition: nat, s: Supply, r: Request) {
    r.origin != Some(definition) && s.name == r.name && Reaches(s.scope, r) && !Shadowed(scopes, definition, s.scope, r)
  }

  method Consumed(scopes: Supplies, requests: seq<Request>, definition: nat, configured: set<string>)
    returns (consumed: bool)
    requires definition in scopes
    ensures consumed <==>
      || (exists s | s in scopes[definition] :: s.name in configured)
      || exists r, s | r in requests && s in scopes[definition] :: Answers(scopes, definition, s, r)
  {
    var supplied := scopes[definition];
    if exists s | s in supplied :: s.name in configured { return true; }
    for i := 0 to |requests|
      invariant forall r, s | r in requests[..i] && s in supplied :: !Answers(scopes, definition, s, r)
    {
      var r := requests[i];
      assert requests[..i + 1] == requests[..i] + [r];
      if r.origin == Some(definition) { continue; }
      for j := 0 to |supplied|
        invariant forall s | s in supplied[..j] :: !Answers(scopes, definition, s, r)
      {
        assert supplied[..j + 1] == supplied[..j] + [supplied[j]];
        if Answers(scopes, definition, supplied[j], r) {
          assert r in requests && supplied[j] in supplied;
          return true;
        }
      }
      assert supplied[..|supplied|] == supplied;
    }
    assert requests[..|requests|] == requests;
    return false;
  }

  // ----- what pytest does at one place

  /** The places a request is made from. */
  predicate MadeFrom(r: Request, t: Place) {
    if r.point then t == Place(r.scope.path, r.scope.classes) else r.scope.Holds(t)
  }

  /** At one place pytest hands over the nearest supplier of the name, the asking fixture itself passed over. */
  ghost predicate NearestAt(scopes: Supplies, definition: nat, s: Supply, r: Request, t: Place) {
    && s.scope.Holds(t)
    && forall owner, other | owner in scopes && owner != definition && r.origin != Some(owner)
      && other in scopes[owner] && other.name == r.name && other.scope.Holds(t) ::
         !other.scope.NearerThan(s.scope)
  }

  lemma {:induction false} Longer(names: seq<string>) returns (name: string)
    ensures |name| > 0 && forall n | n in names :: |n| < |name|
  {
    if names == [] {
      name := "x";
    } else {
      var rest := Longer(names[1..]);
      name := rest + names[0];
    }
  }

  ghost function LastParts(suppliers: seq<Supply>): seq<string> {
    if suppliers == [] then []
    else
      var path := suppliers[0].scope.path;
      (if path == [] then [] else [path[|path| - 1]]) + LastParts(suppliers[1..])
  }

  lemma LastPartsHold(suppliers: seq<Supply>)
    ensures forall s | s in suppliers && s.scope.path != [] :: s.scope.path[|s.scope.path| - 1] in LastParts(suppliers)
  {
  }

  ghost function AllOf(scopes: Supplies): (all: seq<Supply>)
    ensures forall d, s | d in scopes && s in scopes[d] :: s in all
    decreases |scopes|
  {
    if scopes == map[] then []
    else
      var d :| d in scopes;
      var rest := scopes - {d};
      assert forall d', s | d' in scopes && d' != d && s in scopes[d'] :: d' in rest && s in rest[d'];
      scopes[d] + AllOf(rest)
  }

  /** A place of `where` that no scope reaches but those covering all of `where`. */
  lemma {:induction false} UncoveredPlace(where: Scope, scopes: Supplies) returns (t: Place)
    requires where.Valid() && forall d, s | d in scopes && s in scopes[d] :: s.scope.Valid()
    ensures where.Holds(t)
    ensures forall d, s | d in scopes && s in scopes[d] && s.scope.Holds(t) :: s.scope.Covers(where)
  {
    if where.subtree {
      var all := AllOf(scopes);
      var name := Longer(LastParts(all));
      LastPartsHold(all);
      t := Place(where.path + [name], []);
      forall d, s | d in scopes && s in scopes[d] && s.scope.Holds(t) ensures s.scope.Covers(where) {
        assert s in all;
        assert s.scope.path != t.file;
        assert s.scope.path == t.file[..|s.scope.path|];
        assert |s.scope.path| <= |where.path|;
        assert t.file[..|s.scope.path|] == where.path[..|s.scope.path|];
      }
    } else {
      t := Place(where.path, where.classes);
    }
  }

  /** A request consumes a fixture exactly where, at some place it is made from, pytest would hand over that fixture. */
  lemma {:induction false} AnswersIff(scopes: Supplies, requests: seq<Request>, definition: nat, s: Supply, r: Request)
    requires Valid(scopes, requests) && definition in scopes && s in scopes[definition] && r in requests
    ensures Answers(scopes, definition, s, r) <==>
      r.origin != Some(definition) && s.name == r.name && exists t ::
        MadeFrom(r, t) && NearestAt(scopes, definition, s, r, t)
  {
    if Answers(scopes, definition, s, r) {
      var t := AnsweredPlace(scopes, requests, definition, s, r);
    } else if r.origin != Some(definition) && s.name == r.name {
      if t :| MadeFrom(r, t) && NearestAt(scopes, definition, s, r, t) {
        NearestUnshadowed(scopes, requests, definition, s, r, t);
      }
    }
  }

  lemma {:induction false} NearestUnshadowed(
      scopes: Supplies, requests: seq<Request>, definition: nat, s: Supply, r: Request, t: Place)
    requires Valid(scopes, requests) && definition in scopes && s in scopes[definition] && r in requests
    requires MadeFrom(r, t) && NearestAt(scopes, definition, s, r, t)
    ensures Reaches(s.scope, r) && !Shadowed(scopes, definition, s.scope, r)
  {
    MeetsIff(s.scope, r.scope);
    NarrowerIsBoth(s.scope, r.scope, t);
    var where := s.scope.Narrower(r.scope);
    forall owner, o | owner in scopes && owner != definition && r.origin != Some(owner) && o in scopes[owner]
      && o.name == r.name
      ensures !(o.scope.Covers(where) && o.scope.NearerThan(s.scope))
    {
      if o.scope.Covers(where) { CoversIff(o.scope, where); assert o.scope.Holds(t); }
    }
  }

  lemma {:induction false} AnsweredPlace(
      scopes: Supplies, requests: seq<Request>, definition: nat, s: Supply, r: Request) returns (t: Place)
    requires Valid(scopes, requests) && definition in scopes && s in scopes[definition] && r in requests
    requires Answers(scopes, definition, s, r)
    ensures MadeFrom(r, t) && NearestAt(scopes, definition, s, r, t)
  {
    var where := s.scope.Narrower(r.scope);
    if r.point {
      t := Place(r.scope.path, r.scope.classes);
      MeetsIff(s.scope, r.scope);
      NarrowerIsBoth(s.scope, r.scope, t);
    } else {
      t := UncoveredPlace(where, scopes);
      NarrowerIsBoth(s.scope, r.scope, t);
    }
    forall owner, other | owner in scopes && owner != definition && r.origin != Some(owner) && other in scopes[owner]
      && other.name == r.name && other.scope.Holds(t)
      ensures !other.scope.NearerThan(s.scope)
    {
      assert other.scope.Covers(where) by {
        if r.point { PointCovers(other.scope, s.scope, r, t); }
      }
    }
  }

  lemma {:induction false} PointCovers(other: Scope, scope: Scope, r: Request, t: Place)
    requires other.Valid() && scope.Valid() && r.scope.Valid() && r.point && !r.scope.subtree
    requires t == Place(r.scope.path, r.scope.classes) && scope.Holds(t) && other.Holds(t)
    ensures other.Covers(scope.Narrower(r.scope))
  {
    if !r.scope.NearerThan(scope) {
      EqualRankEqual(scope, r.scope, t);
    }
  }

  /**
   * A test's own request consumes a fixture exactly where one of its scopes has the greatest rank of all that supply
   * the name there.
   */
  lemma {:induction false} TestTakesTheNearest(scopes: Supplies, requests: seq<Request>, definition: nat, r: Request)
    requires Valid(scopes, requests) && definition in scopes && r in requests && r.point && r.origin == None
    ensures var t := Place(r.scope.path, r.scope.classes);
      (exists s | s in scopes[definition] :: Answers(scopes, definition, s, r))
      <==> exists s | s in scopes[definition] && s.name == r.name && s.scope.Holds(t) ::
             forall owner, other
               | owner in scopes && other in scopes[owner] && other.name == r.name && other.scope.Holds(t) ::
               !other.scope.NearerThan(s.scope)
  {
    var t := Place(r.scope.path, r.scope.classes);
    forall s | s in scopes[definition]
      ensures Answers(scopes, definition, s, r) <==> s.name == r.name && NearestAt(scopes, definition, s, r, t)
    {
      AnswersIff(scopes, requests, definition, s, r);
    }
    if s :| s in scopes[definition] && s.name == r.name && NearestAt(scopes, definition, s, r, t) {
      var own := NearestOwn(scopes[definition], r.name, t, s);
    }
  }

  lemma {:induction false} NearestOwn(supplied: seq<Supply>, name: string, t: Place, from: Supply) returns (own: Supply)
    requires from in supplied && from.name == name && from.scope.Holds(t)
    ensures own in supplied && own.name == name && own.scope.Holds(t) && !from.scope.NearerThan(own.scope)
    ensures forall other | other in supplied && other.name == name && other.scope.Holds(t) ::
      !other.scope.NearerThan(own.scope)
  {
    own := from;
    for i := 0 to |supplied|
      invariant own in supplied && own.name == name && own.scope.Holds(t) && !from.scope.NearerThan(own.scope)
      invariant forall j | 0 <= j < i && supplied[j].name == name && supplied[j].scope.Holds(t) ::
        !supplied[j].scope.NearerThan(own.scope)
    {
      if supplied[i].name == name && supplied[i].scope.Holds(t) && supplied[i].scope.NearerThan(own.scope) {
        own := supplied[i];
      }
    }
  }
}
