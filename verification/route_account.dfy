/** The location nginx chooses for a URL, and the accounting that stands for it, handler by handler. */
module RouteAccount {
  import opened PublicRoutes
  import opened Results

  const CATCH_ALL := "/"

  const REASONS: seq<string> := ["/api/auth"]

  const INTERNAL: seq<string> := ["/api/revalidate"]

  datatype Location = Location(exact: bool, path: string, limits: seq<seq<string>>, refuses: bool) {
    /** Some `limit_req` line names a zone. */
    predicate Metered() {
      exists args | args in limits :: exists arg | arg in args :: "zone=" <= arg
    }
  }

  /** No path is the exact match of two locations: two are refused where the configuration is read. */
  ghost predicate DeclaredOnce(where: seq<Location>) {
    forall i, j | 0 <= i < j < |where| && where[i].exact && where[j].exact :: where[i].path != where[j].path
  }

  // ----- nginx's choice

  predicate Admits(one: Location, uri: string, coverage: bool) {
    !one.exact && one.path <= uri && !(coverage && one.path == CATCH_ALL)
  }

  /** The first longest prefix location; the catch-all is no coverage. */
  function Longest(where: seq<Location>, uri: string, coverage: bool): (best: Option<Location>)
    ensures best.Some? ==> best.value in where && Admits(best.value, uri, coverage)
  {
    if where == [] then None
    else
      var n := |where| - 1;
      var before := Longest(where[..n], uri, coverage);
      if Admits(where[n], uri, coverage) && (before == None || |before.value.path| < |where[n].path|) then
        Some(where[n])
      else before
  }

  function ExactMatch(where: seq<Location>, uri: string): (match_: Option<Location>)
    ensures match_.Some? ==> match_.value in where && match_.value.exact && match_.value.path == uri
    ensures match_ == None ==> forall l | l in where && l.exact :: l.path != uri
  {
    if where == [] then None
    else if where[0].exact && where[0].path == uri then Some(where[0])
    else ExactMatch(where[1..], uri)
  }

  function Chosen(where: seq<Location>, uri: string): Option<Location> {
    if ExactMatch(where, uri).Some? then ExactMatch(where, uri) else Longest(where, uri, false)
  }

  lemma {:induction false} LongestIs(where: seq<Location>, uri: string, coverage: bool)
    ensures match Longest(where, uri, coverage)
      case None => forall l | l in where :: !Admits(l, uri, coverage)
      case Some(best) => forall l | l in where && Admits(l, uri, coverage) :: |l.path| <= |best.path|
  {
    if where != [] {
      var n := |where| - 1;
      LongestIs(where[..n], uri, coverage);
      assert where == where[..n] + [where[n]];
      assert forall l :: l in where <==> l in where[..n] || l == where[n];
    }
  }

  method LongestPrefix(where: seq<Location>, uri: string, coverage: bool) returns (best: Option<Location>)
    ensures best == Longest(where, uri, coverage)
  {
    best := None;
    for i := 0 to |where|
      invariant best == Longest(where[..i], uri, coverage)
    {
      assert where[..i + 1][..i] == where[..i];
      if Admits(where[i], uri, coverage) && (best == None || |best.value.path| < |where[i].path|) {
        best := Some(where[i]);
      }
    }
    assert where[..|where|] == where;
  }

  method AnsweringLocation(uri: string, where: seq<Location>) returns (chosen: Option<Location>)
    ensures chosen == Chosen(where, uri)
  {
    for i := 0 to |where|
      invariant ExactMatch(where, uri) == ExactMatch(where[i..], uri)
    {
      if where[i].exact && where[i].path == uri { return Some(where[i]); }
    }
    chosen := LongestPrefix(where, uri, false);
  }

  // ----- the accounting

  datatype Fault = Forwarded | Unrecorded | Unmetered | Unreached | NoReason(prefix: string)

  datatype Verdict = Accounted | Charged(reason: string) | Faulty(fault: Fault)

  /** A handler judged by the exact match on its URL and the prefix that covers its head, where there are any. */
  function JudgedBy(internal: bool, match_: Option<Location>, covering: Option<Location>): Verdict {
    if internal && (match_ == None || !match_.value.refuses) then Faulty(Forwarded)
    else if match_.Some? && match_.value.refuses then if internal then Accounted else Faulty(Unrecorded)
    else if match_.Some? then if match_.value.Metered() then Accounted else Faulty(Unmetered)
    else if covering == None then Faulty(Unreached)
    else if covering.value.path in REASONS then Charged(covering.value.path)
    else Faulty(NoReason(covering.value.path))
  }

  function Judge(route: Route, where: seq<Location>): Verdict {
    var match_ := if route.dynamic then None else ExactMatch(where, route.url);
    JudgedBy(route.url in INTERNAL, match_, Longest(where, route.head, true))
  }

  datatype Finding = Finding(handler: nat, fault: Fault)

  /** One finding a handler at fault, in the handlers' order. */
  function FindingsOf(found: seq<Route>, where: seq<Location>): seq<Finding> {
    if found == [] then []
    else
      var n := |found| - 1;
      var verdict := Judge(found[n], where);
      FindingsOf(found[..n], where) + if verdict.Faulty? then [Finding(n, verdict.fault)] else []
  }

  /** `{one.path: one for one in where if one.exact}`. */
  method ExactByPath(where: seq<Location>) returns (exact: map<string, Location>)
    requires DeclaredOnce(where)
    ensures forall uri :: (if uri in exact then Some(exact[uri]) else None) == ExactMatch(where, uri)
  {
    exact := map[];
    for i := 0 to |where|
      invariant forall uri | uri in exact :: exact[uri] in where[..i] && exact[uri].exact && exact[uri].path == uri
      invariant forall l | l in where[..i] && l.exact :: l.path in exact
    {
      assert where[..i + 1] == where[..i] + [where[i]];
      if where[i].exact { exact := exact[where[i].path := where[i]]; }
    }
    assert where[..|where|] == where;
  }

  ghost function ChargedTo(found: seq<Route>, where: seq<Location>): set<string> {
    set h | 0 <= h < |found| && Judge(found[h], where).Charged? :: Judge(found[h], where).reason
  }

  lemma {:induction false} ChargedGrows(found: seq<Route>, where: seq<Location>, h: nat)
    requires h < |found|
    ensures ChargedTo(found[..h + 1], where)
      == ChargedTo(found[..h], where) + if Judge(found[h], where).Charged? then {Judge(found[h], where).reason} else {}
  {
    var before, after := found[..h], found[..h + 1];
    assert forall k | 0 <= k < h :: after[k] == before[k];
    assert after[h] == found[h];
    assert ChargedTo(before, where) <= ChargedTo(after, where);
  }

  /** Every handler judged, one finding a fault, and each reason a handler was charged to. */
  method Account(found: seq<Route>, where: seq<Location>) returns (findings: seq<Finding>, used: set<string>)
    requires DeclaredOnce(where)
    ensures findings == FindingsOf(found, where) && used == ChargedTo(found, where)
  {
    var exact := ExactByPath(where);
    findings, used := [], {};
    for h := 0 to |found|
      invariant findings == FindingsOf(found[..h], where) && used == ChargedTo(found[..h], where)
    {
      var verdict := JudgeOne(found[h], exact, where);
      assert found[..h + 1][..h] == found[..h];
      ChargedGrows(found, where, h);
      if verdict.Charged? { used := used + {verdict.reason}; }
      if verdict.Faulty? { findings := findings + [Finding(h, verdict.fault)]; }
    }
    assert found[..|found|] == found;
  }

  method JudgeOne(handler: Route, exact: map<string, Location>, where: seq<Location>) returns (verdict: Verdict)
    requires forall uri :: (if uri in exact then Some(exact[uri]) else None) == ExactMatch(where, uri)
    ensures verdict == Judge(handler, where)
  {
    var match_ := if handler.dynamic || handler.url !in exact then None else Some(exact[handler.url]);
    var covering := LongestPrefix(where, handler.head, true);
    verdict := JudgedBy(handler.url in INTERNAL, match_, covering);
  }

  lemma {:induction false} SilentIff(found: seq<Route>, where: seq<Location>)
    ensures FindingsOf(found, where) == [] <==> forall h | 0 <= h < |found| :: !Judge(found[h], where).Faulty?
  {
    if found != [] {
      var n := |found| - 1;
      SilentIff(found[..n], where);
      assert forall h | 0 <= h < n :: found[..n][h] == found[h];
    }
  }

  /** A handler at fault is found with its own fault, and no other is found. */
  lemma {:induction false} FoundIff(found: seq<Route>, where: seq<Location>, f: Finding)
    ensures f in FindingsOf(found, where) <==> f.handler < |found| && Judge(found[f.handler], where) == Faulty(f.fault)
  {
    if found != [] { FoundIff(found[..|found| - 1], where, f); }
  }

  // ----- which fault is found

  ghost predicate Named(route: Route, where: seq<Location>, one: Location) {
    !route.dynamic && one in where && one.exact && one.path == route.url
  }

  /** No prefix location of the handler's head is longer, the catch-all left out. */
  ghost predicate Covering(route: Route, where: seq<Location>, one: Location) {
    && one in where && !one.exact && one.path != "/" && one.path <= route.head
    && forall l | l in where && !l.exact && l.path != "/" && l.path <= route.head :: |l.path| <= |one.path|
  }

  /** What each verdict says of the locations. */
  ghost predicate Deserves(route: Route, where: seq<Location>, verdict: Verdict) {
    var internal, named := route.url == "/api/revalidate", exists one :: Named(route, where, one);
    match verdict
    case Faulty(Forwarded) => internal && !exists one :: Named(route, where, one) && one.refuses
    case Faulty(Unrecorded) => !internal && exists one :: Named(route, where, one) && one.refuses
    case Faulty(Unmetered) => !internal && exists one :: Named(route, where, one) && !one.refuses && !one.Metered()
    case Faulty(Unreached) => !internal && !named && !exists one :: Covering(route, where, one)
    case Faulty(NoReason(prefix)) =>
      !internal && !named && prefix != "/api/auth" && exists one :: Covering(route, where, one) && one.path == prefix
    case Charged(prefix) =>
      !internal && !named && prefix == "/api/auth" && exists one :: Covering(route, where, one) && one.path == prefix
    case Accounted => exists one ::
      Named(route, where, one) && if internal then one.refuses else !one.refuses && one.Metered()
  }

  lemma {:induction false} NamedIs(route: Route, where: seq<Location>)
    requires DeclaredOnce(where)
    ensures var match_ := if route.dynamic then None else ExactMatch(where, route.url);
      forall one :: Named(route, where, one) <==> match_ == Some(one)
  {
    forall a, b | Named(route, where, a) && Named(route, where, b) ensures a == b {
      var i :| 0 <= i < |where| && where[i] == a;
      var j :| 0 <= j < |where| && where[j] == b;
    }
  }

  lemma {:induction false} CoveringIs(route: Route, where: seq<Location>, prefix: string)
    ensures var covering := Longest(where, route.head, true);
      && (covering.Some? && covering.value.path == prefix
          <==> exists one :: Covering(route, where, one) && one.path == prefix)
      && (covering.Some? ==> Covering(route, where, covering.value))
      && forall one | Covering(route, where, one) :: covering.Some? && covering.value.path == one.path
  {
    LongestIs(where, route.head, true);
    forall one | Covering(route, where, one)
      ensures var covering := Longest(where, route.head, true); covering.Some? && covering.value.path == one.path
    {
      assert Admits(one, route.head, true);
    }
  }

  /** What is found of a handler an exact match names. */
  lemma {:induction false} NamedJudge(route: Route, where: seq<Location>, one: Location, verdict: Verdict)
    requires DeclaredOnce(where) && Named(route, where, one)
    ensures Judge(route, where) == verdict <==> Deserves(route, where, verdict)
  {
    NamedIs(route, where);
    forall other ensures Named(route, where, other) <==> other == one { }
  }

  lemma {:induction false} UnnamedJudge(route: Route, where: seq<Location>, verdict: Verdict)
    requires DeclaredOnce(where) && !exists one :: Named(route, where, one)
    ensures Judge(route, where) == verdict <==> Deserves(route, where, verdict)
  {
    NamedIs(route, where);
    var covering := Longest(where, route.head, true);
    CoveringIs(route, where, if covering.Some? then covering.value.path else "");
    if verdict.Charged? { CoveringIs(route, where, verdict.reason); }
    if verdict.Faulty? && verdict.fault.NoReason? { CoveringIs(route, where, verdict.fault.prefix); }
  }

  /** Every handler meets one verdict, and it is the one the locations give it. */
  lemma {:induction false} JudgeIff(route: Route, where: seq<Location>, verdict: Verdict)
    requires DeclaredOnce(where)
    ensures Judge(route, where) == verdict <==> Deserves(route, where, verdict)
  {
    if one :| Named(route, where, one) {
      NamedJudge(route, where, one, verdict);
    } else {
      UnnamedJudge(route, where, verdict);
    }
  }

  lemma {:induction false} MeteredIff(one: Location)
    ensures one.Metered() <==> exists before, name, after :: before + ["zone=" + name] + after in one.limits
  {
    if one.Metered() {
      var args :| args in one.limits && exists arg | arg in args :: "zone=" <= arg;
      var k :| 0 <= k < |args| && "zone=" <= args[k];
      assert args[k] == "zone=" + args[k][5..];
      assert args == args[..k] + ["zone=" + args[k][5..]] + args[k + 1..];
    }
    forall before, name, after | before + ["zone=" + name] + after in one.limits ensures one.Metered() {
      var args := before + ["zone=" + name] + after;
      assert args[|before|] == "zone=" + name;
      assert "zone=" + name in args && "zone=" <= "zone=" + name;
    }
  }

  // ----- what silence means

  /**
   * A handler without a dynamic segment is accounted for exactly where nginx's own choice for its URL accounts for it.
   */
  lemma {:induction false} StaticAccountedIff(segments: seq<string>, where: seq<Location>)
    requires !RouteOf(segments).dynamic
    ensures var url := RouteOf(segments).url; var chosen := Chosen(where, url);
      !Judge(RouteOf(segments), where).Faulty? <==>
        chosen.Some? &&
        if url in INTERNAL then chosen.value.exact && chosen.value.refuses
        else if chosen.value.exact then !chosen.value.refuses && chosen.value.Metered()
        else chosen.value.path in REASONS
  {
    var url := RouteOf(segments).url;
    CoverageIs(where, url, url);
  }

  /** Where the longest location carries a recorded reason, the catch-all or not makes no difference. */
  lemma {:induction false} CoverageIs(where: seq<Location>, head: string, url: string)
    requires head <= url
    ensures var all, covering := Longest(where, url, false), Longest(where, head, true);
      && (covering.Some? && covering.value.path in REASONS ==>
            all.Some? && covering.value.path <= all.value.path
              && (all.value.path <= head ==> all.value.path == covering.value.path))
      && (all.Some? && all.value.path in REASONS && all.value.path <= head ==>
        covering.Some? && covering.value.path == all.value.path)
  {
    LongestIs(where, url, false);
    LongestIs(where, head, true);
    var all, covering := Longest(where, url, false), Longest(where, head, true);
    if covering.Some? {
      assert covering.value.path <= head <= url;
      assert Admits(covering.value, url, false);
    }
    if all.Some? && all.value.path in REASONS && all.value.path <= head {
      assert Admits(all.value, head, true);
    }
  }

  /** Where the accounting is silent on a handler, nginx sends no URL it answers to the catch-all or nowhere. */
  lemma {:induction false} SilenceCovers(pattern: seq<string>, where: seq<Location>, filled: seq<string>)
    requires Fills(pattern, filled) && !Judge(RouteOf(pattern), where).Faulty?
    ensures var verdict, url := Judge(RouteOf(pattern), where), UrlOfFill(filled); var chosen := Chosen(where, url);
      && chosen.Some? && (chosen.value.exact || chosen.value.path != CATCH_ALL)
      && (verdict == Accounted ==>
            && chosen.value.exact && chosen.value.path == url
            && if url in INTERNAL then chosen.value.refuses else chosen.value.Metered())
      && (verdict.Charged? ==> verdict.reason in REASONS && verdict.reason <= chosen.value.path)
  {
    AnswersUnderHead(pattern, filled);
    var route, url := RouteOf(pattern), UrlOfFill(filled);
    if route.dynamic { DynamicBracketed(pattern); }
    assert route.head <= url;
    CoverageIs(where, route.head, url);
  }

  /**
   * Within the head a dynamic handler shares with all it answers, a recorded prefix is chosen or a longer location is.
   */
  predicate CoveredWithin(chosen: Option<Location>, head: string) {
    chosen.Some? && (chosen.value.path <= head ==> !chosen.value.exact && chosen.value.path in REASONS)
  }

  /** `free` opens a segment that no location's path goes on from the head with. */
  predicate Free(where: seq<Location>, head: string, free: char) {
    free != '/' && forall i | 0 <= i < |where| :: !(head + [free] <= where[i].path)
  }

  /** Fewer than the characters a segment can open with, so that no configuration names them all. */
  const LOCATIONS := 50_000

  function Codes(n: nat): (codes: set<nat>)
    ensures |codes| == n && forall k | k in codes :: '/' as int < k <= '/' as int + n
  {
    if n == 0 then {} else Codes(n - 1) + {'/' as int + n}
  }

  /** Of more characters than locations, one opens a segment no location goes on with. */
  lemma {:induction false} FreeAmong(where: seq<Location>, head: string, codes: set<nat>) returns (free: char)
    requires |codes| > |where| && forall k | k in codes :: '/' as int < k < 0xD800
    ensures free as int in codes && Free(where, head, free)
  {
    if where == [] {
      var k :| k in codes;
      free := k as char;
    } else {
      var n := |where| - 1;
      var path := where[n].path;
      if |head| < |path| {
        free := FreeAmong(where[..n], head, codes - {path[|head|] as int});
        assert (head + [free])[|head|] != path[|head|];
      } else {
        free := FreeAmong(where[..n], head, codes);
      }
      assert forall i | 0 <= i < n :: where[..n][i] == where[i];
    }
  }

  lemma {:induction false} FreeExists(where: seq<Location>, head: string) returns (free: char)
    requires |where| <= LOCATIONS
    ensures Free(where, head, free)
  {
    free := FreeAmong(where, head, Codes(|where| + 1));
  }

  ghost predicate EveryFillCovered(pattern: seq<string>, where: seq<Location>) {
    forall filled | Fills(pattern, filled) :: CoveredWithin(Chosen(where, UrlOfFill(filled)), RouteOf(pattern).head)
  }

  /**
   * A handler with a dynamic segment is accounted for exactly where nginx covers every URL it answers under a recorded
   * prefix, or deeper.
   */
  lemma {:induction false} DynamicAccountedIff(pattern: seq<string>, where: seq<Location>)
    requires RouteOf(pattern).dynamic && |where| <= LOCATIONS
    ensures !Judge(RouteOf(pattern), where).Faulty? <==> EveryFillCovered(pattern, where)
  {
    if Judge(RouteOf(pattern), where).Faulty? {
      var free := FreeExists(where, RouteOf(pattern).head);
      var filled := SomeUncovered(pattern, where, free);
    } else {
      forall filled | Fills(pattern, filled)
        ensures CoveredWithin(Chosen(where, UrlOfFill(filled)), RouteOf(pattern).head)
      {
        FillCovered(pattern, where, filled);
      }
    }
  }

  lemma {:induction false} SomeUncovered(pattern: seq<string>, where: seq<Location>, free: char)
    returns (filled: seq<string>)
    requires RouteOf(pattern).dynamic && Free(where, RouteOf(pattern).head, free)
    requires Judge(RouteOf(pattern), where).Faulty?
    ensures Fills(pattern, filled) && !CoveredWithin(Chosen(where, UrlOfFill(filled)), RouteOf(pattern).head)
  {
    filled := FreeFill(pattern, free);
    DynamicBracketed(pattern);
    FreeFillUncovered(RouteOf(pattern), where, free, UrlOfFill(filled));
  }

  lemma {:induction false} FreeFill(pattern: seq<string>, free: char) returns (filled: seq<string>)
    requires RouteOf(pattern).dynamic && free != '/'
    ensures Fills(pattern, filled) && RouteOf(pattern).head + [free] <= UrlOfFill(filled)
  {
    filled := FilledWith(pattern, [free]);
    FilledFills(pattern, [free]);
    AnswersUnderHead(pattern, filled);
    var n := |Static(pattern)|;
    assert IsDynamic(pattern[n]) && filled[n] == [free];
  }

  lemma {:induction false} FillCovered(pattern: seq<string>, where: seq<Location>, filled: seq<string>)
    requires RouteOf(pattern).dynamic && !Judge(RouteOf(pattern), where).Faulty? && Fills(pattern, filled)
    ensures CoveredWithin(Chosen(where, UrlOfFill(filled)), RouteOf(pattern).head)
  {
    AnswersUnderHead(pattern, filled);
    DynamicCovered(RouteOf(pattern), where, UrlOfFill(filled));
  }

  lemma {:induction false} DynamicCovered(route: Route, where: seq<Location>, url: string)
    requires route.dynamic && !Judge(route, where).Faulty? && route.head < url
    ensures CoveredWithin(Chosen(where, url), route.head)
  {
    CoverageIs(where, route.head, url);
  }

  lemma {:induction false} FreeFillUncovered(route: Route, where: seq<Location>, free: char, url: string)
    requires route.dynamic && route.url !in INTERNAL && Free(where, route.head, free) && route.head + [free] <= url
    requires Judge(route, where).Faulty?
    ensures !CoveredWithin(Chosen(where, url), route.head)
  {
    assert route.head <= url;
    CoverageIs(where, route.head, url);
  }
}
