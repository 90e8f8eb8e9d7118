/**
 * One listing of a stopped gate's processes: the members it opens, the fate each is given oldest first, and the
 * pools spared up to the shell above them.
 */
module StopSweep {
  import opened Ordering

  /** Later than any process's creation: a shell's signal time until it is sent. */
  const UNSENT: nat := 0x1_0000_0000_0000_0000

  datatype Fate = SIGNALLED | ENDED | SPARED | LEFT

  datatype Member = Member(created: nat, msys: bool, fate: Fate, reached: nat)

  type Members = map<nat, Member>

  datatype Found = Found(created: nat, msys: bool)

  /**
   * What one listing meets: the pids listed, the known ones whose process has ended, the processes that open,
   * the creators the system recorded, and when a signal sent now is sent.
   */
  datatype Look = Look(listed: seq<nat>, ended: set<nat>, found: map<nat, Found>, parents: map<nat, nat>, sent: nat)

  predicate IsNew(members: Members, look: Look, pid: nat) {
    pid in look.listed && (pid in members ==> pid in look.ended) && pid in look.found
  }

  function Newcomers(members: Members, look: Look): (news: map<nat, Found>)
    ensures forall pid :: pid in news <==> IsNew(members, look, pid)
    ensures forall pid | pid in news :: pid in look.found && news[pid] == look.found[pid]
  {
    map pid | pid in look.found && IsNew(members, look, pid) :: look.found[pid]
  }

  function Kept(members: Members, look: Look): Members {
    map pid | pid in members && !(pid in look.listed && pid in look.ended) :: members[pid]
  }

  predicate Timed(news: map<nat, Found>) {
    && (forall pid | pid in news :: news[pid].created < UNSENT)
    && (forall pid, other | pid in news && other in news && pid != other :: news[pid].created != news[other].created)
  }

  function Creator(parents: map<nat, nat>, pid: nat): nat {
    if pid in parents then parents[pid] else 0
  }

  /** Started by a member the stop reached: a shell's, before its signal; or by a process ended; or by a pool spared. */
  predicate Owed(members: Members, pools: set<nat>, parents: map<nat, nat>, pid: nat, created: nat) {
    var creator := Creator(parents, pid);
    && creator in members
    && members[creator].created <= created
    && match members[creator].fate
       case SIGNALLED => created < members[creator].reached
       case ENDED => true
       case SPARED => creator in pools
       case LEFT => false
  }

  function Judged(found: Found, owed: bool): Member {
    if !owed then Member(found.created, found.msys, LEFT, 0)
    else if found.msys then Member(found.created, true, SIGNALLED, UNSENT) else Member(found.created, false, ENDED, 0)
  }

  /** Each newcomer stands as its creator's own standing dictates. */
  predicate Settled(
      members: Members, pools: set<nat>, news: map<nat, Found>, parents: map<nat, nat>, first: bool, pid: nat)
    requires pid in members && pid in news
  {
    members[pid] == Judged(news[pid], first || Owed(members, pools, parents, pid, news[pid].created))
  }

  // ----- the sparing of pools

  /** From a pool's process upwards: past a native to what started it, never past a shell. */
  predicate Up(news: map<nat, Found>, parents: map<nat, nat>, pid: nat, above: nat) {
    pid in news && !news[pid].msys && above == Creator(parents, pid) && above in news
  }

  ghost predicate Climb(news: map<nat, Found>, parents: map<nat, nat>, pools: set<nat>, path: seq<nat>) {
    && path != []
    && var n := |path| - 1;
       if n == 0 then path[0] in pools && path[0] in news
       else Climb(news, parents, pools, path[..n]) && Up(news, parents, path[n - 1], path[n])
  }

  ghost predicate ToSpare(news: map<nat, Found>, parents: map<nat, nat>, pools: set<nat>, pid: nat) {
    exists path :: Climb(news, parents, pools, path) && path[|path| - 1] == pid
  }

  lemma {:induction false} ClimbOn(news: map<nat, Found>, parents: map<nat, nat>, pools: set<nat>, pid: nat, above: nat)
    requires ToSpare(news, parents, pools, pid) && Up(news, parents, pid, above)
    ensures ToSpare(news, parents, pools, above)
  {
    var path :| Climb(news, parents, pools, path) && path[|path| - 1] == pid;
    var longer := path + [above];
    assert longer[..|path|] == path;
    assert Climb(news, parents, pools, longer);
  }

  /** A set holding each pool's process and closed upwards holds every process to spare. */
  lemma {:induction false} ClosedSpares(
      news: map<nat, Found>, parents: map<nat, nat>, pools: set<nat>, spared: set<nat>, path: seq<nat>)
    requires Climb(news, parents, pools, path) && pools * news.Keys <= spared
    requires forall pid, above | pid in spared && Up(news, parents, pid, above) :: above in spared
    ensures path[|path| - 1] in spared
  {
    var n := |path| - 1;
    if n > 0 { ClosedSpares(news, parents, pools, spared, path[..n]); }
  }

  // ----- what one listing leaves

  /** As `Owed`, once the signals are sent: a shell reached in this same listing is owed all it had started. */
  predicate OwedAfter(
      after: Members, pools: set<nat>, news: map<nat, Found>, parents: map<nat, nat>, pid: nat, created: nat) {
    var creator := Creator(parents, pid);
    && creator in after
    && after[creator].created <= created
    && match after[creator].fate
       case SIGNALLED => creator in news || created < after[creator].reached
       case ENDED => true
       case SPARED => creator in pools
       case LEFT => false
  }

  ghost function FateAfter(
      after: Members, pools: set<nat>, look: Look, first: bool, news: map<nat, Found>, pid: nat): Fate
    requires pid in news
  {
    if first && ToSpare(news, look.parents, pools, pid) then SPARED
    else if !first && !OwedAfter(after, pools, news, look.parents, pid, news[pid].created) then LEFT
    else if news[pid].msys then SIGNALLED else ENDED
  }

  ghost predicate Swept(members: Members, pools: set<nat>, look: Look, first: bool, after: Members) {
    var news, kept := Newcomers(members, look), Kept(members, look);
    && after.Keys == kept.Keys + news.Keys
    && (forall pid | pid in kept :: pid !in news && after[pid] == kept[pid])
    && forall pid | pid in news ::
         && after[pid].created == news[pid].created && after[pid].msys == news[pid].msys
         && after[pid].fate == FateAfter(after, pools, look, first, news, pid)
         && (after[pid].fate == SIGNALLED ==> after[pid].reached == look.sent)
  }

  class Stop {
    const pools: set<nat>
    var members: Members

    constructor (pools: set<nat>)
      ensures this.pools == pools && members == map[]
    {
      this.pools, members := pools, map[];
    }

    /** Forgets what has ended, and opens what is listed and not known. */
    method Open(look: Look) returns (news: map<nat, Found>)
      modifies this
      ensures news == Newcomers(old(members), look) && members == Kept(old(members), look)
    {
      news := map[];
      ghost var before := members;
      for i := 0 to |look.listed|
        invariant forall pid :: pid in news <==> pid in look.listed[..i] && IsNew(before, look, pid)
        invariant forall pid | pid in news :: news[pid] == look.found[pid]
        invariant forall pid :: pid in members <==> pid in before && !(pid in look.listed[..i] && pid in look.ended)
        invariant forall pid | pid in members :: members[pid] == before[pid]
      {
        var pid := look.listed[i];
        assert look.listed[..i + 1] == look.listed[..i] + [pid];
        if pid in members && pid !in look.ended { continue; }
        members := members - {pid};
        if pid in look.found { news := news[pid := look.found[pid]]; }
      }
      assert look.listed[..|look.listed|] == look.listed;
      assert news == Newcomers(before, look);
      assert members == Kept(before, look);
    }

    /** Oldest first, so a creator listed beside what it started is decided before it. */
    method Judge(news: map<nat, Found>, parents: map<nat, nat>, first: bool)
      requires Timed(news) && news.Keys !! members.Keys
      modifies this
      ensures Judging(old(members), members, pools, news, parents, first, news.Keys)
    {
      ghost var before := members;
      members := members + map pid | pid in news :: Judged(news[pid], false);
      var order := OldestFirst(news);
      assert Pids(order[..0]) == {};
      for i := 0 to |order|
        invariant Judging(before, members, pools, news, parents, first, Pids(order[..i]))
      {
        var pid := order[i].1;
        JudgeNext(before, members, pools, news, parents, first, order, i);
        if first || Owed(members, pools, parents, pid, members[pid].created) {
          members := members[pid := Judged(news[pid], true)];
        }
      }
      assert order[..|order|] == order;
      assert news.Keys == Pids(order);
    }

    /** One pool's climb, stopping where another has been. */
    method SpareFrom(
        news: map<nat, Found>, parents: map<nat, nat>, pool: nat, ghost before: Members, ghost was: set<nat>)
      returns (ghost spared: set<nat>)
      requires pool in pools && pool in news && news.Keys <= before.Keys
      requires forall pid | pid in news :: before[pid].msys == news[pid].msys && before[pid].fate != SPARED
      requires SparedAre(before, members, news, was) && Climbed(news, parents, pools, was) && Closed(news, parents, was)
      modifies this
      ensures SparedAre(before, members, news, spared) && Climbed(news, parents, pools, spared)
      ensures Closed(news, parents, spared)
      ensures was + {pool} <= spared
    {
      var pid := pool;
      spared := was;
      ClimbStarts(news, parents, pools, pool);
      while pid in news && members[pid].fate != SPARED
        invariant SparedAre(before, members, news, spared) && Climbed(news, parents, pools, spared)
        invariant was <= spared && (pool in spared || pid == pool)
        invariant ClosedBut(news, parents, spared, pid) && (pid in news ==> ToSpare(news, parents, pools, pid))
        decreases |news.Keys - spared|
      {
        SpareOne(before, members, news, parents, pools, spared, pid);
        members, spared := members[pid := members[pid].(fate := SPARED)], spared + {pid};
        if members[pid].msys { break; }
        pid := Creator(parents, pid);
      }
    }

    /** Up to the shell above each pool and no further: a launcher between, ended first, would be the pool's ending. */
    method Spare(news: map<nat, Found>, parents: map<nat, nat>)
      requires news.Keys <= members.Keys
      requires forall pid | pid in news :: members[pid].msys == news[pid].msys && members[pid].fate != SPARED
      modifies this
      ensures members.Keys == old(members).Keys
      ensures forall pid | pid in members ::
        members[pid] == SparedIf(old(members)[pid], pid in news && ToSpare(news, parents, pools, pid))
    {
      ghost var before := members;
      ghost var spared: set<nat> := {};
      var left := pools * news.Keys;
      while left != {}
        invariant left <= pools * news.Keys && pools * news.Keys - left <= spared
        invariant SparedAre(before, members, news, spared) && Climbed(news, parents, pools, spared)
        invariant Closed(news, parents, spared)
        decreases |left|
      {
        var pool :| pool in left;
        left := left - {pool};
        spared := SpareFrom(news, parents, pool, before, spared);
      }
      SparedExactly(news, parents, pools, spared);
    }

    /** One call for every shell named, sent when its process was created. */
    method Signal(shells: set<nat>, sent: nat)
      requires shells <= members.Keys
      modifies this
      ensures SentAre(old(members), members, shells, sent)
    {
      ghost var before := members;
      var left := shells;
      while left != {}
        invariant left <= shells && SentAre(before, members, shells - left, sent)
        decreases |left|
      {
        var pid :| pid in left;
        left, members := left - {pid}, members[pid := members[pid].(reached := sent)];
      }
    }

    /**
     * Stops every listed member the stop is owed and has not reached, answering the shells signalled and the natives
     * ended.
     */
    method Reach(look: Look, first: bool) returns (signalled: set<nat>, terminated: set<nat>)
      requires Timed(Newcomers(members, look))
      modifies this
      ensures Swept(old(members), pools, look, first, members)
      ensures forall pid :: pid in signalled <==> pid in Newcomers(old(members), look) && members[pid].fate == SIGNALLED
      ensures forall pid :: pid in terminated <==> pid in Newcomers(old(members), look) && members[pid].fate == ENDED
    {
      ghost var before := members;
      var news := Open(look);
      if news == map[] { return {}, {}; }
      Judge(news, look.parents, first);
      ghost var judged := members;
      if first {
        Spare(news, look.parents);
      }
      ghost var spared := members;
      signalled := set pid | pid in news && members[pid].fate == SIGNALLED;
      Signal(signalled, look.sent);
      SweptAll(before, pools, look, first, judged, spared, members);
      terminated := set pid | pid in news && members[pid].fate == ENDED;
    }
  }

  ghost predicate SentAre(before: Members, members: Members, sent: set<nat>, at: nat) {
    members.Keys == before.Keys && forall pid | pid in members ::
      members[pid] == if pid in sent then before[pid].(reached := at) else before[pid]
  }

  /** Every record as judged, but for what was spared and for the time the signals went out. */
  ghost predicate Sealed(
      look: Look, pools: set<nat>, first: bool, news: map<nat, Found>, judged: Members, after: Members) {
    && after.Keys == judged.Keys
    && (forall pid | pid in judged && pid !in news :: after[pid] == judged[pid])
    && (forall pid | pid in news && pid in judged :: SealedOne(look, pools, first, news, judged[pid], after[pid], pid))
  }

  ghost predicate SealedOne(
      look: Look, pools: set<nat>, first: bool, news: map<nat, Found>, judged: Member, after: Member, pid: nat) {
    && after.created == judged.created && after.msys == judged.msys
    && after.fate == (if first && ToSpare(news, look.parents, pools, pid) then SPARED else judged.fate)
    && (after.fate == SIGNALLED ==> after.reached == look.sent)
  }

  lemma {:induction false} OwedAsSent(
      pools: set<nat>, look: Look, news: map<nat, Found>, judged: Members, after: Members, pid: nat)
    requires Timed(news) && news.Keys <= judged.Keys && Sealed(look, pools, false, news, judged, after) && pid in news
    requires forall p | p in news :: Settled(judged, pools, news, look.parents, false, p)
    ensures Owed(judged, pools, look.parents, pid, news[pid].created)
      == OwedAfter(after, pools, news, look.parents, pid, news[pid].created)
  {
    var creator := Creator(look.parents, pid);
    if creator in news {
      assert Settled(judged, pools, news, look.parents, false, creator);
      assert SealedOne(look, pools, false, news, judged[creator], after[creator], creator);
    }
  }

  lemma {:induction false} SweptSealed(
      members: Members, pools: set<nat>, look: Look, first: bool, judged: Members, after: Members)
    requires Timed(Newcomers(members, look))
    requires Judging(Kept(members, look), judged, pools, Newcomers(members, look), look.parents, first,
      Newcomers(members, look).Keys)
    requires Sealed(look, pools, first, Newcomers(members, look), judged, after)
    ensures Swept(members, pools, look, first, after)
  {
    var news, kept := Newcomers(members, look), Kept(members, look);
    forall pid | pid in news
      ensures after[pid].created == news[pid].created && after[pid].msys == news[pid].msys
        && after[pid].fate == FateAfter(after, pools, look, first, news, pid)
    {
      assert Settled(judged, pools, news, look.parents, first, pid);
      assert SealedOne(look, pools, first, news, judged[pid], after[pid], pid);
      if !first { OwedAsSent(pools, look, news, judged, after, pid); }
    }
  }

  lemma {:induction false} SweptAll(
      members: Members, pools: set<nat>, look: Look, first: bool, judged: Members, spared: Members, after: Members)
    requires Timed(Newcomers(members, look))
    requires Judging(Kept(members, look), judged, pools, Newcomers(members, look), look.parents, first,
      Newcomers(members, look).Keys)
    requires spared.Keys == judged.Keys
    requires forall pid | pid in judged ::
      spared[pid] == SparedIf(judged[pid], first && pid in Newcomers(members, look)
        && ToSpare(Newcomers(members, look), look.parents, pools, pid))
    requires SentAre(spared, after, (set pid | pid in Newcomers(members, look) && spared[pid].fate == SIGNALLED),
      look.sent)
    ensures Swept(members, pools, look, first, after)
  {
    var news := Newcomers(members, look);
    forall pid | pid in judged && pid !in news ensures after[pid] == judged[pid] { assert spared[pid] == judged[pid]; }
    forall pid | pid in news ensures SealedOne(look, pools, first, news, judged[pid], after[pid], pid) {
      assert spared[pid] == SparedIf(judged[pid], first && ToSpare(news, look.parents, pools, pid));
    }
    SweptSealed(members, pools, look, first, judged, after);
  }

  function SparedIf(member: Member, spared: bool): Member {
    if spared then member.(fate := SPARED) else member
  }

  ghost predicate SparedAre(before: Members, members: Members, news: map<nat, Found>, spared: set<nat>) {
    spared <= news.Keys && members.Keys == before.Keys && forall pid | pid in members ::
      members[pid] == SparedIf(before[pid], pid in spared)
  }

  ghost predicate Climbed(news: map<nat, Found>, parents: map<nat, nat>, pools: set<nat>, spared: set<nat>) {
    forall pid | pid in spared :: ToSpare(news, parents, pools, pid)
  }

  ghost predicate Closed(news: map<nat, Found>, parents: map<nat, nat>, spared: set<nat>) {
    forall pid, above | pid in spared && Up(news, parents, pid, above) :: above in spared
  }

  ghost predicate ClosedBut(news: map<nat, Found>, parents: map<nat, nat>, spared: set<nat>, next: nat) {
    forall pid, above | pid in spared && Up(news, parents, pid, above) :: above in spared || above == next
  }

  lemma {:induction false} ClimbStarts(news: map<nat, Found>, parents: map<nat, nat>, pools: set<nat>, pool: nat)
    requires pool in pools && pool in news
    ensures ToSpare(news, parents, pools, pool)
  {
    assert Climb(news, parents, pools, [pool]);
  }

  lemma {:induction false} SpareOne(
      before: Members, members: Members, news: map<nat, Found>, parents: map<nat, nat>, pools: set<nat>,
      spared: set<nat>, pid: nat)
    requires news.Keys <= before.Keys
    requires forall p | p in news :: before[p].msys == news[p].msys && before[p].fate != SPARED
    requires SparedAre(before, members, news, spared) && Climbed(news, parents, pools, spared)
    requires ClosedBut(news, parents, spared, pid)
    requires pid in news && ToSpare(news, parents, pools, pid) && members[pid].fate != SPARED
    ensures pid !in spared && members[pid].msys == news[pid].msys
    ensures SparedAre(before, members[pid := members[pid].(fate := SPARED)], news, spared + {pid})
    ensures Climbed(news, parents, pools, spared + {pid})
    ensures ClimbedTo(news, parents, pools, spared + {pid}, pid)
    ensures |news.Keys - (spared + {pid})| < |news.Keys - spared|
  {
    assert members[pid] == SparedIf(before[pid], pid in spared);
    assert news.Keys - (spared + {pid}) == news.Keys - spared - {pid};
    SpareTo(news, parents, pools, spared, pid);
  }

  ghost predicate ClimbedTo(news: map<nat, Found>, parents: map<nat, nat>, pools: set<nat>, spared: set<nat>, pid: nat)
    requires pid in news
  {
    if news[pid].msys then Closed(news, parents, spared)
    else
      && ClosedBut(news, parents, spared, Creator(parents, pid))
      && (Creator(parents, pid) in news ==> ToSpare(news, parents, pools, Creator(parents, pid)))
  }

  lemma {:induction false} SpareTo(
      news: map<nat, Found>, parents: map<nat, nat>, pools: set<nat>, spared: set<nat>, pid: nat)
    requires Climbed(news, parents, pools, spared) && ClosedBut(news, parents, spared, pid) && pid in news
    requires ToSpare(news, parents, pools, pid)
    ensures Climbed(news, parents, pools, spared + {pid}) && ClimbedTo(news, parents, pools, spared + {pid}, pid)
  {
    if !news[pid].msys && Creator(parents, pid) in news { ClimbOn(news, parents, pools, pid, Creator(parents, pid)); }
  }

  lemma {:induction false} SparedExactly(
      news: map<nat, Found>, parents: map<nat, nat>, pools: set<nat>, spared: set<nat>)
    requires Climbed(news, parents, pools, spared) && Closed(news, parents, spared) && pools * news.Keys <= spared
    ensures forall pid :: pid in spared <==> ToSpare(news, parents, pools, pid)
  {
    forall pid | ToSpare(news, parents, pools, pid) ensures pid in spared {
      var path :| Climb(news, parents, pools, path) && path[|path| - 1] == pid;
      ClosedSpares(news, parents, pools, spared, path);
    }
  }

  predicate Older(a: (nat, nat), b: (nat, nat)) {
    a.0 < b.0 || (a.0 == b.0 && a.1 <= b.1)
  }

  function Pids(order: seq<(nat, nat)>): set<nat> {
    set k | 0 <= k < |order| :: order[k].1
  }

  ghost predicate InOrder(order: seq<(nat, nat)>, news: map<nat, Found>) {
    && (forall k | 0 <= k < |order| :: order[k].1 in news && order[k].0 == news[order[k].1].created)
    && (forall k, l | 0 <= k < l < |order| :: order[k].0 < order[l].0)
    && Pids(order) == news.Keys
  }

  function Stamped(news: map<nat, Found>): set<(nat, nat)> {
    set pid | pid in news :: (news[pid].created, pid)
  }

  lemma {:induction false} OrderIs(news: map<nat, Found>, order: seq<(nat, nat)>)
    requires Timed(news) && Sorted(Older, order) && Distinct(order)
    requires forall x :: x in order <==> x in Stamped(news)
    ensures InOrder(order, news)
  {
    forall k | 0 <= k < |order|
      ensures order[k].1 in news && order[k].0 == news[order[k].1].created
    {
      assert order[k] in Stamped(news);
    }
    forall k, l | 0 <= k < l < |order|
      ensures order[k].0 < order[l].0
    {
      assert Older(order[k], order[l]) && order[k] != order[l];
    }
    forall pid | pid in news ensures pid in Pids(order) {
      var stamp := (news[pid].created, pid);
      assert stamp in Stamped(news);
      assert stamp in order;
      var k :| 0 <= k < |order| && order[k] == stamp;
      assert order[k].1 in Pids(order);
    }
  }

  method OldestFirst(news: map<nat, Found>) returns (order: seq<(nat, nat)>)
    requires Timed(news)
    ensures InOrder(order, news)
  {
    order := SortMembers(Older, Stamped(news));
    OrderIs(news, order);
  }

  ghost predicate Judging(
      before: Members, members: Members, pools: set<nat>, news: map<nat, Found>, parents: map<nat, nat>, first: bool,
      done: set<nat>) {
    && members.Keys == before.Keys + news.Keys
    && (forall pid | pid in before && pid !in news :: members[pid] == before[pid])
    && (forall pid | pid in news && pid in done :: Settled(members, pools, news, parents, first, pid))
    && (forall pid | pid in news && pid !in done :: members[pid] == Judged(news[pid], false))
  }

  lemma {:induction false} JudgeNext(
      before: Members, members: Members, pools: set<nat>, news: map<nat, Found>, parents: map<nat, nat>, first: bool,
      order: seq<(nat, nat)>, i: nat)
    requires i < |order| && InOrder(order, news) && Timed(news)
    requires Judging(before, members, pools, news, parents, first, Pids(order[..i]))
    ensures order[i].1 in members && members[order[i].1].created == news[order[i].1].created
    ensures var pid := order[i].1;
      var owed := first || Owed(members, pools, parents, pid, members[pid].created);
      var now := if owed then members[pid := Judged(news[pid], true)] else members;
      Judging(before, now, pools, news, parents, first, Pids(order[..i + 1]))
  {
    var pid := order[i].1;
    assert order[..i + 1] == order[..i] + [order[i]];
    PidsGrow(order[..i], order[i]);
    forall other | other in Pids(order[..i]) ensures other in news && news[other].created < news[pid].created {
      var k :| 0 <= k < i && order[..i][k].1 == other;
      assert order[k].0 < order[i].0;
    }
    JudgeOne(before, members, pools, news, parents, first, Pids(order[..i]), pid);
  }

  lemma {:induction false} JudgeOne(
      before: Members, members: Members, pools: set<nat>, news: map<nat, Found>, parents: map<nat, nat>, first: bool,
      done: set<nat>, pid: nat)
    requires Judging(before, members, pools, news, parents, first, done) && pid in news && pid !in done
    requires forall other | other in done :: other in news && news[other].created < news[pid].created
    ensures pid in members && members[pid].created == news[pid].created
    ensures var owed := first || Owed(members, pools, parents, pid, members[pid].created);
      var now := if owed then members[pid := Judged(news[pid], true)] else members;
      Judging(before, now, pools, news, parents, first, done + {pid})
  {
    assert members[pid] == Judged(news[pid], false);
    if first || Owed(members, pools, parents, pid, members[pid].created) {
      var after := members[pid := Judged(news[pid], true)];
      forall other | other in done ensures Settled(after, pools, news, parents, first, other) {
        assert Settled(members, pools, news, parents, first, other);
      }
      assert Settled(after, pools, news, parents, first, pid);
    }
  }

  lemma {:induction false} PidsGrow(order: seq<(nat, nat)>, last: (nat, nat))
    ensures Pids(order + [last]) == Pids(order) + {last.1}
  {
    var longer := order + [last];
    assert longer[|order|] == last;
    forall k | 0 <= k < |order| ensures order[k].1 in Pids(longer) { assert longer[k] == order[k]; }
    assert last.1 in Pids(longer);
  }
}
