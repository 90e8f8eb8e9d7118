/**
 * A stop over all its listings. Processes are told apart by when they were created, pids are reused, and what a
 * signalled shell starts from its signal on is its trap's own work: no listing ever signals or ends it.
 */
module StopRuns {
  import opened Results
  import opened StopSweep

  datatype Process = Process(pid: nat, msys: bool, creator: Option<nat>)

  /** Every process there is, by its creation time. */
  type World = map<nat, Process>

  /** A creator is running when it creates, and a pid is one running process's. */
  ghost predicate Lawful(world: World) {
    forall t | t in world :: world[t].pid != 0 && (world[t].creator.Some? ==> Created(world, world[t].creator.value, t))
  }

  ghost predicate Created(world: World, creator: nat, t: nat) {
    creator in world && creator < t && forall r | r in world && world[r].pid == world[creator].pid && creator < r ::
      t < r
  }

  /** Started by a signalled shell once its signal was sent, or by such work. */
  ghost predicate TrapWork(world: World, signalled: map<nat, nat>, t: nat)
    requires Lawful(world) && t in world
    decreases t
  {
    world[t].creator.Some? &&
    var creator := world[t].creator.value;
    assert Created(world, creator, t);
    (creator in signalled && signalled[creator] <= t) || TrapWork(world, signalled, creator)
  }

  /** A stop's members, the shells it has signalled and when, what it has ended, and the records it has let go of. */
  datatype State = State(members: Members, signalled: map<nat, nat>, ended: set<nat>, gone: set<nat>)

  function SignalledNow(world: World, news: map<nat, Found>, after: Members, sent: nat): map<nat, nat>
    requires news.Keys <= after.Keys
  {
    map c | c in world && world[c].pid in news && after[world[c].pid].created == c
      && after[world[c].pid].fate == SIGNALLED :: sent
  }

  function EndedNow(world: World, news: map<nat, Found>, after: Members): set<nat>
    requires news.Keys <= after.Keys
  {
    set c | c in world && world[c].pid in news && after[world[c].pid].created == c && after[world[c].pid].fate == ENDED
  }

  function LetGo(world: World, members: Members, look: Look): set<nat> {
    set c | c in world && world[c].pid in members && world[c].pid !in Kept(members, look)
      && members[world[c].pid].created == c
  }

  ghost predicate Step(world: World, pools: set<nat>, first: bool, s: State, look: Look, t: State) {
    && Swept(s.members, pools, look, first, t.members)
    && t.signalled == s.signalled + SignalledNow(world, Newcomers(s.members, look), t.members, look.sent)
    && t.ended == s.ended + EndedNow(world, Newcomers(s.members, look), t.members)
    && t.gone == s.gone + LetGo(world, s.members, look)
  }

  /**
   * What a listing can meet: processes of the world created by now, none that was found ended, each with the creator
   * the system recorded.
   */
  ghost predicate Meets(world: World, s: State, look: Look) {
    && Timed(Newcomers(s.members, look))
    && forall pid | pid in Newcomers(s.members, look) ::
      IsProcess(world, look, pid) && look.found[pid].created !in s.gone + LetGo(world, s.members, look)
  }

  ghost predicate IsProcess(world: World, look: Look, pid: nat)
    requires pid in look.found
  {
    var created := look.found[pid].created;
    && created in world && created < look.sent && world[created].pid == pid
    && world[created].msys == look.found[pid].msys
    && (pid in look.parents ==> CreatorPid(world, created) == Some(look.parents[pid]))
  }

  ghost function CreatorPid(world: World, created: nat): Option<nat>
    requires created in world
  {
    match world[created].creator
    case None => None
    case Some(creator) => if creator in world then Some(world[creator].pid) else None
  }

  /** The system keeps a pid from reuse while a handle on its process stays open. */
  ghost predicate Held(world: World, members: Members, now: nat) {
    forall pid, t | pid in members && t in world && world[t].pid == pid && t < now :: t <= members[pid].created
  }

  ghost predicate Clean(world: World, s: State, now: nat)
    requires Lawful(world)
  {
    && (forall pid | pid in s.members :: Recorded(world, s, now, pid))
    && (forall t | t in s.signalled || t in s.ended :: t in world && t < now && !TrapWork(world, s.signalled, t))
    && (forall t | t in s.signalled :: t in s.gone || exists pid :: pid in s.members && s.members[pid].created == t)
  }

  ghost predicate Recorded(world: World, s: State, now: nat, pid: nat)
    requires Lawful(world) && pid in s.members
  {
    var member := s.members[pid];
    && member.created in world && member.created < now && world[member.created].pid == pid
    && (member.fate == SIGNALLED <==> member.created in s.signalled)
    && (member.fate == SIGNALLED ==> s.signalled[member.created] == member.reached)
    && (member.fate != LEFT ==> !TrapWork(world, s.signalled, member.created))
  }

  /** A signal sent now makes no trap work of what was there before it. */
  lemma {:induction false} NotBeforeTheSignal(
      world: World, signalled: map<nat, nat>, now: map<nat, nat>, sent: nat, t: nat)
    requires Lawful(world) && t in world && t < sent
    requires forall c | c in now :: now[c] == sent
    requires forall c | c in now && c in signalled :: false
    ensures TrapWork(world, signalled + now, t) == TrapWork(world, signalled, t)
    decreases t
  {
    if world[t].creator.Some? {
      assert Created(world, world[t].creator.value, t);
      NotBeforeTheSignal(world, signalled, now, sent, world[t].creator.value);
    }
  }

  lemma {:induction false} NoTrapYet(world: World, t: nat)
    requires Lawful(world) && t in world
    ensures !TrapWork(world, map[], t)
    decreases t
  {
    if world[t].creator.Some? {
      assert Created(world, world[t].creator.value, t);
      NoTrapYet(world, world[t].creator.value);
    }
  }

  /** The member under the creator's pid, no younger than what was created, is the creator itself. */
  lemma {:induction false} TheCreatorItself(world: World, look: Look, after: Members, pid: nat, created: nat)
    requires Lawful(world) && Held(world, after, look.sent) && pid in look.found && IsProcess(world, look, pid)
    requires look.found[pid].created == created
    requires Placed(world, after)
    requires Creator(look.parents, pid) in after && after[Creator(look.parents, pid)].created <= created
    ensures pid in look.parents && world[created].creator == Some(after[Creator(look.parents, pid)].created)
  {
    var c := Creator(look.parents, pid);
    assert c != 0;
    var creator := world[created].creator.value;
    assert Created(world, creator, created);
  }

  lemma {:induction false} NewRecorded(
      world: World, pools: set<nat>, first: bool, s: State, look: Look, t: State, pid: nat)
    requires Lawful(world) && Clean(world, s, look.sent) && Meets(world, s, look)
    requires Step(world, pools, first, s, look, t)
    requires pid in Newcomers(s.members, look)
    ensures pid in t.members && t.members[pid].created == look.found[pid].created
    ensures t.members[pid].created !in s.signalled
    ensures t.members[pid].fate == SIGNALLED <==> t.members[pid].created in t.signalled
    ensures t.members[pid].fate == SIGNALLED ==>
      t.signalled[t.members[pid].created] == look.sent == t.members[pid].reached
  {
    assert pid in Newcomers(s.members, look) && IsProcess(world, look, pid);
  }

  lemma {:induction false} TrapWorkStill(
      world: World, pools: set<nat>, first: bool, s: State, look: Look, t: State, p: nat)
    requires Lawful(world) && Clean(world, s, look.sent) && Meets(world, s, look)
    requires Step(world, pools, first, s, look, t)
    requires p in world && p < look.sent
    ensures TrapWork(world, t.signalled, p) == TrapWork(world, s.signalled, p)
  {
    NotBeforeTheSignal(world, s.signalled, SignalledNow(world, Newcomers(s.members, look), t.members, look.sent),
      look.sent, p);
  }

  lemma {:induction false} KeptRecorded(
      world: World, pools: set<nat>, first: bool, s: State, look: Look, t: State, pid: nat)
    requires Lawful(world) && Clean(world, s, look.sent) && Meets(world, s, look)
    requires Step(world, pools, first, s, look, t)
    requires pid in Kept(s.members, look)
    ensures pid in t.members && Recorded(world, t, look.sent, pid)
  {
    var member := s.members[pid];
    assert Recorded(world, s, look.sent, pid) && t.members[pid] == member;
    TrapWorkStill(world, pools, first, s, look, t, member.created);
    var news := Newcomers(s.members, look);
    forall other | other in news
      ensures t.members[other].created != member.created
    {
      assert IsProcess(world, look, other);
    }
  }

  /** Whoever started a newcomer the stop owes is a member it reached, and before any signal of its own. */
  lemma {:induction false} ReachedByItsCreator(
      world: World, pools: set<nat>, look: Look, news: map<nat, Found>, after: Members, pid: nat, created: nat)
    returns (c: nat)
    requires Lawful(world) && Held(world, after, look.sent) && Placed(world, after)
    requires pid in look.found && IsProcess(world, look, pid) && look.found[pid].created == created
    requires OwedAfter(after, pools, news, look.parents, pid, created)
    ensures c in after && after[c].fate != LEFT && world[created].creator == Some(after[c].created)
    ensures after[c].fate == SIGNALLED ==> c in news || created < after[c].reached
  {
    c := Creator(look.parents, pid);
    TheCreatorItself(world, look, after, pid, created);
  }

  /** No newcomer a later listing reaches is trap work: its creator was reached before the signal, or was no shell. */
  lemma {:induction false} NewcomerClean(world: World, pools: set<nat>, s: State, look: Look, t: State, pid: nat)
    requires Lawful(world) && Clean(world, s, look.sent) && Meets(world, s, look)
    requires Step(world, pools, false, s, look, t)
    requires Held(world, t.members, look.sent) && Placed(world, t.members)
    requires pid in Newcomers(s.members, look) && t.members[pid].fate != LEFT
    ensures !TrapWork(world, t.signalled, t.members[pid].created)
    decreases t.members[pid].created
  {
    var news, created := Newcomers(s.members, look), t.members[pid].created;
    assert pid in news && IsProcess(world, look, pid);
    var c := ReachedByItsCreator(world, pools, look, news, t.members, pid, created);
    var creator := t.members[c].created;
    assert Created(world, creator, created);
    if c in Newcomers(s.members, look) {
      NewRecorded(world, pools, false, s, look, t, c);
      NewcomerClean(world, pools, s, look, t, c);
    } else {
      assert c in Kept(s.members, look);
      KeptRecorded(world, pools, false, s, look, t, c);
    }
    assert !(creator in t.signalled && t.signalled[creator] <= created);
  }

  ghost predicate Placed(world: World, members: Members) {
    forall p | p in members :: members[p].created in world && world[members[p].created].pid == p
  }

  lemma {:induction false} AllRecorded(
      world: World, pools: set<nat>, first: bool, s: State, look: Look, t: State, pid: nat)
    requires Lawful(world) && Clean(world, s, look.sent) && Meets(world, s, look)
    requires Step(world, pools, first, s, look, t)
    requires Held(world, t.members, look.sent) && (first ==> s.signalled == map[]) && pid in t.members
    ensures Recorded(world, t, look.sent, pid)
  {
    if pid in Newcomers(s.members, look) {
      NewRecorded(world, pools, first, s, look, t, pid);
      assert IsProcess(world, look, pid);
      if first {
        NoTrapYet(world, t.members[pid].created);
        TrapWorkStill(world, pools, first, s, look, t, t.members[pid].created);
      } else if t.members[pid].fate != LEFT {
        NewcomerClean(world, pools, s, look, t, pid);
      }
    } else {
      KeptRecorded(world, pools, first, s, look, t, pid);
    }
  }

  lemma {:induction false} LogClean(world: World, pools: set<nat>, first: bool, s: State, look: Look, t: State, c: nat)
    requires Lawful(world) && Clean(world, s, look.sent) && Meets(world, s, look)
    requires Step(world, pools, first, s, look, t)
    requires Held(world, t.members, look.sent) && (first ==> s.signalled == map[]) && (c in t.signalled || c in t.ended)
    ensures c in world && c < look.sent && !TrapWork(world, t.signalled, c)
  {
    if c in s.signalled || c in s.ended {
      TrapWorkStill(world, pools, first, s, look, t, c);
    } else {
      AllRecorded(world, pools, first, s, look, t, world[c].pid);
    }
  }

  lemma {:induction false} LogKept(world: World, pools: set<nat>, first: bool, s: State, look: Look, t: State, c: nat)
    requires Lawful(world) && Clean(world, s, look.sent) && Step(world, pools, first, s, look, t) && c in t.signalled
    ensures c in t.gone || exists pid :: pid in t.members && t.members[pid].created == c
  {
    if c !in s.signalled {
      assert t.members[world[c].pid].created == c;
    } else if c !in s.gone {
      var pid :| pid in s.members && s.members[pid].created == c;
      if pid in Kept(s.members, look) { assert t.members[pid].created == c; } else {
        assert c in LetGo(world, s.members, look);
      }
    }
  }

  /** What one listing does, the next finds clean. */
  lemma {:induction false} StepClean(world: World, pools: set<nat>, first: bool, s: State, look: Look, t: State)
    requires Lawful(world) && Clean(world, s, look.sent) && Meets(world, s, look)
    requires Step(world, pools, first, s, look, t)
    requires Held(world, t.members, look.sent) && (first ==> s.signalled == map[])
    ensures Clean(world, t, look.sent)
  {
    forall pid | pid in t.members
      ensures Recorded(world, t, look.sent, pid)
    {
      AllRecorded(world, pools, first, s, look, t, pid);
    }
    forall c | c in t.signalled || c in t.ended
      ensures c in world && c < look.sent && !TrapWork(world, t.signalled, c)
    {
      LogClean(world, pools, first, s, look, t, c);
    }
    forall c | c in t.signalled ensures c in t.gone || exists pid :: pid in t.members && t.members[pid].created == c {
      LogKept(world, pools, first, s, look, t, c);
    }
  }

  // ----- every listing of a stop

  /** The run `wind_down` makes of its listings, and what the system makes true of them. */
  ghost predicate Run(world: World, pools: set<nat>, states: seq<State>, looks: seq<Look>) {
    && Lawful(world) && |states| == |looks| + 1 && states[0] == State(map[], map[], {}, {})
    && (forall i | 0 <= i < |looks| :: RunStep(world, pools, states, looks, i))
    && (forall i, j | 0 <= i <= j < |looks| :: looks[i].sent <= looks[j].sent)
  }

  ghost predicate RunStep(world: World, pools: set<nat>, states: seq<State>, looks: seq<Look>, i: nat)
    requires |states| == |looks| + 1 && i < |looks|
  {
    && Step(world, pools, i == 0, states[i], looks[i], states[i + 1]) && Meets(world, states[i], looks[i])
    && Held(world, states[i + 1].members, looks[i].sent)
  }

  lemma {:induction false} RunClean(
      world: World, pools: set<nat>, states: seq<State>, looks: seq<Look>, n: nat, now: nat)
    requires Run(world, pools, states, looks) && n <= |looks| && (n > 0 ==> looks[n - 1].sent <= now)
    ensures Clean(world, states[n], now)
  {
    if n > 0 {
      RunClean(world, pools, states, looks, n - 1, looks[n - 1].sent);
      assert RunStep(world, pools, states, looks, n - 1);
      StepClean(world, pools, n - 1 == 0, states[n - 1], looks[n - 1], states[n]);
    }
  }

  /** Whatever the listings show, no process a trap started, nor anything below it, is ever signalled or ended. */
  lemma {:induction false} TrapWorkIsLeft(world: World, pools: set<nat>, states: seq<State>, looks: seq<Look>, t: nat)
    requires Run(world, pools, states, looks) && t in world && TrapWork(world, states[|looks|].signalled, t)
    ensures t !in states[|looks|].signalled && t !in states[|looks|].ended
  {
    RunClean(world, pools, states, looks, |looks|, if looks == [] then 0 else looks[|looks| - 1].sent);
  }

  /** The standing of its own creator, where the stop still holds that. */
  ghost predicate Dictated(world: World, pools: set<nat>, t: State, created: nat)
    requires created in world
  {
    exists c :: c in t.members && world[created].creator == Some(t.members[c].created) && Passes(pools, t, c, created)
  }

  ghost predicate Passes(pools: set<nat>, t: State, c: nat, created: nat)
    requires c in t.members
  {
    match t.members[c].fate
    case SIGNALLED => t.members[c].created in t.signalled && created < t.signalled[t.members[c].created]
    case ENDED => true
    case SPARED => c in pools
    case LEFT => false
  }

  lemma {:induction false} OwedIsDictated(
      world: World, pools: set<nat>, s: State, look: Look, t: State, pid: nat, created: nat)
    requires Lawful(world) && Clean(world, s, look.sent) && Meets(world, s, look)
    requires Step(world, pools, false, s, look, t)
    requires Held(world, t.members, look.sent) && Placed(world, t.members)
    requires pid in look.found && IsProcess(world, look, pid) && look.found[pid].created == created
    ensures OwedAfter(t.members, pools, Newcomers(s.members, look), look.parents, pid, created)
      <==> pid in look.parents && Dictated(world, pools, t, created)
  {
    if OwedAfter(t.members, pools, Newcomers(s.members, look), look.parents, pid, created) {
      TheCreatorItself(world, look, t.members, pid, created);
      PassesAsOwed(world, pools, s, look, t, Creator(look.parents, pid), created);
    }
    if pid in look.parents && Dictated(world, pools, t, created) {
      var d :| d in t.members && world[created].creator == Some(t.members[d].created) && Passes(pools, t, d, created);
      assert Created(world, t.members[d].created, created);
      assert d == Creator(look.parents, pid);
      PassesAsOwed(world, pools, s, look, t, d, created);
    }
  }

  /** One sweep settles every newcomer by the process that created it, whatever pids have been reused since. */
  lemma {:induction false} FateIsTheCreators(world: World, pools: set<nat>, s: State, look: Look, t: State, pid: nat)
    requires Lawful(world) && Clean(world, s, look.sent) && Meets(world, s, look)
    requires Step(world, pools, false, s, look, t)
    requires Held(world, t.members, look.sent) && pid in Newcomers(s.members, look)
    ensures t.members[pid].created in world
    ensures t.members[pid].fate
      == if !(pid in look.parents && Dictated(world, pools, t, t.members[pid].created)) then LEFT
         else if t.members[pid].msys then SIGNALLED else ENDED
  {
    var news, created := Newcomers(s.members, look), t.members[pid].created;
    assert pid in news && IsProcess(world, look, pid);
    OwedIsDictated(world, pools, s, look, t, pid, created);
  }

  lemma {:induction false} PassesAsOwed(
      world: World, pools: set<nat>, s: State, look: Look, t: State, c: nat, created: nat)
    requires Lawful(world) && Clean(world, s, look.sent) && Meets(world, s, look)
    requires Step(world, pools, false, s, look, t)
    requires Held(world, t.members, look.sent) && c in t.members && created < look.sent
    ensures Passes(pools, t, c, created) <==> match t.members[c].fate
      case SIGNALLED => c in Newcomers(s.members, look) || created < t.members[c].reached
      case ENDED => true
      case SPARED => c in pools
      case LEFT => false
  {
    AllRecorded(world, pools, false, s, look, t, c);
    if c in Newcomers(s.members, look) { NewRecorded(world, pools, false, s, look, t, c); }
  }

  // ----- where a pid is reused under an open handle

  /** A shell that started a native, then from its trap a process taking the native's pid, which started one more. */
  function ReusedWorld(): World {
    map[1 := Process(10, true, None), 2 := Process(20, false, Some(1)), 6 := Process(20, false, Some(1)),
      7 := Process(30, false, Some(6))]
  }

  function ReusedMembers(): Members {
    map[10 := Member(1, true, SIGNALLED, 5), 20 := Member(2, false, ENDED, 0)]
  }

  /** The stop's first listing: the shell and its native, one signalled and one ended. */
  function FirstLook(): Look {
    Look([10, 20], {}, map[10 := Found(1, true), 20 := Found(2, false)], map[20 := 10], 5)
  }

  function Unbegun(): State { State(map[], map[], {}, {}) }

  function ReusedLook(): Look {
    Look([30], {}, map[30 := Found(7, false)], map[30 := 20], 8)
  }

  function ReusedBefore(): State {
    State(ReusedMembers(), map[1 := 5], {2}, {})
  }

  function ReusedAfter(): State {
    State(ReusedMembers()[30 := Member(7, false, ENDED, 0)], map[1 := 5], {2, 7}, {})
  }

  /**
   * The creation times alone do not see every reuse: were a pid taken again while the stop still held the record of
   * the process it ended there, what a trap started would be ended as that process's own.
   */
  lemma {:induction false} UnheldPidsReachTrapWork()
    ensures Lawful(ReusedWorld())
    ensures Meets(ReusedWorld(), Unbegun(), FirstLook()) && Held(ReusedWorld(), ReusedBefore().members, 5)
    ensures Step(ReusedWorld(), {}, true, Unbegun(), FirstLook(), ReusedBefore())
    ensures Clean(ReusedWorld(), ReusedBefore(), 8) && Meets(ReusedWorld(), ReusedBefore(), ReusedLook())
    ensures Step(ReusedWorld(), {}, false, ReusedBefore(), ReusedLook(), ReusedAfter())
    ensures !Held(ReusedWorld(), ReusedAfter().members, 8)
    ensures 7 in ReusedAfter().ended && TrapWork(ReusedWorld(), ReusedAfter().signalled, 7)
  {
    ReusedTraps();
    FirstStep();
    FirstClean();
    ReusedStep();
    ReusedUnheld();
  }

  lemma {:induction false} FirstClean()
    ensures Lawful(ReusedWorld()) && Clean(ReusedWorld(), ReusedBefore(), 8)
  {
    ReusedTraps();
    FirstStep();
    OneStepRuns(ReusedWorld(), {}, FirstLook(), ReusedBefore());
    RunClean(ReusedWorld(), {}, [Unbegun(), ReusedBefore()], [FirstLook()], 1, 8);
  }

  lemma {:induction false} OneStepRuns(world: World, pools: set<nat>, look: Look, after: State)
    requires Lawful(world) && Step(world, pools, true, Unbegun(), look, after)
    requires Meets(world, Unbegun(), look) && Held(world, after.members, look.sent)
    ensures Run(world, pools, [Unbegun(), after], [look])
  {
    assert RunStep(world, pools, [Unbegun(), after], [look], 0);
  }

  lemma {:induction false} ReusedUnheld()
    ensures !Held(ReusedWorld(), ReusedAfter().members, 8)
  {
    var world := ReusedWorld();
    assert 20 in ReusedAfter().members && ReusedAfter().members[20].created == 2;
    assert 6 in world && world[6].pid == 20;
  }

  lemma {:induction false} ReusedTraps()
    ensures Lawful(ReusedWorld())
    ensures TrapWork(ReusedWorld(), map[1 := 5], 7) && !TrapWork(ReusedWorld(), map[1 := 5], 1)
    ensures !TrapWork(ReusedWorld(), map[1 := 5], 2)
  {
    var world := ReusedWorld();
    assert world.Keys == {1, 2, 6, 7};
    assert Lawful(world);
    assert TrapWork(world, map[1 := 5], 6);
  }

  lemma {:induction false} FirstNews()
    ensures Newcomers(map[], FirstLook()) == FirstLook().found && Kept(map[], FirstLook()) == map[]
    ensures LetGo(ReusedWorld(), map[], FirstLook()) == {}
  {
    assert FirstLook().listed[0] == 10 && FirstLook().listed[1] == 20;
    assert Newcomers(map[], FirstLook()).Keys == {10, 20};
  }

  lemma {:induction false} FirstLog(news: map<nat, Found>)
    requires news == FirstLook().found
    ensures SignalledNow(ReusedWorld(), news, ReusedMembers(), 5) == map[1 := 5]
    ensures EndedNow(ReusedWorld(), news, ReusedMembers()) == {2}
  {
    var after := ReusedMembers();
    assert after[10] == Member(1, true, SIGNALLED, 5) && after[20] == Member(2, false, ENDED, 0);
    assert 10 in news && 20 in news && ReusedWorld()[1].pid == 10 && ReusedWorld()[2].pid == 20;
  }

  lemma {:induction false} NoClimb(news: map<nat, Found>, parents: map<nat, nat>, path: seq<nat>)
    ensures !Climb(news, parents, {}, path)
  {
    if |path| > 1 { NoClimb(news, parents, path[..|path| - 1]); }
  }

  lemma {:induction false} NothingSpared(news: map<nat, Found>, parents: map<nat, nat>, pid: nat)
    ensures !ToSpare(news, parents, {}, pid)
  {
    forall path ensures !Climb(news, parents, {}, path) { NoClimb(news, parents, path); }
  }

  lemma {:induction false} FirstSwept()
    ensures Swept(map[], {}, FirstLook(), true, ReusedMembers())
  {
    FirstNews();
    var look := FirstLook();
    forall pid | pid in look.found ensures !ToSpare(look.found, look.parents, {}, pid) {
      NothingSpared(look.found, look.parents, pid);
    }
  }

  lemma {:induction false} FirstMeets()
    ensures Meets(ReusedWorld(), Unbegun(), FirstLook()) && Held(ReusedWorld(), ReusedBefore().members, 5)
  {
    FirstNews();
    assert IsProcess(ReusedWorld(), FirstLook(), 10) && IsProcess(ReusedWorld(), FirstLook(), 20);
  }

  lemma {:induction false} FirstStep()
    ensures Meets(ReusedWorld(), Unbegun(), FirstLook()) && Held(ReusedWorld(), ReusedBefore().members, 5)
    ensures Step(ReusedWorld(), {}, true, Unbegun(), FirstLook(), ReusedBefore())
  {
    FirstMeets();
    FirstSwept();
    FirstNews();
    FirstLog(FirstLook().found);
  }

  lemma {:induction false} ReusedNews()
    ensures Newcomers(ReusedMembers(), ReusedLook()) == map[30 := Found(7, false)]
    ensures Kept(ReusedMembers(), ReusedLook()) == ReusedMembers()
    ensures LetGo(ReusedWorld(), ReusedMembers(), ReusedLook()) == {}
  {
    assert ReusedLook().listed[0] == 30;
    assert Newcomers(ReusedMembers(), ReusedLook()).Keys == {30};
  }

  lemma {:induction false} ReusedLog(news: map<nat, Found>, after: Members)
    requires news == map[30 := Found(7, false)] && after == ReusedAfter().members
    ensures SignalledNow(ReusedWorld(), news, after, 8) == map[] && EndedNow(ReusedWorld(), news, after) == {7}
  {
    assert after[30] == Member(7, false, ENDED, 0);
    assert 30 in news && EndedNow(ReusedWorld(), news, after) == {after[30].created};
  }

  lemma {:induction false} ReusedSwept()
    ensures Swept(ReusedMembers(), {}, ReusedLook(), false, ReusedAfter().members)
  {
    var look, after := ReusedLook(), ReusedAfter().members;
    ReusedNews();
    assert after[20].fate == ENDED && Creator(look.parents, 30) == 20;
    assert OwedAfter(after, {}, Newcomers(ReusedMembers(), look), look.parents, 30, 7);
  }

  lemma {:induction false} ReusedMeets()
    ensures Meets(ReusedWorld(), ReusedBefore(), ReusedLook())
  {
    ReusedNews();
    assert IsProcess(ReusedWorld(), ReusedLook(), 30);
  }

  lemma {:induction false} ReusedStep()
    ensures Meets(ReusedWorld(), ReusedBefore(), ReusedLook())
    ensures Step(ReusedWorld(), {}, false, ReusedBefore(), ReusedLook(), ReusedAfter())
  {
    ReusedMeets();
    ReusedSwept();
    ReusedNews();
    ReusedLog(Newcomers(ReusedMembers(), ReusedLook()), ReusedAfter().members);
  }
}
