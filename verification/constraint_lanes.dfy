/**
 * Applying declared constraints concurrently, one lane a namespace. Whatever order the lanes interleave in, the
 * failure raised is the one a run in declared order raises, and nothing that run would have applied is left out.
 */
module ConstraintLanes {
  import opened Results

  /** What one operation makes of its own namespace; a refused one may have changed it too. */
  datatype Outcome<S, E> = Applied(state: S) | Refused(state: S, error: E)

  datatype Operation<!S, !E> = Operation(namespace: string, run: S -> Outcome<S, E>)

  datatype Failure<E> = Failure(position: nat, error: E)

  datatype End<S, E> = End(world: map<string, S>, failure: Option<Failure<E>>)

  ghost predicate Named<S, E>(declared: seq<Operation<S, E>>, world: map<string, S>) {
    forall i | 0 <= i < |declared| :: declared[i].namespace in world
  }

  /** The declared order, stopping at the first failure. */
  function Sequential<S, E>(declared: seq<Operation<S, E>>, i: nat, world: map<string, S>): (end: End<S, E>)
    requires i <= |declared| && Named(declared, world)
    ensures end.failure.Some? ==> i <= end.failure.value.position < |declared|
    ensures end.world.Keys == world.Keys
    decreases |declared| - i
  {
    if i == |declared| then End(world, None)
    else
      var namespace := declared[i].namespace;
      match declared[i].run(world[namespace])
      case Applied(s) => Sequential(declared, i + 1, world[namespace := s])
      case Refused(s, e) => End(world[namespace := s], Some(Failure(i, e)))
  }

  // ----- one lane

  datatype Lane<S, E> = Lane(state: S, failure: Option<Failure<E>>)

  /**
   * One namespace's operations among the first `i`, in order, stopping at the first that fails: no other lane enters
   * into it.
   */
  function LaneAt<S, E>(declared: seq<Operation<S, E>>, namespace: string, start: S, i: nat): (lane: Lane<S, E>)
    requires i <= |declared|
    ensures lane.failure.Some? ==>
      lane.failure.value.position < i && declared[lane.failure.value.position].namespace == namespace
  {
    if i == 0 then Lane(start, None)
    else
      var before := LaneAt(declared, namespace, start, i - 1);
      if before.failure.Some? || declared[i - 1].namespace != namespace then before
      else
        match declared[i - 1].run(before.state)
        case Applied(s) => Lane(s, None)
        case Refused(s, e) => Lane(s, Some(Failure(i - 1, e)))
  }

  lemma LaneSkips<S, E>(declared: seq<Operation<S, E>>, namespace: string, start: S, i: nat, j: nat)
    requires i <= j <= |declared|
    requires LaneAt(declared, namespace, start, i).failure.Some? || forall k | i <= k < j ::
      declared[k].namespace != namespace
    ensures LaneAt(declared, namespace, start, j) == LaneAt(declared, namespace, start, i)
  {
  }

  lemma LaneFailsAt<S, E>(declared: seq<Operation<S, E>>, namespace: string, start: S, i: nat, j: nat)
    requires i <= j <= |declared|
    ensures LaneAt(declared, namespace, start, i).failure == None && LaneAt(declared, namespace, start, j).failure.Some?
      ==> LaneAt(declared, namespace, start, j).failure.value.position >= i
    ensures LaneAt(declared, namespace, start, i).failure.Some? ==>
      LaneAt(declared, namespace, start, j).failure == LaneAt(declared, namespace, start, i).failure
  {
  }

  /** The failure declared first among the lanes'. */
  ghost predicate First<S, E>(declared: seq<Operation<S, E>>, world: map<string, S>, failure: Option<Failure<E>>)
    requires Named(declared, world)
  {
    match failure
    case None => forall n | n in world :: LaneAt(declared, n, world[n], |declared|).failure == None
    case Some(f) =>
      && (exists n | n in world :: LaneAt(declared, n, world[n], |declared|).failure == failure)
      && forall n | n in world ::
           var other := LaneAt(declared, n, world[n], |declared|).failure;
           other.Some? ==> f.position <= other.value.position
  }

  lemma {:induction false} FirstUnique<S, E>(
      declared: seq<Operation<S, E>>, world: map<string, S>, a: Option<Failure<E>>, b: Option<Failure<E>>)
    requires Named(declared, world) && First(declared, world, a) && First(declared, world, b)
    ensures a == b
  {
    if a.Some? && b.Some? {
      var n :| n in world && LaneAt(declared, n, world[n], |declared|).failure == a;
      var m :| m in world && LaneAt(declared, m, world[m], |declared|).failure == b;
      assert declared[a.value.position].namespace == n && declared[b.value.position].namespace == m;
    }
  }

  /** While nothing has failed, a sequential run holds every namespace where its own lane does. */
  lemma {:induction false} SequentialIsFirst<S, E>(
      declared: seq<Operation<S, E>>, i: nat, start: map<string, S>, world: map<string, S>)
    requires i <= |declared| && Named(declared, start) && world.Keys == start.Keys
    requires forall n | n in start :: LaneAt(declared, n, start[n], i) == Lane(world[n], None)
    ensures First(declared, start, Sequential(declared, i, world).failure)
    ensures Sequential(declared, i, world).failure == None ==>
      Sequential(declared, i, world).world == map n | n in start :: LaneAt(declared, n, start[n], |declared|).state
    decreases |declared| - i
  {
    if i == |declared| {
      assert world == map n | n in start :: LaneAt(declared, n, start[n], |declared|).state;
    } else {
      var ns := declared[i].namespace;
      var outcome, j := declared[i].run(world[ns]), i + 1;
      if outcome.Applied? {
        SequentialIsFirst(declared, j, start, world[ns := outcome.state]);
      } else {
        assert LaneAt(declared, ns, start[ns], j).failure == Some(Failure(i, outcome.error));
        forall n | n in start
          ensures var other := LaneAt(declared, n, start[n], |declared|).failure; other.Some? ==>
            i <= other.value.position
        {
          LaneFailsAt(declared, n, start[n], i, |declared|);
        }
        LaneFailsAt(declared, ns, start[ns], j, |declared|);
      }
    }
  }

  // ----- the concurrent run

  /** The declared positions of one namespace below `upto`, in order. */
  function Positions<S, E>(declared: seq<Operation<S, E>>, n: string, upto: nat): seq<nat>
    requires upto <= |declared|
  {
    if upto == 0 then []
    else Positions(declared, n, upto - 1) + if declared[upto - 1].namespace == n then [upto - 1] else []
  }

  lemma PositionsAre<S, E>(declared: seq<Operation<S, E>>, n: string, upto: nat)
    requires upto <= |declared|
    ensures var lane := Positions(declared, n, upto);
      && (forall k | 0 <= k < |lane| :: lane[k] < upto && declared[lane[k]].namespace == n)
      && (forall k, l | 0 <= k < l < |lane| :: lane[k] < lane[l])
      && (forall i | 0 <= i < upto && declared[i].namespace == n :: i in lane)
  {
  }

  function Namespaces<S, E>(declared: seq<Operation<S, E>>, upto: nat): set<string>
    requires upto <= |declared|
  {
    set i | 0 <= i < upto :: declared[i].namespace
  }

  ghost predicate AreLanes<S, E>(declared: seq<Operation<S, E>>, lanes: map<string, seq<nat>>, upto: nat)
    requires upto <= |declared|
  {
    lanes.Keys == Namespaces(declared, upto) && forall n | n in lanes :: lanes[n] == Positions(declared, n, upto)
  }

  lemma {:induction false} NoPositions<S, E>(declared: seq<Operation<S, E>>, n: string, upto: nat)
    requires upto <= |declared| && n !in Namespaces(declared, upto)
    ensures Positions(declared, n, upto) == []
  {
    if upto > 0 {
      assert declared[upto - 1].namespace in Namespaces(declared, upto);
      assert Namespaces(declared, upto - 1) <= Namespaces(declared, upto);
      NoPositions(declared, n, upto - 1);
    }
  }

  /** Numbered before the split, so a rank is the declared position and not the one within a lane. */
  method SplitIntoLanes<S, E>(declared: seq<Operation<S, E>>) returns (lanes: map<string, seq<nat>>)
    ensures AreLanes(declared, lanes, |declared|)
  {
    lanes := map[];
    for i := 0 to |declared|
      invariant AreLanes(declared, lanes, i)
    {
      var n := declared[i].namespace;
      if n !in lanes { NoPositions(declared, n, i); }
      assert Namespaces(declared, i + 1) == Namespaces(declared, i) + {n};
      lanes := lanes[n := (if n in lanes then lanes[n] else []) + [i]];
    }
  }

  /** How far a lane has run, and the failure it stopped at. */
  datatype Progress<E> = Progress(done: nat, failure: Option<Failure<E>>)

  predicate Stopped<E>(lane: seq<nat>, p: Progress<E>) {
    p.failure.Some? || p.done == |lane|
  }

  /** Whatever the other lanes have done, a lane stands where it would alone. */
  ghost predicate StandsAlone<S, E>(declared: seq<Operation<S, E>>, n: string, start: S, state: S, p: Progress<E>) {
    var lane := Positions(declared, n, |declared|);
    && p.done <= |lane|
    && (if p.failure.Some? then p.done < |lane| && p.failure.value.position == lane[p.done]
      && LaneAt(declared, n, start, |declared|) == Lane(state, p.failure)
        else StandsBefore(declared, n, start, state, if p.done < |lane| then lane[p.done] else |declared|))
  }

  ghost predicate StandsBefore<S, E>(declared: seq<Operation<S, E>>, n: string, start: S, state: S, i: nat) {
    i <= |declared| && LaneAt(declared, n, start, i) == Lane(state, None)
  }

  function Stepped<S, E>(p: Progress<E>, position: nat, outcome: Outcome<S, E>): Progress<E> {
    if outcome.Applied? then Progress(p.done + 1, None) else Progress(p.done, Some(Failure(position, outcome.error)))
  }

  lemma {:induction false} LaneGap<S, E>(declared: seq<Operation<S, E>>, n: string, d: nat, i: nat)
    requires var lane := Positions(declared, n, |declared|);
      d < |lane| && lane[d] < i < |declared| && (d + 1 < |lane| ==> i < lane[d + 1])
    ensures declared[i].namespace != n
  {
    PositionsAre(declared, n, |declared|);
    var lane := Positions(declared, n, |declared|);
    forall x | 0 <= x < |lane| ensures lane[x] != i {
      assert x < d ==> lane[x] < lane[d];
      assert x > d + 1 ==> lane[d + 1] < lane[x];
    }
  }

  lemma {:induction false} LaneSteps<S, E>(
      declared: seq<Operation<S, E>>, n: string, start: S, state: S, p: Progress<E>)
    requires StandsAlone(declared, n, start, state, p) && !Stopped(Positions(declared, n, |declared|), p)
    ensures var position := Positions(declared, n, |declared|)[p.done];
      && position < |declared|
      && var outcome := declared[position].run(state);
         StandsAlone(declared, n, start, outcome.state, Stepped(p, position, outcome))
  {
    PositionsAre(declared, n, |declared|);
    var lane := Positions(declared, n, |declared|);
    var position := lane[p.done];
    var outcome, after := declared[position].run(state), position + 1;
    assert LaneAt(declared, n, start, after) == Lane(outcome.state, Stepped(p, position, outcome).failure);
    if outcome.Applied? {
      LaneReachesNext(declared, n, start, p.done);
    } else {
      LaneSkips(declared, n, start, after, |declared|);
    }
  }

  /** Past one of its positions a lane stays where it is until its next. */
  lemma {:induction false} LaneReachesNext<S, E>(declared: seq<Operation<S, E>>, n: string, start: S, d: nat)
    requires d < |Positions(declared, n, |declared|)|
    ensures var lane := Positions(declared, n, |declared|);
      && lane[d] < |declared| && (d + 1 < |lane| ==> lane[d] < lane[d + 1] < |declared|)
      && LaneAt(declared, n, start, if d + 1 < |lane| then lane[d + 1] else |declared|)
         == LaneAt(declared, n, start, lane[d] + 1)
  {
    PositionsAre(declared, n, |declared|);
    var lane := Positions(declared, n, |declared|);
    var next := if d + 1 < |lane| then lane[d + 1] else |declared|;
    forall i | lane[d] + 1 <= i < next ensures declared[i].namespace != n { LaneGap(declared, n, d, i); }
    LaneSkips(declared, n, start, lane[d] + 1, next);
  }

  ghost predicate AllAlone<S, E>(
      declared: seq<Operation<S, E>>, start: map<string, S>, world: map<string, S>,
      progress: map<string, Progress<E>>) {
    && world.Keys == start.Keys && progress.Keys == Namespaces(declared, |declared|) <= start.Keys
    && (forall n | n in progress :: StandsAlone(declared, n, start[n], world[n], progress[n]))
    && (forall n | n in start && n !in progress :: world[n] == start[n])
  }

  lemma {:induction false} LanesBegin<S, E>(
      declared: seq<Operation<S, E>>, start: map<string, S>, progress: map<string, Progress<E>>)
    requires Named(declared, start) && progress.Keys == Namespaces(declared, |declared|)
    requires forall n | n in progress :: progress[n] == Progress(0, None)
    ensures AllAlone(declared, start, start, progress)
  {
    forall n | n in progress ensures StandsAlone(declared, n, start[n], start[n], progress[n]) {
      PositionsAre(declared, n, |declared|);
      var lane := Positions(declared, n, |declared|);
      var next := if lane == [] then |declared| else lane[0];
      forall i | 0 <= i < next ensures declared[i].namespace != n {
        forall x | 0 <= x < |lane| ensures lane[x] != i { assert x > 0 ==> lane[0] < lane[x]; }
      }
      LaneSkips(declared, n, start[n], 0, next);
    }
  }

  function Ready<E>(lanes: map<string, seq<nat>>, progress: map<string, Progress<E>>): set<string>
    requires lanes.Keys <= progress.Keys
  {
    set n | n in lanes && !Stopped(lanes[n], progress[n])
  }

  /** The work left in every lane. */
  ghost function Left<E>(lanes: map<string, seq<nat>>, progress: map<string, Progress<E>>): nat
    requires lanes.Keys <= progress.Keys
    decreases |lanes|
  {
    if lanes == map[] then 0
    else
      var n :| n in lanes;
      LeftIn(lanes[n], progress[n]) + Left(lanes - {n}, progress)
  }

  ghost function LeftIn<E>(lane: seq<nat>, p: Progress<E>): nat {
    if Stopped(lane, p) || p.done > |lane| then 0 else |lane| - p.done
  }

  lemma {:induction false} LeftSplit<E>(lanes: map<string, seq<nat>>, progress: map<string, Progress<E>>, n: string)
    requires lanes.Keys <= progress.Keys && n in lanes
    ensures Left(lanes, progress) == LeftIn(lanes[n], progress[n]) + Left(lanes - {n}, progress)
    decreases |lanes|
  {
    var m :| m in lanes && Left(lanes, progress) == LeftIn(lanes[m], progress[m]) + Left(lanes - {m}, progress);
    if m != n {
      LeftSplit(lanes - {m}, progress, n);
      LeftSplit(lanes - {n}, progress, m);
      assert lanes - {m} - {n} == lanes - {n} - {m};
    }
  }

  lemma {:induction false} LeftElsewhere<E>(
      lanes: map<string, seq<nat>>, progress: map<string, Progress<E>>, n: string, next: Progress<E>)
    requires lanes.Keys <= progress.Keys && n !in lanes
    ensures Left(lanes, progress[n := next]) == Left(lanes, progress)
    decreases |lanes|
  {
    if lanes != map[] {
      var m :| m in lanes;
      LeftSplit(lanes, progress, m);
      LeftSplit(lanes, progress[n := next], m);
      LeftElsewhere(lanes - {m}, progress, n, next);
    }
  }

  lemma {:induction false} LeftFalls<E>(
      lanes: map<string, seq<nat>>, progress: map<string, Progress<E>>, n: string, next: Progress<E>)
    requires lanes.Keys <= progress.Keys && n in lanes && progress[n].done < |lanes[n]| && progress[n].failure == None
    requires next.failure.Some? || next.done == progress[n].done + 1
    ensures Left(lanes, progress[n := next]) < Left(lanes, progress)
  {
    LeftSplit(lanes, progress, n);
    LeftSplit(lanes, progress[n := next], n);
    LeftElsewhere(lanes - {n}, progress, n, next);
  }

  ghost predicate IsFirst<E>(progress: map<string, Progress<E>>, first: Option<Failure<E>>) {
    && (first == None <==> forall n | n in progress :: progress[n].failure == None)
    && (first.Some? ==> exists n | n in progress :: progress[n].failure == first)
    && (first.Some? ==> forall n | n in progress && progress[n].failure.Some? ::
      first.value.position <= progress[n].failure.value.position)
  }

  /** `min(failures, key=lambda failure: failure[0])[1]`, where any lane failed. */
  method FirstFailure<E>(progress: map<string, Progress<E>>) returns (first: Option<Failure<E>>)
    ensures IsFirst(progress, first)
  {
    first := None;
    var left := progress.Keys;
    while left != {}
      invariant left <= progress.Keys
      invariant first == None <==> forall n | n in progress && n !in left :: progress[n].failure == None
      invariant first.Some? ==> exists n | n in progress :: progress[n].failure == first
      invariant first.Some? ==> forall n | n in progress && n !in left && progress[n].failure.Some? ::
        first.value.position <= progress[n].failure.value.position
      decreases |left|
    {
      var n :| n in left;
      left := left - {n};
      var failure := progress[n].failure;
      if failure.Some? && (first == None || failure.value.position < first.value.position) { first := failure; }
    }
  }

  /** What the lanes have applied: each one's positions up to where it stands. */
  ghost predicate Done<S, E>(declared: seq<Operation<S, E>>, progress: map<string, Progress<E>>, i: nat)
    requires i < |declared|
  {
    var n := declared[i].namespace;
    n in progress && progress[n].done <= |Positions(declared, n, |declared|)|
      && i in Positions(declared, n, |declared|)[..progress[n].done]
  }

  lemma {:induction false} AllStayAlone<S, E>(
      declared: seq<Operation<S, E>>, start: map<string, S>, world: map<string, S>,
      progress: map<string, Progress<E>>, n: string)
    requires AllAlone(declared, start, world, progress)
    requires n in progress && !Stopped(Positions(declared, n, |declared|), progress[n])
    ensures n in world && progress[n].done < |Positions(declared, n, |declared|)|
    ensures var position := Positions(declared, n, |declared|)[progress[n].done];
      && position < |declared|
      && var outcome := declared[position].run(world[n]);
         AllAlone(declared, start, world[n := outcome.state], progress[n := Stepped(progress[n], position, outcome)])
  {
    assert StandsAlone(declared, n, start[n], world[n], progress[n]);
    LaneSteps(declared, n, start[n], world[n], progress[n]);
    var position := Positions(declared, n, |declared|)[progress[n].done];
    var outcome := declared[position].run(world[n]);
    var state, step := outcome.state, Stepped(progress[n], position, outcome);
    var world', progress' := world[n := state], progress[n := step];
    forall m | m in progress' ensures StandsAlone(declared, m, start[m], world'[m], progress'[m]) {
      if m != n { assert StandsAlone(declared, m, start[m], world[m], progress[m]); }
    }
    assert world'.Keys == world.Keys && progress'.Keys == progress.Keys;
  }

  lemma {:induction false} NoneReady<S, E>(
      declared: seq<Operation<S, E>>, lanes: map<string, seq<nat>>, progress: map<string, Progress<E>>)
    requires AreLanes(declared, lanes, |declared|) && progress.Keys == lanes.Keys && Ready(lanes, progress) == {}
    ensures forall n | n in progress :: Stopped(Positions(declared, n, |declared|), progress[n])
  {
    forall n | n in progress
      ensures Stopped(Positions(declared, n, |declared|), progress[n])
    {
      assert n !in Ready(lanes, progress);
    }
  }

  method RunLanes<S, E>(declared: seq<Operation<S, E>>, start: map<string, S>)
    returns (world: map<string, S>, progress: map<string, Progress<E>>)
    requires Named(declared, start)
    ensures AllAlone(declared, start, world, progress)
    ensures forall n | n in progress :: Stopped(Positions(declared, n, |declared|), progress[n])
  {
    var lanes := SplitIntoLanes(declared);
    progress, world := map n | n in lanes :: Progress(0, None), start;
    LanesBegin(declared, start, progress);
    while Ready(lanes, progress) != {}
      invariant progress.Keys == lanes.Keys
      invariant AllAlone(declared, start, world, progress)
      decreases Left(lanes, progress)
    {
      var n :| n in Ready(lanes, progress);
      AllStayAlone(declared, start, world, progress, n);
      var position := lanes[n][progress[n].done];
      var outcome := declared[position].run(world[n]);
      LeftFalls(lanes, progress, n, Stepped(progress[n], position, outcome));
      world, progress := world[n := outcome.state], progress[n := Stepped(progress[n], position, outcome)];
    }
    NoneReady(declared, lanes, progress);
  }

  /** An operation is applied where its own lane has met no failure up to and with it. */
  ghost predicate Applies<S, E>(declared: seq<Operation<S, E>>, start: map<string, S>, i: int)
    requires Named(declared, start)
  {
    0 <= i < |declared|
    && LaneAt(declared, declared[i].namespace, start[declared[i].namespace], i + 1).failure == None
  }

  /** Every namespace is left where its own lane ends, a failed one among them. */
  ghost predicate LanesLeave<S, E>(declared: seq<Operation<S, E>>, start: map<string, S>, world: map<string, S>) {
    world.Keys == start.Keys && forall n | n in start :: world[n] == LaneAt(declared, n, start[n], |declared|).state
  }

  /**
   * Every lane runs on to its own end, in an order left open at each step. Whatever that order is: the failure is the
   * sequential run's, the world is too where none failed, every namespace is left where its lane ends, and exactly
   * what comes before its lane's failure is applied.
   */
  method ApplyConcurrently<S, E>(declared: seq<Operation<S, E>>, start: map<string, S>)
    returns (world: map<string, S>, failure: Option<Failure<E>>, ghost applied: set<nat>)
    requires Named(declared, start)
    ensures failure == Sequential(declared, 0, start).failure
    ensures failure == None ==> world == Sequential(declared, 0, start).world
    ensures LanesLeave(declared, start, world)
    ensures forall i :: i in applied <==> Applies(declared, start, i)
  {
    var progress;
    world, progress := RunLanes(declared, start);
    failure := FirstFailure(progress);
    applied := set i | 0 <= i < |declared| && Done(declared, progress, i);
    AllStopped(declared, start, world, progress, failure);
    AllDone(declared, start, world, progress);
  }

  ghost predicate AtEnd<S, E>(
      declared: seq<Operation<S, E>>, n: string, start: S, state: S, failure: Option<Failure<E>>) {
    LaneAt(declared, n, start, |declared|) == Lane(state, failure)
  }

  function FailureOf<E>(progress: map<string, Progress<E>>, n: string): Option<Failure<E>> {
    if n in progress then progress[n].failure else None
  }

  lemma {:induction false} LanesEnd<S, E>(
      declared: seq<Operation<S, E>>, start: map<string, S>, world: map<string, S>,
      progress: map<string, Progress<E>>)
    requires Named(declared, start) && AllAlone(declared, start, world, progress)
    requires forall n | n in progress :: Stopped(Positions(declared, n, |declared|), progress[n])
    ensures forall n | n in start :: AtEnd(declared, n, start[n], world[n], FailureOf(progress, n))
  {
    forall n | n in start ensures AtEnd(declared, n, start[n], world[n], FailureOf(progress, n)) {
      if n in progress {
        assert StandsAlone(declared, n, start[n], world[n], progress[n]);
      } else {
        forall i | 0 <= i < |declared|
          ensures declared[i].namespace != n
        {
          assert declared[i].namespace in Namespaces(declared, |declared|);
        }
        LaneSkips(declared, n, start[n], 0, |declared|);
      }
    }
  }

  lemma {:induction false} FirstOfAll<S, E>(
      declared: seq<Operation<S, E>>, start: map<string, S>, world: map<string, S>,
      progress: map<string, Progress<E>>, failure: Option<Failure<E>>)
    requires Named(declared, start) && world.Keys == start.Keys && progress.Keys <= start.Keys
    requires forall n | n in start :: AtEnd(declared, n, start[n], world[n], FailureOf(progress, n))
    requires IsFirst(progress, failure)
    ensures First(declared, start, failure)
  {
    forall n | n in start ensures LaneAt(declared, n, start[n], |declared|).failure == FailureOf(progress, n) {
      assert AtEnd(declared, n, start[n], world[n], FailureOf(progress, n));
    }
  }

  lemma {:induction false} AllStopped<S, E>(
      declared: seq<Operation<S, E>>, start: map<string, S>, world: map<string, S>,
      progress: map<string, Progress<E>>, failure: Option<Failure<E>>)
    requires Named(declared, start) && AllAlone(declared, start, world, progress) && IsFirst(progress, failure)
    requires forall n | n in progress :: Stopped(Positions(declared, n, |declared|), progress[n])
    ensures failure == Sequential(declared, 0, start).failure
    ensures failure == None ==> world == Sequential(declared, 0, start).world
    ensures LanesLeave(declared, start, world)
  {
    LanesEnd(declared, start, world, progress);
    FirstOfAll(declared, start, world, progress, failure);
    SequentialIsFirst(declared, 0, start, start);
    FirstUnique(declared, start, failure, Sequential(declared, 0, start).failure);
    forall n | n in start ensures LaneAt(declared, n, start[n], |declared|).state == world[n] {
      assert AtEnd(declared, n, start[n], world[n], FailureOf(progress, n));
    }
  }

  lemma {:induction false} AllDone<S, E>(
      declared: seq<Operation<S, E>>, start: map<string, S>, world: map<string, S>,
      progress: map<string, Progress<E>>)
    requires Named(declared, start) && AllAlone(declared, start, world, progress)
    requires forall n | n in progress :: Stopped(Positions(declared, n, |declared|), progress[n])
    ensures forall i | 0 <= i < |declared| :: Done(declared, progress, i) <==> Applies(declared, start, i)
  {
    LanesEnd(declared, start, world, progress);
    forall i | 0 <= i < |declared| ensures Done(declared, progress, i) <==> Applies(declared, start, i) {
      var n := declared[i].namespace;
      assert n in Namespaces(declared, |declared|);
      assert AtEnd(declared, n, start[n], world[n], progress[n].failure);
      DoneIff(declared, n, start[n], world[n], progress[n], i);
      AppliesIff(declared, n, start[n], i);
    }
  }

  /** A stopped lane has done exactly its positions before its failure. */
  lemma {:induction false} DoneIff<S, E>(
      declared: seq<Operation<S, E>>, n: string, start: S, state: S, p: Progress<E>, i: nat)
    requires StandsAlone(declared, n, start, state, p) && Stopped(Positions(declared, n, |declared|), p)
    requires i < |declared| && declared[i].namespace == n
    ensures i in Positions(declared, n, |declared|)[..p.done]
      <==> (p.failure.Some? ==> i < p.failure.value.position)
  {
    PositionsAre(declared, n, |declared|);
    var lane := Positions(declared, n, |declared|);
    var k :| 0 <= k < |lane| && lane[k] == i;
    if k < p.done {
      assert lane[..p.done][k] == i;
    } else {
      forall x | 0 <= x < p.done ensures lane[..p.done][x] != i { assert lane[x] < lane[k]; }
      assert p.done < |lane| && lane[p.done] <= lane[k];
    }
  }

  lemma {:induction false} AppliesIff<S, E>(declared: seq<Operation<S, E>>, n: string, start: S, i: nat)
    requires i < |declared|
    ensures var end := LaneAt(declared, n, start, |declared|).failure;
      LaneAt(declared, n, start, i + 1).failure == None <==> (end.Some? ==> i < end.value.position)
  {
    LaneFailsAt(declared, n, start, i + 1, |declared|);
  }

  /** All that a sequential run applies is applied. */
  lemma {:induction false} SequentialApplies<S, E>(declared: seq<Operation<S, E>>, start: map<string, S>, i: nat)
    requires Named(declared, start) && i < |declared|
    requires var failure := Sequential(declared, 0, start).failure; failure.Some? ==> i < failure.value.position
    ensures Applies(declared, start, i)
  {
    SequentialIsFirst(declared, 0, start, start);
    AppliesIff(declared, declared[i].namespace, start[declared[i].namespace], i);
  }

  // ----- the two phases

  lemma {:induction false} SequentialJoined<S, E>(
      a: seq<Operation<S, E>>, b: seq<Operation<S, E>>, i: nat, world: map<string, S>)
    requires i <= |a| && Named(a, world) && Named(b, world)
    ensures Named(a + b, world)
    ensures var first := Sequential(a, i, world);
      Sequential(a + b, i, world) == if first.failure.Some? then first else Sequential(a + b, |a|, first.world)
    decreases |a| - i
  {
    if i < |a| {
      var outcome, n := a[i].run(world[a[i].namespace]), a[i].namespace;
      assert (a + b)[i] == a[i];
      if outcome.Applied? { SequentialJoined(a, b, i + 1, world[n := outcome.state]); }
    }
  }

  lemma {:induction false} SequentialShifted<S, E>(
      a: seq<Operation<S, E>>, b: seq<Operation<S, E>>, i: nat, world: map<string, S>)
    requires i <= |b| && Named(a + b, world) && Named(b, world)
    ensures var own, joined := Sequential(b, i, world), Sequential(a + b, |a| + i, world);
      joined.world == own.world && joined.failure == Moved(own.failure, |a|)
    decreases |b| - i
  {
    if i < |b| {
      var outcome, n := b[i].run(world[b[i].namespace]), b[i].namespace;
      assert (a + b)[|a| + i] == b[i];
      if outcome.Applied? { SequentialShifted(a, b, i + 1, world[n := outcome.state]); }
    }
  }

  function Moved<E>(failure: Option<Failure<E>>, offset: nat): Option<Failure<E>> {
    if failure.None? then None else Some(Failure(failure.value.position + offset, failure.value.error))
  }

  /** An operation is applied in the first phase, or in the second as its own lane has it. */
  ghost predicate AppliesAfter<S, E>(first: nat, declared: seq<Operation<S, E>>, start: map<string, S>, i: int)
    requires Named(declared, start)
  {
    0 <= i < first || Applies(declared, start, i - first)
  }

  /** What two phases promise, where the second begins only if the first has no failure. */
  ghost predicate PhasesApply<S, E>(
      validators: seq<Operation<S, E>>, indexes: seq<Operation<S, E>>, start: map<string, S>, world: map<string, S>,
      applied: set<nat>)
    requires Named(validators, start) && Named(indexes, start)
  {
    var first := Sequential(validators, 0, start);
    if first.failure.Some? then
      LanesLeave(validators, start, world) && forall i :: i in applied <==> Applies(validators, start, i)
    else
      && LanesLeave(indexes, first.world, world)
      && forall i :: i in applied <==> AppliesAfter(|validators|, indexes, first.world, i)
  }

  /**
   * Every validator, then every index: an index is built only where every validator stands, the failure is the one
   * declared first of them all, and in each phase exactly what comes before its lane's failure is applied.
   */
  method ApplyConstraints<S, E>(validators: seq<Operation<S, E>>, indexes: seq<Operation<S, E>>, start: map<string, S>)
    returns (world: map<string, S>, failure: Option<Failure<E>>, ghost applied: set<nat>)
    requires Named(validators, start) && Named(indexes, start)
    ensures Named(validators + indexes, start)
    ensures failure == Sequential(validators + indexes, 0, start).failure
    ensures failure == None ==> world == Sequential(validators + indexes, 0, start).world
    ensures PhasesApply(validators, indexes, start, world, applied)
  {
    PhasesAreOne(validators, indexes, start);
    world, failure, applied := ApplyConcurrently(validators, start);
    if failure.Some? { return; }
    ghost var stood, built := world, {};
    world, failure, built := ApplyConcurrently(indexes, world);
    applied := Both(|validators|, |indexes|, built);
    PhasesMeet(validators, indexes, start, stood, world, built);
    failure := Moved(failure, |validators|);
  }

  /** Every position of the first phase, and those of the second counted on from it. */
  ghost function Both(first: nat, second: nat, built: set<nat>): set<nat> {
    set i | 0 <= i < first + second && FromBoth(first, built, i)
  }

  predicate FromBoth(first: nat, built: set<nat>, i: int) { i < first || i - first in built }

  lemma {:induction false} PhasesMeet<S, E>(
      validators: seq<Operation<S, E>>, indexes: seq<Operation<S, E>>, start: map<string, S>, stood: map<string, S>,
      world: map<string, S>, built: set<nat>)
    requires Named(validators, start) && Named(indexes, start) && Named(indexes, stood)
    requires Sequential(validators, 0, start).failure == None && stood == Sequential(validators, 0, start).world
    requires LanesLeave(indexes, stood, world) && forall i :: i in built <==> Applies(indexes, stood, i)
    ensures PhasesApply(validators, indexes, start, world, Both(|validators|, |indexes|, built))
  {
    forall i ensures i in Both(|validators|, |indexes|, built) <==> AppliesAfter(|validators|, indexes, stood, i) {
      FromBothIff(|validators|, indexes, stood, built, i);
    }
  }

  lemma {:induction false} FromBothIff<S, E>(
      first: nat, indexes: seq<Operation<S, E>>, stood: map<string, S>, built: set<nat>, i: int)
    requires Named(indexes, stood) && forall j :: j in built <==> Applies(indexes, stood, j)
    ensures i in Both(first, |indexes|, built) <==> AppliesAfter(first, indexes, stood, i)
  {
    var j := i - first;
    assert j in built <==> Applies(indexes, stood, j);
  }

  lemma {:induction false} PhasesAreOne<S, E>(
      validators: seq<Operation<S, E>>, indexes: seq<Operation<S, E>>, start: map<string, S>)
    requires Named(validators, start) && Named(indexes, start)
    ensures Named(validators + indexes, start)
    ensures var first, all := Sequential(validators, 0, start), Sequential(validators + indexes, 0, start);
      if first.failure.Some? then all.failure == first.failure
      else
        var second := Sequential(indexes, 0, first.world);
        all.world == second.world && all.failure == Moved(second.failure, |validators|)
  {
    SequentialJoined(validators, indexes, 0, start);
    var first := Sequential(validators, 0, start);
    if first.failure == None { SequentialShifted(validators, indexes, 0, first.world); }
  }

  /** Whatever one sequential run of both phases applies before its failure, the two phases apply. */
  lemma {:induction false} PhasesApplySequential<S, E>(
      validators: seq<Operation<S, E>>, indexes: seq<Operation<S, E>>, start: map<string, S>, world: map<string, S>,
      applied: set<nat>, i: nat)
    requires Named(validators, start) && Named(indexes, start) && Named(validators + indexes, start)
    requires PhasesApply(validators, indexes, start, world, applied) && i < |validators| + |indexes|
    requires var failure := Sequential(validators + indexes, 0, start).failure;
      failure.Some? ==> i < failure.value.position
    ensures i in applied
  {
    PhasesAreOne(validators, indexes, start);
    var first := Sequential(validators, 0, start);
    if first.failure.Some? {
      SequentialApplies(validators, start, i);
    } else if i >= |validators| {
      SequentialApplies(indexes, first.world, i - |validators|);
      assert AppliesAfter(|validators|, indexes, first.world, i);
    } else {
      assert AppliesAfter(|validators|, indexes, first.world, i);
    }
  }
}
