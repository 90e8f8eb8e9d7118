/**
 * A stop against the pools starting beside it: each pool names itself and then looks for the mark, a stop marks and
 * then reads the names. And the relay of nested pools' notices, whole lines once each.
 */
module PoolHandshake {
  import opened PythonText
  import opened Results

  const STOPPED := "stop"

  datatype Phase = Starting | Named | Running | Withheld

  /**
   * A listing is not atomic: it owes what stood when it began and has not been removed since, and may see what comes
   * meanwhile.
   */
  datatype Reading =
    | Unasked
    | Marked
    | Listing(owed: set<string>, seen: set<string>)
    | Answered(pids: set<nat>)
    | Missed

  /** The registry's entries, or none once it is gone; and every pool by its pid. */
  datatype State = State(registry: Option<set<string>>, pools: map<nat, Phase>, stop: Reading)

  /** A removal takes the registry's entries one by one, in any order, and the empty directory last. */
  datatype Step =
    Enter(pid: nat) | Look(pid: nat) | Mark | Begin | See(name: string) | End | Gone | Unlink(name: string) | Remove

  function PidsIn(names: set<string>): set<nat> {
    set name | name in names && IsWhole(name) :: Whole(name)
  }

  ghost predicate Enabled(s: State, step: Step) {
    match step
    case Enter(pid) => pid in s.pools && s.pools[pid] == Starting
    case Look(pid) => pid in s.pools && s.pools[pid] == Named
    case Mark => s.stop == Unasked
    case Begin => s.stop == Marked && s.registry.Some?
    case See(name) => s.stop.Listing? && s.registry.Some? && name in s.registry.value
    case End => s.stop.Listing? && s.stop.owed <= s.stop.seen
    case Gone => s.stop == Marked && s.registry == None
    case Unlink(name) => s.registry.Some? && name in s.registry.value
    case Remove => s.registry == Some({})
  }

  /** `enter`: no entry is made where the registry is gone. */
  function Entered(registry: Option<set<string>>, name: string): Option<set<string>> {
    if registry.None? then None else Some(registry.value + {name})
  }

  /** Whether a look finds the mark. */
  predicate MarkSeen(s: State) { s.registry.Some? && STOPPED in s.registry.value }

  ghost function Apply(s: State, step: Step): State
    requires Enabled(s, step)
  {
    match step
    case Enter(pid) =>
      s.(registry := Entered(s.registry, Decimal(pid)),
         pools := s.pools[pid := if s.registry.None? then Withheld else Named])
    case Look(pid) => s.(pools := s.pools[pid := if MarkSeen(s) then Withheld else Running])
    case Mark => s.(registry := Entered(s.registry, STOPPED), stop := Marked)
    case Begin => s.(stop := Listing(s.registry.value, {}))
    case See(name) => s.(stop := Listing(s.stop.owed, s.stop.seen + {name}))
    case End => s.(stop := Answered(PidsIn(s.stop.seen)))
    case Gone => s.(stop := Missed)
    case Unlink(name) =>
      s.(registry := Some(s.registry.value - {name}),
         stop := if s.stop.Listing? then Listing(s.stop.owed - {name}, s.stop.seen) else s.stop)
    case Remove => s.(registry := None)
  }

  ghost predicate Start(s: State) {
    s.registry == Some({}) && s.stop == Unasked && forall pid | pid in s.pools :: s.pools[pid] == Starting
  }

  ghost predicate Possible(s: State, steps: seq<Step>)
    decreases |steps|
  {
    steps == [] || (Enabled(s, steps[0]) && Possible(Apply(s, steps[0]), steps[1..]))
  }

  ghost function After(s: State, steps: seq<Step>): State
    requires Possible(s, steps)
    decreases |steps|
  {
    if steps == [] then s else After(Apply(s, steps[0]), steps[1..])
  }

  // ----- what every step keeps

  /** An entry a removal has taken, or the registry with it. */
  predicate Lost(steps: seq<Step>, name: string) { Unlink(name) in steps || Remove in steps }

  predicate Present(s: State, pid: nat) { s.registry.Some? && Decimal(pid) in s.registry.value }

  /** Every name an entry: the mark, or a pool's that has come this far. */
  ghost predicate OfPools(s: State, names: set<string>) {
    forall name | name in names ::
      name == STOPPED || exists pid :: pid in s.pools && s.pools[pid] != Starting && name == Decimal(pid)
  }

  /** Where the stop has begun to read, a pool that runs is one it must come to. */
  predicate Owes(stop: Reading, pid: nat) {
    match stop
    case Listing(owed, seen) => Decimal(pid) in owed
    case Answered(pids) => pid in pids
    case _ => true
  }

  /** The registry stands until it is removed, and the mark in it from the stop's on until something takes it. */
  ghost predicate MarkStands(s: State, steps: seq<Step>) {
    && (s.registry == None <==> Remove in steps)
    && (s.stop == Unasked <==> Mark !in steps)
    && (Unlink(STOPPED) in steps ==> Mark in steps)
    && (MarkSeen(s) <==> Mark in steps && !Lost(steps, STOPPED))
  }

  /** What holds of one pool: its entry stands until taken, and the stop comes to it unless its entry or the mark is. */
  ghost predicate Reckoned(s: State, steps: seq<Step>, pid: nat)
    requires pid in s.pools
  {
    && (s.pools[pid] in {Named, Running} && !Lost(steps, Decimal(pid)) ==> Present(s, pid))
    && (s.pools[pid] == Running && !Lost(steps, Decimal(pid)) && !Lost(steps, STOPPED) ==> Owes(s.stop, pid))
  }

  ghost predicate NamesOfPools(s: State) {
    && (s.registry.Some? ==> OfPools(s, s.registry.value))
    && (s.stop.Listing? ==> OfPools(s, s.stop.owed) && OfPools(s, s.stop.seen))
    && (s.stop.Answered? ==> forall pid | pid in s.stop.pids :: pid in s.pools && s.pools[pid] != Starting)
  }

  /** The invariant of a state and the steps that led to it. */
  ghost predicate Safe(s: State, steps: seq<Step>) {
    MarkStands(s, steps) && NamesOfPools(s) && forall pid | pid in s.pools :: Reckoned(s, steps, pid)
  }

  lemma {:induction false} DecimalsDiffer(pid: nat)
    ensures IsWhole(Decimal(pid)) && Whole(Decimal(pid)) == pid && Decimal(pid) != STOPPED && !IsWhole(STOPPED)
  {
    DecimalRoundTrip(pid);
    assert STOPPED[0] == 's';
  }

  lemma {:induction false} PidsAre(s: State, names: set<string>)
    requires OfPools(s, names)
    ensures forall pid | pid in PidsIn(names) :: pid in s.pools && s.pools[pid] != Starting
    ensures forall pid: nat | Decimal(pid) in names :: pid in PidsIn(names)
  {
    forall pid | pid in PidsIn(names) ensures pid in s.pools && s.pools[pid] != Starting {
      var name :| name in names && IsWhole(name) && Whole(name) == pid;
      DecimalsDiffer(pid);
      var of :| of in s.pools && s.pools[of] != Starting && name == Decimal(of);
      DecimalsDiffer(of);
    }
    forall pid: nat | Decimal(pid) in names ensures pid in PidsIn(names) {
      DecimalsDiffer(pid);
      assert Whole(Decimal(pid)) in PidsIn(names);
    }
  }

  lemma {:induction false} StillOfPools(s: State, t: State, names: set<string>)
    requires OfPools(s, names) && t.pools.Keys == s.pools.Keys
    requires forall pid | pid in s.pools && s.pools[pid] != Starting :: t.pools[pid] != Starting
    ensures OfPools(t, names)
  {
  }

  lemma {:induction false} MarkStep(s: State, steps: seq<Step>, step: Step)
    requires MarkStands(s, steps) && Enabled(s, step)
    ensures MarkStands(Apply(s, step), steps + [step])
  {
    if step.Enter? { DecimalsDiffer(step.pid); }
    assert forall x :: x in steps + [step] <==> x in steps || x == step;
  }

  lemma {:induction false} NamesStep(s: State, step: Step)
    requires NamesOfPools(s) && Enabled(s, step)
    ensures NamesOfPools(Apply(s, step))
  {
    var t := Apply(s, step);
    if s.registry.Some? { StillOfPools(s, t, s.registry.value); }
    if s.stop.Listing? {
      StillOfPools(s, t, s.stop.owed);
      StillOfPools(s, t, s.stop.seen);
      PidsAre(s, s.stop.seen);
    }
  }

  lemma {:induction false} ReckonedStep(s: State, steps: seq<Step>, step: Step, pid: nat)
    requires MarkStands(s, steps) && NamesOfPools(s) && pid in s.pools && Reckoned(s, steps, pid) && Enabled(s, step)
    ensures Reckoned(Apply(s, step), steps + [step], pid)
  {
    assert forall x :: x in steps + [step] <==> x in steps || x == step;
    if step == End { PidsAre(s, s.stop.seen); }
  }

  lemma {:induction false} StepSafe(s: State, steps: seq<Step>, step: Step)
    requires Safe(s, steps) && Enabled(s, step)
    ensures Safe(Apply(s, step), steps + [step])
  {
    MarkStep(s, steps, step);
    NamesStep(s, step);
    forall pid | pid in Apply(s, step).pools ensures Reckoned(Apply(s, step), steps + [step], pid) {
      ReckonedStep(s, steps, step, pid);
    }
  }

  lemma {:induction false} LastStep(s: State, steps: seq<Step>)
    requires Possible(s, steps) && steps != []
    ensures var n := |steps| - 1;
      && Possible(s, steps[..n])
      && Enabled(After(s, steps[..n]), steps[n]) && After(s, steps) == Apply(After(s, steps[..n]), steps[n])
    decreases |steps|
  {
    var n := |steps| - 1;
    if n == 0 {
      assert steps[1..] == [];
    } else {
      LastStep(Apply(s, steps[0]), steps[1..]);
      assert steps[1..][..n - 1] == steps[..n][1..];
    }
  }

  lemma {:induction false} RunSafe(s: State, steps: seq<Step>)
    requires Start(s) && Possible(s, steps)
    ensures Safe(After(s, steps), steps)
    decreases |steps|
  {
    if steps != [] {
      var n := |steps| - 1;
      LastStep(s, steps);
      RunSafe(s, steps[..n]);
      StepSafe(After(s, steps[..n]), steps[..n], steps[n]);
      assert steps[..n] + [steps[n]] == steps;
    }
  }

  // ----- what that promises

  /** A pool that looks runs exactly where no stop has marked yet, or a removal has taken the mark or the registry. */
  lemma {:induction false} LookRunsIff(s: State, steps: seq<Step>, pid: nat)
    requires Start(s) && Possible(s, steps + [Look(pid)])
    ensures pid in After(s, steps + [Look(pid)]).pools
    ensures After(s, steps + [Look(pid)]).pools[pid] == Running
      <==> Mark !in steps || Unlink(STOPPED) in steps || Remove in steps
  {
    var all := steps + [Look(pid)];
    LastStep(s, all);
    assert all[..|all| - 1] == steps;
    RunSafe(s, steps);
  }

  /**
   * However the steps of any number of pools, of the stop and of a removal fall: once the stop has its answer, every
   * pool that runs is in it, unless a removal took the mark, that pool's own entry or the registry. And no answer names
   * a pool that has not come to name itself.
   */
  lemma {:induction false} EveryRunningPoolIsNamed(s: State, steps: seq<Step>)
    requires Start(s) && Possible(s, steps)
    ensures var t := After(s, steps);
      t.stop.Answered? ==>
        && (forall pid | pid in t.pools && t.pools[pid] == Running ::
              pid in t.stop.pids || Unlink(STOPPED) in steps || Unlink(Decimal(pid)) in steps || Remove in steps)
        && (forall pid | pid in t.stop.pids :: pid in t.pools && t.pools[pid] != Starting)
  {
    RunSafe(s, steps);
    var t := After(s, steps);
    forall pid | pid in t.pools ensures Reckoned(t, steps, pid) { }
  }

  /** While nothing is removed, every pool that runs is in the stop's answer. */
  lemma {:induction false} StandingRegistryNamesAll(s: State, steps: seq<Step>)
    requires Start(s) && Possible(s, steps) && forall step | step in steps :: !step.Unlink? && !step.Remove?
    ensures After(s, steps).stop.Answered? ==>
      forall pid | pid in After(s, steps).pools && After(s, steps).pools[pid] == Running ::
        pid in After(s, steps).stop.pids
  {
    EveryRunningPoolIsNamed(s, steps);
  }

  /**
   * A removal that takes the mark between a pool's naming and its look: the pool runs, and the stop has not named it.
   */
  lemma {:induction false} RemovedBetweenRunsUnnamed() returns (s: State, steps: seq<Step>)
    ensures Start(s) && Possible(s, steps)
    ensures After(s, steps).stop == Answered({}) && After(s, steps).pools == map[1 := Running]
  {
    var t, rest := RemovedBetween();
    var pools := map[1 := Starting];
    DecimalsDiffer(1);
    assert {} + {STOPPED} == {STOPPED} && PidsIn({STOPPED}) == {};
    var listing := State(Some({STOPPED}), pools, Listing({STOPPED}, {STOPPED}));
    RunTo(listing, End, t, rest);
    var began := State(Some({STOPPED}), pools, Listing({STOPPED}, {}));
    RunTo(began, See(STOPPED), listing, [End] + rest);
    var marked := State(Some({STOPPED}), pools, Marked);
    RunTo(marked, Begin, began, [See(STOPPED)] + ([End] + rest));
    s, steps := State(Some({}), pools, Unasked), [Mark] + ([Begin] + ([See(STOPPED)] + ([End] + rest)));
    RunTo(s, Mark, marked, [Begin] + ([See(STOPPED)] + ([End] + rest)));
  }

  lemma {:induction false} RemovedBetween() returns (s: State, steps: seq<Step>)
    ensures s == State(Some({STOPPED}), map[1 := Starting], Answered({})) && Possible(s, steps)
    ensures After(s, steps).stop == Answered({}) && After(s, steps).pools == map[1 := Running]
  {
    s := State(Some({STOPPED}), map[1 := Starting], Answered({}));
    var named := State(Some({STOPPED, Decimal(1)}), map[1 := Named], Answered({}));
    var unmarked := State(Some({Decimal(1)}), map[1 := Named], Answered({}));
    var running := State(Some({Decimal(1)}), map[1 := Running], Answered({}));
    DecimalsDiffer(1);
    assert {STOPPED} + {Decimal(1)} == {STOPPED, Decimal(1)};
    assert {STOPPED, Decimal(1)} - {STOPPED} == {Decimal(1)};
    RunTo(unmarked, Look(1), running, []);
    RunTo(named, Unlink(STOPPED), unmarked, [Look(1)] + []);
    RunTo(s, Enter(1), named, [Unlink(STOPPED)] + ([Look(1)] + []));
    steps := [Enter(1)] + ([Unlink(STOPPED)] + ([Look(1)] + []));
  }

  lemma {:induction false} RunTo(s: State, step: Step, t: State, rest: seq<Step>)
    requires Enabled(s, step) && t == Apply(s, step) && Possible(t, rest)
    ensures Possible(s, [step] + rest) && After(s, [step] + rest) == After(t, rest)
  {
    assert ([step] + rest)[1..] == rest;
  }

  // ----- the names, read back

  function Names(entries: seq<string>): set<string> {
    set i | 0 <= i < |entries| :: entries[i]
  }

  /** `{int(entry.name) for entry in registry.iterdir() if entry.name.isdigit()}`. */
  method PoolsNamed(entries: seq<string>) returns (pids: set<nat>)
    ensures pids == PidsIn(Names(entries))
  {
    pids := {};
    for i := 0 to |entries|
      invariant pids == PidsIn(Names(entries[..i]))
    {
      NamesGrow(entries[..i], entries[i]);
      assert entries[..i + 1] == entries[..i] + [entries[i]];
      if IsWhole(entries[i]) { pids := pids + {Whole(entries[i])}; }
    }
    assert entries[..|entries|] == entries;
  }

  lemma {:induction false} NamesGrow(entries: seq<string>, last: string)
    ensures PidsIn(Names(entries + [last])) == PidsIn(Names(entries)) + if IsWhole(last) then {Whole(last)} else {}
  {
    var longer := entries + [last];
    assert longer[|entries|] == last;
    forall i | 0 <= i < |entries| ensures entries[i] in Names(longer) { assert longer[i] == entries[i]; }
    assert Names(longer) == Names(entries) + {last};
  }

  // ----- the relay of notices

  /** How much of a file whole lines take up. */
  function WholeLines(content: string): (n: nat)
    ensures n <= |content| && (n > 0 ==> content[n - 1] == '\n') && forall i | n <= i < |content| :: content[i] != '\n'
  {
    if content == "" || content[|content| - 1] == '\n' then |content| else WholeLines(content[..|content| - 1])
  }

  method RelayNotices(content: string, offset: nat) returns (next: nat, complete: string)
    requires offset <= |content| && offset == WholeLines(content[..offset])
    ensures next == WholeLines(content) >= offset && complete == content[offset..next]
  {
    next := |content|;
    while next > offset && content[next - 1] != '\n'
      invariant offset <= next <= |content| && forall i | next <= i < |content| :: content[i] != '\n'
    {
      next := next - 1;
    }
    complete := content[offset..next];
    if next == offset && offset > 0 { assert content[..offset][offset - 1] == '\n'; }
  }

  /** Appended to, a file keeps the whole lines it had. */
  lemma {:induction false} WholeLinesKept(content: string, later: string)
    requires content <= later
    ensures WholeLines(content) <= WholeLines(later) && WholeLines(later[..WholeLines(content)]) == WholeLines(content)
  {
    var n := WholeLines(content);
    if n > 0 { assert later[n - 1] == content[n - 1] == '\n'; }
  }

  ghost predicate Appended(contents: seq<string>) {
    forall i | 0 <= i < |contents| - 1 :: var j := i + 1; contents[i] <= contents[j]
  }

  /** What the relay has passed on after looking at each state of the file. */
  function Relayed(contents: seq<string>): string {
    if contents == [] then ""
    else
      var before, last := contents[..|contents| - 1], contents[|contents| - 1];
      var offset := if before == [] then 0 else WholeLines(before[|before| - 1]);
      Relayed(before) + if offset <= WholeLines(last) then last[offset..WholeLines(last)] else ""
  }

  lemma {:induction false} RelayedOn(content: string, later: string)
    requires content <= later
    ensures var offset := WholeLines(content);
      offset <= WholeLines(later) && content[..offset] + later[offset..WholeLines(later)] == later[..WholeLines(later)]
  {
    WholeLinesKept(content, later);
    var offset := WholeLines(content);
    assert later[..offset] == content[..offset];
  }

  /** Every whole line once, in order, and no part of one: the relay has passed on exactly the file's whole lines. */
  lemma {:induction false} RelayedIsWhole(contents: seq<string>)
    requires contents != [] && Appended(contents)
    ensures Relayed(contents) == contents[|contents| - 1][..WholeLines(contents[|contents| - 1])]
  {
    var n := |contents| - 1;
    var before, last := contents[..n], contents[n];
    if n > 0 {
      assert Appended(before) by {
        forall i | 0 <= i < |before| - 1
          ensures var j := i + 1; before[i] <= before[j]
        {
          var j := i + 1; assert contents[i] <= contents[j];
        }
      }
      RelayedIsWhole(before);
      var i := n - 1;
      assert contents[i] <= contents[i + 1];
      RelayedOn(contents[i], last);
      assert before[|before| - 1] == contents[i];
    } else {
      assert Relayed(before) == "";
      assert last[0..WholeLines(last)] == last[..WholeLines(last)];
    }
  }
}
