/** The table `--stamp` proposes from the attempts it is named, and that every mode can read and accept its total. */
module GateStamp {
  import opened GateFigures
  import opened GateRatchet
  import opened GateRoundTrip
  import opened GateTable
  import opened Ordering
  import opened PythonText
  import opened Results

  const RESAMPLES := 20_000
  const COLD_BUDGET := {"format", "frontend"}

  datatype SpanState = Succeeded | Skipped | Dropped | Unmeasured

  datatype Span = Span(job: string, state: SpanState, seconds: nat)

  datatype Attempt = Attempt(run: nat, number: nat, day: Date, spans: seq<Span>, retried: set<string>)

  datatype Timed = Timed(seconds: int, day: Date)

  datatype Reason = DidNotSucceed | WasSkipped | Untimed | Slowed | Cached

  /** Why a span of the row is left out of its population. */
  function ReasonLeft(attempt: Attempt, span: Span, job: string): Option<Reason> {
    match span.state
    case Dropped => Some(DidNotSucceed)
    case Skipped => Some(WasSkipped)
    case Unmeasured => Some(Untimed)
    case Succeeded =>
      if job in attempt.retried then Some(Slowed)
      else if TreeKeyed(job) && attempt.number > 1 then Some(Cached)
      else None
  }

  /** Whether a span is counted in its row's population. */
  predicate Counts(attempt: Attempt, span: Span, job: string) {
    span.job == job && ReasonLeft(attempt, span, job).None?
  }

  function CountedIn(attempt: Attempt, spans: seq<Span>, job: string): (r: seq<Timed>) {
    if spans == [] then []
    else
      var last := spans[|spans| - 1];
      CountedIn(attempt, spans[..|spans| - 1], job)
      + if Counts(attempt, last, job) then [Timed(last.seconds, attempt.day)] else []
  }

  /** A row's population: every counted span of every attempt, with its day. */
  function CountedOf(attempts: seq<Attempt>, job: string): (r: seq<Timed>)
  {
    if attempts == [] then []
    else
      var last := attempts[|attempts| - 1];
      CountedOf(attempts[..|attempts| - 1], job) + CountedIn(last, last.spans, job)
  }

  function LeftIn(attempt: Attempt, spans: seq<Span>, job: string, reason: Reason): nat {
    if spans == [] then 0
    else
      var last := spans[|spans| - 1];
      LeftIn(attempt, spans[..|spans| - 1], job, reason)
      + if last.job == job && ReasonLeft(attempt, last, job) == Some(reason) then 1 else 0
  }

  /** How many of the row's spans are left out for one reason. */
  function LeftOf(attempts: seq<Attempt>, job: string, reason: Reason): nat {
    if attempts == [] then 0
    else
      var last := attempts[|attempts| - 1];
      LeftOf(attempts[..|attempts| - 1], job, reason) + LeftIn(last, last.spans, job, reason)
  }

  function Tally(left: map<Reason, nat>, reason: Reason): nat {
    if reason in left then left[reason] else 0
  }

  ghost predicate Tallied(
      left: map<Reason, nat>, attempts: seq<Attempt>, attempt: Attempt, spans: seq<Span>, job: string) {
    && (forall reason | reason in left :: left[reason] > 0)
    && forall reason :: Tally(left, reason) == LeftOf(attempts, job, reason) + LeftIn(attempt, spans, job, reason)
  }

  method Counted(attempts: seq<Attempt>, job: string) returns (spans: seq<Timed>, left: map<Reason, nat>)
    ensures spans == CountedOf(attempts, job)
    ensures forall reason :: reason in left <==> LeftOf(attempts, job, reason) > 0
    ensures forall reason | reason in left :: left[reason] == LeftOf(attempts, job, reason)
  {
    spans, left := [], map[];
    ghost var none := Attempt(0, 0, Date(1, 1, 1), [], {});
    for i := 0 to |attempts|
      invariant spans == CountedOf(attempts[..i], job) && Tallied(left, attempts[..i], none, [], job)
    {
      var attempt := attempts[i];
      assert attempts[..i + 1][..i] == attempts[..i];
      ghost var before := spans;
      for j := 0 to |attempt.spans|
        invariant spans == before + CountedIn(attempt, attempt.spans[..j], job)
        invariant Tallied(left, attempts[..i], attempt, attempt.spans[..j], job)
      {
        var span := attempt.spans[j];
        assert attempt.spans[..j + 1][..j] == attempt.spans[..j];
        if span.job == job {
          var reason := ReasonLeft(attempt, span, job);
          if reason.None? {
            spans := spans + [Timed(span.seconds, attempt.day)];
          } else {
            left := left[reason.value := Tally(left, reason.value) + 1];
          }
        }
      }
      assert attempt.spans[..|attempt.spans|] == attempt.spans;
    }
    assert attempts[..|attempts|] == attempts;
    assert forall reason :: Tally(left, reason) == LeftOf(attempts, job, reason);
  }

  function Listed(spans: seq<Span>, job: string): nat {
    if spans == [] then 0 else Listed(spans[..|spans| - 1], job) + if spans[|spans| - 1].job == job then 1 else 0
  }

  /** Every span an attempt lists for the row is in its population, or left out for one reason. */
  lemma {:induction false} EverySpanAnswered(attempt: Attempt, spans: seq<Span>, job: string)
    ensures Listed(spans, job) == |CountedIn(attempt, spans, job)|
      + LeftIn(attempt, spans, job, DidNotSucceed) + LeftIn(attempt, spans, job, WasSkipped)
      + LeftIn(attempt, spans, job, Untimed) + LeftIn(attempt, spans, job, Slowed) + LeftIn(attempt, spans, job, Cached)
  {
    if spans != [] { EverySpanAnswered(attempt, spans[..|spans| - 1], job); }
  }

  lemma CountedInSpans(attempt: Attempt, spans: seq<Span>, job: string)
    ensures forall i | 0 <= i < |CountedIn(attempt, spans, job)| ::
      CountedIn(attempt, spans, job)[i].seconds >= 0 && CountedIn(attempt, spans, job)[i].day == attempt.day
  {
  }

  lemma {:induction false} CountedDays(attempts: seq<Attempt>, job: string)
    requires forall a | a in attempts :: Calendar(a.day)
    ensures forall i | 0 <= i < |CountedOf(attempts, job)| ::
      CountedOf(attempts, job)[i].seconds >= 0 && Calendar(CountedOf(attempts, job)[i].day)
  {
    if attempts != [] {
      var last := attempts[|attempts| - 1];
      assert forall a | a in attempts[..|attempts| - 1] :: a in attempts;
      CountedDays(attempts[..|attempts| - 1], job);
      CountedInSpans(last, last.spans, job);
    }
  }

  function Newest(spans: seq<Timed>): (d: Date)
    requires spans != []
    ensures exists i | 0 <= i < |spans| :: spans[i].day == d
    ensures forall i | 0 <= i < |spans| :: !Before(d, spans[i].day)
  {
    if |spans| == 1 then spans[0].day
    else
      var before, last := Newest(spans[..|spans| - 1]), spans[|spans| - 1].day;
      if Before(before, last) then last else before
  }

  function SecondsIn(spans: seq<Timed>): (r: seq<int>) {
    seq(|spans|, i requires 0 <= i < |spans| => spans[i].seconds)
  }

  datatype Proposal = Proposal(row: Row, moves: Option<seq<int>>)

  /**
   * What a proposed row is: a readable new stamp of enough runs, a ceiling over its reference, and figures only beside
   * their draws.
   */
  predicate ProposedFor(job: string, pull: Option<nat>, p: Proposal) {
    && p.row.job == job && RowOk(p.row)
    && StampOf(p.row).Some? && StampOf(p.row).value.runs >= MIN_STAMP_RUNS && StampOf(p.row).value.pull == pull
    && (p.moves.Some? <==> Referenced(p.row)) && (p.row.seconds.Some? <==> p.row.floor.Some?)
    && (p.moves.Some? ==> |p.moves.value| == RESAMPLES && p.row.seconds.value > 0)
  }

  function BudgetFor(job: string, current: Option<Row>, widest: nat): (budget: Option<nat>)
    ensures budget.Some? ==> budget.value >= widest
  {
    if current.Some? && current.value.budget.None? then None
    else if job in COLD_BUDGET && current.Some? && current.value.budget.value > BudgetOver(widest) then
      current.value.budget
    else Some(BudgetOver(widest))
  }

  /** `drawn` is the moves the seeded draws give a row, an arbitrary list of `RESAMPLES` here. */
  function ProposedRow(
      job: string, current: Option<Row>, population: seq<Timed>, pull: Option<nat>, drawn: seq<int>): Proposal
    requires |population| >= MIN_STAMP_RUNS && (pull.Some? ==> pull.value > 0) && |drawn| == RESAMPLES
    requires forall i | 0 <= i < |population| :: population[i].seconds >= 0 && Calendar(population[i].day)
  {
    var seconds := SecondsIn(population);
    var cut := |seconds| >= MIN_FLOOR_SPANS && Median(seconds) > 0;
    var reference: Option<nat> := if cut then Some(Median(seconds)) else None;
    var floor: Option<nat> := if cut then Some(FloorOf(drawn, Median(seconds))) else None;
    var budget := BudgetFor(job, current, Max(seconds));
    var measured := WriteStamp(Stamp(|population|, Newest(population), pull));
    Proposal(Row(job, reference, floor, budget, Some(measured)), if cut then Some(drawn) else None)
  }

  lemma {:induction false} ProposedStamp(
      job: string, current: Option<Row>, population: seq<Timed>, pull: Option<nat>, drawn: seq<int>)
    requires |population| >= MIN_STAMP_RUNS && (pull.Some? ==> pull.value > 0) && |drawn| == RESAMPLES
    requires forall i | 0 <= i < |population| :: population[i].seconds >= 0 && Calendar(population[i].day)
    ensures var p := ProposedRow(job, current, population, pull, drawn);
      StampReadable(p.row) && StampOf(p.row) == Some(Stamp(|population|, Newest(population), pull))
  {
    StampRoundTrip(Stamp(|population|, Newest(population), pull));
  }

  lemma {:induction false} ProposedRowReads(
      job: string, current: Option<Row>, population: seq<Timed>, pull: Option<nat>, drawn: seq<int>)
    requires |population| >= MIN_STAMP_RUNS && (pull.Some? ==> pull.value > 0) && |drawn| == RESAMPLES
    requires forall i | 0 <= i < |population| :: population[i].seconds >= 0 && Calendar(population[i].day)
    ensures ProposedFor(job, pull, ProposedRow(job, current, population, pull, drawn))
  {
    var seconds := SecondsIn(population);
    ProposedStamp(job, current, population, pull, drawn);
    MedianWithin(seconds, 0, Max(seconds));
    var p := ProposedRow(job, current, population, pull, drawn);
    assert p.row.seconds.Some? ==> p.row.seconds.value <= Max(seconds);
  }

  /** A row is stamped from runs of its own tree, and enough of them. */
  predicate Stampable(attempts: seq<Attempt>, pull: Option<nat>, job: string) {
    !(pull.Some? && TreeKeyed(job)) && |CountedOf(attempts, job)| >= MIN_STAMP_RUNS
  }

  predicate Dated(attempts: seq<Attempt>, pull: Option<nat>) {
    (forall a | a in attempts :: Calendar(a.day)) && (pull.Some? ==> pull.value > 0)
  }

  function ProposalOf(
      job: string, current: Option<Row>, attempts: seq<Attempt>, pull: Option<nat>, drawn: seq<int>): Proposal
    requires Dated(attempts, pull) && Stampable(attempts, pull, job) && |drawn| == RESAMPLES
  {
    CountedDays(attempts, job);
    ProposedRow(job, current, CountedOf(attempts, job), pull, drawn)
  }

  method Propose(job: string, current: Option<Row>, attempts: seq<Attempt>, pull: Option<nat>, drawn: seq<int>)
    returns (r: Option<Proposal>)
    requires Dated(attempts, pull) && |drawn| == RESAMPLES
    ensures r.Some? <==> Stampable(attempts, pull, job)
    ensures r.Some? ==> r.value == ProposalOf(job, current, attempts, pull, drawn) && ProposedFor(job, pull, r.value)
    ensures r.Some? && r.value.moves.Some? ==> r.value.moves.value == drawn
  {
    if pull.Some? && TreeKeyed(job) { return None; }
    var population, _ := Counted(attempts, job);
    if |population| < MIN_STAMP_RUNS { return None; }
    CountedDays(attempts, job);
    ProposedRowReads(job, current, population, pull, drawn);
    r := Some(ProposedRow(job, current, population, pull, drawn));
  }

  // ----- one ceiling a matrix

  ghost predicate OneCeiling(proposed: Rows, stamped: seq<string>) {
    forall a, b | a in stamped && b in stamped && a in proposed && b in proposed && InstanceOf(a).Some?
      && InstanceOf(a) == InstanceOf(b) ::
      proposed[a].budget.Some? && proposed[b].budget.Some? ==> proposed[a].budget == proposed[b].budget
  }

  /** A row changed in nothing but its ceiling, and that only upward. */
  ghost predicate Lifts(before: Row, now: Row) {
    && now == before.(budget := now.budget)
    && (before.budget.Some? <==> now.budget.Some?)
    && (before.budget.Some? ==> now.budget.value >= before.budget.value)
  }

  /**
   * What sharing makes of one row: a stamped instance takes the budget of a stamped instance of its matrix, and no
   * less.
   */
  ghost predicate SharedRow(proposed: Rows, stamped: seq<string>, r: Rows, job: string)
    requires proposed.Keys == r.Keys && job in proposed && forall j | j in stamped :: j in proposed
  {
    && (if job in stamped && InstanceOf(job).Some? then Lifts(proposed[job], r[job]) else r[job] == proposed[job])
    && (job in stamped && InstanceOf(job).Some? && proposed[job].budget.Some? ==>
          exists widest | widest in stamped && InstanceOf(widest) == InstanceOf(job) ::
            r[job].budget == proposed[widest].budget)
  }

  /** A matrix job's stamped instances take the widest one's budget. */
  method ShareCeilings(proposed: Rows, stamped: seq<string>) returns (r: Rows)
    requires forall job | job in stamped :: job in proposed
    ensures r.Keys == proposed.Keys && OneCeiling(r, stamped)
    ensures forall job | job in proposed :: SharedRow(proposed, stamped, r, job)
  {
    var ceilings: map<string, nat> := map[];
    for i := 0 to |stamped|
      invariant forall j | 0 <= j < i && InstanceOf(stamped[j]).Some? && proposed[stamped[j]].budget.Some? ::
        && InstanceOf(stamped[j]).value in ceilings
        && proposed[stamped[j]].budget.value <= ceilings[InstanceOf(stamped[j]).value]
      invariant forall m | m in ceilings ::
        exists job | job in stamped && InstanceOf(job) == Some(m) :: proposed[job].budget == Some(ceilings[m])
    {
      var matrix, budget := InstanceOf(stamped[i]), proposed[stamped[i]].budget;
      if matrix.Some? && budget.Some? && (matrix.value !in ceilings || ceilings[matrix.value] < budget.value) {
        ceilings := ceilings[matrix.value := budget.value];
      }
    }
    r := map job | job in proposed :: if job in stamped && InstanceOf(job).Some? && proposed[job].budget.Some?
      then proposed[job].(budget := Some(ceilings[InstanceOf(job).value])) else proposed[job];
  }

  // ----- the proposed table

  ghost predicate Draws(proposed: Rows, draws: map<string, seq<int>>) {
    forall job | job in draws :: job in proposed && Drawn(proposed[job], draws[job])
  }

  /**
   * What one row keeps while rows are stamped: a stamped one reads and has draws exactly beside a reference, any other
   * is as it was.
   */
  ghost predicate Stands(
      job: string, row: Row, rows: Rows, stamped: seq<string>, draws: map<string, seq<int>>, pull: Option<nat>) {
    if job in stamped then
      StampedRow(job, row, pull) && (job in draws <==> Referenced(row)) && (job in draws ==> Drawn(row, draws[job]))
    else job !in draws && job in rows && row == rows[job]
  }

  predicate Drawn(row: Row, moves: seq<int>) {
    row.seconds.Some? && row.seconds.value > 0 && |moves| == RESAMPLES
  }

  ghost predicate Stamping(
      rows: Rows, proposed: Rows, stamped: seq<string>, draws: map<string, seq<int>>, pull: Option<nat>) {
    && (forall job :: job in proposed <==> job in rows || job in stamped)
    && (forall job | job in proposed :: Stands(job, proposed[job], rows, stamped, draws, pull))
    && (forall job | job in draws :: job in stamped)
  }

  ghost predicate StampedRow(job: string, row: Row, pull: Option<nat>) {
    && row.job == job && RowOk(row) && (row.seconds.Some? <==> row.floor.Some?)
    && StampOf(row).Some? && StampOf(row).value.runs >= MIN_STAMP_RUNS && StampOf(row).value.pull == pull
  }

  /** The draws summed move by move, as the report's whole-gate line sums the rows' medians. */
  function SummedMoves(draws: map<string, seq<int>>, jobs: seq<string>): (moves: seq<int>)
    requires forall job | job in jobs :: job in draws && |draws[job]| == RESAMPLES
    ensures |moves| == RESAMPLES
  {
    if jobs == [] then seq(RESAMPLES, _ => 0)
    else
      var rest, own := SummedMoves(draws, jobs[1..]), draws[jobs[0]];
      seq(RESAMPLES, i requires 0 <= i < RESAMPLES => own[i] + rest[i])
  }

  predicate KeptAsTheyWere(rows: Rows, proposed: Rows, summed: nat) {
    && TOTAL in rows && rows[TOTAL].seconds == Some(summed)
    && ReferencedJobs(proposed) == ReferencedJobs(rows)
    && forall job | job in ReferencedJobs(proposed) :: proposed[job] == rows[job]
  }

  predicate Cuts(proposed: Rows, draws: map<string, seq<int>>) {
    ReferencedJobs(proposed) != {} && ReferencedJobs(proposed) <= draws.Keys && |Populations(proposed)| == 1
  }

  lemma {:induction false} CutSums(proposed: Rows, draws: map<string, seq<int>>)
    requires Draws(proposed, draws) && Cuts(proposed, draws)
    ensures Summed(proposed) > 0
    ensures forall job | job in SortedSet(ReferencedJobs(proposed)) :: job in draws && |draws[job]| == RESAMPLES
  {
    var job :| job in ReferencedJobs(proposed);
    assert Drawn(proposed[job], draws[job]);
    SumSplit(proposed - {TOTAL}, job);
  }

  ghost function TotalFloorOf(rows: Rows, proposed: Rows, draws: map<string, seq<int>>): Option<nat>
    requires Draws(proposed, draws)
  {
    if Cuts(proposed, draws) then
      CutSums(proposed, draws);
      Some(FloorOf(SummedMoves(draws, SortedSet(ReferencedJobs(proposed))), Summed(proposed)))
    else if KeptAsTheyWere(rows, proposed, Summed(proposed)) then rows[TOTAL].floor
    else None
  }

  /** The total's floor: cut from this population's draws, kept where no reference beside it moved, or none. */
  method TotalFloor(rows: Rows, proposed: Rows, draws: map<string, seq<int>>, summed: nat) returns (floor: Option<nat>)
    requires Draws(proposed, draws) && summed == Summed(proposed)
    ensures floor == TotalFloorOf(rows, proposed, draws)
  {
    var referenced := SortSet(ReferencedJobs(proposed));
    assert referenced == [] <==> ReferencedJobs(proposed) == {} by {
      forall job | job in ReferencedJobs(proposed) ensures referenced != [] { assert job in referenced; }
      if referenced != [] { assert referenced[0] in ReferencedJobs(proposed); }
    }
    if referenced != [] && ReferencedJobs(proposed) <= draws.Keys && |Populations(proposed)| == 1 {
      CutSums(proposed, draws);
      floor := Some(FloorOf(SummedMoves(draws, referenced), summed));
    } else if KeptAsTheyWere(rows, proposed, summed) {
      floor := rows[TOTAL].floor;
    } else {
      floor := None;
    }
  }

  function RowOf(rows: Rows, job: string): Option<Row> {
    if job in rows then Some(rows[job]) else None
  }

  /** Every job an attempt times or the table holds, cut to those asked for. */
  function Asked(rows: Rows, attempts: seq<Attempt>, wanted: Option<set<string>>): set<string> {
    set job | job in (set a, s | a in attempts && s in a.spans :: s.job) + (rows.Keys - {TOTAL})
      && (wanted.None? || job in wanted.value)
  }

  /** What `--stamp` is handed: the table, the attempts, the jobs asked for, and the moves the seeded draws give. */
  datatype Order = Order(rows: Rows, attempts: seq<Attempt>, pull: Option<nat>, wanted: Option<set<string>>,
    drawn: string -> seq<int>) {
    ghost predicate Valid() {
      && WellFormed(rows) && TOTAL in rows && Dated(attempts, pull)
      && (forall job :: |drawn(job)| == RESAMPLES)
      && forall a, s | a in attempts && s in a.spans :: NameOk(s.job)
    }

    function Stamps(): set<string> {
      set job | job in Asked(rows, attempts, wanted) && Stampable(attempts, pull, job)
    }

    /** What the attempts propose for a job they stamp, before its matrix shares a ceiling. */
    ghost function Own(job: string): Row
      requires Valid() && job in Stamps()
    {
      ProposalOf(job, RowOf(rows, job), attempts, pull, drawn(job)).row
    }

    /** The rows the attempts leave, the stamped ones as proposed and the others as they were. */
    ghost function Table(): Rows
      requires Valid()
    {
      map job | job in rows.Keys + Stamps() :: if job in Stamps() then Own(job) else rows[job]
    }

    /** The draws of the references the attempts cut. */
    ghost function Moves(): map<string, seq<int>>
      requires Valid()
    {
      map job | job in Stamps() && Referenced(Own(job)) :: drawn(job)
    }

    /** The rows once the matrices share their ceilings. */
    ghost function Shared(): Rows
      requires Valid()
    {
      SharedFrom(Table(), Stamps())
    }

    /** The proposed table: those rows, and the total over them. */
    ghost function Proposed(): Rows
      requires Valid()
    {
      SharedDraws(this);
      WithTotal(rows, Shared(), Summed(Shared()), TotalFloorOf(rows, Shared(), Moves()))
    }

    /** A stamped job whose row already carries the stamp text its attempts give. */
    predicate KeepsText(job: string)
      requires Dated(attempts, pull) && job in Stamps()
    {
      CountedDays(attempts, job);
      var population := CountedOf(attempts, job);
      job in rows && rows[job].measured == Some(WriteStamp(Stamp(|population|, Newest(population), pull)))
    }

    /**
     * All references cut here from one population, a floor over them that rises, and one of them keeping its stamp
     * text.
     */
    ghost predicate FloorRefused()
      requires Valid()
    {
      OwnDraws(this);
      && Cuts(Table(), Moves()) && Rose(rows[TOTAL].floor, TotalFloorOf(rows, Table(), Moves()))
      && exists job | job in ReferencedJobs(Table()) * Stamps() :: KeepsText(job)
    }
  }

  // ----- the ceilings a table's matrices share

  ghost predicate Widest(table: Rows, stamps: set<string>, job: string, widest: string)
    requires stamps <= table.Keys
  {
    && widest in stamps && InstanceOf(widest) == InstanceOf(job) && table[widest].budget.Some?
    && forall other | other in stamps && InstanceOf(other) == InstanceOf(job) && table[other].budget.Some? ::
         table[other].budget.value <= table[widest].budget.value
  }

  lemma {:induction false} WidestOf(table: Rows, jobs: set<string>) returns (widest: string)
    requires jobs != {} && jobs <= table.Keys && forall job | job in jobs :: table[job].budget.Some?
    ensures widest in jobs && forall job | job in jobs :: table[job].budget.value <= table[widest].budget.value
    decreases jobs
  {
    var job :| job in jobs;
    widest := job;
    if jobs != {job} {
      var rest := WidestOf(table, jobs - {job});
      if table[rest].budget.value > table[job].budget.value { widest := rest; }
    }
  }

  lemma {:induction false} WidestExists(table: Rows, stamps: set<string>, job: string)
    requires job in stamps && stamps <= table.Keys && table[job].budget.Some?
    ensures exists widest :: Widest(table, stamps, job, widest)
  {
    var jobs := set j | j in stamps && InstanceOf(j) == InstanceOf(job) && table[j].budget.Some?;
    assert job in jobs;
    var widest := WidestOf(table, jobs);
    assert Widest(table, stamps, job, widest);
  }

  /** A stamped instance's budget is its matrix's widest, any other's its own. */
  ghost function CeilingIn(table: Rows, stamps: set<string>, job: string): (ceiling: Option<nat>)
    requires job in stamps && stamps <= table.Keys
    ensures Lifts(table[job], table[job].(budget := ceiling))
  {
    if InstanceOf(job).None? || table[job].budget.None? then table[job].budget
    else
      WidestExists(table, stamps, job);
      var widest :| Widest(table, stamps, job, widest);
      table[widest].budget
  }

  ghost function SharedFrom(table: Rows, stamps: set<string>): Rows
    requires stamps <= table.Keys
  {
    map job | job in table ::
      if job in stamps then table[job].(budget := CeilingIn(table, stamps, job)) else table[job]
  }

  lemma {:induction false} SharedAll(table: Rows, stamps: set<string>, stamped: seq<string>, r: Rows)
    requires stamps <= table.Keys == r.Keys && forall job :: job in stamped <==> job in stamps
    requires OneCeiling(r, stamped) && forall job | job in table :: SharedRow(table, stamped, r, job)
    ensures r == SharedFrom(table, stamps)
  {
    forall job | job in r ensures r[job] == SharedFrom(table, stamps)[job] {
      assert SharedRow(table, stamped, r, job);
      if job in stamped { SharedOne(table, stamps, stamped, r, job); }
    }
  }

  lemma {:induction false} SharedOne(table: Rows, stamps: set<string>, stamped: seq<string>, r: Rows, job: string)
    requires stamps <= table.Keys == r.Keys && job in stamps && forall j :: j in stamped <==> j in stamps
    requires OneCeiling(r, stamped) && forall j | j in table :: SharedRow(table, stamped, r, j)
    ensures r[job] == table[job].(budget := CeilingIn(table, stamps, job))
  {
    assert SharedRow(table, stamped, r, job);
    if InstanceOf(job).Some? && table[job].budget.Some? {
      var widest := TheWidest(table, stamps, job);
      var taken := BudgetTaken(table, stamped, r, job);
      assert SharedRow(table, stamped, r, widest);
      SameCeiling(r, stamped, job, widest);
      WidestTaken(table, stamps, r, job, taken, widest);
      LiftedTo(table[job], r[job], table[widest].budget);
    }
  }

  lemma {:induction false} LiftedTo(before: Row, now: Row, budget: Option<nat>)
    requires Lifts(before, now) && now.budget == budget
    ensures now == before.(budget := budget)
  {
  }

  lemma {:induction false} TheWidest(table: Rows, stamps: set<string>, job: string) returns (widest: string)
    requires job in stamps && stamps <= table.Keys && InstanceOf(job).Some? && table[job].budget.Some?
    ensures Widest(table, stamps, job, widest) && CeilingIn(table, stamps, job) == table[widest].budget
  {
    WidestExists(table, stamps, job);
    widest :| Widest(table, stamps, job, widest) && CeilingIn(table, stamps, job) == table[widest].budget;
  }

  lemma {:induction false} BudgetTaken(table: Rows, stamped: seq<string>, r: Rows, job: string)
    returns (taken: string)
    requires table.Keys == r.Keys && job in table && forall j | j in stamped :: j in table
    requires SharedRow(table, stamped, r, job)
    requires job in stamped && InstanceOf(job).Some? && table[job].budget.Some?
    ensures taken in stamped && InstanceOf(taken) == InstanceOf(job) && r[job].budget == table[taken].budget
    ensures r[job].budget.Some?
  {
    taken :| taken in stamped && InstanceOf(taken) == InstanceOf(job) && r[job].budget == table[taken].budget;
  }

  lemma {:induction false} SameCeiling(r: Rows, stamped: seq<string>, a: string, b: string)
    requires OneCeiling(r, stamped) && a in stamped && b in stamped && a in r && b in r
    requires InstanceOf(a).Some? && InstanceOf(b) == InstanceOf(a) && r[a].budget.Some? && r[b].budget.Some?
    ensures r[b].budget == r[a].budget
  {
  }

  lemma {:induction false} WidestTaken(
      table: Rows, stamps: set<string>, r: Rows, job: string, taken: string, widest: string)
    requires stamps <= table.Keys == r.Keys && job in stamps && taken in stamps && Widest(table, stamps, job, widest)
    requires InstanceOf(taken) == InstanceOf(job) && r[job].budget.Some? && r[job].budget == table[taken].budget
    requires Lifts(table[widest], r[widest])
    requires r[widest].budget.Some? ==> r[widest].budget == r[job].budget
    ensures r[job].budget == table[widest].budget
  {
  }

  // ----- the rows an order stamps

  /** What a stamped row is: readable, of enough runs, and drawn where it has a reference. */
  lemma {:induction false} OwnReads(o: Order, job: string)
    requires o.Valid() && job in o.Stamps()
    ensures StampedRow(job, o.Own(job), o.pull)
    ensures Referenced(o.Own(job)) ==> Drawn(o.Own(job), o.drawn(job))
  {
    CountedDays(o.attempts, job);
    ProposedRowReads(job, RowOf(o.rows, job), CountedOf(o.attempts, job), o.pull, o.drawn(job));
  }

  /** The loop's state after some jobs: the stamped ones proposed, with their draws, the others as they were. */
  ghost predicate StampedSoFar(
      o: Order, jobs: seq<string>, proposed: Rows, stamped: seq<string>, draws: map<string, seq<int>>)
    requires o.Valid()
  {
    forall job :: StampedAt(o, jobs, proposed, stamped, draws, job)
  }

  ghost predicate StampedAt(
      o: Order, jobs: seq<string>, proposed: Rows, stamped: seq<string>, draws: map<string, seq<int>>, job: string)
    requires o.Valid()
  {
    && (job in stamped <==> job in jobs && job in o.Stamps())
    && (job in proposed <==> job in o.rows || job in stamped)
    && (job in proposed ==> proposed[job] == if job in stamped then o.Own(job) else o.rows[job])
    && (job in draws <==> job in stamped && Referenced(o.Own(job)))
    && (job in draws ==> draws[job] == o.drawn(job))
  }

  lemma {:induction false} StampedOneMore(
      o: Order, jobs: seq<string>, proposed: Rows, stamped: seq<string>, draws: map<string, seq<int>>, job: string)
    requires o.Valid() && StampedSoFar(o, jobs, proposed, stamped, draws) && job in o.Stamps()
    ensures StampedSoFar(o, jobs + [job], proposed[job := o.Own(job)], stamped + [job],
      if Referenced(o.Own(job)) then draws[job := o.drawn(job)] else draws - {job})
  {
    var draws' := if Referenced(o.Own(job)) then draws[job := o.drawn(job)] else draws - {job};
    var jobs', proposed', stamped' := jobs + [job], proposed[job := o.Own(job)], stamped + [job];
    forall other ensures StampedAt(o, jobs', proposed', stamped', draws', other) {
      assert StampedAt(o, jobs, proposed, stamped, draws, other);
      assert other in jobs' <==> other in jobs || other == job;
      assert other in stamped' <==> other in stamped || other == job;
    }
  }

  lemma {:induction false} PassedOver(
      o: Order, jobs: seq<string>, proposed: Rows, stamped: seq<string>, draws: map<string, seq<int>>, job: string)
    requires o.Valid() && StampedSoFar(o, jobs, proposed, stamped, draws) && job !in o.Stamps()
    ensures StampedSoFar(o, jobs + [job], proposed, stamped, draws)
  {
    var jobs' := jobs + [job];
    forall other ensures StampedAt(o, jobs', proposed, stamped, draws, other) {
      assert StampedAt(o, jobs, proposed, stamped, draws, other);
    }
  }

  lemma {:induction false} NotYetDrawn(
      o: Order, jobs: seq<string>, proposed: Rows, stamped: seq<string>, draws: map<string, seq<int>>, job: string)
    requires o.Valid() && StampedSoFar(o, jobs, proposed, stamped, draws) && job !in jobs
    ensures job !in stamped && draws - {job} == draws
  {
    assert StampedAt(o, jobs, proposed, stamped, draws, job);
  }

  /** Every job asked for that the attempts can stamp is, and a matrix's stamped instances share one ceiling. */
  method Stamped(o: Order, jobs: seq<string>)
    returns (proposed: Rows, stamped: seq<string>, draws: map<string, seq<int>>)
    requires o.Valid() && Distinct(jobs) && forall job :: job in jobs <==> job in Asked(o.rows, o.attempts, o.wanted)
    ensures proposed == o.Shared() && draws == o.Moves() && OneCeiling(proposed, stamped)
    ensures forall job :: job in stamped <==> job in o.Stamps()
  {
    proposed, stamped, draws := o.rows, [], map[];
    for i := 0 to |jobs|
      invariant StampedSoFar(o, jobs[..i], proposed, stamped, draws)
    {
      var job := jobs[i];
      assert job in jobs && job !in jobs[..i] && jobs[..i + 1] == jobs[..i] + [job];
      NotYetDrawn(o, jobs[..i], proposed, stamped, draws, job);
      if job in o.Stamps() {
        StampedOneMore(o, jobs[..i], proposed, stamped, draws, job);
      } else {
        PassedOver(o, jobs[..i], proposed, stamped, draws, job);
      }
      var p := Propose(job, RowOf(o.rows, job), o.attempts, o.pull, o.drawn(job));
      if p.Some? {
        proposed, stamped := proposed[job := p.value.row], stamped + [job];
        if p.value.moves.Some? { draws := draws[job := p.value.moves.value]; }
      }
    }
    assert jobs[..|jobs|] == jobs;
    StampedAll(o, jobs, proposed, stamped, draws);
    proposed := ShareCeilings(proposed, stamped);
    SharedAll(o.Table(), o.Stamps(), stamped, proposed);
  }

  lemma {:induction false} StampedAll(
      o: Order, jobs: seq<string>, proposed: Rows, stamped: seq<string>, draws: map<string, seq<int>>)
    requires o.Valid() && StampedSoFar(o, jobs, proposed, stamped, draws)
    requires forall job :: job in jobs <==> job in Asked(o.rows, o.attempts, o.wanted)
    ensures proposed == o.Table() && draws == o.Moves() && forall job :: job in stamped <==> job in o.Stamps()
  {
    StampedTable(o, jobs, proposed, stamped, draws);
    StampedMoves(o, jobs, proposed, stamped, draws);
    forall job ensures job in stamped <==> job in o.Stamps() { StampedOne(o, jobs, proposed, stamped, draws, job); }
  }

  lemma {:induction false} StampedMoves(
      o: Order, jobs: seq<string>, proposed: Rows, stamped: seq<string>, draws: map<string, seq<int>>)
    requires o.Valid() && StampedSoFar(o, jobs, proposed, stamped, draws)
    requires forall job :: job in jobs <==> job in Asked(o.rows, o.attempts, o.wanted)
    ensures draws == o.Moves()
  {
    forall job ensures job in draws <==> job in o.Moves() ensures job in draws ==> draws[job] == o.Moves()[job] {
      StampedOne(o, jobs, proposed, stamped, draws, job);
    }
  }

  lemma {:induction false} StampedTable(
      o: Order, jobs: seq<string>, proposed: Rows, stamped: seq<string>, draws: map<string, seq<int>>)
    requires o.Valid() && StampedSoFar(o, jobs, proposed, stamped, draws)
    requires forall job :: job in jobs <==> job in Asked(o.rows, o.attempts, o.wanted)
    ensures proposed == o.Table()
  {
    forall job
      ensures job in proposed <==> job in o.Table()
      ensures job in proposed ==> proposed[job] == o.Table()[job]
    {
      StampedOne(o, jobs, proposed, stamped, draws, job);
    }
  }

  lemma {:induction false} StampedOne(
      o: Order, jobs: seq<string>, proposed: Rows, stamped: seq<string>, draws: map<string, seq<int>>, job: string)
    requires o.Valid() && StampedAt(o, jobs, proposed, stamped, draws, job)
    requires job in jobs <==> job in Asked(o.rows, o.attempts, o.wanted)
    ensures job in stamped <==> job in o.Stamps()
    ensures (job in proposed <==> job in o.Table()) && (job in proposed ==> proposed[job] == o.Table()[job])
    ensures (job in draws <==> job in o.Moves()) && (job in draws ==> draws[job] == o.Moves()[job])
  {
    MovesHold(o, job);
  }

  lemma {:induction false} MovesHold(o: Order, job: string)
    requires o.Valid()
    ensures job in o.Moves() <==> job in o.Stamps() && Referenced(o.Own(job))
    ensures job in o.Moves() ==> o.Moves()[job] == o.drawn(job)
  {
  }

  lemma {:induction false} LiftedStillStamped(job: string, before: Row, now: Row, pull: Option<nat>)
    requires StampedRow(job, before, pull) && Lifts(before, now)
    ensures StampedRow(job, now, pull) && (Referenced(now) <==> Referenced(before)) && now.seconds == before.seconds
  {
    assert StampOf(now) == StampOf(before);
  }

  lemma {:induction false} SharedStamping(o: Order, stamped: seq<string>)
    requires o.Valid() && forall job :: job in stamped <==> job in o.Stamps()
    ensures Stamping(o.rows, o.Shared(), stamped, o.Moves(), o.pull)
  {
    forall job | job in o.Shared() ensures Stands(job, o.Shared()[job], o.rows, stamped, o.Moves(), o.pull) {
      MovesHold(o, job);
      if job in stamped { SharedStands(o, job); }
    }
    forall job | job in o.Moves() ensures job in stamped { MovesHold(o, job); }
  }

  lemma {:induction false} SharedStands(o: Order, job: string)
    requires o.Valid() && job in o.Stamps()
    ensures var row := o.Shared()[job];
      && StampedRow(job, row, o.pull) && (Referenced(row) <==> Referenced(o.Own(job)))
      && (Referenced(row) ==> Drawn(row, o.drawn(job)))
  {
    OwnReads(o, job);
    LiftedStillStamped(job, o.Own(job), o.Shared()[job], o.pull);
  }

  lemma {:induction false} SharedDraws(o: Order)
    requires o.Valid()
    ensures Draws(o.Shared(), o.Moves())
  {
    forall job | job in o.Moves() ensures job in o.Shared() && Drawn(o.Shared()[job], o.Moves()[job]) {
      MovesHold(o, job);
      SharedStands(o, job);
    }
  }

  function WithTotal(rows: Rows, proposed: Rows, summed: nat, floor: Option<nat>): Rows
    requires TOTAL in rows
  {
    proposed[TOTAL := Row(TOTAL, Some(summed), floor, rows[TOTAL].budget, rows[TOTAL].measured)]
  }

  lemma {:induction false} SameReferences(a: Rows, b: Rows)
    requires a - {TOTAL} == b - {TOTAL}
    ensures ReferencedJobs(a) == ReferencedJobs(b) && Populations(a) == Populations(b)
  {
    forall job | job != TOTAL ensures job in a <==> job in b ensures job in a ==> a[job] == b[job] {
      assert job in a <==> job in a - {TOTAL};
      assert job in b <==> job in b - {TOTAL};
      assert job in a ==> a[job] == (a - {TOTAL})[job];
    }
    assert ReferencedJobs(a) == ReferencedJobs(b);
    assert forall job | job in ReferencedJobs(a) :: PopulationOf(a[job]) == PopulationOf(b[job]);
  }

  lemma {:induction false} WithTotalProposable(
      rows: Rows, proposed: Rows, stamped: seq<string>, draws: map<string, seq<int>>, pull: Option<nat>,
      floor: Option<nat>)
    requires WellFormed(rows) && TOTAL in rows && Stamping(rows, proposed, stamped, draws, pull)
    requires forall job | job in stamped :: job in rows || NameOk(job)
    ensures Proposable(rows, WithTotal(rows, proposed, Summed(proposed), floor))
  {
    var now := WithTotal(rows, proposed, Summed(proposed), floor);
    assert now - {TOTAL} == proposed - {TOTAL};
    forall job | job in now
      ensures now[job].job == job && StampReadable(now[job]) && (job != TOTAL ==> BudgetHeld(now[job]))
    {
      assert job != TOTAL ==> Stands(job, proposed[job], rows, stamped, draws, pull);
      assert job in rows ==> RowOk(rows[job]);
    }
  }

  /** What the proposed table keeps of the table in hand, row by row. */
  ghost predicate Recut(rows: Rows, proposed: Rows, stamped: seq<string>, pull: Option<nat>) {
    && TOTAL in rows && TOTAL in proposed && proposed[TOTAL].budget == rows[TOTAL].budget
    && proposed[TOTAL].measured == rows[TOTAL].measured
    && forall job | job in proposed && job != TOTAL ::
         if job in stamped then StampedRow(job, proposed[job], pull) else job in rows && proposed[job] == rows[job]
  }

  /**
   * The total's floor is refused exactly where it was cut here, rose, and rests on a reference whose stamp text stands.
   */
  lemma {:induction false} CutFloorRefusedIff(rows: Rows, table: Rows, draws: map<string, seq<int>>)
    requires TOTAL in rows && Draws(table, draws)
    ensures var floor := TotalFloorOf(rows, table, draws);
      !TotalFloorStands(Some(rows), WithTotal(rows, table, Summed(table), floor))
      <==> Cuts(table, draws) && Rose(rows[TOTAL].floor, floor) && Unmoved(Some(rows), table) != {}
  {
    var floor := TotalFloorOf(rows, table, draws);
    var now := WithTotal(rows, table, Summed(table), floor);
    SameReferences(table, now);
    UnmovedApart(rows, table, now);
    assert now[TOTAL].floor == floor;
    if !Cuts(table, draws) { assert !Rose(rows[TOTAL].floor, floor); }
  }

  lemma {:induction false} UnmovedApart(rows: Rows, a: Rows, b: Rows)
    requires a - {TOTAL} == b - {TOTAL}
    ensures Unmoved(Some(rows), a) == Unmoved(Some(rows), b)
  {
    forall job | job != TOTAL ensures job in a <==> job in b ensures job in a ==> a[job] == b[job] {
      assert job in a <==> job in a - {TOTAL};
      assert job in b <==> job in b - {TOTAL};
      assert job in a ==> a[job] == (a - {TOTAL})[job];
    }
  }

  method CutTotal(rows: Rows, table: Rows, stamped: seq<string>, draws: map<string, seq<int>>, ghost pull: Option<nat>)
    returns (proposed: Rows)
    requires WellFormed(rows) && TOTAL in rows && Stamping(rows, table, stamped, draws, pull)
    requires OneCeiling(table, stamped) && forall job | job in stamped :: job in rows || NameOk(job)
    ensures Draws(table, draws) && proposed == WithTotal(rows, table, Summed(table), TotalFloorOf(rows, table, draws))
    ensures Proposable(rows, proposed) && Recut(rows, proposed, stamped, pull) && OneCeiling(proposed, stamped)
  {
    var summed := SumOf(table);
    StampingDraws(rows, table, stamped, draws, pull);
    var floor := TotalFloor(rows, table, draws, summed);
    WithTotalProposable(rows, table, stamped, draws, pull, floor);
    WithTotalRecut(rows, table, stamped, draws, pull, floor);
    proposed := WithTotal(rows, table, summed, floor);
  }

  lemma {:induction false} StampingDraws(
      rows: Rows, table: Rows, stamped: seq<string>, draws: map<string, seq<int>>, pull: Option<nat>)
    requires Stamping(rows, table, stamped, draws, pull)
    ensures Draws(table, draws)
  {
    forall job | job in draws ensures job in table && Drawn(table[job], draws[job]) {
      assert Stands(job, table[job], rows, stamped, draws, pull);
    }
  }

  lemma {:induction false} WithTotalRecut(
      rows: Rows, table: Rows, stamped: seq<string>, draws: map<string, seq<int>>, pull: Option<nat>,
      floor: Option<nat>)
    requires TOTAL in rows && Stamping(rows, table, stamped, draws, pull) && OneCeiling(table, stamped)
    ensures var proposed := WithTotal(rows, table, Summed(table), floor);
      Recut(rows, proposed, stamped, pull) && OneCeiling(proposed, stamped)
  {
    assert '(' !in TOTAL && InstanceOf(TOTAL) == None;
    var proposed := WithTotal(rows, table, Summed(table), floor);
    forall job | job in proposed && job != TOTAL
      ensures if job in stamped then StampedRow(job, proposed[job], pull) else job in rows && proposed[job] == rows[job]
    {
      assert Stands(job, table[job], rows, stamped, draws, pull);
    }
  }

  lemma {:induction false} OwnDraws(o: Order)
    requires o.Valid()
    ensures Draws(o.Table(), o.Moves())
  {
    forall job | job in o.Moves() ensures job in o.Table() && Drawn(o.Table()[job], o.Moves()[job]) {
      MovesHold(o, job);
      OwnReads(o, job);
    }
  }

  /** Two tables that differ in ceilings alone. */
  ghost predicate ButCeilings(a: Rows, b: Rows) {
    a.Keys == b.Keys && forall job | job in a :: b[job] == a[job].(budget := b[job].budget)
  }

  lemma {:induction false} ButCeilingsSum(a: Rows, b: Rows)
    requires ButCeilings(a, b)
    ensures Sum(a) == Sum(b)
    decreases |a|
  {
    if a != map[] {
      var job :| job in a;
      SumSplit(a, job);
      SumSplit(b, job);
      ButCeilingsSum(a - {job}, b - {job});
    } else {
      assert b == map[];
    }
  }

  lemma {:induction false} ButCeilingsAlike(rows: Rows, a: Rows, b: Rows)
    requires ButCeilings(a, b)
    ensures ReferencedJobs(a) == ReferencedJobs(b) && Populations(a) == Populations(b) && Summed(a) == Summed(b)
    ensures Unmoved(Some(rows), a) == Unmoved(Some(rows), b)
  {
    assert ReferencedJobs(a) == ReferencedJobs(b);
    assert forall job | job in ReferencedJobs(a) :: PopulationOf(a[job]) == PopulationOf(b[job]);
    ButCeilingsSum(a - {TOTAL}, b - {TOTAL});
  }

  lemma {:induction false} SharedButCeilings(o: Order)
    requires o.Valid()
    ensures ButCeilings(o.Table(), o.Shared())
  {
  }

  lemma {:induction false} OwnText(o: Order, job: string)
    requires o.Valid() && job in o.Stamps()
    ensures o.KeepsText(job) <==> job in o.rows && o.rows[job].measured == o.Table()[job].measured
  {
    CountedDays(o.attempts, job);
  }

  /** Where every reference was cut here, the unmoved ones are those whose row carries the text its attempts give. */
  lemma {:induction false} UnmovedKeepText(o: Order)
    requires o.Valid() && Cuts(o.Table(), o.Moves())
    ensures Unmoved(Some(o.rows), o.Table()) != {} <==>
      exists job | job in ReferencedJobs(o.Table()) * o.Stamps() :: o.KeepsText(job)
  {
    var table, moves := o.Table(), o.Moves();
    assert forall job | job in moves :: job in o.Stamps();
    forall job | job in ReferencedJobs(table)
      ensures job in o.Stamps() && (job in Unmoved(Some(o.rows), table) <==> o.KeepsText(job))
    {
      assert job in moves.Keys;
      OwnText(o, job);
    }
    assert Unmoved(Some(o.rows), table) <= ReferencedJobs(table);
  }

  lemma {:induction false} FloorRefusedIff(o: Order)
    requires o.Valid()
    ensures !TotalFloorStands(Some(o.rows), o.Proposed()) <==> o.FloorRefused()
  {
    SharedDraws(o);
    CutFloorRefusedIff(o.rows, o.Shared(), o.Moves());
    SharedButCeilings(o);
    ButCeilingsAlike(o.rows, o.Table(), o.Shared());
    OwnDraws(o);
    if Cuts(o.Table(), o.Moves()) { UnmovedKeepText(o); }
  }

  /**
   * The proposed table. It is one the text can carry and every mode can read, and its total floor is refused exactly
   * where every reference was cut here from one population, their floor rises, and one of them already carried the
   * stamp text these attempts give.
   */
  method StampTable(o: Order) returns (proposed: Rows, stamped: seq<string>)
    requires o.Valid()
    ensures proposed == o.Proposed() && forall job :: job in stamped <==> job in o.Stamps()
    ensures Proposable(o.rows, proposed) && Recut(o.rows, proposed, stamped, o.pull) && OneCeiling(proposed, stamped)
    ensures !TotalFloorStands(Some(o.rows), proposed) <==> o.FloorRefused()
  {
    var jobs := SortSet(Asked(o.rows, o.attempts, o.wanted));
    var table, draws;
    table, stamped, draws := Stamped(o, jobs);
    SharedStamping(o, stamped);
    proposed := CutTotal(o.rows, table, stamped, draws, o.pull);
    FloorRefusedIff(o);
  }
}
