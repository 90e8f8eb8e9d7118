/**
 * What `--stamp` does with the table it proposes: it writes what every mode reads, and holds it to the table in hand.
 */
module GateProposal {
  import opened GateFigures
  import opened GateRatchet
  import opened GateRoundTrip
  import opened GateStamp
  import opened GateTable
  import opened Ordering
  import opened PythonText
  import opened Results

  /** `Crashed` is the parse of its own proposal raising, before anything is written. */
  datatype Outcome =
    | Unread(error: Malformed)
    | NotAllStamped
    | NothingStamped
    | Crashed(error: Malformed)
    | Wrote(text: string, findings: seq<Finding>)

  // ----- what every mode reads

  lemma {:induction false} ProposedSum(o: Order)
    requires o.Valid()
    ensures Summed(o.Proposed()) == Summed(o.Table())
  {
    SharedDraws(o);
    SharedButCeilings(o);
    ButCeilingsAlike(o.rows, o.Table(), o.Shared());
    assert o.Proposed() - {TOTAL} == o.Shared() - {TOTAL};
  }

  lemma {:induction false} ProposedProposable(o: Order)
    requires o.Valid()
    ensures Proposable(o.rows, o.Proposed())
  {
    var stamped := SortedSet(o.Stamps());
    SharedStamping(o, stamped);
    SharedDraws(o);
    forall job | job in stamped ensures job in o.rows || NameOk(job) { StampNamed(o, job); }
    WithTotalProposable(o.rows, o.Shared(), stamped, o.Moves(), o.pull, TotalFloorOf(o.rows, o.Shared(), o.Moves()));
  }

  lemma {:induction false} StampNamed(o: Order, job: string)
    requires o.Valid() && job in o.Stamps()
    ensures job in o.rows || NameOk(job)
  {
  }

  /** The total closes the table, and its own budget, if it has one, stands over what the references will sum to. */
  ghost predicate Readable(text: string, o: Order)
    requires o.Valid()
  {
    var budget := o.rows[TOTAL].budget;
    TotalLast(text) && (budget.None? || budget.value >= Summed(o.Table()))
  }

  /** The proposal is a file the other modes read exactly there. */
  lemma {:induction false} ProposalReadsBackIff(text: string, o: Order)
    requires o.Valid() && Reference(text) == Ok(o.rows)
    ensures Covers(o.Proposed(), SplitLines(text))
    ensures Reference(Written(text, o.Proposed())).Ok? <==> Readable(text, o)
    ensures Readable(text, o) ==> Reference(Written(text, o.Proposed())) == Ok(o.Proposed())
  {
    ProposedProposable(o);
    ProposedSum(o);
    ReferenceKeeps(text);
    WrittenReadsBackIff(text, o.Proposed());
  }

  // ----- what the ratchet finds of it

  predicate AheadOf(row: Row, today: Date) {
    StampOf(row).Some? && Before(today, StampOf(row).value.newest)
  }

  /** Enough spans for a reference, and one above zero. */
  predicate CutsReference(attempts: seq<Attempt>, job: string) {
    var seconds := SecondsIn(CountedOf(attempts, job));
    |seconds| >= MIN_FLOOR_SPANS && Median(seconds) > 0
  }

  /** A stamped row keeps its reference, and rises only on a new stamp no older than the one it had. */
  ghost predicate StampHeld(o: Order, job: string, today: Date)
    requires o.Valid() && job in o.Stamps()
  {
    var newest := Newest(CountedOf(o.attempts, job));
    && !Before(today, newest)
    && (job in o.rows ==>
          && (Referenced(o.rows[job]) ==> CutsReference(o.attempts, job))
          && (AnyRose(o.rows[job], o.Shared()[job]) ==>
                !o.KeepsText(job)
                && (StampOf(o.rows[job]).Some? ==> !Before(newest, StampOf(o.rows[job]).value.newest))))
  }

  /** The total's floor is not refused, and does not go. */
  ghost predicate TotalHeld(o: Order)
    requires o.Valid()
  {
    SharedDraws(o);
    !o.FloorRefused() && (o.rows[TOTAL].floor.Some? ==> TotalFloorOf(o.rows, o.Shared(), o.Moves()).Some?)
  }

  /**
   * Each row by its kind: the total, a stamped row, and one left as it was, whose stamp is not ahead of today.
   */
  ghost predicate RowHeld(o: Order, today: Date, job: string)
    requires o.Valid() && job in o.Shared()
  {
    if job == TOTAL then TotalHeld(o)
    else if job in o.Stamps() then StampHeld(o, job, today)
    else !AheadOf(o.rows[job], today)
  }

  /** No matrix is left with two budgets, and every row holds. */
  ghost predicate Held(o: Order, today: Date)
    requires o.Valid()
  {
    OneBudgetPerMatrix(o.Shared()) && forall job | job in o.Shared() :: RowHeld(o, today, job)
  }

  lemma {:induction false} TotalRowIff(o: Order, today: Date)
    requires o.Valid() && Totalled(o.rows)
    ensures TOTAL in o.Proposed() && (CheckRow(Some(o.rows), o.Proposed(), today, TOTAL) == [] <==> TotalHeld(o))
  {
    SharedDraws(o);
    FloorRefusedIff(o);
    TotalIff(o.rows, o.Proposed(), today);
  }

  lemma {:induction false} TotalIff(rows: Rows, head: Rows, today: Date)
    requires TOTAL in rows && TOTAL in head && rows[TOTAL].seconds.Some? && head[TOTAL].seconds.Some?
    ensures CheckRow(Some(rows), head, today, TOTAL) == [] <==>
      TotalFloorStands(Some(rows), head) && (rows[TOTAL].floor.Some? ==> head[TOTAL].floor.Some?)
  {
  }

  lemma {:induction false} NotSplit(rows: Rows, head: Rows, job: string)
    requires rows.Keys <= head.Keys && job in head
    ensures SplitFrom(Some(rows), head, job) == None
  {
  }

  lemma {:induction false} UnstampedRowIff(rows: Rows, head: Rows, today: Date, job: string)
    requires rows.Keys <= head.Keys && job in rows && head[job] == rows[job] && job != TOTAL
    ensures CheckRow(Some(rows), head, today, job) == [] <==> !AheadOf(rows[job], today)
  {
    NotSplit(rows, head, job);
  }

  /** What a proposed row keeps of its rules whatever row it replaces. */
  ghost predicate StampsWell(job: string, before: Option<Row>, row: Row, stamp: Stamp) {
    && StampOf(row) == Some(stamp) && stamp.runs >= MIN_STAMP_RUNS && !(stamp.pull.Some? && TreeKeyed(job))
    && (row.seconds.Some? <==> row.floor.Some?) && (row.seconds.Some? ==> stamp.runs >= MIN_FLOOR_SPANS)
    && (before.Some? && before.value.budget.Some? ==> row.budget.Some?)
  }

  lemma {:induction false} StampedRowIff(rows: Rows, head: Rows, today: Date, job: string, stamp: Stamp)
    requires rows.Keys <= head.Keys && job in head && job != TOTAL
    requires StampsWell(job, RowOf(rows, job), head[job], stamp)
    ensures CheckRow(Some(rows), head, today, job) == [] <==>
      && !Before(today, stamp.newest)
      && (job in rows ==>
            && (Referenced(rows[job]) ==> Referenced(head[job]))
            && (AnyRose(rows[job], head[job]) ==>
                  head[job].measured != rows[job].measured
                  && (StampOf(rows[job]).Some? ==> !Before(stamp.newest, StampOf(rows[job]).value.newest))))
  {
    NotSplit(rows, head, job);
  }

  lemma {:induction false} OwnStampsWell(o: Order, job: string) returns (stamp: Stamp)
    requires o.Valid() && job in o.Stamps()
    ensures stamp.newest == Newest(CountedOf(o.attempts, job))
    ensures StampsWell(job, RowOf(o.rows, job), o.Own(job), stamp)
    ensures Referenced(o.Own(job)) <==> CutsReference(o.attempts, job)
  {
    stamp := OwnStamp(o, job);
    OwnFigures(o, job);
  }

  lemma {:induction false} OwnStamp(o: Order, job: string) returns (stamp: Stamp)
    requires o.Valid() && job in o.Stamps()
    ensures stamp.newest == Newest(CountedOf(o.attempts, job)) && stamp.pull == o.pull
    ensures stamp.runs == |CountedOf(o.attempts, job)| && StampOf(o.Own(job)) == Some(stamp)
  {
    var population := CountedOf(o.attempts, job);
    CountedDays(o.attempts, job);
    ProposedStamp(job, RowOf(o.rows, job), population, o.pull, o.drawn(job));
    stamp := Stamp(|population|, Newest(population), o.pull);
  }

  lemma {:induction false} OwnFigures(o: Order, job: string)
    requires o.Valid() && job in o.Stamps()
    ensures var own := o.Own(job);
      && (own.seconds.Some? <==> CutsReference(o.attempts, job)) && (own.floor.Some? <==> own.seconds.Some?)
      && (job in o.rows && o.rows[job].budget.Some? ==> own.budget.Some?)
  {
    CountedDays(o.attempts, job);
  }

  lemma {:induction false} SharedStampsWell(job: string, before: Option<Row>, own: Row, row: Row, stamp: Stamp)
    requires StampsWell(job, before, own, stamp) && Lifts(own, row)
    ensures StampsWell(job, before, row, stamp) && (Referenced(row) <==> Referenced(own))
    ensures row.measured == own.measured
  {
    assert StampOf(row) == StampOf(own);
  }

  lemma {:induction false} OrderRowIff(o: Order, today: Date, job: string)
    requires o.Valid() && job in o.Stamps() && job != TOTAL
    ensures job in o.Proposed()
    ensures CheckRow(Some(o.rows), o.Proposed(), today, job) == [] <==> StampHeld(o, job, today)
  {
    SharedDraws(o);
    var own, row := o.Own(job), o.Shared()[job];
    var stamp := OwnStampsWell(o, job);
    SharedStampsWell(job, RowOf(o.rows, job), own, row, stamp);
    StampedRowIff(o.rows, o.Proposed(), today, job, stamp);
    OwnText(o, job);
  }

  lemma {:induction false} MatricesIff(o: Order)
    requires o.Valid()
    ensures OneBudgetPerMatrix(o.Proposed()) <==> OneBudgetPerMatrix(o.Shared())
  {
    assert '(' !in TOTAL && InstanceOf(TOTAL) == None;
    SharedDraws(o);
    var a, b := o.Proposed(), o.Shared();
    forall job | InstanceOf(job).Some? ensures (job in a <==> job in b) && (job in a ==> a[job] == b[job]) { }
  }

  /** The proposal is accepted against the table in hand exactly where the order holds. */
  lemma {:induction false} AcceptedIff(o: Order, today: Date)
    requires o.Valid() && Totalled(o.rows)
    ensures Accepted(Some(o.rows), o.Proposed(), today) <==> Held(o, today)
  {
    MatricesIff(o);
    ProposedJobs(o);
    forall job | job in o.Shared()
      ensures CheckRow(Some(o.rows), o.Proposed(), today, job) == [] <==> RowHeld(o, today, job)
    {
      RowIff(o, today, job);
    }
  }

  lemma {:induction false} ProposedJobs(o: Order)
    requires o.Valid()
    ensures o.Proposed().Keys == o.Shared().Keys
  {
    SharedDraws(o);
  }

  lemma {:induction false} RowIff(o: Order, today: Date, job: string)
    requires o.Valid() && Totalled(o.rows) && job in o.Shared()
    ensures job in o.Proposed()
    ensures CheckRow(Some(o.rows), o.Proposed(), today, job) == [] <==> RowHeld(o, today, job)
  {
    ProposedJobs(o);
    if job == TOTAL {
      TotalRowIff(o, today);
    } else if job in o.Stamps() {
      OrderRowIff(o, today, job);
    } else {
      UnstampedRowIff(o.rows, o.Proposed(), today, job);
    }
  }

  // ----- the whole of it

  /** A job asked for by name that the attempts cannot stamp. */
  predicate Missed(o: Order) {
    o.wanted.Some? && exists job | job in o.wanted.value :: job !in o.Stamps()
  }

  /** A row beside the total other than the table has it. */
  ghost predicate Changes(o: Order)
    requires o.Valid()
  {
    exists job | job in o.Proposed() :: job !in o.rows || (job != TOTAL && o.Proposed()[job] != o.rows[job])
  }

  /** What `--stamp` comes to: nothing is written but what every mode reads as the proposal. */
  ghost predicate ComesTo(text: string, o: Order, today: Date, out: Outcome)
    requires o.Valid() && Reference(text) == Ok(o.rows)
  {
    ProposalReadsBackIff(text, o);
    if Missed(o) then out == NotAllStamped
    else if !Changes(o) then out == NothingStamped
    else if !Readable(text, o) then out.Crashed?
    else
      && out.Wrote? && out.text == Written(text, o.Proposed()) && Reference(out.text) == Ok(o.Proposed())
      && (forall f :: f in out.findings <==> FoundIn(Some(o.rows), o.Proposed(), today, f))
      && (out.findings == [] <==> Held(o, today))
  }

  method StampMain(
      text: string, attempts: seq<Attempt>, pull: Option<nat>, wanted: Option<set<string>>,
      drawn: string -> seq<int>, today: Date)
    returns (out: Outcome)
    requires Dated(attempts, pull) && forall job :: |drawn(job)| == RESAMPLES
    requires forall a, s | a in attempts && s in a.spans :: NameOk(s.job)
    ensures Reference(text).Err? ==> out == Unread(Reference(text).error)
    ensures Reference(text).Ok? ==>
      var o := Order(Reference(text).value, attempts, pull, wanted, drawn);
      o.Valid() && ComesTo(text, o, today, out)
  {
    var read := ParseReference(text);
    if read.Err? { return Unread(read.error); }
    ReferenceKeeps(text);
    var o := Order(read.value, attempts, pull, wanted, drawn);
    var proposed, stamped := StampTable(o);
    if wanted.Some? && exists job | job in wanted.value :: job !in stamped { return NotAllStamped; }
    if !exists job | job in proposed :: job !in o.rows || (job != TOTAL && proposed[job] != o.rows[job]) {
      return NothingStamped;
    }
    ProposalReadsBackIff(text, o);
    var proposal := Rewritten(text, proposed);
    var again := ParseReference(proposal);
    if again.Err? { return Crashed(again.error); }
    var findings := CheckRaise(Some(o.rows), proposed, today);
    AcceptedIff(o, today);
    out := Wrote(proposal, findings);
  }

  // ----- a proposal whose total floor is refused

  const NEW_YEAR := Date(2026, 1, 1)
  const TWENTY_FOUR := WriteStamp(Stamp(24, NEW_YEAR, None))

  function Alike(job: string): seq<Attempt> {
    seq(24, i requires 0 <= i < 24 => Attempt(i + 1, 1, NEW_YEAR, [Span(job, Succeeded, 100)], {}))
  }

  /**
   * A table of one referenced row, its total without a floor, stamped from attempts that give the row the stamp text it
   * has.
   */
  function StampedAgain(): Order {
    Order(
      map["backend" := Row("backend", Some(90), Some(10), Some(150), Some(TWENTY_FOUR)),
          TOTAL := Row(TOTAL, Some(90), None, None, None)],
      Alike("backend"), None, None, (job: string) => seq(RESAMPLES, _ => 0))
  }

  lemma {:induction false} AlikeCounted(attempts: seq<Attempt>, job: string, seconds: nat)
    requires !TreeKeyed(job)
    requires forall a | a in attempts ::
      a.day == NEW_YEAR && a.spans == [Span(job, Succeeded, seconds)] && a.retried == {}
    ensures |CountedOf(attempts, job)| == |attempts|
    ensures forall t | t in CountedOf(attempts, job) :: t == Timed(seconds, NEW_YEAR)
  {
    if attempts != [] {
      var front, last := attempts[..|attempts| - 1], attempts[|attempts| - 1];
      AlikeCounted(front, job, seconds);
      assert last.spans[..0] == [];
      assert CountedIn(last, last.spans, job) == [Timed(seconds, NEW_YEAR)];
    }
  }

  lemma {:induction false} StampedAgainRows()
    ensures var rows := StampedAgain().rows; WellFormed(rows) && Totalled(rows) && rows.Keys == {"backend", TOTAL}
  {
    var rows := StampedAgain().rows;
    StampRoundTrip(Stamp(24, NEW_YEAR, None));
    SumOfOne(rows, "backend");
  }

  lemma {:induction false} StampedAgainCounted()
    ensures var population := CountedOf(StampedAgain().attempts, "backend");
      |population| == 24 && forall t | t in population :: t == Timed(100, NEW_YEAR)
  {
    assert '(' !in "backend" && InstanceOf("backend") == None;
    AlikeCounted(Alike("backend"), "backend", 100);
  }

  lemma {:induction false} StampedAgainValid()
    ensures StampedAgain().Valid()
  {
    StampedAgainRows();
    AlikeAttempts("backend");
    assert NameOk("backend");
  }

  lemma {:induction false} AlikeAttempts(job: string)
    ensures Dated(Alike(job), None) && forall a, s | a in Alike(job) && s in a.spans :: s.job == job
  {
  }

  lemma {:induction false} AlikeAsked(rows: Rows, attempts: seq<Attempt>)
    requires attempts != [] && rows.Keys == {"backend", TOTAL}
    requires forall a | a in attempts :: a.spans == [Span("backend", Succeeded, 100)]
    ensures Asked(rows, attempts, None) == {"backend"}
  {
    forall job ensures job in Asked(rows, attempts, None) <==> job == "backend" {
      assert attempts[0] in attempts;
    }
  }

  lemma {:induction false} StampedAgainStamps()
    ensures StampedAgain().Valid() && StampedAgain().Stamps() == {"backend"}
  {
    StampedAgainValid();
    StampedAgainRows();
    StampedAgainCounted();
    AlikeAsked(StampedAgain().rows, StampedAgain().attempts);
  }

  lemma {:induction false} AlikeFigures(population: seq<Timed>)
    requires population != [] && forall t | t in population :: t == Timed(100, NEW_YEAR)
    ensures Median(SecondsIn(population)) == 100 && Newest(population) == NEW_YEAR
  {
    var seconds := SecondsIn(population);
    forall i | 0 <= i < |seconds| ensures seconds[i] == 100 { assert population[i] in population; }
    MedianWithin(seconds, 100, 100);
    var i :| 0 <= i < |population| && population[i].day == Newest(population);
    assert population[i] in population;
  }

  lemma {:induction false} StampedAgainOwn()
    ensures StampedAgain().Valid() && "backend" in StampedAgain().Stamps()
    ensures Referenced(StampedAgain().Own("backend")) && StampedAgain().KeepsText("backend")
  {
    StampedAgainStamps();
    StampedAgainCounted();
    AlikeFigures(CountedOf(StampedAgain().attempts, "backend"));
  }

  lemma {:induction false} OneCuts(table: Rows, moves: map<string, seq<int>>, job: string)
    requires table.Keys == {job, TOTAL} && job != TOTAL && Referenced(table[job]) && moves.Keys == {job}
    ensures Cuts(table, moves) && ReferencedJobs(table) == {job}
  {
    assert ReferencedJobs(table) == {job};
    assert Populations(table) == {PopulationOf(table[job])};
  }

  lemma {:induction false} StampedAgainTable()
    ensures var o := StampedAgain(); o.Valid() && o.Table().Keys == {"backend", TOTAL} && o.Moves().Keys == {"backend"}
    ensures Referenced(StampedAgain().Table()["backend"])
  {
    StampedAgainStamps();
    StampedAgainOwn();
    StampedAgainRows();
  }

  /** The proposal for that table carries a total floor the ratchet refuses. */
  lemma {:induction false} ProposedFloorRefused()
    ensures StampedAgain().Valid() && Totalled(StampedAgain().rows) && StampedAgain().FloorRefused()
  {
    var o := StampedAgain();
    StampedAgainRows();
    StampedAgainOwn();
    StampedAgainTable();
    OneCuts(o.Table(), o.Moves(), "backend");
    OwnDraws(o);
    assert "backend" in ReferencedJobs(o.Table()) * o.Stamps();
  }

  lemma {:induction false} StampedAgainPrintable(rows: Rows)
    requires WellFormed(rows) && rows.Keys == {"backend", TOTAL}
    ensures Printable(rows) && Listing(rows, [TOTAL, "backend"]) && Listing(rows, ["backend", TOTAL])
  {
    assert NameOk("backend") && NameOk(TOTAL);
  }

  /** The same table with its total above its other row, a file every mode reads. */
  ghost function TotalFirst(): string {
    JoinLines(TableLines(StampedAgain().rows, [TOTAL, "backend"]))
  }

  lemma {:induction false} TotalFirstReads()
    ensures Reference(TotalFirst()) == Ok(StampedAgain().rows) && !TotalLast(TotalFirst())
  {
    StampedAgainRows();
    StampedAgainPrintable(StampedAgain().rows);
    ListingReads(StampedAgain().rows, [TOTAL, "backend"]);
  }

  lemma {:induction false} AlikeOwn(o: Order)
    requires o.Valid() && "backend" in o.Stamps() && o.attempts == Alike("backend")
    ensures o.Own("backend").seconds == Some(100)
  {
    StampedAgainCounted();
    AlikeFigures(CountedOf(o.attempts, "backend"));
  }

  lemma {:induction false} RecutChanges(o: Order)
    requires o.Valid() && "backend" in o.Stamps() && o.wanted == None && "backend" in o.rows
    requires o.Own("backend").seconds != o.rows["backend"].seconds
    ensures !Missed(o) && Changes(o)
  {
    StampedSeconds(o, "backend");
    assert o.Proposed()["backend"] != o.rows["backend"];
  }

  lemma {:induction false} StampedSeconds(o: Order, job: string)
    requires o.Valid() && job in o.Stamps() && job != TOTAL
    ensures job in o.Proposed() && o.Proposed()[job].seconds == o.Own(job).seconds
  {
    SharedDraws(o);
    assert o.Proposed()[job] == o.Shared()[job];
  }

  /** Stamping that table ends in the parse of what it would write. */
  lemma {:induction false} TotalFirstCrashes(today: Date)
    ensures StampedAgain().Valid() && Reference(TotalFirst()) == Ok(StampedAgain().rows)
    ensures forall out | ComesTo(TotalFirst(), StampedAgain(), today, out) :: out.Crashed?
  {
    TotalFirstReads();
    StampedAgainStamps();
    AlikeOwn(StampedAgain());
    RecutChanges(StampedAgain());
  }

  /** The same attempts over a total that has a budget of its own, of ninety-five. */
  function Budgeted(): Order {
    StampedAgain().(rows :=
      map["backend" := Row("backend", Some(90), Some(10), Some(150), Some(TWENTY_FOUR)),
          TOTAL := Row(TOTAL, Some(90), None, Some(95), Some(TWENTY_FOUR))])
  }

  ghost function BudgetedText(): string {
    JoinLines(TableLines(Budgeted().rows, ["backend", TOTAL]))
  }

  lemma {:induction false} BudgetedRows()
    ensures var rows := Budgeted().rows; WellFormed(rows) && Totalled(rows) && rows.Keys == {"backend", TOTAL}
  {
    var rows := Budgeted().rows;
    StampRoundTrip(Stamp(24, NEW_YEAR, None));
    SumOfOne(rows, "backend");
  }

  lemma {:induction false} BudgetedReads()
    ensures Reference(BudgetedText()) == Ok(Budgeted().rows) && TotalLast(BudgetedText())
  {
    BudgetedRows();
    StampedAgainPrintable(Budgeted().rows);
    ListingReads(Budgeted().rows, ["backend", TOTAL]);
  }

  lemma {:induction false} BudgetedStamps()
    ensures Budgeted().Valid() && Budgeted().Stamps() == {"backend"}
  {
    BudgetedRows();
    StampedAgainValid();
    StampedAgainCounted();
    AlikeAsked(Budgeted().rows, Budgeted().attempts);
  }

  lemma {:induction false} SumOfOne(table: Rows, job: string)
    requires table.Keys == {job, TOTAL} && job != TOTAL
    ensures Summed(table) == SecondsOf(table[job])
  {
    var jobs := table - {TOTAL};
    assert jobs.Keys == {job} && jobs - {job} == map[];
    SumSplit(jobs, job);
  }

  lemma {:induction false} BudgetedSum()
    ensures Budgeted().Valid() && "backend" in Budgeted().Stamps() && Summed(Budgeted().Table()) == 100
    ensures Budgeted().Own("backend").seconds == Some(100)
  {
    BudgetedRows();
    BudgetedStamps();
    AlikeOwn(Budgeted());
    assert Budgeted().Table().Keys == {"backend", TOTAL};
    SumOfOne(Budgeted().Table(), "backend");
  }

  /** The attempts sum to a hundred, past that budget: its total closing the table, nothing is written either. */
  lemma {:induction false} BudgetPassedCrashes(today: Date)
    ensures Budgeted().Valid() && Reference(BudgetedText()) == Ok(Budgeted().rows) && TotalLast(BudgetedText())
    ensures forall out | ComesTo(BudgetedText(), Budgeted(), today, out) :: out.Crashed?
  {
    BudgetedReads();
    BudgetedSum();
    RecutChanges(Budgeted());
  }
}
