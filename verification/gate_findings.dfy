/**
 * What the ratchet finds of a row, said of the two tables alone: each finding stands exactly where its rule is broken.
 */
module GateFindings {
  import opened GateRatchet
  import opened GateTable
  import opened Results

  // ----- names

  ghost predicate Instance(job: string, matrix: string, instance: string) {
    && matrix != "" && instance != "" && '(' !in instance && ')' !in instance
    && job == matrix + " (" + instance + ")"
  }

  /** A job of one line is an instance of a matrix exactly where it is named `<matrix> (<instance>)`. */
  lemma {:induction false} InstanceOfIff(job: string, matrix: string)
    ensures InstanceOf(job) == Some(matrix) <==> '\n' !in job && exists instance :: Instance(job, matrix, instance)
  {
    var p := LastParen(job);
    if InstanceOf(job) == Some(matrix) {
      var instance := job[p + 1..|job| - 1];
      assert job == matrix + " (" + instance + ")";
      assert Instance(job, matrix, instance);
    }
    if '\n' !in job && exists instance :: Instance(job, matrix, instance) {
      var instance :| Instance(job, matrix, instance);
      var q := |matrix| + 1;
      assert job[q] == '(' && job[q - 1] == ' ' && job[|job| - 1] == ')' && job[q + 1..|job| - 1] == instance;
      forall k | q < k < |job| ensures job[k] != '(' { assert k < |job| - 1 ==> job[k] == instance[k - q - 1]; }
      assert p == q && matrix == job[..p - 1];
    }
  }

  /** The job itself, or an instance of it. */
  ghost predicate JobOrInstance(job: string, base: string) {
    job == base || ('\n' !in job && exists instance :: Instance(job, base, instance))
  }

  lemma {:induction false} TreeKeyedIff(job: string)
    ensures TreeKeyed(job) <==>
      || JobOrInstance(job, "db") || JobOrInstance(job, "format") || JobOrInstance(job, "frontend")
      || JobOrInstance(job, "frontend-units") || JobOrInstance(job, "images")
  {
    forall base ensures JobOrInstance(job, base) <==> job == base || InstanceOf(job) == Some(base) {
      InstanceOfIff(job, base);
    }
    assert JobOrInstance(job, "db") <==> job == "db" || InstanceOf(job) == Some("db");
  }

  lemma {:induction false} StampOfIff(row: Row, stamp: Stamp)
    ensures StampOf(row) == Some(stamp) <==> StampOk(stamp) && row.measured == Some(WriteStamp(stamp))
  {
    if row.measured.Some? { StampReadIff(row.measured.value, stamp); }
  }

  // ----- the tables

  ghost predicate Had(base: Option<Rows>, job: string) {
    base.Some? && job in base.value
  }

  /** A figure over the one before it, a figure where there was none included. */
  ghost predicate Over(before: Option<nat>, now: Option<nat>) {
    match now
    case None => false
    case Some(n) => before == None || exists b :: before == Some(b) && b < n
  }

  /** A row new to the table, its matrix job's row gone, under that row's stamp text. */
  ghost predicate SplitOff(base: Option<Rows>, head: Rows, job: string, matrix: string)
    requires job in head
  {
    && base.Some? && job !in base.value && InstanceOf(job) == Some(matrix)
    && matrix in base.value && matrix !in head
    && head[job].measured.Some? && head[job].measured == base.value[matrix].measured
  }

  ghost predicate Ahead(row: Row, today: Date) {
    exists stamp :: StampOf(row) == Some(stamp) && Before(today, stamp.newest)
  }

  /** A row judged on its own figures: not the total, not ahead of today and no split. */
  ghost predicate Judged(base: Option<Rows>, head: Rows, today: Date, job: string)
    requires job in head
  {
    job != "total" && !Ahead(head[job], today) && !exists matrix :: SplitOff(base, head, job, matrix)
  }

  ghost predicate NewStamp(base: Option<Rows>, head: Rows, job: string)
    requires job in head
  {
    !Had(base, job) || head[job].measured != base.value[job].measured
  }

  ghost predicate Compared(head: Rows, job: string) {
    job in head && job != "total" && head[job].seconds.Some? && head[job].floor.Some?
  }

  /** The same pull-request run, or pushes to main up to the same day, or no stamp at all. */
  ghost predicate OnePopulation(a: Row, b: Row) {
    match (StampOf(a), StampOf(b))
    case (None, None) => true
    case (Some(x), Some(y)) => x.pull == y.pull && (x.pull == None ==> x.newest == y.newest)
    case (_, _) => false
  }

  /** Some row holds a reference, and every one that does carries a new stamp and the others' population. */
  ghost predicate RestampedTogether(base: Option<Rows>, head: Rows) {
    && (exists job :: Compared(head, job))
    && (forall job | Compared(head, job) :: NewStamp(base, head, job))
    && forall a, b | Compared(head, a) && Compared(head, b) :: OnePopulation(head[a], head[b])
  }

  /** A row that stood and stands judged: what rose of it. */
  ghost predicate RoseFrom(base: Option<Rows>, head: Rows, job: string)
    requires job in head
  {
    && Had(base, job)
    && (Over(base.value[job].budget, head[job].budget) || Over(base.value[job].seconds, head[job].seconds)
        || Over(base.value[job].floor, head[job].floor))
    && (base.value[job].budget.Some? ==> head[job].budget.Some?)
  }

  /** Under a stamp older than the one before it. */
  ghost predicate Older(row: Row, before: Row) {
    exists now, earlier ::
      StampOf(row) == Some(now) && StampOf(before) == Some(earlier) && Before(now.newest, earlier.newest)
  }

  // ----- each finding

  /** The rule each finding names, broken by this row. */
  ghost predicate Broken(base: Option<Rows>, head: Rows, today: Date, job: string, f: Finding)
    requires job in head
  {
    var row := head[job];
    match f
    case BudgetsApart(_) => false
    case ComparisonSilenced(j) =>
      && j == job && Had(base, job) && base.value[job].seconds.Some? && base.value[job].floor.Some?
      && (row.seconds.None? || row.floor.None?)
    case TotalFloorRose =>
      && job == "total" && !RestampedTogether(base, head)
      && Over(if Had(base, job) then base.value[job].floor else None, row.floor)
    case StampAhead(j) => j == job && job != "total" && Ahead(row, today)
    case AboveParent(j) =>
      && j == job && job != "total" && !Ahead(row, today) && exists matrix ::
        && SplitOff(base, head, job, matrix)
        && ((base.value[matrix].budget.Some? && row.budget.None?) || Over(base.value[matrix].seconds, row.seconds)
            || (base.value[matrix].budget.Some? && Over(base.value[matrix].budget, row.budget))
            || Over(base.value[matrix].floor, row.floor))
    case StampShort(j) =>
      && j == job && Judged(base, head, today, job) && NewStamp(base, head, job) && exists stamp ::
        && StampOf(row) == Some(stamp)
        && (stamp.runs < 10 || (stamp.runs < 24 && (row.seconds.Some? || row.floor.Some?)))
    case StampOfAnotherTree(j) =>
      && j == job && Judged(base, head, today, job) && NewStamp(base, head, job) && TreeKeyed(job)
      && exists stamp :: StampOf(row) == Some(stamp) && stamp.pull.Some?
    case BudgetDropped(j) =>
      && j == job && Judged(base, head, today, job) && Had(base, job)
      && base.value[job].budget.Some? && row.budget.None?
    case RoseUnstamped(j) =>
      && j == job && Judged(base, head, today, job) && RoseFrom(base, head, job)
      && (row.measured.None? || row.measured == base.value[job].measured)
    case RoseOnOlder(j) =>
      && j == job && Judged(base, head, today, job) && RoseFrom(base, head, job) && NewStamp(base, head, job)
      && Older(row, base.value[job])
  }

  lemma {:induction false} SplitIff(base: Option<Rows>, head: Rows, job: string)
    requires job in head
    ensures SplitFrom(base, head, job).Some? <==> exists matrix :: SplitOff(base, head, job, matrix)
    ensures forall matrix | SplitOff(base, head, job, matrix) :: SplitFrom(base, head, job) == Some(base.value[matrix])
  {
    if SplitFrom(base, head, job).Some? { assert SplitOff(base, head, job, InstanceOf(job).value); }
  }

  lemma {:induction false} PopulationIff(a: Row, b: Row)
    ensures PopulationOf(a) == PopulationOf(b) <==> OnePopulation(a, b)
  {
  }

  lemma {:induction false} OneMember<T>(s: set<T>)
    ensures |s| == 1 <==> s != {} && forall x, y | x in s && y in s :: x == y
  {
    if s != {} {
      var x :| x in s;
      assert s == {x} + (s - {x});
      if forall x, y | x in s && y in s :: x == y { assert s == {x}; }
      if |s| == 1 { assert |s - {x}| == 0; }
    }
  }

  lemma {:induction false} OnePopulationIff(head: Rows)
    ensures |Populations(head)| == 1 <==>
      && (exists job :: Compared(head, job))
      && forall a, b | Compared(head, a) && Compared(head, b) :: OnePopulation(head[a], head[b])
  {
    forall job ensures job in ReferencedJobs(head) <==> Compared(head, job) { }
    OneMember(Populations(head));
    forall a, b | Compared(head, a) && Compared(head, b)
      ensures PopulationOf(head[a]) in Populations(head)
      ensures PopulationOf(head[a]) == PopulationOf(head[b]) <==> OnePopulation(head[a], head[b])
    {
      assert a in ReferencedJobs(head);
      PopulationIff(head[a], head[b]);
    }
    forall x | x in Populations(head) ensures exists a :: Compared(head, a) && PopulationOf(head[a]) == x {
      var a :| a in ReferencedJobs(head) && x == PopulationOf(head[a]);
      assert Compared(head, a);
    }
  }

  lemma {:induction false} TogetherIff(base: Option<Rows>, head: Rows)
    ensures RestampedTogether(base, head) <==>
      ReferencedJobs(head) != {} && Unmoved(base, head) == {} && |Populations(head)| == 1
  {
    forall job ensures job in ReferencedJobs(head) <==> Compared(head, job) { }
    forall job ensures job in Unmoved(base, head) <==> Compared(head, job) && !NewStamp(base, head, job) { }
    OnePopulationIff(head);
  }

  lemma {:induction false} SilencedIff(job: string, before: Option<Row>, row: Row, f: Finding)
    ensures f in CheckComparison(job, before, row) <==>
      && f == ComparisonSilenced(job) && before.Some? && before.value.seconds.Some? && before.value.floor.Some?
      && (row.seconds.None? || row.floor.None?)
  {
  }

  lemma {:induction false} StampIff(job: string, row: Row, f: Finding)
    ensures f in CheckStamp(job, row) <==>
      || (f == StampShort(job) && exists stamp ::
            && StampOf(row) == Some(stamp)
            && (stamp.runs < 10 || (stamp.runs < 24 && (row.seconds.Some? || row.floor.Some?))))
      || (f == StampOfAnotherTree(job) && TreeKeyed(job)
          && exists stamp :: StampOf(row) == Some(stamp) && stamp.pull.Some?)
  {
  }

  lemma {:induction false} RiseIff(job: string, before: Row, row: Row, f: Finding)
    ensures f in CheckRise(job, before, row) <==>
      || (f == BudgetDropped(job) && before.budget.Some? && row.budget.None?)
      || ((before.budget.Some? ==> row.budget.Some?)
          && (Over(before.budget, row.budget) || Over(before.seconds, row.seconds) || Over(before.floor, row.floor))
          && ((f == RoseUnstamped(job) && (row.measured.None? || row.measured == before.measured))
              || (f == RoseOnOlder(job) && row.measured != before.measured && Older(row, before))))
  {
  }

  lemma {:induction false} RowFindings(base: Option<Rows>, head: Rows, today: Date, job: string, f: Finding)
    requires job in head
    ensures var before := if Had(base, job) then Some(base.value[job]) else None;
      f in CheckRow(base, head, today, job) <==>
      || f in CheckComparison(job, before, head[job])
      || if job == TOTAL then f == TotalFloorRose && !TotalFloorStands(base, head)
         else if StampOf(head[job]).Some? && Before(today, StampOf(head[job]).value.newest) then f == StampAhead(job)
         else if SplitFrom(base, head, job).Some? then
           f == AboveParent(job) && PastParent(SplitFrom(base, head, job).value, head[job])
         else f in CheckFigures(job, before, head[job])
  {
  }

  lemma {:induction false} TotalIff(base: Option<Rows>, head: Rows)
    requires TOTAL in head
    ensures !TotalFloorStands(base, head) <==>
      && Over(if Had(base, TOTAL) then base.value[TOTAL].floor else None, head[TOTAL].floor)
      && !RestampedTogether(base, head)
  {
    TogetherIff(base, head);
  }

  lemma {:induction false} TotalRow(base: Option<Rows>, head: Rows, today: Date, f: Finding)
    requires TOTAL in head
    ensures f in CheckRow(base, head, today, TOTAL) <==> Broken(base, head, today, TOTAL, f)
  {
    var before := if Had(base, TOTAL) then Some(base.value[TOTAL]) else None;
    RowFindings(base, head, today, TOTAL, f);
    SilencedIff(TOTAL, before, head[TOTAL], f);
    TotalIff(base, head);
  }

  /** What is found of a row judged on its own figures. */
  ghost predicate Faulted(job: string, before: Option<Row>, row: Row, f: Finding) {
    || ((before.None? || row.measured != before.value.measured) && f in CheckStamp(job, row))
    || (before.Some? && f in CheckRise(job, before.value, row))
  }

  lemma {:induction false} FiguresIff(job: string, before: Option<Row>, row: Row, f: Finding)
    ensures f in CheckFigures(job, before, row) <==> Faulted(job, before, row, f)
  {
  }

  lemma {:induction false} JudgedFaults(base: Option<Rows>, head: Rows, today: Date, job: string, f: Finding)
    requires job in head && Judged(base, head, today, job)
    ensures var before := if Had(base, job) then Some(base.value[job]) else None;
      f in CheckRow(base, head, today, job)
      <==> f in CheckComparison(job, before, head[job]) || Faulted(job, before, head[job], f)
  {
    RowFindings(base, head, today, job, f);
    SplitIff(base, head, job);
    AheadIff(head[job], today);
    FiguresIff(job, if Had(base, job) then Some(base.value[job]) else None, head[job], f);
  }

  lemma {:induction false} JudgedRow(base: Option<Rows>, head: Rows, today: Date, job: string, f: Finding)
    requires job in head && Judged(base, head, today, job)
    ensures f in CheckRow(base, head, today, job) <==> Broken(base, head, today, job, f)
  {
    var before := if Had(base, job) then Some(base.value[job]) else None;
    JudgedFaults(base, head, today, job, f);
    SilencedIff(job, before, head[job], f);
    StampIff(job, head[job], f);
    if before.Some? { RiseIff(job, before.value, head[job], f); }
  }

  lemma {:induction false} AheadIff(row: Row, today: Date)
    ensures Ahead(row, today) <==> StampOf(row).Some? && Before(today, StampOf(row).value.newest)
  {
  }

  lemma {:induction false} UnjudgedRow(base: Option<Rows>, head: Rows, today: Date, job: string, f: Finding)
    requires job in head && job != TOTAL && !Judged(base, head, today, job)
    ensures f in CheckRow(base, head, today, job) <==> Broken(base, head, today, job, f)
  {
    var before := if Had(base, job) then Some(base.value[job]) else None;
    RowFindings(base, head, today, job, f);
    SilencedIff(job, before, head[job], f);
    SplitIff(base, head, job);
    AheadIff(head[job], today);
  }

  /** For every base, head and row: a finding is raised of the row exactly where the row breaks its rule. */
  lemma {:induction false} FindingIff(base: Option<Rows>, head: Rows, today: Date, job: string, f: Finding)
    requires job in head
    ensures f in CheckRow(base, head, today, job) <==> Broken(base, head, today, job, f)
  {
    if job == TOTAL {
      TotalRow(base, head, today, f);
    } else if Judged(base, head, today, job) {
      JudgedRow(base, head, today, job, f);
    } else {
      UnjudgedRow(base, head, today, job, f);
    }
  }

  /** An accepted change wrote no stamp under ten runs, under twenty-four beside a figure, or from another tree. */
  lemma {:induction false} AcceptedStamp(base: Option<Rows>, head: Rows, today: Date, job: string, stamp: Stamp)
    requires Accepted(base, head, today) && job in head && job != "total" && StampOf(head[job]) == Some(stamp)
    requires NewStamp(base, head, job) && !exists matrix :: SplitOff(base, head, job, matrix)
    ensures stamp.runs >= 10 && (head[job].seconds.Some? || head[job].floor.Some? ==> stamp.runs >= 24)
    ensures !(stamp.pull.Some? && TreeKeyed(job)) && !Before(today, stamp.newest)
  {
    FindingIff(base, head, today, job, StampAhead(job));
    FindingIff(base, head, today, job, StampShort(job));
    FindingIff(base, head, today, job, StampOfAnotherTree(job));
  }
}
