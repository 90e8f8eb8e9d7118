/** What `--stamp` cuts its figures from, said of the attempts and the table alone. */
module GateCuts {
  import opened GateFigures
  import opened GateFindings
  import opened GateRatchet
  import opened GateStamp
  import opened GateTable
  import opened Ordering
  import opened Results

  // ----- the population

  /** A success, not slowed by a retry, and no re-run of a tree the job cached. */
  lemma {:induction false} CountsIff(attempt: Attempt, span: Span, job: string)
    ensures Counts(attempt, span, job) <==>
      && span.job == job && span.state == Succeeded && job !in attempt.retried
      && (TreeKeyed(job) ==> attempt.number <= 1)
  {
  }

  /** What did not succeed, ran untimed or was skipped is named so; of a success, the retry before the cache. */
  lemma {:induction false} LeftOutIff(attempt: Attempt, span: Span, job: string, reason: Reason)
    ensures ReasonLeft(attempt, span, job) == Some(reason) <==>
      match reason
      case DidNotSucceed => span.state == Dropped
      case WasSkipped => span.state == SpanState.Skipped
      case Untimed => span.state == Unmeasured
      case Slowed => span.state == Succeeded && job in attempt.retried
      case Cached => span.state == Succeeded && job !in attempt.retried && TreeKeyed(job) && attempt.number > 1
  {
  }

  /** The spans that count, in the attempts' order and each attempt's own. */
  lemma {:induction false} PopulationIs(a: seq<Attempt>, attempt: Attempt, b: seq<Attempt>, job: string)
    ensures CountedOf([], job) == []
    ensures CountedOf(a + [attempt] + b, job) ==
      CountedOf(a, job) + CountedIn(attempt, attempt.spans, job) + CountedOf(b, job)
    decreases |b|
  {
    var all := a + [attempt] + b;
    if b == [] {
      assert all[..|all| - 1] == a;
    } else {
      assert all[..|all| - 1] == a + [attempt] + b[..|b| - 1];
      PopulationIs(a, attempt, b[..|b| - 1], job);
    }
  }

  lemma {:induction false} CountedSpans(attempt: Attempt, a: seq<Span>, span: Span, b: seq<Span>, job: string)
    ensures CountedIn(attempt, [], job) == []
    ensures CountedIn(attempt, a + [span] + b, job) == CountedIn(attempt, a, job)
      + (if Counts(attempt, span, job) then [Timed(span.seconds, attempt.day)] else []) + CountedIn(attempt, b, job)
    decreases |b|
  {
    var all := a + [span] + b;
    if b == [] {
      assert all[..|all| - 1] == a;
    } else {
      assert all[..|all| - 1] == a + [span] + b[..|b| - 1];
      CountedSpans(attempt, a, span, b[..|b| - 1], job);
    }
  }

  // ----- one row

  /**
   * The ceiling a row of these spans is given: none where it has none, and where a job starts cold never a lower one.
   */
  lemma {:induction false} BudgetIs(job: string, current: Option<Row>, widest: nat)
    ensures BudgetFor(job, current, widest) == None <==> current.Some? && current.value.budget == None
    ensures BudgetFor(job, current, widest).Some? ==>
      var budget := BudgetFor(job, current, widest).value;
      if (job == "format" || job == "frontend") && current.Some? then
        && budget >= BudgetOver(widest) && budget >= current.value.budget.value
        && (budget == BudgetOver(widest) || Some(budget) == current.value.budget)
      else budget == BudgetOver(widest)
  {
  }

  ghost predicate WidestSpan(population: seq<Timed>, widest: nat) {
    && (exists i | 0 <= i < |population| :: population[i].seconds == widest)
    && forall i | 0 <= i < |population| :: population[i].seconds <= widest
  }

  ghost predicate NewestDay(population: seq<Timed>, day: Date) {
    && (exists i | 0 <= i < |population| :: population[i].day == day)
    && forall i | 0 <= i < |population| :: !Before(day, population[i].day)
  }

  /** The least whole percent of the reference that ninety-five moves in a hundred stay within. */
  ghost predicate LeastFloor(moves: seq<int>, seconds: nat, floor: nat) {
    && 100 * WithinPercent(moves, seconds, floor) >= 95 * |moves|
    && forall less: nat | less < floor :: 100 * WithinPercent(moves, seconds, less) < 95 * |moves|
  }

  lemma {:induction false} LeastFloorIs(moves: seq<int>, seconds: nat)
    requires moves != [] && seconds > 0
    ensures LeastFloor(moves, seconds, FloorOf(moves, seconds))
  {
    FloorIsLeast(moves, seconds, FloorOf(moves, seconds));
    forall less: nat | less < FloorOf(moves, seconds)
      ensures 100 * WithinPercent(moves, seconds, less) < 95 * |moves|
    {
      FloorIsLeast(moves, seconds, less);
    }
  }

  ghost predicate Spans(population: seq<Timed>, seconds: seq<int>) {
    |seconds| == |population| && forall i | 0 <= i < |seconds| :: seconds[i] == population[i].seconds
  }

  /**
   * A reference and its floor are the median and the least floor over it, of at least twenty-four spans, or neither.
   */
  ghost predicate CutTo(row: Row, seconds: seq<int>, drawn: seq<int>) {
    match (row.seconds, row.floor)
    case (Some(m), Some(floor)) => |seconds| >= 24 && m > 0 && IsMedian(seconds, m) && LeastFloor(drawn, m, floor)
    case (None, None) => |seconds| < 24 || IsMedian(seconds, 0)
    case (_, _) => false
  }

  /** What a proposed row carries, figure by figure. */
  lemma {:induction false} ProposedIs(
      job: string, current: Option<Row>, population: seq<Timed>, pull: Option<nat>, drawn: seq<int>)
    returns (seconds: seq<int>, widest: nat, newest: Date)
    requires |population| >= MIN_STAMP_RUNS && (pull.Some? ==> pull.value > 0) && |drawn| == RESAMPLES
    requires forall i | 0 <= i < |population| :: population[i].seconds >= 0 && Calendar(population[i].day)
    ensures Spans(population, seconds) && WidestSpan(population, widest) && NewestDay(population, newest)
    ensures Calendar(newest)
    ensures var p := ProposedRow(job, current, population, pull, drawn);
      && p.row.job == job && CutTo(p.row, seconds, drawn) && p.row.budget == BudgetFor(job, current, widest)
      && p.row.measured == Some(WriteStamp(Stamp(|population|, newest, pull)))
      && p.moves == if p.row.seconds.Some? then Some(drawn) else None
  {
    seconds, newest := SecondsIn(population), Newest(population);
    widest := Max(seconds);
    MedianWithin(seconds, 0, widest);
    MedianIff(seconds, Median(seconds));
    if Median(seconds) > 0 { LeastFloorIs(drawn, Median(seconds)); }
  }

  // ----- the rows

  lemma {:induction false} StampsIff(o: Order, job: string)
    ensures job in o.Stamps() <==>
      && (o.wanted.None? || job in o.wanted.value)
      && (job in o.rows.Keys - {"total"} || exists a, s | a in o.attempts && s in a.spans :: s.job == job)
      && |CountedOf(o.attempts, job)| >= 10 && !(o.pull.Some? && TreeKeyed(job))
  {
  }

  /** A stamped row is proposed over the row it has, where it has one, and the ceiling is over its widest span. */
  lemma {:induction false} OwnBudgetIs(o: Order, job: string) returns (widest: nat)
    requires o.Valid() && job in o.Stamps()
    ensures WidestSpan(CountedOf(o.attempts, job), widest)
    ensures o.Own(job).budget == BudgetFor(job, if job in o.rows then Some(o.rows[job]) else None, widest)
  {
    CountedDays(o.attempts, job);
    var seconds, newest;
    seconds, widest, newest :=
      ProposedIs(job, RowOf(o.rows, job), CountedOf(o.attempts, job), o.pull, o.drawn(job));
  }

  // ----- the total

  ghost function Column(draws: map<string, seq<int>>, jobs: seq<string>, i: nat): int
    requires forall job | job in jobs :: job in draws && i < |draws[job]|
  {
    if jobs == [] then 0 else Column(draws, jobs[..|jobs| - 1], i) + draws[jobs[|jobs| - 1]][i]
  }

  /** Each move is the sum of the rows' own at its place. */
  lemma {:induction false} SummedAt(draws: map<string, seq<int>>, jobs: seq<string>, i: nat)
    requires i < RESAMPLES && forall job | job in jobs :: job in draws && |draws[job]| == RESAMPLES
    ensures SummedMoves(draws, jobs)[i] == Column(draws, jobs, i)
  {
    if jobs != [] {
      SummedAt(draws, jobs[1..], i);
      ColumnFirst(draws, jobs, i);
    }
  }

  lemma {:induction false} ColumnFirst(draws: map<string, seq<int>>, jobs: seq<string>, i: nat)
    requires jobs != [] && forall job | job in jobs :: job in draws && i < |draws[job]|
    ensures Column(draws, jobs, i) == draws[jobs[0]][i] + Column(draws, jobs[1..], i)
  {
    if |jobs| > 1 {
      ColumnFirst(draws, jobs[..|jobs| - 1], i);
      assert jobs[..|jobs| - 1][1..] == jobs[1..][..|jobs| - 2];
    } else {
      assert Column(draws, jobs[..0], i) == 0;
    }
  }

  /** Every reference has its draws, and one population stands beside all of them. */
  ghost predicate DrawnTogether(table: Rows, draws: map<string, seq<int>>) {
    && (exists job :: Compared(table, job))
    && (forall job | Compared(table, job) :: job in draws)
    && forall a, b | Compared(table, a) && Compared(table, b) :: OnePopulation(table[a], table[b])
  }

  /** The total stood at this sum, and no row that is or was compared is other than it was. */
  ghost predicate NothingMoved(rows: Rows, table: Rows, summed: nat) {
    && "total" in rows && rows["total"].seconds == Some(summed)
    && forall job | Compared(rows, job) || Compared(table, job) ::
      job in rows && job in table && rows[job] == table[job]
  }

  lemma {:induction false} CutsIff(table: Rows, draws: map<string, seq<int>>)
    ensures Cuts(table, draws) <==> DrawnTogether(table, draws)
  {
    forall job ensures job in ReferencedJobs(table) <==> Compared(table, job) { }
    OnePopulationIff(table);
  }

  lemma {:induction false} KeptIff(rows: Rows, table: Rows, summed: nat)
    ensures KeptAsTheyWere(rows, table, summed) <==> NothingMoved(rows, table, summed)
  {
    forall job ensures job in ReferencedJobs(table) <==> Compared(table, job) { }
    forall job ensures job in ReferencedJobs(rows) <==> Compared(rows, job) { }
    assert ReferencedJobs(table) == ReferencedJobs(rows) <==>
      forall job :: job in ReferencedJobs(table) <==> job in ReferencedJobs(rows);
  }

  ghost predicate LeastFloorOver(table: Rows, draws: map<string, seq<int>>, jobs: seq<string>, floor: nat) {
    && (forall job | job in jobs :: job in draws && |draws[job]| == RESAMPLES)
    && exists moves: seq<int> ::
      && |moves| == RESAMPLES && (forall i | 0 <= i < RESAMPLES :: moves[i] == Column(draws, jobs, i))
      && LeastFloor(moves, Summed(table), floor)
  }

  /** The total's floor: the least over the draws summed, or the floor it had, or none. */
  lemma {:induction false} TotalFloorIs(rows: Rows, table: Rows, draws: map<string, seq<int>>)
    requires Draws(table, draws)
    ensures var floor := TotalFloorOf(rows, table, draws);
      if DrawnTogether(table, draws) then
        floor.Some? && exists jobs ::
          && (forall job :: job in jobs <==> Compared(table, job)) && Distinct(jobs)
          && LeastFloorOver(table, draws, jobs, floor.value)
      else floor == if NothingMoved(rows, table, Summed(table)) then rows["total"].floor else None
  {
    CutsIff(table, draws);
    KeptIff(rows, table, Summed(table));
    if Cuts(table, draws) {
      CutSums(table, draws);
      var jobs := SortedSet(ReferencedJobs(table));
      var moves := SummedMoves(draws, jobs);
      forall i | 0 <= i < RESAMPLES ensures moves[i] == Column(draws, jobs, i) { SummedAt(draws, jobs, i); }
      LeastFloorIs(moves, Summed(table));
      assert LeastFloorOver(table, draws, jobs, FloorOf(moves, Summed(table)));
    }
  }
}
