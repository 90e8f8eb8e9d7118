/** The reference held to its base: a ceiling rises only on a fresh stamp of enough runs, and none vanishes. */
module GateRatchet {
  import opened GateTable
  import opened PythonText
  import opened Results

  const MIN_STAMP_RUNS := 10
  const MIN_FLOOR_SPANS := 24
  const TREE_KEYED := {"db", "format", "frontend", "frontend-units", "images"}

  datatype Finding =
    | BudgetsApart(matrix: string)
    | ComparisonSilenced(job: string)
    | TotalFloorRose
    | StampAhead(job: string)
    | AboveParent(job: string)
    | StampShort(job: string)
    | StampOfAnotherTree(job: string)
    | BudgetDropped(job: string)
    | RoseUnstamped(job: string)
    | RoseOnOlder(job: string)

  function LastParen(job: string): (p: nat)
    ensures p <= |job| && (p < |job| ==> job[p] == '(') && forall i | p < i < |job| :: job[i] != '('
  {
    if '(' !in job then |job| else if job[|job| - 1] == '(' then |job| - 1 else LastParen(job[..|job| - 1])
  }

  /** The matrix job a row named `<matrix> (<instance>)` is an instance of. */
  function InstanceOf(job: string): Option<string> {
    var p := LastParen(job);
    if p < 2 || p + 2 >= |job| || job[p - 1] != ' ' || job[|job| - 1] != ')' then None
    else if ')' in job[p + 1..|job| - 1] || '\n' in job then None
    else Some(job[..p - 1])
  }

  predicate TreeKeyed(job: string) {
    job in TREE_KEYED || (InstanceOf(job).Some? && InstanceOf(job).value in TREE_KEYED)
  }

  function StampOf(row: Row): Option<Stamp> {
    if row.measured.None? then None else ReadStamp(row.measured.value)
  }

  /** What names a stamp's population: its pull-request run, or for pushes to main the day of the newest. */
  datatype Population = Unstamped | PullRequest(run: nat) | MainTo(newest: Date)

  function PopulationOf(row: Row): Population {
    match StampOf(row)
    case None => Unstamped
    case Some(stamp) => if stamp.pull.Some? then PullRequest(stamp.pull.value) else MainTo(stamp.newest)
  }

  predicate Referenced(row: Row) { row.seconds.Some? && row.floor.Some? }

  /** Whether a figure moved up, `-` to a figure included. */
  predicate Rose(before: Option<nat>, now: Option<nat>) {
    now.Some? && (before.None? || now.value > before.value)
  }

  predicate AnyRose(before: Row, row: Row) {
    Rose(before.budget, row.budget) || Rose(before.seconds, row.seconds) || Rose(before.floor, row.floor)
  }

  /** A figure a split instance carries past its parent's, an absent budget being above every other. */
  predicate PastParent(parent: Row, row: Row) {
    || (parent.budget.Some? && (row.budget.None? || row.budget.value > parent.budget.value))
    || Rose(parent.seconds, row.seconds)
    || Rose(parent.floor, row.floor)
  }

  function CheckStamp(job: string, row: Row): seq<Finding> {
    match StampOf(row)
    case None => []
    case Some(stamp) =>
      (if stamp.runs < MIN_STAMP_RUNS || (stamp.runs < MIN_FLOOR_SPANS && (row.seconds.Some? || row.floor.Some?))
       then [StampShort(job)] else [])
      + (if stamp.pull.Some? && TreeKeyed(job) then [StampOfAnotherTree(job)] else [])
  }

  function SplitFrom(base: Option<Rows>, head: Rows, job: string): Option<Row>
    requires job in head
  {
    var instance := InstanceOf(job);
    if base.None? || job in base.value || instance.None? then None
    else if instance.value !in base.value || instance.value in head then None
    else if head[job].measured.None? || head[job].measured != base.value[instance.value].measured then None
    else Some(base.value[instance.value])
  }

  /** The base's references a raised total floor would rest on that kept the stamp they had. */
  function Unmoved(base: Option<Rows>, head: Rows): set<string> {
    set job | job in head && job != TOTAL && Referenced(head[job]) && base.Some? && job in base.value
      && base.value[job].measured == head[job].measured
  }

  function ReferencedJobs(rows: Rows): set<string> {
    set job | job in rows && job != TOTAL && Referenced(rows[job])
  }

  function Populations(rows: Rows): set<Population> {
    set job | job in ReferencedJobs(rows) :: PopulationOf(rows[job])
  }

  /** A total floor that rose or appeared stands only on references all re-stamped here from one population. */
  predicate TotalFloorStands(base: Option<Rows>, head: Rows) {
    || TOTAL !in head
    || head[TOTAL].floor.None?
    || (base.Some? && TOTAL in base.value && !Rose(base.value[TOTAL].floor, head[TOTAL].floor))
    || (ReferencedJobs(head) != {} && Unmoved(base, head) == {} && |Populations(head)| == 1)
  }

  /** A reference beside a floor gone, which ends the report's comparison of the row. */
  function CheckComparison(job: string, before: Option<Row>, row: Row): seq<Finding> {
    if before.Some? && Referenced(before.value) && !Referenced(row) then [ComparisonSilenced(job)] else []
  }

  /** What rose against the row's own base. */
  function CheckRise(job: string, before: Row, row: Row): seq<Finding> {
    if before.budget.Some? && row.budget.None? then [BudgetDropped(job)]
    else if !AnyRose(before, row) then []
    else if row.measured.None? || row.measured == before.measured then [RoseUnstamped(job)]
    else if StampOf(before).Some? && StampOf(row).Some?
      && Before(StampOf(row).value.newest, StampOf(before).value.newest)
    then [RoseOnOlder(job)]
    else []
  }

  /** A stamp is judged where it is new, and the figures where the row stood before. */
  function CheckFigures(job: string, before: Option<Row>, row: Row): seq<Finding> {
    (if before.None? || row.measured != before.value.measured then CheckStamp(job, row) else [])
    + if before.None? then [] else CheckRise(job, before.value, row)
  }

  function CheckRow(base: Option<Rows>, head: Rows, today: Date, job: string): seq<Finding>
    requires job in head
  {
    var row, stamp := head[job], StampOf(head[job]);
    var before := if base.Some? && job in base.value then Some(base.value[job]) else None;
    CheckComparison(job, before, row) +
    if job == TOTAL then (if TotalFloorStands(base, head) then [] else [TotalFloorRose])
    else if stamp.Some? && Before(today, stamp.value.newest) then [StampAhead(job)]
    else
      var parent := SplitFrom(base, head, job);
      if parent.Some? then (if PastParent(parent.value, row) then [AboveParent(job)] else [])
      else CheckFigures(job, before, row)
  }

  /** Every instance of a matrix job carries one budget. */
  ghost predicate OneBudgetPerMatrix(head: Rows) {
    forall a, b | a in head && b in head && InstanceOf(a).Some? && InstanceOf(a) == InstanceOf(b) ::
      head[a].budget == head[b].budget
  }

  ghost predicate Accepted(base: Option<Rows>, head: Rows, today: Date) {
    OneBudgetPerMatrix(head) && forall job | job in head :: CheckRow(base, head, today, job) == []
  }

  /** Two instances of this matrix carry different budgets. */
  ghost predicate Apart(head: Rows, matrix: string) {
    exists a, b | a in head && b in head ::
      InstanceOf(a) == Some(matrix) && InstanceOf(b) == Some(matrix) && head[a].budget != head[b].budget
  }

  /** What is found of a table: each matrix whose budgets are apart, and each row's own. */
  ghost predicate FoundIn(base: Option<Rows>, head: Rows, today: Date, f: Finding) {
    (f.BudgetsApart? && Apart(head, f.matrix)) || exists job | job in head :: f in CheckRow(base, head, today, job)
  }

  method CheckMatrixBudgets(head: Rows) returns (findings: seq<Finding>)
    ensures forall f :: f in findings <==> f.BudgetsApart? && Apart(head, f.matrix)
  {
    findings := [];
    var left, first: map<string, string> := head.Keys, map[];
    while left != {}
      invariant left <= head.Keys
      invariant forall m | m in first :: first[m] in head && first[m] !in left && InstanceOf(first[m]) == Some(m)
      invariant forall a | a in head && a !in left && InstanceOf(a).Some? :: InstanceOf(a).value in first
      invariant forall f | f in findings :: f.BudgetsApart? && Apart(head, f.matrix)
      invariant forall a | a in head && a !in left && InstanceOf(a).Some? ::
        head[a].budget == head[first[InstanceOf(a).value]].budget || BudgetsApart(InstanceOf(a).value) in findings
      decreases |left|
    {
      var job :| job in left;
      left := left - {job};
      var matrix := InstanceOf(job);
      if matrix.Some? {
        if matrix.value !in first {
          first := first[matrix.value := job];
        } else if head[job].budget != head[first[matrix.value]].budget && BudgetsApart(matrix.value) !in findings {
          findings := findings + [BudgetsApart(matrix.value)];
        }
      }
    }
    forall m | Apart(head, m) ensures BudgetsApart(m) in findings {
      var a, b :| a in head && b in head && InstanceOf(a) == Some(m) && InstanceOf(b) == Some(m)
        && head[a].budget != head[b].budget;
    }
  }

  method CheckRaise(base: Option<Rows>, head: Rows, today: Date) returns (findings: seq<Finding>)
    ensures forall f :: f in findings <==> FoundIn(base, head, today, f)
    ensures findings == [] <==> Accepted(base, head, today)
  {
    findings := CheckMatrixBudgets(head);
    var left := head.Keys;
    while left != {}
      invariant left <= head.Keys
      invariant forall f :: f in findings <==>
        (f.BudgetsApart? && Apart(head, f.matrix)) || exists job | job in head && job !in left ::
          f in CheckRow(base, head, today, job)
      decreases |left|
    {
      var job :| job in left;
      left := left - {job};
      findings := findings + CheckRow(base, head, today, job);
    }
    SilentIff(base, head, today, findings);
  }

  lemma {:induction false} SilentIff(base: Option<Rows>, head: Rows, today: Date, findings: seq<Finding>)
    requires forall f :: f in findings <==> FoundIn(base, head, today, f)
    ensures findings == [] <==> Accepted(base, head, today)
  {
    if findings == [] {
      forall a, b | a in head && b in head && InstanceOf(a).Some? && InstanceOf(a) == InstanceOf(b)
        ensures head[a].budget == head[b].budget
      {
        var m := InstanceOf(a).value;
        assert BudgetsApart(m) !in findings;
        assert !FoundIn(base, head, today, BudgetsApart(m));
      }
      forall job | job in head ensures CheckRow(base, head, today, job) == [] {
        var own := CheckRow(base, head, today, job);
        if own != [] {
          assert own[0] in own;
          assert FoundIn(base, head, today, own[0]);
        }
      }
    } else {
      assert findings[0] in findings;
      assert FoundIn(base, head, today, findings[0]);
    }
  }

  // ----- what acceptance keeps along a branch's history

  /** The row a job's row replaces: the job's own, or the matrix job's where this instance is split from it. */
  ghost predicate Replaces(base: Rows, before: string, head: Rows, job: string) {
    && before in base && job in head && before != TOTAL && job != TOTAL
    && (before == job || (SplitFrom(Some(base), head, job) == Some(base[before]) && InstanceOf(job) == Some(before)))
  }

  /** A stamp written on this step, counting enough runs, and no older than the one it replaces. */
  ghost predicate FreshStamp(before: Row, row: Row, today: Date) {
    && row.measured != before.measured && StampOf(row).Some? && StampOf(row).value.runs >= MIN_STAMP_RUNS
    && !Before(today, StampOf(row).value.newest)
    && (StampOf(before).Some? ==> !Before(StampOf(row).value.newest, StampOf(before).value.newest))
  }

  /** A ceiling that stood went up, or a reference or floor did. */
  predicate Lifted(before: Row, row: Row) {
    (before.budget.Some? && Rose(before.budget, row.budget)) || Rose(before.seconds, row.seconds)
      || Rose(before.floor, row.floor)
  }

  /** One accepted change keeps a ceiling set, and lifts a figure on a fresh stamp alone; a split lifts none. */
  lemma {:induction false} AcceptedStep(base: Rows, before: string, head: Rows, job: string, today: Date)
    requires Replaces(base, before, head, job) && RowOk(head[job]) && CheckRow(Some(base), head, today, job) == []
    ensures base[before].budget.Some? ==> head[job].budget.Some?
    ensures Lifted(base[before], head[job]) ==> before == job && FreshStamp(base[before], head[job], today)
  {
  }

  /** A job's line of descent through a history of tables: the row that stands for it in each. */
  datatype Line = Line(tables: seq<Rows>, todays: seq<Date>, names: seq<string>) {
    ghost predicate Follows(p: nat)
      requires p + 1 < |tables| && p + 1 < |names| && p < |todays|
    {
      && Accepted(Some(tables[p]), tables[p + 1], todays[p])
      && Replaces(tables[p], names[p], tables[p + 1], names[p + 1])
      && RowOk(tables[p + 1][names[p + 1]])
    }

    /** Each table accepted against the one before it. */
    ghost predicate Valid() {
      && |tables| == |names| == |todays| + 1 && names[0] in tables[0]
      && (forall p | 0 <= p < |todays| :: Follows(p))
      && (forall p | 0 <= p < |names| :: names[p] in tables[p])
    }

    function RowAt(p: nat): Row
      requires p < |tables| && p < |names| && names[p] in tables[p]
    {
      tables[p][names[p]]
    }

    ghost predicate FreshAt(p: nat)
      requires Valid() && p < |todays|
    {
      names[p] == names[p + 1] && FreshStamp(RowAt(p), RowAt(p + 1), todays[p])
    }
  }

  lemma {:induction false} LineStep(line: Line, p: nat)
    requires line.Valid() && p < |line.todays|
    ensures line.RowAt(p).budget.Some? ==> line.RowAt(p + 1).budget.Some?
    ensures Lifted(line.RowAt(p), line.RowAt(p + 1)) ==> line.FreshAt(p)
  {
    assert line.Follows(p);
    AcceptedStep(line.tables[p], line.names[p], line.tables[p + 1], line.names[p + 1], line.todays[p]);
  }

  /** A ceiling once set is never removed, however many accepted changes follow and however its matrix is split. */
  lemma {:induction false} BudgetStaysSet(line: Line, i: nat, j: nat)
    requires line.Valid() && i <= j < |line.tables| && line.RowAt(i).budget.Some?
    ensures line.RowAt(j).budget.Some?
  {
    if i < j {
      BudgetStaysSet(line, i, j - 1);
      LineStep(line, j - 1);
    }
  }

  /**
   * A ceiling stands higher than it once did only where some change between wrote a new stamp of at least ten runs,
   * dated no earlier than the one it replaced.
   */
  lemma {:induction false} BudgetRisesOnlyOnFreshStamp(line: Line, i: nat, j: nat) returns (k: nat)
    requires line.Valid() && i < j < |line.tables|
    requires line.RowAt(i).budget.Some? && line.RowAt(j).budget.Some?
    requires line.RowAt(j).budget.value > line.RowAt(i).budget.value
    ensures i <= k < j && line.FreshAt(k)
  {
    var p := j - 1;
    BudgetStaysSet(line, i, p);
    if line.RowAt(p).budget.value > line.RowAt(i).budget.value {
      k := BudgetRisesOnlyOnFreshStamp(line, i, p);
    } else {
      k := p;
      LineStep(line, p);
    }
  }
}
