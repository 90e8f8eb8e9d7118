/**
 * The gate's wall-clock reference: one row per CI job, read from the committed table and written back into its text.
 */
module GateTable {
  import opened Ordering
  import opened PythonText
  import opened Results

  const TOTAL := "total"

  // ----- stamps

  datatype Date = Date(year: nat, month: nat, day: nat)

  predicate Leap(year: nat) { year % 4 == 0 && (year % 100 != 0 || year % 400 == 0) }

  function DaysIn(year: nat, month: nat): nat {
    if month == 2 then (if Leap(year) then 29 else 28) else if month in {4, 6, 9, 11} then 30 else 31
  }

  predicate Calendar(d: Date) {
    1 <= d.year <= 9999 && 1 <= d.month <= 12 && 1 <= d.day <= DaysIn(d.year, d.month)
  }

  predicate Before(a: Date, b: Date) {
    a.year < b.year || (a.year == b.year && (a.month < b.month || (a.month == b.month && a.day < b.day)))
  }

  function TwoDigits(n: nat): (s: string)
    requires n < 100
    ensures |s| == 2 && IsDigit(s[0]) && IsDigit(s[1])
  {
    [Digit(n / 10), Digit(n % 10)]
  }

  /** `date.isoformat`. */
  function Iso(d: Date): (s: string)
    requires Calendar(d)
    ensures |s| == 10
  {
    TwoDigits(d.year / 100) + TwoDigits(d.year % 100) + "-" + TwoDigits(d.month) + "-" + TwoDigits(d.day)
  }

  function TwoValue(s: string, i: nat): nat
    requires i + 1 < |s| && IsDigit(s[i]) && IsDigit(s[i + 1])
  {
    10 * Value(s[i]) + Value(s[i + 1])
  }

  predicate IsoShape(s: string) {
    |s| == 10 && s[4] == '-' && s[7] == '-' && forall i | 0 <= i < 10 && i != 4 && i != 7 :: IsDigit(s[i])
  }

  /** A stamp's date, where its ten characters spell a calendar day. */
  function ReadIso(s: string): (r: Option<Date>)
    ensures r.Some? ==> Calendar(r.value)
  {
    if !IsoShape(s) then None
    else
      var d := Date(100 * TwoValue(s, 0) + TwoValue(s, 2), TwoValue(s, 5), TwoValue(s, 8));
      if Calendar(d) then Some(d) else None
  }

  datatype Stamp = Stamp(runs: nat, newest: Date, pull: Option<nat>)

  predicate StampOk(s: Stamp) {
    s.runs > 0 && Calendar(s.newest) && (s.pull.Some? ==> s.pull.value > 0)
  }

  predicate IsCount(s: string) { IsWhole(s) && s[0] != '0' }

  /** `<runs>@<YYYY-MM-DD>`, with `/<run id>` after it where the runs are one pull-request run's attempts. */
  function ReadStamp(s: string): (r: Option<Stamp>) {
    var at := Find(s, '@');
    if at + 11 > |s| || !IsCount(s[..at]) then None
    else
      var newest, tail := ReadIso(s[at + 1..at + 11]), s[at + 11..];
      if newest.None? then None
      else if tail == "" then Some(Stamp(Whole(s[..at]), newest.value, None))
      else if tail[0] == '/' && IsCount(tail[1..]) then
        Some(Stamp(Whole(s[..at]), newest.value, Some(Whole(tail[1..]))))
      else None
  }

  function WriteStamp(s: Stamp): string
    requires StampOk(s)
  {
    Decimal(s.runs) + "@" + Iso(s.newest) + if s.pull.None? then "" else "/" + Decimal(s.pull.value)
  }

  lemma {:induction false} IsoRoundTrip(d: Date)
    requires Calendar(d)
    ensures ReadIso(Iso(d)) == Some(d)
  {
    var s := Iso(d);
    assert s[0..2] == TwoDigits(d.year / 100) && s[2..4] == TwoDigits(d.year % 100);
    assert s[5..7] == TwoDigits(d.month) && s[8..10] == TwoDigits(d.day);
  }

  /** A stamp is recomputed from its own text: what `--stamp` writes is what every other mode reads. */
  lemma {:induction false} StampRoundTrip(s: Stamp)
    requires StampOk(s)
    ensures ReadStamp(WriteStamp(s)) == Some(s)
  {
    var text, n := WriteStamp(s), |Decimal(s.runs)|;
    var tail := if s.pull.None? then "" else "/" + Decimal(s.pull.value);
    assert text == Decimal(s.runs) + ("@" + (Iso(s.newest) + tail));
    forall i | 0 <= i < n ensures text[i] != '@' { assert text[i] == Decimal(s.runs)[i]; }
    FindUnique(text, '@', n);
    assert text[..n] == Decimal(s.runs) && text[n + 1..n + 11] == Iso(s.newest) && text[n + 11..] == tail;
    DecimalRoundTrip(s.runs);
    IsoRoundTrip(s.newest);
    if s.pull.Some? {
      DecimalRoundTrip(s.pull.value);
      assert tail[1..] == Decimal(s.pull.value);
    }
  }

  /** The Gregorian calendar. */
  lemma {:induction false} CalendarIff(d: Date)
    ensures Calendar(d) <==>
      && 1 <= d.year <= 9999 && 1 <= d.month <= 12 && 1 <= d.day
      && (d.day <= 28 || (d.day <= 30 && d.month != 2) || (d.day == 31 && d.month in {1, 3, 5, 7, 8, 10, 12})
          || (d.day == 29 && d.year % 4 == 0 && (d.year % 100 == 0 ==> d.year % 400 == 0)))
  {
  }

  lemma {:induction false} BeforeIff(a: Date, b: Date)
    requires Calendar(a) && Calendar(b)
    ensures Before(a, b) <==> 372 * a.year + 31 * a.month + a.day < 372 * b.year + 31 * b.month + b.day
  {
  }

  lemma {:induction false} TwoDigitsOf(s: string, i: nat)
    requires i + 1 < |s| && IsDigit(s[i]) && IsDigit(s[i + 1])
    ensures TwoValue(s, i) < 100 && s[i..i + 2] == TwoDigits(TwoValue(s, i))
  {
  }

  lemma {:induction false} IsoParts(s: string)
    requires IsoShape(s)
    ensures forall i | i in {0, 2, 5, 8} :: TwoValue(s, i) < 100
    ensures s == TwoDigits(TwoValue(s, 0)) + TwoDigits(TwoValue(s, 2)) + "-" + TwoDigits(TwoValue(s, 5)) + "-"
      + TwoDigits(TwoValue(s, 8))
  {
    TwoDigitsOf(s, 0);
    TwoDigitsOf(s, 2);
    TwoDigitsOf(s, 5);
    TwoDigitsOf(s, 8);
    assert s == s[0..2] + s[2..4] + "-" + s[5..7] + "-" + s[8..10];
  }

  lemma {:induction false} CenturyOf(a: nat, b: nat)
    requires b < 100
    ensures (100 * a + b) / 100 == a && (100 * a + b) % 100 == b
  {
  }

  lemma {:induction false} IsoReadIff(s: string, d: Date)
    ensures ReadIso(s) == Some(d) <==> Calendar(d) && s == Iso(d)
  {
    if Calendar(d) { IsoRoundTrip(d); }
    if ReadIso(s) == Some(d) {
      IsoParts(s);
      CenturyOf(TwoValue(s, 0), TwoValue(s, 2));
    }
  }

  lemma {:induction false} ZerosFirst(k: nat, t: string)
    requires k > 0
    ensures Zeros(k) + t != "" && (Zeros(k) + t)[0] == '0'
  {
  }

  lemma {:induction false} CountIs(s: string)
    requires IsCount(s)
    ensures s == Decimal(Whole(s)) && Whole(s) > 0
  {
    var plain := Decimal(Whole(s));
    var k := WholeIs(s);
    if k > 0 { ZerosFirst(k, plain); }
    assert Whole(s) == 0 ==> s == "0";
  }

  lemma {:induction false} StampTail(tail: string, pull: Option<nat>)
    requires if tail == "" then pull.None? else
      tail[0] == '/' && IsCount(tail[1..]) && pull == Some(Whole(tail[1..]))
    ensures pull.Some? ==> pull.value > 0
    ensures tail == if pull.None? then "" else "/" + Decimal(pull.value)
  {
    if tail != "" {
      CountIs(tail[1..]);
      assert tail == "/" + tail[1..];
    }
  }

  lemma {:induction false} StampParts(s: string, stamp: Stamp) returns (count: string, date: string, tail: string)
    requires ReadStamp(s) == Some(stamp)
    ensures s == count + "@" + date + tail
    ensures IsCount(count) && stamp.runs == Whole(count) && ReadIso(date) == Some(stamp.newest)
    ensures if tail == "" then stamp.pull.None? else
      tail[0] == '/' && IsCount(tail[1..]) && stamp.pull == Some(Whole(tail[1..]))
  {
    var at := Find(s, '@');
    count, date, tail := s[..at], s[at + 1..at + 11], s[at + 11..];
    assert s[at] == '@';
  }

  lemma {:induction false} StampRead(s: string, stamp: Stamp)
    requires ReadStamp(s) == Some(stamp)
    ensures StampOk(stamp) && s == WriteStamp(stamp)
  {
    var count, date, tail := StampParts(s, stamp);
    CountIs(count);
    IsoReadIff(date, stamp.newest);
    StampTail(tail, stamp.pull);
  }

  /** A field is read as a stamp exactly where it is that stamp's own text. */
  lemma {:induction false} StampReadIff(s: string, stamp: Stamp)
    ensures ReadStamp(s) == Some(stamp) <==> StampOk(stamp) && s == WriteStamp(stamp)
  {
    if StampOk(stamp) { StampRoundTrip(stamp); }
    if ReadStamp(s) == Some(stamp) { StampRead(s, stamp); }
  }

  // ----- rows

  datatype Row = Row(job: string, seconds: Option<nat>, floor: Option<nat>, budget: Option<nat>,
    measured: Option<string>)

  type Rows = map<string, Row>

  datatype Malformed =
    | FieldCount(line: string)
    | Twice(job: string)
    | NotAFigure(job: string)
    | NotAStamp(job: string)
    | BudgetUnderReference(job: string)
    | BudgetUnstamped(job: string)
    | NoRow
    | TotalOff

  predicate StampReadable(row: Row) {
    row.measured.Some? ==> ReadStamp(row.measured.value).Some?
  }

  /** A budget is a ceiling over its own reference, set over runs a stamp counts. */
  predicate BudgetHeld(row: Row) {
    row.budget.Some? ==> row.measured.Some? && (row.seconds.Some? ==> row.budget.value >= row.seconds.value)
  }

  /** What a row is held to wherever it stands. */
  predicate RowOk(row: Row) {
    StampReadable(row) && BudgetHeld(row)
  }

  function ReadFigure(field: string, job: string): Result<Option<nat>, Malformed> {
    if field == "-" then Ok(None) else if IsWhole(field) then Ok(Some(Whole(field))) else Err(NotAFigure(job))
  }

  function ReadMeasured(field: string, job: string): Result<Option<string>, Malformed> {
    if field == "-" then Ok(None) else if ReadStamp(field).Some? then Ok(Some(field)) else Err(NotAStamp(job))
  }

  function ReadRow(fields: seq<string>): (r: Result<Row, Malformed>)
    requires |fields| == 5
    ensures r.Ok? ==> r.value.job == fields[0] && RowOk(r.value)
  {
    var job := fields[0];
    var seconds, floor, budget, measured :=
      ReadFigure(fields[1], job), ReadFigure(fields[2], job), ReadFigure(fields[3], job), ReadMeasured(fields[4], job);
    if seconds.Err? then Err(seconds.error)
    else if floor.Err? then Err(floor.error)
    else if budget.Err? then Err(budget.error)
    else if measured.Err? then Err(measured.error)
    else if budget.value.Some? && seconds.value.Some? && budget.value.value < seconds.value.value then
      Err(BudgetUnderReference(job))
    else if budget.value.Some? && measured.value.None? then Err(BudgetUnstamped(job))
    else Ok(Row(job, seconds.value, floor.value, budget.value, measured.value))
  }

  predicate Skipped(line: string) {
    AllSpace(line) || line[0] == '#'
  }

  function ReadLine(line: string, rows: Rows): Result<Rows, Malformed> {
    if Skipped(line) then Ok(rows)
    else
      var fields := Split(line, '\t');
      if |fields| != 5 then Err(FieldCount(line))
      else if fields[0] in rows then Err(Twice(fields[0]))
      else
        var row := ReadRow(fields);
        if row.Err? then Err(row.error) else Ok(rows[fields[0] := row.value])
  }

  function ReadLines(lines: seq<string>, rows: Rows): Result<Rows, Malformed> {
    if lines == [] then Ok(rows)
    else
      var r := ReadLine(lines[0], rows);
      if r.Err? then r else ReadLines(lines[1..], r.value)
  }

  function SecondsOf(row: Row): nat {
    if row.seconds.Some? then row.seconds.value else 0
  }

  ghost function Sum(rows: Rows): nat
    decreases |rows|
  {
    if rows == map[] then 0
    else
      var job :| job in rows;
      SecondsOf(rows[job]) + Sum(rows - {job})
  }

  lemma {:induction false} SumSplit(rows: Rows, job: string)
    requires job in rows
    ensures Sum(rows) == SecondsOf(rows[job]) + Sum(rows - {job})
    decreases |rows|
  {
    var picked :| picked in rows && Sum(rows) == SecondsOf(rows[picked]) + Sum(rows - {picked});
    if picked != job {
      SumSplit(rows - {picked}, job);
      SumSplit(rows - {job}, picked);
      assert rows - {picked} - {job} == rows - {job} - {picked};
    }
  }

  /** The job rows' references, the total's own left out. */
  ghost function Summed(rows: Rows): nat {
    Sum(rows - {TOTAL})
  }

  /** A row's reference counts once, a row without one for nothing, and the total's own not at all. */
  lemma {:induction false} SummedIs(rows: Rows, job: string)
    ensures job in rows && job != "total" ==> match rows[job].seconds
      case Some(n) => Summed(rows) == n + Summed(rows - {job})
      case None => Summed(rows) == Summed(rows - {job})
    ensures rows.Keys <= {"total"} ==> Summed(rows) == 0
  {
    if job in rows && job != TOTAL {
      SumSplit(rows - {TOTAL}, job);
      assert rows - {TOTAL} - {job} == rows - {job} - {TOTAL};
    }
    if rows.Keys <= {TOTAL} { assert rows - {TOTAL} == map[]; }
  }

  method SumOf(rows: Rows) returns (sum: nat)
    ensures sum == Summed(rows)
  {
    sum := 0;
    var left := rows - {TOTAL};
    while left != map[]
      invariant sum + Sum(left) == Summed(rows)
      decreases |left|
    {
      var job :| job in left;
      SumSplit(left, job);
      sum, left := sum + SecondsOf(left[job]), left - {job};
    }
  }

  /** The table's own arithmetic: a total row standing at the sum of the others. */
  ghost predicate Totalled(rows: Rows) {
    TOTAL in rows && rows[TOTAL].seconds == Some(Summed(rows))
  }

  ghost function Reference(text: string): Result<Rows, Malformed> {
    var r := ReadLines(SplitLines(text), map[]);
    if r.Err? then r else if r.value == map[] then Err(NoRow) else if !Totalled(r.value) then Err(TotalOff) else r
  }

  method ParseReference(text: string) returns (r: Result<Rows, Malformed>)
    ensures r == Reference(text)
  {
    var lines, rows: Rows := SplitLines(text), map[];
    for i := 0 to |lines|
      invariant ReadLines(lines, map[]) == ReadLines(lines[i..], rows)
    {
      assert lines[i..][0] == lines[i] && lines[i..][1..] == lines[i + 1..];
      var next := ReadLine(lines[i], rows);
      if next.Err? { return next; }
      rows := next.value;
    }
    if rows == map[] { return Err(NoRow); }
    var summed := SumOf(rows);
    if TOTAL !in rows || rows[TOTAL].seconds != Some(summed) { return Err(TotalOff); }
    return Ok(rows);
  }

  // ----- the way back into the text

  function Figure(value: Option<nat>): string {
    if value.None? then "-" else Decimal(value.value)
  }

  function FieldsFor(row: Row): seq<string> {
    [row.job, Figure(row.seconds), Figure(row.floor), Figure(row.budget),
     if row.measured.None? then "-" else row.measured.value]
  }

  function TableLine(row: Row): string {
    Join(FieldsFor(row), '\t')
  }

  function JobOf(line: string): string {
    line[..Find(line, '\t')]
  }

  /** The rows new to the text, in `sorted` order. */
  ghost function NewRows(rows: Rows, placed: set<string>): (jobs: seq<string>)
    ensures (forall job :: job in jobs <==> job in rows && job !in placed && job != TOTAL) && Distinct(jobs)
  {
    SortedSet(rows.Keys - placed - {TOTAL})
  }

  function TableLines(rows: Rows, jobs: seq<string>): seq<string>
    requires forall job | job in jobs :: job in rows
  {
    seq(|jobs|, i requires 0 <= i < |jobs| => TableLine(rows[jobs[i]]))
  }

  /** Every row line's job has a row to put in its place. */
  predicate Covers(rows: Rows, lines: seq<string>) {
    forall line | line in lines :: Skipped(line) || JobOf(line) in rows
  }

  /**
   * What one line of the text is rewritten to: a comment stands, a row is replaced, and above the total go the rows new
   * to the text.
   */
  ghost function Emitted(line: string, rows: Rows, placed: set<string>): seq<string>
    requires Skipped(line) || JobOf(line) in rows
  {
    if Skipped(line) then [line]
    else
      (if JobOf(line) == TOTAL then TableLines(rows, NewRows(rows, placed)) else []) + [TableLine(rows[JobOf(line)])]
  }

  function PlacedBy(line: string, placed: set<string>): set<string> {
    if Skipped(line) then placed else placed + {JobOf(line)}
  }

  ghost function RewrittenLines(lines: seq<string>, rows: Rows, placed: set<string>): seq<string>
    requires Covers(rows, lines)
  {
    if lines == [] then
      []
    else Emitted(lines[0], rows, placed) + RewrittenLines(lines[1..], rows, PlacedBy(lines[0], placed))
  }

  method RewriteLine(line: string, rows: Rows, placed: set<string>) returns (r: seq<string>)
    requires Skipped(line) || JobOf(line) in rows
    ensures r == Emitted(line, rows, placed)
  {
    if Skipped(line) { return [line]; }
    r := [];
    if JobOf(line) == TOTAL {
      var added := SortSet(rows.Keys - placed - {TOTAL});
      assert added == NewRows(rows, placed);
      r := TableLines(rows, added);
    }
    r := r + [TableLine(rows[JobOf(line)])];
  }

  method Rewritten(text: string, rows: Rows) returns (r: string)
    requires Covers(rows, SplitLines(text))
    ensures r == JoinLines(RewrittenLines(SplitLines(text), rows, {}))
  {
    var source, lines: seq<string>, placed := SplitLines(text), [], {};
    for i := 0 to |source|
      invariant RewrittenLines(source, rows, {}) == lines + RewrittenLines(source[i..], rows, placed)
    {
      assert source[i..][0] == source[i] && source[i..][1..] == source[i + 1..];
      var emitted := RewriteLine(source[i], rows, placed);
      Appended(lines, emitted, RewrittenLines(source[i + 1..], rows, PlacedBy(source[i], placed)));
      lines, placed := lines + emitted, PlacedBy(source[i], placed);
    }
    assert lines + [] == lines;
    r := JoinLines(lines);
  }

  lemma {:induction false} Appended(a: seq<string>, b: seq<string>, c: seq<string>)
    ensures a + (b + c) == (a + b) + c
  {
  }

  // ----- what a table that reads keeps

  /** Every row filed under its own job, its stamp readable and its ceiling over its reference. */
  ghost predicate WellFormed(rows: Rows) {
    forall job | job in rows :: rows[job].job == job && RowOk(rows[job])
  }

  lemma {:induction false} LinesWellFormed(lines: seq<string>, read: Rows)
    requires WellFormed(read) && ReadLines(lines, read).Ok?
    ensures WellFormed(ReadLines(lines, read).value)
  {
    if lines != [] { LinesWellFormed(lines[1..], ReadLine(lines[0], read).value); }
  }

  lemma {:induction false} ReferenceKeeps(text: string)
    requires Reference(text).Ok?
    ensures WellFormed(Reference(text).value) && Totalled(Reference(text).value)
  {
    LinesWellFormed(SplitLines(text), map[]);
  }
}
