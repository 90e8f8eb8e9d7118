/** The table's lines read: which text gives which figure, stamp and row, and which line gives none. */
module GateRows {
  import opened GateTable
  import opened PythonText
  import opened Results

  /** A hyphen, or the figure in decimal, zeros before it and all. */
  ghost predicate FigureText(field: string, figure: Option<nat>) {
    match figure
    case None => field == "-"
    case Some(n) => exists k :: field == Zeros(k) + Decimal(n)
  }

  ghost predicate MeasuredText(field: string, measured: Option<string>) {
    match measured
    case None => field == "-"
    case Some(text) => field == text && exists stamp :: StampOk(stamp) && text == WriteStamp(stamp)
  }

  lemma {:induction false} ZerosRead(k: nat, n: nat)
    ensures IsWhole(Zeros(k) + Decimal(n)) && Whole(Zeros(k) + Decimal(n)) == n
  {
    var s, plain := Zeros(k) + Decimal(n), Decimal(n);
    DecimalRoundTrip(n);
    if n < 10 {
      ZerosValue(k);
      assert s[..|s| - 1] == Zeros(k) && s[|s| - 1] == plain[0];
      assert plain[..0] == "" && Whole(plain) == Value(plain[0]);
    } else {
      ZerosRead(k, n / 10);
      assert s[..|s| - 1] == Zeros(k) + Decimal(n / 10);
      assert plain[..|plain| - 1] == Decimal(n / 10) && s[|s| - 1] == plain[|plain| - 1];
      DecimalRoundTrip(n / 10);
    }
  }

  lemma {:induction false} ZerosValue(k: nat)
    ensures (forall i | 0 <= i < k :: IsDigit(Zeros(k)[i])) && Whole(Zeros(k)) == 0
  {
    if k > 0 {
      ZerosValue(k - 1);
      assert Zeros(k)[..k - 1] == Zeros(k - 1);
    }
  }

  lemma {:induction false} FigureIff(field: string, job: string, figure: Option<nat>)
    ensures ReadFigure(field, job) == Ok(figure) <==> FigureText(field, figure)
    ensures ReadFigure(field, job).Err? ==> ReadFigure(field, job) == Err(NotAFigure(job))
  {
    if ReadFigure(field, job) == Ok(figure) && figure.Some? { var k := WholeIs(field); }
    if figure.Some? && FigureText(field, figure) {
      var k :| field == Zeros(k) + Decimal(figure.value);
      ZerosRead(k, figure.value);
    }
  }

  lemma {:induction false} MeasuredIff(field: string, job: string, measured: Option<string>)
    ensures ReadMeasured(field, job) == Ok(measured) <==> MeasuredText(field, measured)
    ensures ReadMeasured(field, job).Err? ==> ReadMeasured(field, job) == Err(NotAStamp(job))
  {
    if ReadStamp(field).Some? { StampReadIff(field, ReadStamp(field).value); }
    if measured.Some? && MeasuredText(field, measured) {
      var stamp :| StampOk(stamp) && field == WriteStamp(stamp);
      StampReadIff(field, stamp);
      assert field[0] != '-';
    }
  }

  ghost predicate RowText(fields: seq<string>, row: Row)
    requires |fields| == 5
  {
    && row.job == fields[0] && FigureText(fields[1], row.seconds) && FigureText(fields[2], row.floor)
    && FigureText(fields[3], row.budget) && MeasuredText(fields[4], row.measured)
  }

  /** Five fields are read as a row exactly where they are its texts and its budget, if any, is stamped and no lower. */
  lemma {:induction false} RowReadIff(fields: seq<string>, row: Row)
    requires |fields| == 5
    ensures ReadRow(fields) == Ok(row) <==> RowText(fields, row) && (row.budget.Some? ==>
      row.measured.Some? && (row.seconds.Some? ==> row.budget.value >= row.seconds.value))
  {
    FigureIff(fields[1], fields[0], row.seconds);
    FigureIff(fields[2], fields[0], row.floor);
    FigureIff(fields[3], fields[0], row.budget);
    MeasuredIff(fields[4], fields[0], row.measured);
  }

  ghost predicate NoFigure(field: string) {
    forall figure :: !FigureText(field, figure)
  }

  ghost predicate NoStamp(field: string) {
    forall measured :: !MeasuredText(field, measured)
  }

  lemma {:induction false} NoneIff(field: string, job: string)
    ensures ReadFigure(field, job).Err? <==> NoFigure(field)
    ensures ReadMeasured(field, job).Err? <==> NoStamp(field)
  {
    forall figure ensures ReadFigure(field, job) == Ok(figure) <==> FigureText(field, figure) {
      FigureIff(field, job, figure);
    }
    forall measured ensures ReadMeasured(field, job) == Ok(measured) <==> MeasuredText(field, measured) {
      MeasuredIff(field, job, measured);
    }
  }

  /** Otherwise a field that is no figure is named first, then the stamp, then what the budget breaks. */
  lemma {:induction false} RowRefused(fields: seq<string>, e: Malformed)
    requires |fields| == 5 && ReadRow(fields) == Err(e)
    ensures var job, unread := fields[0], NoFigure(fields[1]) || NoFigure(fields[2]) || NoFigure(fields[3]);
      && (unread ==> e == NotAFigure(job))
      && (!unread && NoStamp(fields[4]) ==> e == NotAStamp(job))
      && forall row | RowText(fields, row) ::
           if row.seconds.Some? && row.budget.Some? && row.budget.value < row.seconds.value
           then e == BudgetUnderReference(job) else e == BudgetUnstamped(job)
  {
    var job := fields[0];
    NoneIff(fields[1], job);
    NoneIff(fields[2], job);
    NoneIff(fields[3], job);
    NoneIff(fields[4], job);
    forall row | RowText(fields, row)
      ensures ReadFigure(fields[1], job) == Ok(row.seconds) && ReadFigure(fields[2], job) == Ok(row.floor)
      ensures ReadFigure(fields[3], job) == Ok(row.budget) && ReadMeasured(fields[4], job) == Ok(row.measured)
    {
      FigureIff(fields[1], job, row.seconds);
      FigureIff(fields[2], job, row.floor);
      FigureIff(fields[3], job, row.budget);
      MeasuredIff(fields[4], job, row.measured);
    }
  }

  /** A blank line or a comment. */
  ghost predicate PassedOver(line: string) {
    "#" <= line || forall c | c in line :: c as int in SPACES
  }

  lemma {:induction false} SkippedIff(line: string)
    ensures Skipped(line) <==> PassedOver(line)
  {
    forall c ensures IsSpace(c) <==> c as int in SPACES { BreaksAndSpaces(c); }
    if AllSpace(line) { forall c | c in line ensures IsSpace(c) { } }
    if forall c | c in line :: IsSpace(c) {
      forall i | 0 <= i < |line| ensures IsSpace(line[i]) { assert line[i] in line; }
    }
  }

  /** What one line adds: nothing, a row of its own job, or a refusal. */
  lemma {:induction false} LineIs(line: string, rows: Rows)
    ensures var fields := Split(line, '\t');
      && (PassedOver(line) ==> ReadLine(line, rows) == Ok(rows))
      && (!PassedOver(line) ==> match ReadLine(line, rows)
            case Ok(now) => |fields| == 5 && fields[0] !in rows && ReadRow(fields).Ok?
              && now == rows[fields[0] := ReadRow(fields).value]
            case Err(e) =>
              if |fields| != 5 then e == FieldCount(line)
              else if fields[0] in rows then e == Twice(fields[0])
              else ReadRow(fields) == Err(e))
  {
    SkippedIff(line);
  }

  /** A blank line or a comment changes nothing wherever it stands. */
  lemma {:induction false} CommentsPassOver(before: seq<string>, line: string, after: seq<string>, rows: Rows)
    requires PassedOver(line)
    ensures ReadLines(before + [line] + after, rows) == ReadLines(before + after, rows)
  {
    var with, without := before + [line] + after, before + after;
    if before == [] {
      LineIs(line, rows);
      assert with[0] == line && with[1..] == after && without == after;
    } else {
      assert with[1..] == before[1..] + [line] + after && without[1..] == before[1..] + after;
      var first := ReadLine(before[0], rows);
      if first.Ok? { CommentsPassOver(before[1..], line, after, first.value); }
    }
  }
}
