/** That the table `--stamp` writes into the text is the table every other mode reads out of it. */
module GateRoundTrip {
  import opened GateTable
  import opened Ordering
  import opened PythonText
  import opened Results

  /** A job name the table's own syntax can carry. */
  predicate NameOk(job: string) {
    '\t' !in job && OneLine(job) && (job != "" ==> job[0] != '#')
  }

  function JobsOf(lines: seq<string>): seq<string> {
    if lines == [] then [] else (if Skipped(lines[0]) then [] else [JobOf(lines[0])]) + JobsOf(lines[1..])
  }

  /** The total is the table's last row. */
  predicate TotalLast(text: string) {
    var jobs := JobsOf(SplitLines(text));
    jobs != [] && jobs[|jobs| - 1] == TOTAL
  }

  // ----- one row

  lemma {:induction false} StampText(s: string)
    requires ReadStamp(s).Some?
    ensures s != "-" && '\t' !in s && OneLine(s)
  {
    var at := Find(s, '@');
    var iso, tail := s[at + 1..at + 11], s[at + 11..];
    forall i | 0 <= i < |s| ensures s[i] != '\t' && !IsLineBreak(s[i]) {
      if i < at { assert s[i] == s[..at][i]; }
      else if at < i < at + 11 { assert s[i] == iso[i - at - 1]; }
      else if at + 11 < i { assert s[i] == tail[1..][i - at - 12]; }
      else if i == at + 11 { assert s[i] == tail[0]; }
    }
  }

  lemma {:induction false} FigureText(value: Option<nat>)
    ensures var s := Figure(value); s != "" && '\t' !in s && OneLine(s) && !AllSpace(s)
    ensures forall job :: ReadFigure(Figure(value), job) == Ok(value)
  {
    if value.Some? { DecimalRoundTrip(value.value); }
    var s := Figure(value);
    assert !IsSpace(s[0]);
  }

  lemma {:induction false} RowFieldsRead(row: Row)
    requires StampReadable(row)
    ensures if BudgetHeld(row) then ReadRow(FieldsFor(row)) == Ok(row) else ReadRow(FieldsFor(row)).Err?
  {
    FigureText(row.seconds);
    FigureText(row.floor);
    FigureText(row.budget);
    if row.measured.Some? { StampText(row.measured.value); }
    var f := FieldsFor(row);
    assert ReadFigure(f[1], f[0]) == Ok(row.seconds) && ReadFigure(f[2], f[0]) == Ok(row.floor);
    assert ReadFigure(f[3], f[0]) == Ok(row.budget) && ReadMeasured(f[4], f[0]) == Ok(row.measured);
  }

  lemma {:induction false} JoinText(fields: seq<string>)
    requires fields != [] && forall field | field in fields :: OneLine(field)
    ensures OneLine(Join(fields, '\t'))
  {
    assert fields[0] in fields;
    if |fields| > 1 {
      assert forall field | field in fields[1..] :: field in fields;
      JoinText(fields[1..]);
    }
  }

  lemma {:induction false} FieldsText(row: Row)
    requires NameOk(row.job) && StampReadable(row)
    ensures forall field | field in FieldsFor(row) :: '\t' !in field && OneLine(field)
  {
    FigureText(row.seconds);
    FigureText(row.floor);
    FigureText(row.budget);
    if row.measured.Some? { StampText(row.measured.value); }
  }

  lemma {:induction false} NotSkipped(row: Row)
    requires NameOk(row.job)
    ensures !Skipped(TableLine(row))
  {
    FigureText(row.seconds);
    var line, fields, n, seconds := TableLine(row), FieldsFor(row), |row.job|, Figure(row.seconds);
    assert fields[1..][0] == seconds;
    var rest := Join(fields[1..], '\t');
    assert line == row.job + ['\t'] + rest;
    assert rest[0] == seconds[0];
    assert line[n + 1] == seconds[0] && !IsSpace(seconds[0]);
    if row.job != "" { assert line[0] == row.job[0]; }
  }

  lemma {:induction false} TableLineRead(row: Row)
    requires NameOk(row.job) && StampReadable(row)
    ensures Split(TableLine(row), '\t') == FieldsFor(row) && JobOf(TableLine(row)) == row.job
    ensures OneLine(TableLine(row)) && !Skipped(TableLine(row))
  {
    FieldsText(row);
    NotSkipped(row);
    FieldsRoundTrip(FieldsFor(row), '\t');
    FieldsOf(TableLine(row), '\t');
    JoinText(FieldsFor(row));
  }

  // ----- the rows of a list of lines

  /** Every row line is the printed row of its job. */
  ghost predicate Printed(lines: seq<string>, rows: Rows) {
    forall line | line in lines :: Skipped(line) || (JobOf(line) in rows && line == TableLine(rows[JobOf(line)]))
  }

  ghost predicate Printable(rows: Rows) {
    forall job | job in rows :: rows[job].job == job && NameOk(job) && StampReadable(rows[job])
  }

  lemma {:induction false} PrintedJobs(lines: seq<string>, rows: Rows)
    requires Printed(lines, rows)
    ensures forall job | job in JobsOf(lines) :: job in rows
  {
    if lines != [] {
      assert forall line | line in lines[1..] :: line in lines;
      assert lines[0] in lines;
      PrintedJobs(lines[1..], rows);
    }
  }

  lemma {:induction false} PrintedLineRead(line: string, rows: Rows, read: Rows)
    requires Printable(rows) && !Skipped(line) && JobOf(line) in rows && line == TableLine(rows[JobOf(line)])
    ensures var job := JobOf(line);
      if job !in read && BudgetHeld(rows[job]) then
        ReadLine(line, read) == Ok(read[job := rows[job]])
      else ReadLine(line, read).Err?
  {
    var row := rows[JobOf(line)];
    TableLineRead(row);
    RowFieldsRead(row);
  }

  function Only(rows: Rows, jobs: seq<string>): Rows {
    map job | job in jobs && job in rows :: rows[job]
  }

  ghost predicate Readable(jobs: seq<string>, rows: Rows, read: Rows) {
    Distinct(jobs) && forall job | job in jobs :: job !in read && job in rows && BudgetHeld(rows[job])
  }

  lemma {:induction false} ReadableFirst(job: string, rest: seq<string>, rows: Rows, read: Rows)
    requires job in rows
    ensures Readable([job] + rest, rows, read) <==>
      job !in read && BudgetHeld(rows[job]) && Readable(rest, rows, read[job := rows[job]])
  {
    FirstJob(job, rest);
    assert forall x :: x in [job] + rest <==> x == job || x in rest;
  }

  /** Printed lines read back exactly where no job repeats and every budget stands over its reference. */
  lemma {:induction false} PrintedReadIff(lines: seq<string>, rows: Rows, read: Rows)
    requires Printable(rows) && Printed(lines, rows)
    ensures ReadLines(lines, read).Ok? <==> Readable(JobsOf(lines), rows, read)
    ensures ReadLines(lines, read).Ok? ==> ReadLines(lines, read).value == read + Only(rows, JobsOf(lines))
  {
    if lines == [] {
      assert read + Only(rows, []) == read;
    } else {
      assert forall line | line in lines[1..] :: line in lines;
      assert lines[0] in lines;
      if Skipped(lines[0]) {
        assert JobsOf(lines) == JobsOf(lines[1..]);
        PrintedReadIff(lines[1..], rows, read);
      } else {
        var job := JobOf(lines[0]);
        PrintedReadIff(lines[1..], rows, read[job := rows[job]]);
        PrintedReadOn(lines, rows, read, job);
      }
    }
  }

  lemma {:induction false} PrintedReadOn(lines: seq<string>, rows: Rows, read: Rows, job: string)
    requires Printable(rows) && lines != [] && !Skipped(lines[0]) && job == JobOf(lines[0]) && job in rows
    requires lines[0] == TableLine(rows[job])
    requires var now := read[job := rows[job]];
      && (ReadLines(lines[1..], now).Ok? <==> Readable(JobsOf(lines[1..]), rows, now))
      && (ReadLines(lines[1..], now).Ok? ==> ReadLines(lines[1..], now).value == now + Only(rows, JobsOf(lines[1..])))
    ensures ReadLines(lines, read).Ok? <==> Readable(JobsOf(lines), rows, read)
    ensures ReadLines(lines, read).Ok? ==> ReadLines(lines, read).value == read + Only(rows, JobsOf(lines))
  {
    var rest := JobsOf(lines[1..]);
    assert JobsOf(lines) == [job] + rest;
    PrintedLineRead(lines[0], rows, read);
    ReadableFirst(job, rest, rows, read);
    if job !in rest { OnlyGrows(rows, job, rest, read); } else { FirstJob(job, rest); }
  }

  lemma {:induction false} OnlyGrows(rows: Rows, job: string, rest: seq<string>, read: Rows)
    requires job in rows && job !in rest
    ensures read[job := rows[job]] + Only(rows, rest) == read + Only(rows, [job] + rest)
  {
  }

  lemma {:induction false} FirstJob(job: string, rest: seq<string>)
    ensures Distinct([job] + rest) <==> job !in rest && Distinct(rest)
  {
    var all := [job] + rest;
    if Distinct(all) {
      forall i, j | 0 <= i < j < |rest| ensures rest[i] != rest[j] { assert all[i + 1] != all[j + 1]; }
      forall i | 0 <= i < |rest| ensures rest[i] != job { assert all[0] != all[i + 1]; }
    }
  }

  // ----- what the rewriting lists

  lemma {:induction false} JobsConcat(a: seq<string>, b: seq<string>)
    ensures JobsOf(a + b) == JobsOf(a) + JobsOf(b)
  {
    if a == [] {
      assert a + b == b;
    } else {
      assert (a + b)[1..] == a[1..] + b;
      JobsConcat(a[1..], b);
    }
  }

  lemma {:induction false} RewrittenPrinted(lines: seq<string>, rows: Rows, placed: set<string>)
    requires Covers(rows, lines) && Printable(rows)
    ensures Printed(RewrittenLines(lines, rows, placed), rows)
    ensures forall line | line in RewrittenLines(lines, rows, placed) :: OneLine(line) || line in lines
  {
    if lines != [] {
      assert Covers(rows, lines[1..]) by { assert forall line | line in lines[1..] :: line in lines; }
      RewrittenPrinted(lines[1..], rows, PlacedBy(lines[0], placed));
      assert lines[0] in lines;
      EmittedPrinted(lines[0], rows, placed);
      var first, rest := Emitted(lines[0], rows, placed), RewrittenLines(lines[1..], rows, PlacedBy(lines[0], placed));
      assert forall line | line in first + rest :: line in first || line in rest;
    }
  }

  lemma {:induction false} EmittedPrinted(line: string, rows: Rows, placed: set<string>)
    requires (Skipped(line) || JobOf(line) in rows) && Printable(rows)
    ensures Printed(Emitted(line, rows, placed), rows)
    ensures forall l | l in Emitted(line, rows, placed) :: OneLine(l) || l == line
  {
    forall l | l in Emitted(line, rows, placed)
      ensures Skipped(l) || (JobOf(l) in rows && l == TableLine(rows[JobOf(l)]))
      ensures OneLine(l) || l == line
    {
      if !Skipped(line) {
        var job := PrintedJob(line, rows, placed, l);
        TableLineRead(rows[job]);
      }
    }
  }

  lemma {:induction false} PrintedJob(line: string, rows: Rows, placed: set<string>, l: string) returns (job: string)
    requires !Skipped(line) && JobOf(line) in rows && l in Emitted(line, rows, placed)
    ensures job in rows && l == TableLine(rows[job])
  {
    job := JobOf(line);
    if l != TableLine(rows[job]) {
      var jobs := NewRows(rows, placed);
      assert l in TableLines(rows, jobs);
      var i :| 0 <= i < |jobs| && TableLines(rows, jobs)[i] == l;
      job := jobs[i];
    }
  }

  lemma {:induction false} TableLinesJobs(rows: Rows, jobs: seq<string>)
    requires Printable(rows) && forall job | job in jobs :: job in rows
    ensures JobsOf(TableLines(rows, jobs)) == jobs
  {
    if jobs != [] {
      TableLineRead(rows[jobs[0]]);
      TableLinesJobs(rows, jobs[1..]);
      FirstLineJobs(TableLine(rows[jobs[0]]), TableLines(rows, jobs[1..]));
      TableLinesFirst(rows, jobs);
    }
  }

  lemma {:induction false} TableLinesFirst(rows: Rows, jobs: seq<string>)
    requires jobs != [] && forall job | job in jobs :: job in rows
    ensures TableLines(rows, jobs) == [TableLine(rows[jobs[0]])] + TableLines(rows, jobs[1..])
  {
  }

  lemma {:induction false} FirstLineJobs(line: string, rest: seq<string>)
    ensures JobsOf([line] + rest) == (if Skipped(line) then [] else [JobOf(line)]) + JobsOf(rest)
  {
    assert ([line] + rest)[1..] == rest;
  }

  lemma {:induction false} EmittedJobs(line: string, rows: Rows, placed: set<string>)
    requires (Skipped(line) || JobOf(line) in rows) && Printable(rows)
    ensures JobsOf(Emitted(line, rows, placed)) == if Skipped(line) then [] else
      (if JobOf(line) == TOTAL then NewRows(rows, placed) else []) + [JobOf(line)]
  {
    if !Skipped(line) {
      var job := JobOf(line);
      var above, own := if job == TOTAL then TableLines(rows, NewRows(rows, placed)) else [], [TableLine(rows[job])];
      JobsConcat(above, own);
      TableLineRead(rows[job]);
      assert own[1..] == [] && JobsOf(own) == [job];
      if job == TOTAL { TableLinesJobs(rows, NewRows(rows, placed)); }
    }
  }

  ghost function RewrittenJobs(jobs: seq<string>, rows: Rows, placed: set<string>): seq<string> {
    if jobs == [] then []
    else
      (if jobs[0] == TOTAL then NewRows(rows, placed) else []) + [jobs[0]]
      + RewrittenJobs(jobs[1..], rows, placed + {jobs[0]})
  }

  lemma {:induction false} RewrittenLists(lines: seq<string>, rows: Rows, placed: set<string>)
    requires Covers(rows, lines) && Printable(rows)
    ensures JobsOf(RewrittenLines(lines, rows, placed)) == RewrittenJobs(JobsOf(lines), rows, placed)
  {
    if lines != [] {
      assert Covers(rows, lines[1..]) by { assert forall line | line in lines[1..] :: line in lines; }
      assert lines[0] in lines;
      var placed' := PlacedBy(lines[0], placed);
      RewrittenLists(lines[1..], rows, placed');
      EmittedJobs(lines[0], rows, placed);
      JobsConcat(Emitted(lines[0], rows, placed), RewrittenLines(lines[1..], rows, placed'));
      if Skipped(lines[0]) {
        assert JobsOf(lines) == JobsOf(lines[1..]);
      } else {
        assert JobsOf(lines)[0] == JobOf(lines[0]) && JobsOf(lines)[1..] == JobsOf(lines[1..]);
      }
    }
  }

  ghost predicate LastIsTotal(jobs: seq<string>) {
    jobs != [] && jobs[|jobs| - 1] == TOTAL
  }

  lemma {:induction false} DistinctConcat(a: seq<string>, b: seq<string>)
    ensures Distinct(a + b) <==> Distinct(a) && Distinct(b) && forall job | job in a :: job !in b
  {
    var all := a + b;
    if Distinct(all) {
      forall i, j | 0 <= i < j < |a| ensures a[i] != a[j] { assert all[i] != all[j]; }
      forall i, j | 0 <= i < j < |b| ensures b[i] != b[j] { assert all[|a| + i] != all[|a| + j]; }
      forall i, j | 0 <= i < |a| && 0 <= j < |b| ensures a[i] != b[j] { assert all[i] != all[|a| + j]; }
    } else {
      var i, j :| 0 <= i < j < |all| && all[i] == all[j];
      if i < |a| <= j { assert a[i] in a && b[j - |a|] in b; }
    }
  }

  /** No job is listed twice exactly where the total closes the table, and then every row is listed. */
  lemma {:induction false} RewrittenDistinctIff(jobs: seq<string>, rows: Rows, placed: set<string>)
    requires Distinct(jobs) && TOTAL in jobs && (forall job | job in jobs :: job in rows && job !in placed)
    requires placed <= rows.Keys && TOTAL !in placed
    ensures var out := RewrittenJobs(jobs, rows, placed);
      && (Distinct(out) <==> LastIsTotal(jobs))
      && (forall job | job in out :: job in rows && job !in placed)
      && forall job | job in rows && job !in placed :: job in out
  {
    var job, rest := jobs[0], jobs[1..];
    assert jobs == [job] + rest;
    FirstJob(job, rest);
    if job == TOTAL {
      TotalMet(jobs, rows, placed);
    } else {
      assert TOTAL in rest;
      RewrittenDistinctIff(rest, rows, placed + {job});
      var out := RewrittenJobs(rest, rows, placed + {job});
      assert RewrittenJobs(jobs, rows, placed) == [job] + out by { assert [] + [job] + out == [job] + out; }
      FirstJob(job, out);
      assert rest != [] && jobs[|jobs| - 1] == rest[|rest| - 1];
    }
  }

  lemma {:induction false} AfterTotal(jobs: seq<string>, rows: Rows, placed: set<string>)
    requires TOTAL !in jobs
    ensures RewrittenJobs(jobs, rows, placed) == jobs
  {
    if jobs != [] {
      assert TOTAL !in jobs[1..];
      AfterTotal(jobs[1..], rows, placed + {jobs[0]});
      assert [] + [jobs[0]] + jobs[1..] == jobs;
    }
  }

  lemma {:induction false} TotalMet(jobs: seq<string>, rows: Rows, placed: set<string>)
    requires jobs != [] && jobs[0] == TOTAL && TOTAL !in jobs[1..] && placed <= rows.Keys && TOTAL !in placed
    requires Distinct(jobs) && forall job | job in jobs :: job in rows && job !in placed
    ensures var out := RewrittenJobs(jobs, rows, placed);
      && (Distinct(out) <==> LastIsTotal(jobs))
      && (forall job | job in out :: job in rows && job !in placed)
      && forall job | job in rows && job !in placed :: job in out
  {
    var above, rest := NewRows(rows, placed), jobs[1..];
    AfterTotal(rest, rows, placed + {TOTAL});
    assert RewrittenJobs(jobs, rows, placed) == (above + [TOTAL]) + rest;
    DistinctConcat(above, [TOTAL]);
    DistinctConcat(above + [TOTAL], rest);
    assert forall job | job in rest :: job in jobs;
    if rest == [] {
      assert jobs == [TOTAL];
    } else {
      assert rest[|rest| - 1] in rest && jobs[|jobs| - 1] == rest[|rest| - 1];
      assert rest[0] in rest && rest[0] in jobs;
      assert rest[0] in above;
    }
  }

  // ----- the committed text

  /** What a text that reads as a table says of its own lines. */
  lemma {:induction false} TextJobs(lines: seq<string>, read: Rows)
    requires ReadLines(lines, read).Ok? && forall line | line in lines :: OneLine(line)
    ensures Distinct(JobsOf(lines)) && (forall job | job in JobsOf(lines) :: job !in read && NameOk(job))
    ensures forall job :: job in ReadLines(lines, read).value <==> job in read || job in JobsOf(lines)
    ensures forall line | line in lines :: Skipped(line) || JobOf(line) in JobsOf(lines)
  {
    if lines != [] {
      assert forall line | line in lines[1..] :: line in lines;
      var next := ReadLine(lines[0], read).value;
      TextJobs(lines[1..], next);
      assert lines[0] in lines;
      if Skipped(lines[0]) {
        assert JobsOf(lines) == JobsOf(lines[1..]);
      } else {
        var job, rest := JobOf(lines[0]), JobsOf(lines[1..]);
        FieldsOf(lines[0], '\t');
        assert job == Split(lines[0], '\t')[0];
        assert JobsOf(lines) == [job] + rest;
        FirstJob(job, rest);
        if job != "" { assert job[0] == lines[0][0]; }
        assert NameOk(job);
      }
    }
  }

  /**
   * What every table `--stamp` proposes keeps: the jobs of the table in hand, rows as their own keys, ceilings over
   * references, and the sum.
   */
  ghost predicate Proposable(rows: Rows, proposed: Rows) {
    && rows.Keys <= proposed.Keys
    && (forall job | job in proposed :: proposed[job].job == job && StampReadable(proposed[job]))
    && (forall job | job in proposed && job != TOTAL :: BudgetHeld(proposed[job]))
    && (forall job | job in proposed && job !in rows :: NameOk(job))
    && Totalled(proposed)
  }

  ghost function Written(text: string, proposed: Rows): string
    requires Covers(proposed, SplitLines(text))
  {
    JoinLines(RewrittenLines(SplitLines(text), proposed, {}))
  }

  lemma {:induction false} ProposalCovers(text: string, proposed: Rows)
    requires Reference(text).Ok? && Proposable(Reference(text).value, proposed)
    ensures Covers(proposed, SplitLines(text)) && Printable(proposed)
  {
    TextJobs(SplitLines(text), map[]);
  }

  /**
   * A proposal written into the text reads back as that proposal exactly where the total closes the table and the
   * total's own budget, where it carries one, stands over the new sum; otherwise every mode refuses the file.
   */
  lemma {:induction false} WrittenReadsBackIff(text: string, proposed: Rows)
    requires Reference(text).Ok? && Proposable(Reference(text).value, proposed)
    ensures Covers(proposed, SplitLines(text))
    ensures Reference(Written(text, proposed)).Ok? <==> TotalLast(text) && BudgetHeld(proposed[TOTAL])
    ensures Reference(Written(text, proposed)).Ok? ==> Reference(Written(text, proposed)) == Ok(proposed)
  {
    ProposalCovers(text, proposed);
    OutputLines(text, proposed);
    var out := RewrittenLines(SplitLines(text), proposed, {});
    LinesRoundTrip(out);
    LinesReadBackIff(out, proposed);
    assert proposed != map[] by { assert TOTAL in proposed; }
  }

  lemma {:induction false} EveryRow(rows: Rows, jobs: seq<string>)
    requires forall job :: job in jobs <==> job in rows
    ensures map[] + Only(rows, jobs) == rows
  {
  }

  lemma {:induction false} LinesReadBackIff(out: seq<string>, proposed: Rows)
    requires Printable(proposed) && Printed(out, proposed) && TOTAL in proposed
    requires forall job :: job in JobsOf(out) <==> job in proposed
    requires forall job | job in proposed && job != TOTAL :: BudgetHeld(proposed[job])
    ensures ReadLines(out, map[]).Ok? <==> Distinct(JobsOf(out)) && BudgetHeld(proposed[TOTAL])
    ensures ReadLines(out, map[]).Ok? ==> ReadLines(out, map[]) == Ok(proposed)
  {
    var jobs := JobsOf(out);
    PrintedReadIff(out, proposed, map[]);
    assert Readable(jobs, proposed, map[]) <==> Distinct(jobs) && BudgetHeld(proposed[TOTAL]) by {
      assert TOTAL in jobs;
    }
    EveryRow(proposed, jobs);
  }

  lemma {:induction false} OutputLines(text: string, proposed: Rows)
    requires Reference(text).Ok? && Proposable(Reference(text).value, proposed) && Covers(proposed, SplitLines(text))
    ensures var out := RewrittenLines(SplitLines(text), proposed, {});
      && out != [] && Printed(out, proposed) && (forall line | line in out :: OneLine(line))
      && (Distinct(JobsOf(out)) <==> TotalLast(text))
      && forall job :: job in JobsOf(out) <==> job in proposed
  {
    var lines := SplitLines(text);
    ProposalCovers(text, proposed);
    TextJobs(lines, map[]);
    RewrittenPrinted(lines, proposed, {});
    RewrittenLists(lines, proposed, {});
    RewrittenDistinctIff(JobsOf(lines), proposed, {});
  }

  // ----- a table printed row by row

  ghost predicate Listing(rows: Rows, jobs: seq<string>) {
    Distinct(jobs) && jobs != [] && forall job :: job in jobs <==> job in rows
  }

  lemma {:induction false} ListingPrinted(rows: Rows, jobs: seq<string>)
    requires Printable(rows) && Listing(rows, jobs)
    ensures Printed(TableLines(rows, jobs), rows) && forall line | line in TableLines(rows, jobs) :: OneLine(line)
  {
    forall line | line in TableLines(rows, jobs)
      ensures OneLine(line) && JobOf(line) in rows && line == TableLine(rows[JobOf(line)])
    {
      var i :| 0 <= i < |jobs| && TableLines(rows, jobs)[i] == line;
      TableLineRead(rows[jobs[i]]);
    }
  }

  /** Rows printed in any order read back, and the total closes the table where it was printed last. */
  lemma {:induction false} ListingReads(rows: Rows, jobs: seq<string>)
    requires Printable(rows) && WellFormed(rows) && Totalled(rows) && Listing(rows, jobs)
    ensures var text := JoinLines(TableLines(rows, jobs));
      Reference(text) == Ok(rows) && (TotalLast(text) <==> jobs[|jobs| - 1] == TOTAL)
  {
    var lines := TableLines(rows, jobs);
    ListingPrinted(rows, jobs);
    TableLinesJobs(rows, jobs);
    LinesRoundTrip(lines);
    LinesReadBackIff(lines, rows);
  }
}
