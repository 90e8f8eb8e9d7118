/**
 * The console format's quoting class: reading a character class into its code points, and spelling a set of code
 * points as one class. Whatever four-digit escapes can name reads back; no two sets share a spelling.
 */
module QuotingClass {
  import opened Ordering
  import opened PythonText
  import opened Results

  const HYPHEN: nat := 0x2d
  const BMP_CEILING: nat := 0xFFFF
  const HEX_WIDTHS: map<char, nat> := map['u' := 4, 'x' := 2]

  datatype Unreadable =
    EndsOnBackslash | Shorthand(marker: char) | NotHex(marker: char) | Negated | EmptyClass | Backwards

  /** `written` where an escape wrote it: a range's hyphen is a bare one. */
  datatype Atom = Atom(point: nat, written: bool)

  const DASH := Atom(HYPHEN, false)

  // ----- hexadecimal

  predicate IsHex(c: char) { '0' <= c <= '9' || 'a' <= c <= 'f' || 'A' <= c <= 'F' }

  function HexValue(c: char): nat
    requires IsHex(c)
  {
    if c <= '9' then (c - '0') as nat else if c <= 'F' then (c - 'A') as nat + 10 else (c - 'a') as nat + 10
  }

  function HexDigit(d: nat): (c: char)
    requires d < 16
    ensures IsHex(c) && HexValue(c) == d && c != '}' && c != '{'
  {
    if d < 10 then '0' + d as char else 'a' + (d - 10) as char
  }

  predicate AllHex(s: string) { forall i | 0 <= i < |s| :: IsHex(s[i]) }

  /** `int(s, 16)`. */
  function FromHex(s: string): nat
    requires AllHex(s)
  {
    if s == "" then 0 else 16 * FromHex(s[..|s| - 1]) + HexValue(s[|s| - 1])
  }

  /** `f"{n:x}"`. */
  function Hex(n: nat): (s: string)
    ensures AllHex(s) && s != ""
  {
    if n < 16 then [HexDigit(n)] else Hex(n / 16) + [HexDigit(n % 16)]
  }

  /** `f"{n:04x}"`. */
  function Hex4(n: nat): (s: string)
    requires n <= BMP_CEILING
    ensures |s| == 4 && AllHex(s)
  {
    var tens := n / 16;
    var hundreds := tens / 16;
    [HexDigit(hundreds / 16), HexDigit(hundreds % 16), HexDigit(tens % 16), HexDigit(n % 16)]
  }

  lemma {:induction false} HexRoundTrip(n: nat)
    ensures FromHex(Hex(n)) == n
  {
    var s := Hex(n);
    if n < 16 {
      assert s[..0] == "" && FromHex(s[..0]) == 0;
    } else {
      assert s[..|s| - 1] == Hex(n / 16);
      HexRoundTrip(n / 16);
    }
  }

  lemma {:induction false} FromHex4(s: string)
    requires |s| == 4 && AllHex(s)
    ensures FromHex(s) == 16 * (16 * (16 * HexValue(s[0]) + HexValue(s[1])) + HexValue(s[2])) + HexValue(s[3])
  {
    assert s[..3][..2] == s[..2] && s[..2][..1] == s[..1] && s[..1][..0] == "";
    assert FromHex(s[..1]) == HexValue(s[0]);
    assert FromHex(s[..2]) == 16 * HexValue(s[0]) + HexValue(s[1]);
  }

  lemma {:induction false} Hex4RoundTrip(n: nat)
    requires n <= BMP_CEILING
    ensures FromHex(Hex4(n)) == n
  {
    FromHex4(Hex4(n));
  }

  // ----- reading

  function Prefixed(found: seq<Atom>, rest: Result<seq<Atom>, Unreadable>): Result<seq<Atom>, Unreadable> {
    if rest.Ok? then Ok(found + rest.value) else rest
  }

  lemma {:induction false} PrefixedTwice(a: seq<Atom>, b: seq<Atom>, rest: Result<seq<Atom>, Unreadable>)
    ensures Prefixed(a, Prefixed(b, rest)) == Prefixed(a + b, rest)
    ensures Prefixed([], rest) == rest
  {
    if rest.Ok? {
      assert a + (b + rest.value) == a + b + rest.value;
      assert [] + rest.value == rest.value;
    }
  }

  /** The atom a body opens with, and how many characters write it. */
  function FirstAtom(alnum: char -> bool, body: string): (first: Result<(Atom, nat), Unreadable>)
    requires body != ""
    ensures first.Ok? ==> 1 <= first.value.1 <= |body|
  {
    if body[0] != '\\' then Ok((Atom(body[0] as nat, false), 1))
    else if |body| == 1 then Err(EndsOnBackslash)
    else
      var marker := body[1];
      if marker !in HEX_WIDTHS then if alnum(marker) then Err(Shorthand(marker)) else Ok((Atom(marker as nat, true), 2))
      else
        var width := HEX_WIDTHS[marker];
        if 2 + width <= |body| && AllHex(body[2..2 + width]) then
          Ok((Atom(FromHex(body[2..2 + width]), true), 2 + width))
        else Err(NotHex(marker))
  }

  function Atoms(alnum: char -> bool, body: string): Result<seq<Atom>, Unreadable> {
    if body == "" then Ok([])
    else
      var first := FirstAtom(alnum, body);
      if first.Err? then Err(first.error) else Prefixed([first.value.0], Atoms(alnum, body[first.value.1..]))
  }

  /** The atom standing at `index`, and how many characters write it. */
  method ReadAtom(alnum: char -> bool, body: string, index: nat) returns (first: Result<(Atom, nat), Unreadable>)
    requires index < |body|
    ensures first == FirstAtom(alnum, body[index..])
  {
    ghost var was := body[index..];
    var c := body[index];
    if c != '\\' { return Ok((Atom(c as nat, false), 1)); }
    if index + 1 == |body| { return Err(EndsOnBackslash); }
    var marker := body[index + 1];
    if marker !in HEX_WIDTHS {
      return if alnum(marker) then Err(Shorthand(marker)) else Ok((Atom(marker as nat, true), 2));
    }
    var width := HEX_WIDTHS[marker];
    var ends := if index + 2 + width <= |body| then index + 2 + width else |body|;
    var digits := body[index + 2..ends];
    assert |digits| == width ==> digits == was[2..2 + width];
    if |digits| != width || !AllHex(digits) { return Err(NotHex(marker)); }
    first := Ok((Atom(FromHex(digits), true), 2 + width));
  }

  ghost predicate ReadTo(alnum: char -> bool, body: string, atoms: seq<Atom>, index: nat) {
    index <= |body| && Atoms(alnum, body) == Prefixed(atoms, Atoms(alnum, body[index..]))
  }

  lemma {:induction false} ReadOn(alnum: char -> bool, body: string, atoms: seq<Atom>, index: nat)
    requires ReadTo(alnum, body, atoms, index) && index < |body|
    ensures match FirstAtom(alnum, body[index..])
      case Err(e) => Atoms(alnum, body) == Err(e)
      case Ok((atom, width)) => ReadTo(alnum, body, atoms + [atom], index + width)
  {
    var first := FirstAtom(alnum, body[index..]);
    if first.Ok? {
      var (atom, width) := first.value;
      assert body[index..][width..] == body[index + width..];
      PrefixedTwice(atoms, [atom], Atoms(alnum, body[index + width..]));
    }
  }

  lemma {:induction false} ReadEnds(alnum: char -> bool, body: string, atoms: seq<Atom>)
    ensures ReadTo(alnum, body, [], 0)
    ensures ReadTo(alnum, body, atoms, |body|) ==> Atoms(alnum, body) == Ok(atoms)
  {
    PrefixedTwice([], [], Atoms(alnum, body));
    assert body[0..] == body && body[|body|..] == "" && atoms + [] == atoms;
  }

  method ReadAtoms(alnum: char -> bool, body: string) returns (found: Result<seq<Atom>, Unreadable>)
    ensures found == Atoms(alnum, body)
  {
    var atoms: seq<Atom>, index := [], 0;
    ReadEnds(alnum, body, atoms);
    while index < |body|
      invariant ReadTo(alnum, body, atoms, index)
    {
      var first := ReadAtom(alnum, body, index);
      ReadOn(alnum, body, atoms, index);
      if first.Err? { return Err(first.error); }
      atoms, index := atoms + [first.value.0], index + first.value.1;
    }
    ReadEnds(alnum, body, atoms);
    found := Ok(atoms);
  }

  function United(points: set<nat>, rest: Result<set<nat>, Unreadable>): Result<set<nat>, Unreadable> {
    if rest.Ok? then Ok(points + rest.value) else rest
  }

  lemma {:induction false} UnitedTwice(a: set<nat>, b: set<nat>, rest: Result<set<nat>, Unreadable>)
    ensures United(a, United(b, rest)) == United(a + b, rest)
    ensures United({}, rest) == rest
  {
    if rest.Ok? {
      assert a + (b + rest.value) == a + b + rest.value;
      assert {} + rest.value == rest.value;
    }
  }

  /** `range(lo, hi + 1)`. */
  function Span(lo: nat, hi: nat): (points: set<nat>)
    ensures forall p: nat :: p in points <==> lo <= p <= hi
    decreases hi - lo
  {
    if lo > hi then {} else {lo} + Span(lo + 1, hi)
  }

  function Expanded(read: seq<Atom>): Result<set<nat>, Unreadable> {
    if read == [] then Ok({})
    else if 2 < |read| && read[1] == DASH then
      if read[2].point < read[0].point then
        Err(Backwards)
      else United(Span(read[0].point, read[2].point), Expanded(read[3..]))
    else United({read[0].point}, Expanded(read[1..]))
  }

  function ClassOf(alnum: char -> bool, body: string): Result<set<nat>, Unreadable> {
    if body != "" && body[0] == '^' then Err(Negated)
    else
      var read := Atoms(alnum, body);
      if read.Err? then Err(read.error) else if read.value == [] then Err(EmptyClass) else Expanded(read.value)
  }

  method CodePoints(alnum: char -> bool, body: string) returns (points: Result<set<nat>, Unreadable>)
    ensures points == ClassOf(alnum, body)
  {
    if body != "" && body[0] == '^' { return Err(Negated); }
    var atoms := ReadAtoms(alnum, body);
    if atoms.Err? { return Err(atoms.error); }
    var read := atoms.value;
    if read == [] { return Err(EmptyClass); }
    var found: set<nat>, index := {}, 0;
    UnitedTwice({}, {}, Expanded(read));
    assert read[0..] == read;
    while index < |read|
      invariant index <= |read| && Expanded(read) == United(found, Expanded(read[index..]))
    {
      ghost var was := read[index..];
      var start := read[index].point;
      if index + 2 < |read| && read[index + 1] == DASH {
        var end := read[index + 2].point;
        if end < start { return Err(Backwards); }
        UnitedTwice(found, Span(start, end), Expanded(was[3..]));
        found, index := found + Span(start, end), index + 3;
        assert read[index..] == was[3..];
        continue;
      }
      UnitedTwice(found, {start}, Expanded(was[1..]));
      found, index := found + {start}, index + 1;
      assert read[index..] == was[1..];
    }
    assert read[index..] == [] && found + {} == found;
    points := Ok(found);
  }

  // ----- spelling

  function Escaped(point: nat): string {
    if point <= BMP_CEILING then "\\u" + Hex4(point) else "\\u{" + Hex(point) + "}"
  }

  datatype Run = Run(lo: nat, hi: nat)

  /** The runs of an ascending list, each point joining the last run where it follows on. */
  function Runs(points: seq<nat>): (runs: seq<Run>)
    ensures points != [] ==> runs != [] && runs[|runs| - 1].hi == points[|points| - 1]
    ensures points == [] ==> runs == []
  {
    if points == [] then []
    else
      var n := |points| - 1;
      var before := Runs(points[..n]);
      if before != [] && points[n] == before[|before| - 1].hi + 1 then
        before[..|before| - 1] + [Run(before[|before| - 1].lo, points[n])]
      else before + [Run(points[n], points[n])]
  }

  function RunText(run: Run): string {
    if run.lo == run.hi then Escaped(run.lo) else Escaped(run.lo) + "-" + Escaped(run.hi)
  }

  function Text(runs: seq<Run>): (s: string)
    ensures runs != [] ==> s != "" && s[0] == '\\'
  {
    if runs == [] then "" else RunText(runs[0]) + Text(runs[1..])
  }

  predicate Leq(a: nat, b: nat) { a <= b }

  ghost function RunsOf(points: set<nat>): seq<Run> {
    Runs(SortedMembers(Leq, points))
  }

  ghost function Spelled(points: set<nat>): string {
    "[" + Text(RunsOf(points)) + "]"
  }

  lemma {:induction false} TextAppended(runs: seq<Run>, last: Run)
    ensures Text(runs + [last]) == Text(runs) + RunText(last)
  {
    if runs == [] {
      assert runs + [last] == [last] && [last][1..] == [];
      assert Text([last]) == RunText(last) + "";
    } else {
      assert (runs + [last])[1..] == runs[1..] + [last];
      TextAppended(runs[1..], last);
    }
  }

  method CollectRuns(sorted: seq<nat>) returns (runs: seq<Run>)
    ensures runs == Runs(sorted)
  {
    runs := [];
    for i := 0 to |sorted|
      invariant runs == Runs(sorted[..i])
    {
      var point, n := sorted[i], |runs|;
      assert sorted[..i + 1][..i] == sorted[..i];
      if runs != [] && point == runs[n - 1].hi + 1 {
        runs := runs[..n - 1] + [Run(runs[n - 1].lo, point)];
      } else {
        runs := runs + [Run(point, point)];
      }
    }
    assert sorted[..|sorted|] == sorted;
  }

  lemma {:induction false} TextUpTo(runs: seq<Run>, i: nat)
    requires i < |runs|
    ensures Text(runs[..i + 1]) == Text(runs[..i]) + RunText(runs[i])
  {
    assert runs[..i] + [runs[i]] == runs[..i + 1];
    TextAppended(runs[..i], runs[i]);
  }

  method JoinRuns(runs: seq<Run>) returns (body: string)
    ensures body == Text(runs)
  {
    body := "";
    for i := 0 to |runs|
      invariant body == Text(runs[..i])
    {
      TextUpTo(runs, i);
      body := body + RunText(runs[i]);
    }
    assert runs[..|runs|] == runs;
  }

  method Spell(points: set<nat>) returns (text: string)
    ensures text == Spelled(points)
  {
    var sorted := SortMembers(Leq, points);
    var runs := CollectRuns(sorted);
    var body := JoinRuns(runs);
    text := "[" + body + "]";
  }

  // ----- the runs are the set's maximal ones

  function Covered(runs: seq<Run>): set<nat> {
    if runs == [] then {} else Span(runs[0].lo, runs[0].hi) + Covered(runs[1..])
  }

  /** Ascending, apart, and with a gap between each two: no run could be longer. */
  ghost predicate Maximal(runs: seq<Run>) {
    && (forall i | 0 <= i < |runs| :: runs[i].lo <= runs[i].hi)
    && (forall i, j | 0 <= i < j < |runs| :: runs[i].hi + 1 < runs[j].lo)
  }

  lemma {:induction false} CoveredIff(runs: seq<Run>, p: nat)
    ensures p in Covered(runs) <==> exists i | 0 <= i < |runs| :: runs[i].lo <= p <= runs[i].hi
  {
    if runs != [] {
      CoveredIff(runs[1..], p);
      if i :| 0 <= i < |runs| && runs[i].lo <= p <= runs[i].hi {
        if i > 0 { assert runs[1..][i - 1] == runs[i]; }
      }
    }
  }

  ghost predicate Ascending(points: seq<nat>) {
    forall i, j | 0 <= i < j < |points| :: points[i] < points[j]
  }

  lemma {:induction false} RunsCover(points: seq<nat>)
    requires Ascending(points)
    ensures Maximal(Runs(points))
    ensures forall p: nat :: p in Covered(Runs(points)) <==> p in points
  {
    if points != [] {
      var n := |points| - 1;
      var before, last := points[..n], points[n];
      assert Ascending(before) && (n > 0 ==> before[n - 1] < last);
      RunsCover(before);
      RunsLonger(before, last);
      assert before + [last] == points;
    }
  }

  lemma {:induction false} RunsLonger(points: seq<nat>, last: nat)
    requires Maximal(Runs(points)) && forall p: nat :: p in Covered(Runs(points)) <==> p in points
    requires points != [] ==> points[|points| - 1] < last
    ensures Maximal(Runs(points + [last]))
    ensures forall p: nat :: p in Covered(Runs(points + [last])) <==> p in points + [last]
  {
    assert (points + [last])[..|points|] == points;
    LongerMaximal(Runs(points), Runs(points + [last]), last);
    forall p: nat
      ensures p in Covered(Runs(points + [last])) <==> p in points + [last]
    {
      CoversOneMore(Runs(points), Runs(points + [last]), last, p);
    }
  }

  lemma {:induction false} CoversOneMore(before: seq<Run>, runs: seq<Run>, last: nat, p: nat)
    requires forall i | 0 <= i < |before| :: before[i].lo <= before[i].hi
    requires runs == before + [Run(last, last)]
      || (before != [] && last == before[|before| - 1].hi + 1
        && runs == before[..|before| - 1] + [Run(before[|before| - 1].lo, last)])
    ensures p in Covered(runs) <==> p in Covered(before) || p == last
  {
    CoveredIff(before, p);
    CoveredIff(runs, p);
    RunsGrow(before, runs, last, p);
  }

  lemma {:induction false} LongerMaximal(before: seq<Run>, runs: seq<Run>, last: nat)
    requires Maximal(before) && (before != [] ==> before[|before| - 1].hi < last)
    requires if before != [] && last == before[|before| - 1].hi + 1 then
      runs == before[..|before| - 1] + [Run(before[|before| - 1].lo, last)]
      else runs == before + [Run(last, last)]
    ensures Maximal(runs)
  {
    forall i, j | 0 <= i < j < |runs| ensures runs[i].hi + 1 < runs[j].lo {
      if j == |before| && i < |before| - 1 { assert before[i].hi + 1 < before[|before| - 1].lo; }
    }
  }

  lemma {:induction false} RunsGrow(before: seq<Run>, runs: seq<Run>, last: nat, p: nat)
    requires forall i | 0 <= i < |before| :: before[i].lo <= before[i].hi
    requires runs == before + [Run(last, last)]
      || (before != [] && last == before[|before| - 1].hi + 1
        && runs == before[..|before| - 1] + [Run(before[|before| - 1].lo, last)])
    ensures (exists i | 0 <= i < |runs| :: runs[i].lo <= p <= runs[i].hi) <==>
      p == last || exists i | 0 <= i < |before| :: before[i].lo <= p <= before[i].hi
  {
    if i :| 0 <= i < |before| && before[i].lo <= p <= before[i].hi { assert runs[i].lo <= p <= runs[i].hi; }
    if p == last { assert runs[|runs| - 1].lo <= p <= runs[|runs| - 1].hi; }
  }

  /** A set has one list of maximal runs, and it is the one spelled. */
  lemma {:induction false} MaximalUnique(a: seq<Run>, b: seq<Run>)
    requires Maximal(a) && Maximal(b) && Covered(a) == Covered(b)
    ensures a == b
  {
    if a != [] && b != [] {
      FirstRun(a, b);
      FirstRun(b, a);
      assert a[0] == b[0];
      forall p: nat ensures p in Covered(a[1..]) <==> p in Covered(b[1..]) {
        RestCovers(a, p);
        RestCovers(b, p);
      }
      assert Covered(a[1..]) == Covered(b[1..]);
      MaximalUnique(a[1..], b[1..]);
      assert a == [a[0]] + a[1..] && b == [b[0]] + b[1..];
    }
  }

  lemma {:induction false} RestCovers(a: seq<Run>, p: nat)
    requires Maximal(a) && a != []
    ensures p in Covered(a[1..]) <==> p in Covered(a) && p > a[0].hi
  {
    CoveredIff(a[1..], p);
    if i :| 0 <= i < |a[1..]| && a[1..][i].lo <= p <= a[1..][i].hi {
      assert a[1..][i] == a[i + 1] && a[0].hi + 1 < a[i + 1].lo;
    }
  }

  lemma {:induction false} FirstRun(a: seq<Run>, b: seq<Run>)
    requires Maximal(a) && Maximal(b) && Covered(a) == Covered(b) && a != [] && b != []
    ensures b[0].lo <= a[0].lo && (a[0].lo == b[0].lo ==> b[0].hi <= a[0].hi)
  {
    CoveredIff(b, a[0].lo);
    var i :| 0 <= i < |b| && b[i].lo <= a[0].lo <= b[i].hi;
    assert i > 0 ==> b[0].hi + 1 < b[i].lo;
    var next := a[0].hi + 1;
    CoveredIff(a, next);
    forall k | 0 <= k < |a| ensures !(a[k].lo <= next <= a[k].hi) { assert k > 0 ==> next < a[k].lo; }
    assert b[0].lo <= next <= b[0].hi ==> next in Covered(b);
  }

  lemma {:induction false} RunsOfCover(points: set<nat>)
    ensures Maximal(RunsOf(points)) && Covered(RunsOf(points)) == points
  {
    var sorted := SortedMembers(Leq, points);
    forall i, j | 0 <= i < j < |sorted| ensures sorted[i] < sorted[j] { assert Leq(sorted[i], sorted[j]); }
    RunsCover(sorted);
  }

  // ----- reading a spelling back

  function RunAtoms(run: Run): seq<Atom> {
    if run.lo == run.hi then [Atom(run.lo, true)] else [Atom(run.lo, true), DASH, Atom(run.hi, true)]
  }

  function AtomsOfRuns(runs: seq<Run>): seq<Atom> {
    if runs == [] then [] else RunAtoms(runs[0]) + AtomsOfRuns(runs[1..])
  }

  lemma {:induction false} ReadEscaped(alnum: char -> bool, point: nat, rest: string)
    ensures Atoms(alnum, Escaped(point) + rest)
      == if point <= BMP_CEILING then Prefixed([Atom(point, true)], Atoms(alnum, rest)) else Err(NotHex('u'))
  {
    var body := Escaped(point) + rest;
    assert body[0] == '\\' && body[1] == 'u';
    if point <= BMP_CEILING {
      assert body[2..6] == Hex4(point) && body[6..] == rest;
      Hex4RoundTrip(point);
    } else {
      assert body[2] == '{';
      if |body| >= 6 { assert body[2..6][0] == '{'; }
    }
  }

  lemma {:induction false} ReadRun(alnum: char -> bool, run: Run, rest: string)
    requires run.lo <= run.hi
    ensures Atoms(alnum, RunText(run) + rest)
      == if run.hi <= BMP_CEILING then Prefixed(RunAtoms(run), Atoms(alnum, rest)) else Err(NotHex('u'))
  {
    if run.lo == run.hi {
      ReadEscaped(alnum, run.lo, rest);
    } else {
      var high := Escaped(run.hi) + rest;
      assert RunText(run) + rest == Escaped(run.lo) + ("-" + high);
      ReadEscaped(alnum, run.lo, "-" + high);
      ReadEscaped(alnum, run.hi, rest);
      PrefixedTwice([DASH], [Atom(run.hi, true)], Atoms(alnum, rest));
      PrefixedTwice([Atom(run.lo, true)], [DASH] + [Atom(run.hi, true)], Atoms(alnum, rest));
      assert [Atom(run.lo, true)] + ([DASH] + [Atom(run.hi, true)]) == [Atom(run.lo, true), DASH, Atom(run.hi, true)];
    }
  }

  lemma {:induction false} ReadRuns(alnum: char -> bool, runs: seq<Run>)
    requires forall i | 0 <= i < |runs| :: runs[i].lo <= runs[i].hi
    ensures Atoms(alnum, Text(runs))
      == if forall i | 0 <= i < |runs| :: runs[i].hi <= BMP_CEILING then Ok(AtomsOfRuns(runs)) else Err(NotHex('u'))
  {
    if runs != [] {
      ReadRun(alnum, runs[0], Text(runs[1..]));
      ReadRuns(alnum, runs[1..]);
      assert forall i | 1 <= i < |runs| :: runs[i] == runs[1..][i - 1];
    }
  }

  lemma {:induction false} ExpandRuns(runs: seq<Run>)
    requires forall i | 0 <= i < |runs| :: runs[i].lo <= runs[i].hi
    ensures Expanded(AtomsOfRuns(runs)) == Ok(Covered(runs))
  {
    if runs != [] {
      ExpandRuns(runs[1..]);
      var read, rest, run := AtomsOfRuns(runs), AtomsOfRuns(runs[1..]), runs[0];
      if run.lo == run.hi {
        assert read[1..] == rest;
        assert rest != [] ==> rest[0] == Atom(runs[1].lo, true);
        assert Span(run.lo, run.hi) == {run.lo};
      } else {
        assert read[3..] == rest;
      }
    }
  }

  function BodyOf(class_: string): string
    requires |class_| >= 2
  {
    class_[1..|class_| - 1]
  }

  /** A spelling reads back as its set, but for the empty class and a point above what four digits name. */
  lemma {:induction false} SpellingReadsBackIff(alnum: char -> bool, points: set<nat>)
    ensures ClassOf(alnum, BodyOf(Spelled(points)))
      == if points == {} then Err(EmptyClass)
         else if forall p | p in points :: p <= BMP_CEILING then Ok(points)
         else Err(NotHex('u'))
  {
    var runs := RunsOf(points);
    RunsOfCover(points);
    assert BodyOf(Spelled(points)) == Text(runs);
    ReadRuns(alnum, runs);
    ExpandRuns(runs);
    HighsIn(runs);
    assert runs != [] ==> AtomsOfRuns(runs) != [];
  }

  /** The first character past U+FFFF alone: its spelling is refused. */
  lemma {:induction false} PastFourDigitsRefused(alnum: char -> bool)
    ensures ClassOf(alnum, BodyOf(Spelled({0x10000}))) == Err(NotHex('u'))
  {
    SpellingReadsBackIff(alnum, {0x10000});
    assert 0x10000 in {0x10000};
  }

  lemma {:induction false} HighsIn(runs: seq<Run>)
    requires forall i | 0 <= i < |runs| :: runs[i].lo <= runs[i].hi
    ensures (forall p | p in Covered(runs) :: p <= BMP_CEILING) <==>
      forall i | 0 <= i < |runs| :: runs[i].hi <= BMP_CEILING
  {
    forall i | 0 <= i < |runs| ensures runs[i].hi in Covered(runs) { CoveredIff(runs, runs[i].hi); }
    forall p | p in Covered(runs)
      ensures exists i | 0 <= i < |runs| :: runs[i].lo <= p <= runs[i].hi
    {
      CoveredIff(runs, p);
    }
  }

  // ----- no two sets share a spelling

  lemma {:induction false} EscapedKind(p: nat, s: string)
    ensures (Escaped(p) + s)[2] == '{' <==> p > BMP_CEILING
  {
    if p <= BMP_CEILING { assert (Escaped(p) + s)[2] == Hex4(p)[0]; }
  }

  lemma {:induction false} SameAfter(a: string, s: string, t: string)
    requires a + s == a + t
    ensures s == t
  {
    assert s == (a + s)[|a|..] && t == (a + t)[|a|..];
  }

  lemma {:induction false} ShortParts(p: nat, q: nat, s: string, t: string)
    requires p <= BMP_CEILING && q <= BMP_CEILING && Escaped(p) + s == Escaped(q) + t
    ensures p == q
  {
    assert Hex4(p) == (Escaped(p) + s)[2..6] == (Escaped(q) + t)[2..6] == Hex4(q);
    Hex4RoundTrip(p);
    Hex4RoundTrip(q);
  }

  lemma {:induction false} LongRest(p: nat, s: string)
    requires p > BMP_CEILING
    ensures (Escaped(p) + s)[3..] == Hex(p) + "}" + s
  {
    assert Escaped(p) + s == "\\u{" + (Hex(p) + "}" + s);
  }

  lemma {:induction false} LongParts(p: nat, q: nat, s: string, t: string)
    requires p > BMP_CEILING && q > BMP_CEILING && Escaped(p) + s == Escaped(q) + t
    ensures p == q
  {
    LongRest(p, s);
    LongRest(q, t);
    BracedParts(Hex(p), Hex(q), s, t);
    HexRoundTrip(p);
    HexRoundTrip(q);
  }

  lemma {:induction false} EscapedParts(p: nat, q: nat, s: string, t: string)
    requires Escaped(p) + s == Escaped(q) + t
    ensures p == q && s == t
  {
    EscapedKind(p, s);
    EscapedKind(q, t);
    if p <= BMP_CEILING { ShortParts(p, q, s, t); } else { LongParts(p, q, s, t); }
    SameAfter(Escaped(p), s, t);
  }

  lemma {:induction false} BracedParts(a: string, b: string, s: string, t: string)
    requires AllHex(a) && AllHex(b) && a + "}" + s == b + "}" + t
    ensures a == b
  {
    var left, right := a + "}" + s, b + "}" + t;
    FindUnique(left, '}', |a|);
    FindUnique(right, '}', |b|);
    assert a == left[..|a|] && b == right[..|b|];
  }

  lemma {:induction false} TextInjective(a: seq<Run>, b: seq<Run>)
    requires Text(a) == Text(b)
    ensures a == b
  {
    if a != [] && b != [] {
      FirstAlike(a, b);
      TextInjective(a[1..], b[1..]);
      assert a == [a[0]] + a[1..] && b == [b[0]] + b[1..];
    }
  }

  /** What follows a first run's lower end: a hyphen just where the run has two. */
  function AfterLow(run: Run, rest: string): string {
    if run.lo == run.hi then rest else "-" + (Escaped(run.hi) + rest)
  }

  lemma {:induction false} FirstAlike(a: seq<Run>, b: seq<Run>)
    requires a != [] && b != [] && Text(a) == Text(b)
    ensures a[0] == b[0] && Text(a[1..]) == Text(b[1..])
  {
    TextParts(a);
    TextParts(b);
    EscapedParts(a[0].lo, b[0].lo, AfterLow(a[0], Text(a[1..])), AfterLow(b[0], Text(b[1..])));
    AfterLowParts(a[0], b[0], Text(a[1..]), Text(b[1..]));
  }

  lemma {:induction false} TextParts(runs: seq<Run>)
    requires runs != []
    ensures Text(runs) == Escaped(runs[0].lo) + AfterLow(runs[0], Text(runs[1..]))
    ensures Text(runs[1..]) != "" ==> Text(runs[1..])[0] == '\\'
  {
    var rest := Text(runs[1..]);
    assert Escaped(runs[0].lo) + "-" + Escaped(runs[0].hi) + rest
      == Escaped(runs[0].lo) + ("-" + (Escaped(runs[0].hi) + rest));
  }

  lemma {:induction false} AfterLowParts(r: Run, q: Run, s: string, t: string)
    requires AfterLow(r, s) == AfterLow(q, t) && r.lo == q.lo && (s != "" ==> s[0] == '\\')
    requires (t != "" ==> t[0] == '\\')
    ensures r == q && s == t
  {
    if r.lo != r.hi && q.lo != q.hi {
      assert AfterLow(r, s)[1..] == Escaped(r.hi) + s && AfterLow(q, t)[1..] == Escaped(q.hi) + t;
      EscapedParts(r.hi, q.hi, s, t);
    }
  }

  lemma {:induction false} SpelledAlikeIff(a: set<nat>, b: set<nat>)
    ensures Spelled(a) == Spelled(b) <==> a == b
  {
    if Spelled(a) == Spelled(b) {
      RunsOfCover(a);
      RunsOfCover(b);
      assert Text(RunsOf(a)) == BodyOf(Spelled(a)) == BodyOf(Spelled(b)) == Text(RunsOf(b));
      TextInjective(RunsOf(a), RunsOf(b));
    }
  }
}
