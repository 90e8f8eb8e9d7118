/** The string methods of Python the checkers are written in, and whole numbers in decimal. */
module PythonText {
  import opened Results

  /** `str.isspace`: ASCII's and the separators Unicode adds; `str.strip` takes the same set. */
  predicate IsSpace(c: char) {
    var p := c as int;
    9 <= p <= 13 || 28 <= p <= 32 || p == 0x85 || p == 0xA0 || p == 0x1680 || 0x2000 <= p <= 0x200A
    || p == 0x2028 || p == 0x2029 || p == 0x202F || p == 0x205F || p == 0x3000
  }

  predicate IsLineBreak(c: char) {
    var p := c as int;
    10 <= p <= 13 || 28 <= p <= 30 || p == 0x85 || p == 0x2028 || p == 0x2029
  }

  predicate OneLine(s: string) {
    forall i | 0 <= i < |s| :: !IsLineBreak(s[i])
  }

  predicate AllSpace(s: string) {
    forall i | 0 <= i < |s| :: IsSpace(s[i])
  }

  function BreakAt(s: string): (k: nat)
    ensures k <= |s| && (forall i | 0 <= i < k :: !IsLineBreak(s[i])) && (k < |s| ==> IsLineBreak(s[k]))
  {
    if s == [] || IsLineBreak(s[0]) then 0
    else
      assert forall i | 0 < i < |s| :: s[i] == s[1..][i - 1];
      1 + BreakAt(s[1..])
  }

  /** `str.splitlines`: a carriage return and the line feed after it part lines once. */
  function SplitLines(text: string): (lines: seq<string>)
    ensures forall line | line in lines :: OneLine(line)
    decreases |text|
  {
    if text == "" then []
    else
      var k := BreakAt(text);
      var next :=
        if k == |text| then k
        else if text[k] == '\r' && k + 1 < |text| && text[k + 1] == '\n' then k + 2
        else k + 1;
      [text[..k]] + SplitLines(text[next..])
  }

  /** `"\n".join(lines) + "\n"`. */
  function JoinLines(lines: seq<string>): string {
    if lines == [] then "\n" else if |lines| == 1 then lines[0] + "\n" else lines[0] + "\n" + JoinLines(lines[1..])
  }

  lemma {:induction false} BreakAtUnique(s: string, k: nat)
    requires k < |s| && (forall i | 0 <= i < k :: !IsLineBreak(s[i])) && IsLineBreak(s[k])
    ensures BreakAt(s) == k
  {
  }

  lemma {:induction false} LinesRoundTrip(lines: seq<string>)
    requires lines != [] && forall line | line in lines :: OneLine(line)
    ensures SplitLines(JoinLines(lines)) == lines
  {
    var rest := if |lines| == 1 then "" else JoinLines(lines[1..]);
    assert lines[0] in lines && lines == [lines[0]] + lines[1..];
    LinesPart(lines[0], "\n", rest);
    if |lines| > 1 {
      assert forall line | line in lines[1..] :: line in lines;
      LinesRoundTrip(lines[1..]);
    }
  }

  const SEPARATORS: seq<int> := [10, 11, 12, 13, 28, 29, 30, 0x85, 0x2028, 0x2029]

  const SPACES: seq<int> := SEPARATORS + [9, 31, 32, 0xA0, 0x1680, 0x2000, 0x2001, 0x2002, 0x2003, 0x2004, 0x2005,
    0x2006, 0x2007, 0x2008, 0x2009, 0x200A, 0x202F, 0x205F, 0x3000]

  /** The characters themselves. */
  lemma {:induction false} BreaksAndSpaces(c: char)
    ensures IsLineBreak(c) <==> c as int in SEPARATORS
    ensures IsSpace(c) <==> c as int in SPACES
  {
  }

  /** A carriage return and the line feed after it, or a separator alone that is no such carriage return. */
  ghost predicate Parts(separator: string, rest: string) {
    || separator == "\r\n"
    || (|separator| == 1 && separator[0] as int in SEPARATORS
        && !(separator == "\r" && rest != "" && rest[0] == '\n'))
  }

  lemma {:induction false} LinesPart(line: string, separator: string, rest: string)
    requires OneLine(line) && Parts(separator, rest)
    ensures SplitLines(line + separator + rest) == [line] + SplitLines(rest)
  {
    var text, k := line + separator + rest, |line|;
    assert text[k] == separator[0] && text[k + |separator|..] == rest && text[..k] == line;
    BreaksAndSpaces(separator[0]);
    forall i | 0 <= i < k ensures !IsLineBreak(text[i]) { assert text[i] == line[i]; }
    BreakAtUnique(text, k);
    assert |separator| == 1 && k + 1 < |text| ==> text[k + 1] == rest[0];
  }

  /** What follows the last separator is a line of its own, unless it is nothing. */
  lemma {:induction false} LastLine(line: string)
    requires OneLine(line)
    ensures SplitLines(line) == if line == "" then [] else [line]
  {
    if line != "" { assert line[|line|..] == "" && line[..|line|] == line; }
  }

  // ----- fields

  function Find(s: string, c: char): (k: nat)
    ensures k <= |s| && (forall i | 0 <= i < k :: s[i] != c) && (k < |s| ==> s[k] == c)
  {
    if s == [] || s[0] == c then 0
    else
      assert forall i | 0 < i < |s| :: s[i] == s[1..][i - 1];
      1 + Find(s[1..], c)
  }

  /** `s.split(c)`. */
  function Split(s: string, c: char): (fields: seq<string>)
    ensures fields != []
    decreases |s|
  {
    var k := Find(s, c);
    if k == |s| then [s] else [s[..k]] + Split(s[k + 1..], c)
  }

  /** `c.join(fields)`. */
  function Join(fields: seq<string>, c: char): string
    requires fields != []
  {
    if |fields| == 1 then fields[0] else fields[0] + [c] + Join(fields[1..], c)
  }

  lemma {:induction false} FieldsRoundTrip(fields: seq<string>, c: char)
    requires fields != [] && forall field | field in fields :: c !in field
    ensures Split(Join(fields, c), c) == fields
  {
    var s := Join(fields, c);
    if |fields| == 1 {
      assert s == fields[0] && fields == [s];
      assert c !in s;
    } else {
      var n, rest := |fields[0]|, Join(fields[1..], c);
      assert s == fields[0] + [c] + rest;
      assert s[..n] == fields[0] && s[n + 1..] == rest;
      forall i | 0 <= i < n ensures s[i] != c { assert s[i] == fields[0][i] && fields[0][i] in fields[0]; }
      FindUnique(s, c, n);
      FieldsRoundTrip(fields[1..], c);
    }
  }

  lemma {:induction false} FindUnique(s: string, c: char, k: nat)
    requires k < |s| && (forall i | 0 <= i < k :: s[i] != c) && s[k] == c
    ensures Find(s, c) == k
  {
  }

  lemma {:induction false} FieldsOf(s: string, c: char)
    ensures forall i | 0 <= i < |Split(s, c)| :: c !in Split(s, c)[i] && forall x | x in Split(s, c)[i] :: x in s
    ensures Split(s, c)[0] == s[..Find(s, c)]
    decreases |s|
  {
    var k := Find(s, c);
    if k < |s| { FieldsOf(s[k + 1..], c); }
  }

  // ----- decimals

  predicate IsDigit(c: char) { '0' <= c <= '9' }

  function Digit(d: nat): (c: char)
    requires d < 10
    ensures IsDigit(c) && (c == '0' <==> d == 0)
  {
    '0' + d as char
  }

  function Decimal(n: nat): (s: string)
    ensures s != "" && (forall i | 0 <= i < |s| :: IsDigit(s[i])) && (n > 0 ==> s[0] != '0')
  {
    if n < 10 then [Digit(n)] else Decimal(n / 10) + [Digit(n % 10)]
  }

  predicate IsWhole(s: string) {
    s != "" && forall i | 0 <= i < |s| :: IsDigit(s[i])
  }

  function Value(c: char): nat
    requires IsDigit(c)
  {
    (c - '0') as nat
  }

  function Whole(s: string): nat
    requires forall i | 0 <= i < |s| :: IsDigit(s[i])
  {
    if s == "" then 0 else 10 * Whole(s[..|s| - 1]) + Value(s[|s| - 1])
  }

  lemma {:induction false} DecimalRoundTrip(n: nat)
    ensures IsWhole(Decimal(n)) && Whole(Decimal(n)) == n
  {
    var s := Decimal(n);
    if n < 10 {
      assert s[..0] == "";
      assert Whole(s) == 10 * Whole(s[..0]) + n;
    } else {
      DecimalRoundTrip(n / 10);
      assert s[..|s| - 1] == Decimal(n / 10);
    }
  }

  function Zeros(k: nat): string {
    seq(k, _ => '0')
  }

  lemma {:induction false} DecimalMore(n: nat, c: char)
    requires IsDigit(c) && n > 0
    ensures Decimal(10 * n + Value(c)) == Decimal(n) + [c]
  {
  }

  /** Digits are read in base ten, zeros before them counting for nothing. */
  lemma {:induction false} WholeIs(s: string) returns (k: nat)
    requires IsWhole(s)
    ensures k < |s| && s == Zeros(k) + Decimal(Whole(s))
  {
    var front, c := s[..|s| - 1], s[|s| - 1];
    assert s == front + [c];
    if front == "" {
      k := 0;
    } else {
      var before := WholeIs(front);
      if Whole(front) == 0 {
        k := before + 1;
        assert Zeros(k) == Zeros(before) + "0";
      } else {
        k := before;
        DecimalMore(Whole(front), c);
      }
    }
  }

  // ----- lines joined

  /** Joined as fields are, and one line feed after the last. */
  lemma {:induction false} LinesJoined(lines: seq<string>)
    ensures JoinLines(lines) == (if lines == [] then "" else Join(lines, '\n')) + "\n"
  {
    if |lines| > 1 {
      LinesJoined(lines[1..]);
      assert lines[0] + "\n" + (Join(lines[1..], '\n') + "\n") == lines[0] + ['\n'] + Join(lines[1..], '\n') + "\n";
    }
  }
}
