/**
 * A configuration printed and read back: which characters part words, open and close blocks, end directives and start
 * comments, and the line each directive stands on.
 */
module NginxPrinting {
  import opened NginxAgreement
  import opened NginxReaders
  import opened PythonText
  import opened Results

  /** How lines are laid out: what indents them, what parts two words, and what stands after the line's last mark. */
  datatype Layout = Layout(indent: string, gap: string, tail: string) {
    predicate Valid() {
      && (forall c | c in indent + gap :: c in " \t\r") && gap != ""
      && (tail == "" || (tail[0] == '#' && '\n' !in tail))
    }
  }

  /** A word no reader can part or mistake: without blanks, marks, quotes or the sign that opens a comment. */
  predicate WordOk(word: string) {
    word != "" && forall c | c in word :: c !in " \t\r\n{};#\"'" && !IsSpace(c)
  }

  predicate Printable(tree: seq<Directive>) {
    forall d | d in tree :: (forall word | word in WordsOf(d) :: WordOk(word))
      && (d.block.Braced? ==> Printable(d.block.children))
  }

  function PrintWords(words: seq<string>, gap: string): string {
    if words == [] then "" else words[0] + (if |words| == 1 then "" else gap) + PrintWords(words[1..], gap)
  }

  /** One directive a line, a block's closing brace on its own. */
  function PrintOne(d: Directive, l: Layout): string {
    var head := l.indent + PrintWords(WordsOf(d), l.gap);
    match d.block
    case Bare => head + ";" + l.tail + "\n"
    case Braced(children) => head + "{" + l.tail + "\n" + Print(children, l) + l.indent + "}" + l.tail + "\n"
  }

  function Print(tree: seq<Directive>, l: Layout): string {
    if tree == [] then "" else PrintOne(tree[0], l) + Print(tree[1..], l)
  }

  /** How many lines that takes. */
  function LinesOf(d: Directive): nat {
    match d.block
    case Bare => 1
    case Braced(children) => 2 + Lines(children)
  }

  function Lines(tree: seq<Directive>): nat {
    if tree == [] then 0 else LinesOf(tree[0]) + Lines(tree[1..])
  }

  /** The tree with each directive on the line it is printed on, the first at `line`. */
  function NumberedOne(d: Directive, line: nat): Directive {
    var block := match d.block case Bare => Bare case Braced(children) => Braced(Numbered(children, line + 1));
    Directive(d.name, d.args, block, line)
  }

  function Numbered(tree: seq<Directive>, line: nat): seq<Directive> {
    if tree == [] then [] else [NumberedOne(tree[0], line)] + Numbered(tree[1..], line + LinesOf(tree[0]))
  }

  // ----- reading from a later position is reading the rest

  lemma {:induction false} LineEndShift(pre: string, rest: string, i: nat)
    requires i <= |rest|
    ensures LineEnd(pre + rest, |pre| + i) == |pre| + LineEnd(rest, i)
    decreases |rest| - i
  {
    if i < |rest| && rest[i] != '\n' { LineEndShift(pre, rest, i + 1); }
  }

  lemma {:induction false} WordEndShift(pre: string, rest: string, i: nat)
    requires i <= |rest|
    ensures WordEnd(pre + rest, |pre| + i) == |pre| + WordEnd(rest, i)
    decreases |rest| - i
  {
    if i < |rest| && !EndsWord(rest[i]) { WordEndShift(pre, rest, i + 1); }
  }

  function Moved(r: Option<(string, nat, nat)>, by_: nat): Option<(string, nat, nat)> {
    if r.None? then None else Some((r.value.0, by_ + r.value.1, r.value.2))
  }

  lemma {:induction false} QuotedShift(pre: string, rest: string, quote: char, i: nat, line: nat)
    requires i <= |rest|
    ensures Quoted(pre + rest, quote, |pre| + i, line) == Moved(Quoted(rest, quote, i, line), |pre|)
    decreases |rest| - i
  {
    if i < |rest| && rest[i] != quote {
      var n := if rest[i] == '\\' && i + 1 < |rest| then 2 else 1;
      QuotedShift(pre, rest, quote, i + n, if rest[i + n - 1] == '\n' then line + 1 else line);
      SliceShift(pre, rest, i, n);
    }
  }

  lemma {:induction false} SliceShift(pre: string, rest: string, i: nat, n: nat)
    requires i + n <= |rest|
    ensures (pre + rest)[|pre| + i..|pre| + i + n] == rest[i..i + n]
  {
  }

  lemma {:induction false} WordShift(pre: string, rest: string, i: nat)
    requires i < |rest|
    ensures WordEnd(pre + rest, |pre| + i + 1) == |pre| + WordEnd(rest, i + 1)
    ensures (pre + rest)[|pre| + i..WordEnd(pre + rest, |pre| + i + 1)] == rest[i..WordEnd(rest, i + 1)]
  {
    WordEndShift(pre, rest, i + 1);
  }

  lemma {:induction false} LexShift(pre: string, rest: string, i: nat, line: nat)
    requires i <= |rest|
    ensures Lex(pre + rest, |pre| + i, line) == Lex(rest, i, line)
    decreases |rest| - i
  {
    if i < |rest| && (Blank(rest[i]) || Punctuation(rest[i])) {
      LexShift(pre, rest, i + 1, if rest[i] == '\n' then line + 1 else line);
      ShiftOne(pre, rest, i, line);
    } else if i < |rest| {
      var next := FarNext(rest, i, line);
      if next.Some? { LexShift(pre, rest, next.value.0, next.value.1); }
      ShiftFar(pre, rest, i, line);
    }
  }

  /** Where a comment, a quoted word or a word ends, and on which line. */
  function FarNext(rest: string, i: nat, line: nat): (next: Option<(nat, nat)>)
    requires i < |rest|
    ensures next.Some? ==> i < next.value.0 <= |rest|
  {
    if rest[i] == '#' then Some((LineEnd(rest, i + 1), line))
    else if Quote(rest[i]) then
      var q := Quoted(rest, rest[i], i + 1, line);
      if q.None? then None else Some((q.value.1, q.value.2))
    else Some((WordEnd(rest, i + 1), line))
  }

  lemma {:induction false} ShiftFar(pre: string, rest: string, i: nat, line: nat)
    requires i < |rest| && !Blank(rest[i]) && !Punctuation(rest[i])
    requires var next := FarNext(rest, i, line);
      next.Some? ==> Lex(pre + rest, |pre| + next.value.0, next.value.1) == Lex(rest, next.value.0, next.value.1)
    ensures Lex(pre + rest, |pre| + i, line) == Lex(rest, i, line)
  {
    if rest[i] == '#' {
      ShiftComment(pre, rest, i, line);
    } else if Quote(rest[i]) {
      ShiftQuoted(pre, rest, i, line);
    } else {
      ShiftWord(pre, rest, i, line);
    }
  }

  lemma {:induction false} ShiftOne(pre: string, rest: string, i: nat, line: nat)
    requires i < |rest| && (Blank(rest[i]) || Punctuation(rest[i])) && rest[i] != '#'
    requires var after := if rest[i] == '\n' then line + 1 else line;
      Lex(pre + rest, |pre| + (i + 1), after) == Lex(rest, i + 1, after)
    ensures Lex(pre + rest, |pre| + i, line) == Lex(rest, i, line)
  {
    assert (pre + rest)[|pre| + i] == rest[i];
  }

  lemma {:induction false} ShiftComment(pre: string, rest: string, i: nat, line: nat)
    requires i < |rest| && rest[i] == '#'
    requires Lex(pre + rest, |pre| + LineEnd(rest, i + 1), line) == Lex(rest, LineEnd(rest, i + 1), line)
    ensures Lex(pre + rest, |pre| + i, line) == Lex(rest, i, line)
  {
    assert (pre + rest)[|pre| + i] == rest[i];
    LineEndShift(pre, rest, i + 1);
  }

  lemma {:induction false} ShiftQuoted(pre: string, rest: string, i: nat, line: nat)
    requires i < |rest| && Quote(rest[i]) && !EndsWord(rest[i])
    requires var q := Quoted(rest, rest[i], i + 1, line);
      q.Some? ==> Lex(pre + rest, |pre| + q.value.1, q.value.2) == Lex(rest, q.value.1, q.value.2)
    ensures Lex(pre + rest, |pre| + i, line) == Lex(rest, i, line)
  {
    assert (pre + rest)[|pre| + i] == rest[i];
    QuotedShift(pre, rest, rest[i], i + 1, line);
  }

  lemma {:induction false} ShiftWord(pre: string, rest: string, i: nat, line: nat)
    requires i < |rest| && !Quote(rest[i]) && !EndsWord(rest[i])
    requires Lex(pre + rest, |pre| + WordEnd(rest, i + 1), line) == Lex(rest, WordEnd(rest, i + 1), line)
    ensures Lex(pre + rest, |pre| + i, line) == Lex(rest, i, line)
  {
    assert (pre + rest)[|pre| + i] == rest[i];
    WordShift(pre, rest, i);
  }

  lemma {:induction false} PlainShift(pre: string, rest: string, i: nat)
    requires i <= |rest|
    ensures Plain(pre + rest, |pre| + i) == Plain(rest, i)
    decreases |rest| - i
  {
    if i < |rest| {
      if rest[i] == '#' {
        LineEndShift(pre, rest, i + 1);
        PlainShift(pre, rest, LineEnd(rest, i + 1));
      } else {
        PlainShift(pre, rest, i + 1);
      }
    }
  }

  // ----- each kind of character

  /** What the lexer makes of a text that begins on a line, and whether the text is plain. */
  datatype Reading = Reading(tokens: Result<seq<Token>, Syntax>, plain: bool)

  function ReadingOf(text: string, line: nat): Reading {
    Reading(Lex(text, 0, line), Plain(text))
  }

  function Onto(tokens: seq<Token>, rest: Reading): Reading {
    Reading(Then(tokens, rest.tokens), rest.plain)
  }

  /** Reading a text is having these tokens and reading the rest, which stands on line `after`. */
  predicate ReadsAs(text: string, line: nat, tokens: seq<Token>, rest: string, after: nat) {
    ReadingOf(text, line) == Onto(tokens, ReadingOf(rest, after))
  }

  lemma {:induction false} ReadsOn(
      a: string, line: nat, s: seq<Token>, b: string, then_: nat, t: seq<Token>, c: string, after: nat)
    requires ReadsAs(a, line, s, b, then_) && ReadsAs(b, then_, t, c, after)
    ensures ReadsAs(a, line, s + t, c, after)
  {
    ThenThen(s, t, Lex(c, 0, after));
  }

  lemma {:induction false} ReadsNothing(text: string, line: nat)
    ensures ReadsAs(text, line, [], text, line)
  {
    ThenThen([], [], Lex(text, 0, line));
  }

  lemma {:induction false} LexNext(c: char, rest: string, line: nat)
    ensures Lex([c] + rest, 1, line) == Lex(rest, 0, line) && Plain([c] + rest, 1) == Plain(rest)
  {
    LexShift([c], rest, 0, line);
    PlainShift([c], rest, 0);
  }

  /** Blanks are passed over. */
  lemma {:induction false} ReadBlanks(blanks: string, rest: string, line: nat)
    requires forall c | c in blanks :: c in " \t\r"
    ensures ReadsAs(blanks + rest, line, [], rest, line)
  {
    ReadsNothing(rest, line);
    if blanks == "" {
      assert blanks + rest == rest;
    } else {
      var later := blanks[1..] + rest;
      assert blanks + rest == [blanks[0]] + later && blanks[0] in blanks;
      LexNext(blanks[0], later, line);
      ReadBlanks(blanks[1..], rest, line);
    }
  }

  /** A line feed counts a line. */
  lemma {:induction false} ReadLineFeed(rest: string, line: nat)
    ensures ReadsAs("\n" + rest, line, [], rest, line + 1)
  {
    LexNext('\n', rest, line + 1);
    ReadsNothing(rest, line + 1);
  }

  function MarkOn(c: char, line: nat): Token
    requires c in ";{}"
  {
    match c
    case ';' => Semicolon(line)
    case '{' => Brace(line)
    case '}' => Unbrace(line)
  }

  /** The three marks, each its own token whatever it stands beside. */
  lemma {:induction false} ReadMark(c: char, rest: string, line: nat)
    requires c in ";{}"
    ensures ReadsAs([c] + rest, line, [MarkOn(c, line)], rest, line)
  {
    LexNext(c, rest, line);
  }

  /** A comment is passed over up to its line's end, whatever it holds. */
  lemma {:induction false} ReadTail(tail: string, rest: string, line: nat)
    requires tail == "" || (tail[0] == '#' && '\n' !in tail)
    ensures ReadsAs(tail + "\n" + rest, line, [], rest, line + 1)
  {
    ReadLineFeed(rest, line);
    if tail == "" {
      assert tail + "\n" + rest == "\n" + rest;
    } else {
      var text, n := tail + "\n" + rest, |tail|;
      assert text == tail + ("\n" + rest);
      forall k | 1 <= k < n ensures text[k] != '\n' { assert text[k] == tail[k] && tail[k] in tail; }
      LineEndIs(text, 1, n);
      LexShift(tail, "\n" + rest, 0, line);
      PlainShift(tail, "\n" + rest, 0);
    }
  }

  lemma {:induction false} LineEndIs(text: string, i: nat, j: nat)
    requires i <= j < |text| && text[j] == '\n' && forall k | i <= k < j :: text[k] != '\n'
    ensures LineEnd(text, i) == j
    decreases j - i
  {
    if i < j { LineEndIs(text, i + 1, j); }
  }

  lemma {:induction false} WordEndIs(text: string, i: nat, j: nat)
    requires i <= j < |text| && text[j] in " \t\r\n{};#" && forall k | i <= k < j :: text[k] !in " \t\r\n{};#"
    ensures WordEnd(text, i) == j
    decreases j - i
  {
    if i < j { WordEndIs(text, i + 1, j); }
  }

  /** A word runs up to a blank, a mark or a comment. */
  lemma {:induction false} ReadWord(word: string, rest: string, line: nat)
    requires WordOk(word) && rest != "" && rest[0] in " \t\r\n{};#"
    ensures ReadsAs(word + rest, line, [Word(word, line)], rest, line)
  {
    var text, n := word + rest, |word|;
    forall k | 0 <= k < n ensures text[k] == word[k] && text[k] !in " \t\r\n{};#\"'" { assert word[k] in word; }
    WordEndIs(text, 1, n);
    assert text[..n] == word && text[0..n] == word;
    LexShift(word, rest, 0, line);
    PlainWord(word, rest);
  }

  lemma {:induction false} PlainWord(word: string, rest: string)
    requires forall c | c in word :: c !in " \t\r\n{};#\"'" && !IsSpace(c)
    ensures Plain(word + rest) == Plain(rest)
  {
    if word == "" {
      assert word + rest == rest;
    } else {
      var later := word[1..] + rest;
      assert word + rest == [word[0]] + later && word[0] in word;
      PlainShift([word[0]], later, 0);
      PlainWord(word[1..], rest);
    }
  }

  // ----- a printed line

  function WordTokens(words: seq<string>, line: nat): seq<Token> {
    if words == [] then [] else [Word(words[0], line)] + WordTokens(words[1..], line)
  }

  lemma {:induction false} ReadWords(words: seq<string>, gap: string, rest: string, line: nat)
    requires (forall word | word in words :: WordOk(word)) && (forall c | c in gap :: c in " \t\r") && gap != ""
    requires rest != "" && rest[0] in "{;"
    ensures ReadsAs(PrintWords(words, gap) + rest, line, WordTokens(words, line), rest, line)
  {
    if words == [] {
      assert PrintWords(words, gap) + rest == rest;
      ReadsNothing(rest, line);
    } else {
      var parting := if |words| == 1 then "" else gap;
      var later := PrintWords(words[1..], gap) + rest;
      var first := [Word(words[0], line)];
      assert PrintWords(words, gap) + rest == words[0] + (parting + later);
      assert words[0] in words && forall word | word in words[1..] :: word in words;
      if |words| == 1 { assert parting + later == rest; } else { assert (parting + later)[0] == gap[0]; }
      ReadWord(words[0], parting + later, line);
      ReadBlanks(parting, later, line);
      ReadsOn(words[0] + (parting + later), line, first, parting + later, line, [], later, line);
      ReadWords(words[1..], gap, rest, line);
      ReadsOn(words[0] + (parting + later), line, first + [], later, line, WordTokens(words[1..], line), rest, line);
      assert first + [] + WordTokens(words[1..], line) == WordTokens(words, line);
    }
  }

  function HeadTokens(words: seq<string>, c: char, line: nat): seq<Token>
    requires c in ";{}"
  {
    WordTokens(words, line) + [MarkOn(c, line)]
  }

  /** A line of words and the mark that ends it. */
  lemma {:induction false} ReadHead(words: seq<string>, l: Layout, c: char, rest: string, line: nat)
    requires l.Valid() && (forall word | word in words :: WordOk(word)) && c in "{;"
    ensures ReadsAs(l.indent + PrintWords(words, l.gap) + [c] + l.tail + "\n" + rest, line,
      HeadTokens(words, c, line), rest, line + 1)
  {
    var marked := [c] + (l.tail + "\n" + rest);
    var printed := PrintWords(words, l.gap) + marked;
    assert l.indent + PrintWords(words, l.gap) + [c] + l.tail + "\n" + rest == l.indent + printed;
    assert forall x | x in l.indent || x in l.gap :: x in l.indent + l.gap;
    ReadMarked(c, l.tail, rest, line);
    ReadWords(words, l.gap, marked, line);
    ReadsOn(printed, line, WordTokens(words, line), marked, line, [MarkOn(c, line)], rest, line + 1);
    ReadIndented(l.indent, printed, line, HeadTokens(words, c, line), rest, line + 1);
  }

  /** A mark and what stands after it on its line. */
  lemma {:induction false} ReadMarked(c: char, tail: string, rest: string, line: nat)
    requires c in ";{}" && (tail == "" || (tail[0] == '#' && '\n' !in tail))
    ensures ReadsAs([c] + (tail + "\n" + rest), line, [MarkOn(c, line)], rest, line + 1)
  {
    var after := tail + "\n" + rest;
    ReadTail(tail, rest, line);
    ReadMark(c, after, line);
    ReadsOn([c] + after, line, [MarkOn(c, line)], after, line, [], rest, line + 1);
    assert [MarkOn(c, line)] + [] == [MarkOn(c, line)];
  }

  lemma {:induction false} ReadIndented(
      indent: string, text: string, line: nat, tokens: seq<Token>, rest: string, after: nat)
    requires (forall c | c in indent :: c in " \t\r") && ReadsAs(text, line, tokens, rest, after)
    ensures ReadsAs(indent + text, line, tokens, rest, after)
  {
    ReadBlanks(indent, text, line);
    ReadsOn(indent + text, line, [], text, line, tokens, rest, after);
    assert [] + tokens == tokens;
  }

  lemma {:induction false} ReadClosing(l: Layout, rest: string, line: nat)
    requires l.Valid()
    ensures ReadsAs(l.indent + "}" + l.tail + "\n" + rest, line, [Unbrace(line)], rest, line + 1)
  {
    var marked := ['}'] + (l.tail + "\n" + rest);
    assert l.indent + "}" + l.tail + "\n" + rest == l.indent + marked;
    assert forall x | x in l.indent :: x in l.indent + l.gap;
    ReadMarked('}', l.tail, rest, line);
    ReadIndented(l.indent, marked, line, [Unbrace(line)], rest, line + 1);
  }

  // ----- a printed tree

  function TokensOne(d: Directive, line: nat): seq<Token> {
    match d.block
    case Bare => HeadTokens(WordsOf(d), ';', line)
    case Braced(children) =>
      HeadTokens(WordsOf(d), '{', line) + (Tokens(children, line + 1) + [Unbrace(line + 1 + Lines(children))])
  }

  function Tokens(tree: seq<Directive>, line: nat): seq<Token> {
    if tree == [] then [] else TokensOne(tree[0], line) + Tokens(tree[1..], line + LinesOf(tree[0]))
  }

  lemma {:induction false} ReadOne(d: Directive, l: Layout, rest: string, line: nat)
    requires l.Valid() && Printable([d])
    ensures ReadsAs(PrintOne(d, l) + rest, line, TokensOne(d, line), rest, line + LinesOf(d))
    decreases d, 1
  {
    assert d in [d];
    if d.block.Braced? {
      var closing := l.indent + "}" + l.tail + "\n" + rest;
      ReadAll(d.block.children, l, closing, line + 1);
      ReadBraced(d, l, rest, line);
    } else {
      ReadBare(d, l, rest, line);
    }
  }

  lemma {:induction false} ReadBare(d: Directive, l: Layout, rest: string, line: nat)
    requires l.Valid() && (forall word | word in WordsOf(d) :: WordOk(word)) && d.block.Bare?
    ensures ReadsAs(PrintOne(d, l) + rest, line, TokensOne(d, line), rest, line + LinesOf(d))
  {
    PrintedStatement(d, l, rest);
    ReadHead(WordsOf(d), l, ';', rest, line);
  }

  lemma {:induction false} ReadBraced(d: Directive, l: Layout, rest: string, line: nat)
    requires l.Valid() && (forall word | word in WordsOf(d) :: WordOk(word)) && d.block.Braced?
    requires var children, closing := d.block.children, l.indent + "}" + l.tail + "\n" + rest;
      ReadsAs(Print(children, l) + closing, line + 1, Tokens(children, line + 1), closing, line + 1 + Lines(children))
    ensures ReadsAs(PrintOne(d, l) + rest, line, TokensOne(d, line), rest, line + LinesOf(d))
  {
    var children, closing := d.block.children, l.indent + "}" + l.tail + "\n" + rest;
    var inner, end := Print(children, l) + closing, line + 1 + Lines(children);
    PrintedBlock(d, l, rest);
    ReadHead(WordsOf(d), l, '{', inner, line);
    ReadClosing(l, rest, end);
    ReadsOn(inner, line + 1, Tokens(children, line + 1), closing, end, [Unbrace(end)], rest, end + 1);
    ReadsOn(PrintOne(d, l) + rest, line, HeadTokens(WordsOf(d), '{', line), inner, line + 1,
      Tokens(children, line + 1) + [Unbrace(end)], rest, end + 1);
  }

  lemma {:induction false} PrintedStatement(d: Directive, l: Layout, rest: string)
    requires d.block.Bare?
    ensures PrintOne(d, l) + rest == l.indent + PrintWords(WordsOf(d), l.gap) + [';'] + l.tail + "\n" + rest
  {
  }

  lemma {:induction false} PrintedBlock(d: Directive, l: Layout, rest: string)
    requires d.block.Braced?
    ensures PrintOne(d, l) + rest == l.indent + PrintWords(WordsOf(d), l.gap) + ['{'] + l.tail + "\n"
      + (Print(d.block.children, l) + (l.indent + "}" + l.tail + "\n" + rest))
  {
    var head, children := l.indent + PrintWords(WordsOf(d), l.gap) + "{" + l.tail + "\n", Print(d.block.children, l);
    var closing := l.indent + "}" + l.tail + "\n";
    assert PrintOne(d, l) == head + children + l.indent + "}" + l.tail + "\n";
    assert head + children + l.indent + "}" + l.tail + "\n" == head + (children + closing);
    assert head + (children + closing) + rest == head + (children + (closing + rest));
  }

  lemma {:induction false} ReadAll(tree: seq<Directive>, l: Layout, rest: string, line: nat)
    requires l.Valid() && Printable(tree)
    ensures ReadsAs(Print(tree, l) + rest, line, Tokens(tree, line), rest, line + Lines(tree))
    decreases tree, 0
  {
    if tree == [] {
      ReadNone(l, rest, line);
    } else {
      PrintableParts(tree);
      ReadOne(tree[0], l, Print(tree[1..], l) + rest, line);
      ReadAll(tree[1..], l, rest, line + LinesOf(tree[0]));
      ReadFirst(tree, l, rest, line);
    }
  }

  lemma {:induction false} ReadNone(l: Layout, rest: string, line: nat)
    ensures ReadsAs(Print([], l) + rest, line, Tokens([], line), rest, line + Lines([]))
  {
    assert Print([], l) + rest == rest;
    ReadsNothing(rest, line);
  }

  lemma {:induction false} ReadFirst(tree: seq<Directive>, l: Layout, rest: string, line: nat)
    requires tree != []
    requires var next, later := line + LinesOf(tree[0]), Print(tree[1..], l) + rest;
      && ReadsAs(PrintOne(tree[0], l) + later, line, TokensOne(tree[0], line), later, next)
      && ReadsAs(later, next, Tokens(tree[1..], next), rest, next + Lines(tree[1..]))
    ensures ReadsAs(Print(tree, l) + rest, line, Tokens(tree, line), rest, line + Lines(tree))
  {
    var next, later := line + LinesOf(tree[0]), Print(tree[1..], l) + rest;
    PrintedFirst(tree, l, rest);
    ReadsOn(PrintOne(tree[0], l) + later, line, TokensOne(tree[0], line), later, next, Tokens(tree[1..], next), rest,
      next + Lines(tree[1..]));
  }

  lemma {:induction false} PrintedFirst(tree: seq<Directive>, l: Layout, rest: string)
    requires tree != []
    ensures Print(tree, l) + rest == PrintOne(tree[0], l) + (Print(tree[1..], l) + rest)
  {
  }

  lemma {:induction false} PrintableParts(tree: seq<Directive>)
    requires tree != [] && Printable(tree)
    ensures Printable([tree[0]]) && Printable(tree[1..])
  {
    assert tree[0] in tree && forall d | d in tree[1..] :: d in tree;
  }

  // ----- the tokens of a tree are that tree

  lemma {:induction false} BlockWords(
      tokens: seq<Token>, i: nat, top: bool, held: seq<string>, words: seq<string>, line: nat, from: nat)
    requires i + |words| <= |tokens| && tokens[i..i + |words|] == WordTokens(words, line)
    requires held != [] ==> from == line
    ensures held + words != [] ==>
      Block(tokens, i, top, held, from) == Block(tokens, i + |words|, top, held + words, line)
    decreases |words|
  {
    if words == [] {
      assert held + words == held;
    } else {
      assert tokens[i] == tokens[i..i + |words|][0] && tokens[i + 1..i + |words|] == tokens[i..i + |words|][1..];
      BlockWords(tokens, i + 1, top, held + [words[0]], words[1..], line, line);
      assert held + [words[0]] + words[1..] == held + words;
    }
  }

  lemma {:induction false} WordTokensSize(words: seq<string>, line: nat)
    ensures |WordTokens(words, line)| == |words|
  {
    if words != [] { WordTokensSize(words[1..], line); }
  }

  lemma {:induction false} FromMoot(tokens: seq<Token>, i: nat, top: bool, a: nat, b: nat)
    requires i <= |tokens|
    ensures Block(tokens, i, top, [], a) == Block(tokens, i, top, [], b)
  {
  }

  lemma {:induction false} BlockOne(tokens: seq<Token>, i: nat, top: bool, d: Directive, line: nat)
    requires i + |TokensOne(d, line)| <= |tokens|
    requires tokens[i..i + |TokensOne(d, line)|] == TokensOne(d, line)
    ensures Block(tokens, i, top, [], 0)
      == Under(NumberedOne(d, line), Block(tokens, i + |TokensOne(d, line)|, top, [], 0))
    decreases d, 1
  {
    var k := i + |WordsOf(d)|;
    if d.block.Braced? {
      BracedParts(tokens, i, d, line);
      BlockAll(tokens, k + 1, false, d.block.children, line + 1);
      NamedBlock(tokens, i, top, d, line);
      BracesClose(tokens, k, top, d, line, k + 1 + |Tokens(d.block.children, line + 1)|);
    } else {
      BareParts(tokens, i, d, line);
      NamedBlock(tokens, i, top, d, line);
      BareBlock(tokens, k, top, d, line);
    }
  }

  lemma {:induction false} NamedBlock(tokens: seq<Token>, i: nat, top: bool, d: Directive, line: nat)
    requires i + |WordsOf(d)| <= |tokens| && tokens[i..i + |WordsOf(d)|] == WordTokens(WordsOf(d), line)
    ensures Block(tokens, i, top, [], 0) == Block(tokens, i + |WordsOf(d)|, top, WordsOf(d), line)
  {
    BlockWords(tokens, i, top, [], WordsOf(d), line, 0);
    assert [] + WordsOf(d) == WordsOf(d);
  }

  lemma {:induction false} BareBlock(tokens: seq<Token>, k: nat, top: bool, d: Directive, line: nat)
    requires k < |tokens| && tokens[k] == Semicolon(line) && d.block.Bare?
    ensures Block(tokens, k, top, WordsOf(d), line) == Under(NumberedOne(d, line), Block(tokens, k + 1, top, [], 0))
  {
    FromMoot(tokens, k + 1, top, line, 0);
    assert WordsOf(d)[1..] == d.args;
  }

  lemma {:induction false} BracesClose(tokens: seq<Token>, k: nat, top: bool, d: Directive, line: nat, e: nat)
    requires k < e < |tokens| && d.block.Braced? && tokens[k] == Brace(line) && tokens[e].Unbrace?
    requires Block(tokens, k + 1, false, [], 0)
      == UnderAll(Numbered(d.block.children, line + 1), Block(tokens, e, false, [], 0))
    ensures Block(tokens, k, top, WordsOf(d), line)
      == Under(NumberedOne(d, line), Block(tokens, e + 1, top, [], 0))
  {
    FromMoot(tokens, e + 1, top, line, 0);
    assert Numbered(d.block.children, line + 1) + [] == Numbered(d.block.children, line + 1);
    assert WordsOf(d)[1..] == d.args;
  }

  /** Where the parts of one directive's tokens stand. */
  lemma {:induction false} BareParts(tokens: seq<Token>, i: nat, d: Directive, line: nat)
    requires i + |TokensOne(d, line)| <= |tokens| && d.block.Bare?
    requires tokens[i..i + |TokensOne(d, line)|] == TokensOne(d, line)
    ensures var k := i + |WordsOf(d)|;
      && k + 1 == i + |TokensOne(d, line)| && tokens[i..k] == WordTokens(WordsOf(d), line)
      && tokens[k] == Semicolon(line)
  {
    WordTokensSize(WordsOf(d), line);
    PartsAt(tokens, i, WordTokens(WordsOf(d), line), Semicolon(line), []);
  }

  lemma {:induction false} BracedParts(tokens: seq<Token>, i: nat, d: Directive, line: nat)
    requires i + |TokensOne(d, line)| <= |tokens| && d.block.Braced?
    requires tokens[i..i + |TokensOne(d, line)|] == TokensOne(d, line)
    ensures var k, inner := i + |WordsOf(d)|, Tokens(d.block.children, line + 1);
      && k + 2 + |inner| == i + |TokensOne(d, line)|
      && tokens[i..k] == WordTokens(WordsOf(d), line) && tokens[k] == Brace(line)
      && tokens[k + 1..k + 1 + |inner|] == inner && tokens[k + 1 + |inner|].Unbrace?
  {
    var inner, close := Tokens(d.block.children, line + 1), Unbrace(line + 1 + Lines(d.block.children));
    WordTokensSize(WordsOf(d), line);
    PartsAt(tokens, i, WordTokens(WordsOf(d), line), Brace(line), inner + [close]);
    PartsAt(tokens, i + |WordsOf(d)| + 1, inner, close, []);
  }

  lemma {:induction false} PartsAt(tokens: seq<Token>, i: nat, a: seq<Token>, t: Token, b: seq<Token>)
    requires i + |a| + 1 + |b| <= |tokens|
    requires tokens[i..i + |a| + 1 + |b|] == a + [t] + b || tokens[i..i + |a| + 1 + |b|] == a + ([t] + b)
    ensures tokens[i..i + |a|] == a && tokens[i + |a|] == t && tokens[i + |a| + 1..i + |a| + 1 + |b|] == b
  {
    var all := a + [t] + b;
    assert all == a + ([t] + b) && all[..|a|] == a && all[|a|] == t && all[|a| + 1..] == b;
    assert tokens[i..i + |all|][|a|] == tokens[i + |a|];
  }

  lemma {:induction false} BlockAll(tokens: seq<Token>, i: nat, top: bool, tree: seq<Directive>, line: nat)
    requires i + |Tokens(tree, line)| <= |tokens| && tokens[i..i + |Tokens(tree, line)|] == Tokens(tree, line)
    ensures Block(tokens, i, top, [], 0)
      == UnderAll(Numbered(tree, line), Block(tokens, i + |Tokens(tree, line)|, top, [], 0))
    decreases tree, 0
  {
    if tree == [] {
      UnderUnder([], Directive("", [], Bare, 0), Block(tokens, i, top, [], 0));
    } else {
      var first, next := TokensOne(tree[0], line), line + LinesOf(tree[0]);
      var k, all := i + |first|, Tokens(tree, line);
      assert tokens[i..k] == all[..|first|] == first;
      assert tokens[k..i + |all|] == all[|first|..] == Tokens(tree[1..], next);
      BlockOne(tokens, i, top, tree[0], line);
      BlockAll(tokens, k, top, tree[1..], next);
      var end := Block(tokens, i + |all|, top, [], 0);
      UnderFirst(NumberedOne(tree[0], line), Numbered(tree[1..], next), end);
    }
  }

  lemma {:induction false} UnderFirst(d: Directive, tree: seq<Directive>, rest: Result<Parsed, Syntax>)
    ensures Under(d, UnderAll(tree, rest)) == UnderAll([d] + tree, rest)
  {
    if rest.Ok? { assert [d] + (tree + rest.value.tree) == ([d] + tree) + rest.value.tree; }
  }

  lemma {:induction false} NumberedFlat(tree: seq<Directive>, line: nat)
    ensures Flatten(Numbered(tree, line)) == Flatten(tree)
    decreases tree, 0
  {
    if tree != [] {
      NumberedFlatOne(tree[0], line);
      NumberedFlat(tree[1..], line + LinesOf(tree[0]));
      var numbered := Numbered(tree, line);
      assert numbered[0] == NumberedOne(tree[0], line);
      assert numbered[1..] == Numbered(tree[1..], line + LinesOf(tree[0]));
    }
  }

  lemma {:induction false} NumberedFlatOne(d: Directive, line: nat)
    ensures FlattenOne(NumberedOne(d, line)) == FlattenOne(d)
    decreases d, 1
  {
    if d.block.Braced? { NumberedFlat(d.block.children, line + 1); }
  }

  /** A printed tree is the tree the parser reads, each directive on its line, and the scanner lists it in pre-order. */
  lemma {:induction false} PrintedReads(tree: seq<Directive>, l: Layout)
    requires l.Valid() && Printable(tree)
    ensures Parse(Print(tree, l)) == Ok(Numbered(tree, 1))
    ensures Statements(Print(tree, l)) == Flatten(tree)
  {
    var text, tokens := Print(tree, l), Tokens(tree, 1);
    assert text + "" == text;
    ReadAll(tree, l, "", 1);
    assert Lex("", 0, 1 + Lines(tree)) == Ok([]) && tokens + [] == tokens;
    assert tokens[0..|tokens|] == tokens;
    BlockAll(tokens, 0, true, tree, 1);
    assert Numbered(tree, 1) + [] == Numbered(tree, 1);
    ReadersAgree(text);
    NumberedFlat(tree, 1);
  }

  // ----- quoted words

  /** What a quote can hold: each backslash with the character after it, and no quote of its kind but so. */
  predicate Holds(content: string, quote: char) {
    if content == "" then true
    else if content[0] == '\\' then |content| > 1 && Holds(content[2..], quote)
    else content[0] != quote && Holds(content[1..], quote)
  }

  function LineFeeds(content: string): nat {
    if content == "" then 0 else (if content[0] == '\n' then 1 else 0) + LineFeeds(content[1..])
  }

  /** A quoted word is what stands up to the first quote that no backslash takes, its line feeds counted. */
  lemma {:induction false} QuotedReads(content: string, quote: char, rest: string, line: nat)
    requires Holds(content, quote) && quote in "\"'"
    ensures Quoted(content + [quote] + rest, quote, 0, line)
      == Some((content, |content| + 1, line + LineFeeds(content)))
    decreases |content|
  {
    var text := content + [quote] + rest;
    if content != "" {
      var n := if content[0] == '\\' then 2 else 1;
      var later := content[n..] + [quote] + rest;
      assert text == content[..n] + later && text[0] == content[0] && text[0..0 + n] == content[..n];
      QuotedShift(content[..n], later, quote, 0, if text[n - 1] == '\n' then line + 1 else line);
      FeedsSplit(content, n);
      QuotedReads(content[n..], quote, rest, if text[n - 1] == '\n' then line + 1 else line);
      assert content[..n] + content[n..] == content;
    }
  }

  lemma {:induction false} FeedsSplit(content: string, n: nat)
    requires n <= |content| && (n == 1 || (n == 2 && content[0] != '\n'))
    ensures LineFeeds(content) == (if content[n - 1] == '\n' then 1 else 0) + LineFeeds(content[n..])
  {
    if n == 2 { assert content[1..][1..] == content[2..]; }
  }

  /** A quote that closes holds such a content up to where the scan resumes, so where there is none it never closes. */
  lemma {:induction false} QuotedHolds(text: string, quote: char, i: nat, line: nat)
    requires i <= |text| && quote in "\"'" && Quoted(text, quote, i, line).Some?
    ensures var (content, next, _) := Quoted(text, quote, i, line).value;
      Holds(content, quote) && next == i + |content| + 1 && next <= |text| && text[i..next] == content + [quote]
    decreases |text| - i
  {
    if text[i] == quote {
      assert text[i..i + 1] == [quote];
    } else {
      var n := if text[i] == '\\' && i + 1 < |text| then 2 else 1;
      var after := if text[i + n - 1] == '\n' then line + 1 else line;
      QuotedHolds(text, quote, i + n, after);
      var (rest, next, _) := Quoted(text, quote, i + n, after).value;
      var content := text[i..i + n] + rest;
      assert text[i..next] == text[i..i + n] + text[i + n..next];
      assert content[n..] == rest && content[0] == text[i];
      assert text[i..i + n] + (rest + [quote]) == content + [quote];
    }
  }

  /** To the lexer a quoted word is its content, on the line its quote closes on. */
  lemma {:induction false} ReadQuotedWord(content: string, quote: char, rest: string, line: nat)
    requires Holds(content, quote) && quote in "\"'"
    ensures var at := line + LineFeeds(content);
      Lex([quote] + content + [quote] + rest, 0, line) == Then([Word(content, at)], Lex(rest, 0, at))
  {
    QuotedAt(content, quote, rest, line);
    LexShift([quote] + content + [quote], rest, 0, line + LineFeeds(content));
  }

  lemma {:induction false} QuotedAt(content: string, quote: char, rest: string, line: nat)
    requires Holds(content, quote) && quote in "\"'"
    ensures Quoted([quote] + content + [quote] + rest, quote, 1, line)
      == Some((content, |content| + 2, line + LineFeeds(content)))
  {
    var inner := content + [quote] + rest;
    assert [quote] + content + [quote] + rest == [quote] + inner;
    QuotedReads(content, quote, rest, line);
    QuotedShift([quote], inner, quote, 0, line);
  }

  lemma {:induction false} ScanShift(
      pre: string, rest: string, i: nat, words: seq<string>, word: string, quote: Option<char>)
    requires i <= |rest|
    ensures Scan(pre + rest, |pre| + i, words, word, quote) == Scan(rest, i, words, word, quote)
    decreases |rest| - i
  {
    if i < |rest| {
      var c := rest[i];
      assert (pre + rest)[|pre| + i] == c;
      if quote.Some? {
        if c == '\\' && i + 1 < |rest| {
          ScanShift(pre, rest, i + 2, words, word + [c, rest[i + 1]], quote);
        } else {
          ScanShift(pre, rest, i + 1, words, word + [c], if c == quote.value then None else quote);
        }
      } else {
        ScanShiftOutside(pre, rest, i, words, word);
      }
    }
  }

  lemma {:induction false} ScanShiftOutside(pre: string, rest: string, i: nat, words: seq<string>, word: string)
    requires i < |rest|
    ensures Scan(pre + rest, |pre| + i, words, word, None) == Scan(rest, i, words, word, None)
    decreases |rest| - i, 0
  {
    var c := rest[i];
    assert (pre + rest)[|pre| + i] == c;
    if Quote(c) {
      ScanShift(pre, rest, i + 1, words, word + [c], Some(c));
    } else if c == '#' {
      LineEndShift(pre, rest, i + 1);
      ScanShift(pre, rest, LineEnd(rest, i + 1), words, word, None);
    } else if Punctuation(c) {
      ScanShift(pre, rest, i + 1, [], "", None);
    } else if IsSpace(c) {
      ScanShift(pre, rest, i + 1, Flush(words, word), "", None);
    } else {
      ScanShift(pre, rest, i + 1, words, word + [c], None);
    }
  }

  /** To the scanner it is part of the word it stands in, quotes and all. */
  lemma {:induction false} ScanQuotedWord(content: string, quote: char, rest: string, words: seq<string>, word: string)
    requires Holds(content, quote) && quote in "\"'"
    ensures Scan([quote] + content + [quote] + rest, 0, words, word, None)
      == Scan(rest, 0, words, word + [quote] + content + [quote], None)
  {
    var inner := content + [quote] + rest;
    assert [quote] + content + [quote] + rest == [quote] + inner;
    ScanShift([quote], inner, 0, words, word + [quote], Some(quote));
    ScanInside(content, quote, rest, words, word + [quote]);
  }

  lemma {:induction false} ScanInside(content: string, quote: char, rest: string, words: seq<string>, word: string)
    requires Holds(content, quote) && quote in "\"'"
    ensures Scan(content + [quote] + rest, 0, words, word, Some(quote))
      == Scan(rest, 0, words, word + content + [quote], None)
    decreases |content|
  {
    var text := content + [quote] + rest;
    if content == "" {
      assert text == [quote] + rest && word + content == word;
      ScanShift([quote], rest, 0, words, word + [quote], None);
    } else {
      var n := if content[0] == '\\' then 2 else 1;
      var later := content[n..] + [quote] + rest;
      assert text == content[..n] + later && text[0] == content[0];
      assert content[..n] == if n == 2 then [content[0], content[1]] else [content[0]];
      ScanShift(content[..n], later, 0, words, word + content[..n], Some(quote));
      ScanInside(content[n..], quote, rest, words, word + content[..n]);
      assert word + content[..n] + content[n..] == word + content;
    }
  }
}
