/**
 * The two readers of one nginx configuration: a lexer under a recursive block parser, and a flat scanner.
 * On text that opens no quote outside its comments, they read one configuration exactly where no blank but nginx's own
 * stands there.
 */
module NginxReaders {
  import opened PythonText
  import opened Results

  datatype Token = Word(value: string, line: nat) | Semicolon(line: nat) | Brace(line: nat) | Unbrace(line: nat)

  datatype Syntax =
    | QuoteNeverCloses(line: nat)
    | SemicolonAlone(line: nat)
    | BlockUnnamed(line: nat)
    | ClosesUnopened(line: nat)
    | NeverEnds(line: nat)
    | BlockNeverCloses

  datatype Directive = Directive(name: string, args: seq<string>, block: Body, line: nat)

  /** The block under a directive, where it opens one. */
  datatype Body = Bare | Braced(children: seq<Directive>)

  datatype Kind = Statement | Opens | Closes

  datatype Entry = Entry(kind: Kind, words: seq<string>)

  // ----- characters

  predicate Blank(c: char) { c == ' ' || c == '\t' || c == '\r' || c == '\n' }

  predicate Punctuation(c: char) { c == '{' || c == '}' || c == ';' }

  predicate Quote(c: char) { c == '"' || c == '\'' }

  predicate EndsWord(c: char) { Blank(c) || Punctuation(c) || c == '#' }

  function LineEnd(text: string, i: nat): (j: nat)
    requires i <= |text|
    ensures i <= j <= |text| && (j < |text| ==> text[j] == '\n') && forall k | i <= k < j :: text[k] != '\n'
    decreases |text| - i
  {
    if i == |text| || text[i] == '\n' then i else LineEnd(text, i + 1)
  }

  function WordEnd(text: string, i: nat): (j: nat)
    requires i <= |text|
    ensures i <= j <= |text| && (j < |text| ==> EndsWord(text[j])) && forall k | i <= k < j :: !EndsWord(text[k])
    decreases |text| - i
  {
    if i == |text| || EndsWord(text[i]) then i else WordEnd(text, i + 1)
  }

  /** Outside its comments, which both readers skip to the line's end, the text holds no quote. */
  predicate Unquoted(text: string, i: nat := 0)
    requires i <= |text|
    decreases |text| - i
  {
    if i == |text| then true
    else if text[i] == '#' then Unquoted(text, LineEnd(text, i + 1))
    else !Quote(text[i]) && Unquoted(text, i + 1)
  }

  /** Nor any whitespace but the four blanks nginx parts words at. */
  predicate Plain(text: string, i: nat := 0)
    requires i <= |text|
    decreases |text| - i
  {
    if i == |text| then true
    else if text[i] == '#' then Plain(text, LineEnd(text, i + 1))
    else !Quote(text[i]) && (IsSpace(text[i]) ==> Blank(text[i])) && Plain(text, i + 1)
  }

  predicate Spaceless(word: string) {
    forall i | 0 <= i < |word| :: !IsSpace(word[i])
  }

  // ----- the lexer

  /**
   * The content of a quoted string from `i` on, where the scan resumes, and on which line; `None` where it never
   * closes.
   */
  function Quoted(text: string, quote: char, i: nat, line: nat): (r: Option<(string, nat, nat)>)
    requires i <= |text|
    ensures r.Some? ==> i < r.value.1 <= |text|
    decreases |text| - i
  {
    if i == |text| then None
    else if text[i] == quote then Some(("", i + 1, line))
    else
      // An escape is consumed whole, so an escaped quote does not close the string.
      var n := if text[i] == '\\' && i + 1 < |text| then 2 else 1;
      var rest := Quoted(text, quote, i + n, if text[i + n - 1] == '\n' then line + 1 else line);
      Before(text[i..i + n], rest)
  }

  function Then(tokens: seq<Token>, rest: Result<seq<Token>, Syntax>): Result<seq<Token>, Syntax> {
    if rest.Ok? then Ok(tokens + rest.value) else rest
  }

  function Lex(text: string, i: nat, line: nat): Result<seq<Token>, Syntax>
    requires i <= |text|
    decreases |text| - i
  {
    if i == |text| then Ok([])
    else
      var c := text[i];
      if c == '\n' then Lex(text, i + 1, line + 1)
      else if Blank(c) then Lex(text, i + 1, line)
      else if c == '#' then Lex(text, LineEnd(text, i + 1), line)
      else if Punctuation(c) then Then([Mark(c, line)], Lex(text, i + 1, line))
      else if Quote(c) then
        var q := Quoted(text, c, i + 1, line);
        if q.None? then
          Err(QuoteNeverCloses(line))
        else Then([Word(q.value.0, q.value.2)], Lex(text, q.value.1, q.value.2))
      else
        Then([Word(text[i..WordEnd(text, i + 1)], line)], Lex(text, WordEnd(text, i + 1), line))
  }

  function Mark(c: char, line: nat): Token {
    if c == ';' then Semicolon(line) else if c == '{' then Brace(line) else Unbrace(line)
  }

  function Before(out: string, rest: Option<(string, nat, nat)>): Option<(string, nat, nat)> {
    if rest.None? then None else Some((out + rest.value.0, rest.value.1, rest.value.2))
  }

  lemma {:induction false} BeforeBefore(a: string, b: string, rest: Option<(string, nat, nat)>)
    ensures Before(a, Before(b, rest)) == Before(a + b, rest) && Before("", rest) == rest
  {
    if rest.Some? { assert a + (b + rest.value.0) == (a + b) + rest.value.0 && "" + rest.value.0 == rest.value.0; }
  }

  lemma {:induction false} ThenThen(a: seq<Token>, b: seq<Token>, rest: Result<seq<Token>, Syntax>)
    ensures Then(a, Then(b, rest)) == Then(a + b, rest) && Then([], rest) == rest
  {
    if rest.Ok? { assert a + (b + rest.value) == (a + b) + rest.value && [] + rest.value == rest.value; }
  }

  method ReadQuoted(text: string, index: nat, line: nat) returns (r: Result<(string, nat, nat), Syntax>)
    requires index < |text|
    ensures var q := Quoted(text, text[index], index + 1, line);
      r == if q.None? then Err(QuoteNeverCloses(line)) else Ok(q.value)
  {
    var quote, i, at, out := text[index], index + 1, line, "";
    ghost var all := Quoted(text, quote, index + 1, line);
    BeforeBefore("", "", all);
    while i < |text| && text[i] != quote
      invariant i <= |text|
      invariant all == Before(out, Quoted(text, quote, i, at))
      decreases |text| - i
    {
      var n := if text[i] == '\\' && i + 1 < |text| then 2 else 1;
      if text[i + n - 1] == '\n' { at := at + 1; }
      BeforeBefore(out, text[i..i + n], Quoted(text, quote, i + n, at));
      out, i := out + text[i..i + n], i + n;
    }
    if i >= |text| { return Err(QuoteNeverCloses(line)); }
    assert out + "" == out;
    return Ok((out, i + 1, at));
  }

  method ReadTokens(text: string) returns (r: Result<seq<Token>, Syntax>)
    ensures r == Lex(text, 0, 1)
  {
    var tokens: seq<Token>, line, i := [], 1, 0;
    ThenThen([], [], Lex(text, 0, 1));
    while i < |text|
      invariant i <= |text|
      invariant Lex(text, 0, 1) == Then(tokens, Lex(text, i, line))
      decreases |text| - i
    {
      var c := text[i];
      if c == '\n' {
        line, i := line + 1, i + 1;
      } else if Blank(c) {
        i := i + 1;
      } else if c == '#' {
        i := LineEnd(text, i + 1);
      } else if Punctuation(c) {
        ThenThen(tokens, [Mark(c, line)], Lex(text, i + 1, line));
        tokens, i := tokens + [Mark(c, line)], i + 1;
      } else if Quote(c) {
        var q := ReadQuoted(text, i, line);
        if q.Err? { return Err(q.error); }
        ThenThen(tokens, [Word(q.value.0, q.value.2)], Lex(text, q.value.1, q.value.2));
        tokens, i, line := tokens + [Word(q.value.0, q.value.2)], q.value.1, q.value.2;
      } else {
        var start := i;
        i := WordEnd(text, i + 1);
        ThenThen(tokens, [Word(text[start..i], line)], Lex(text, i, line));
        tokens := tokens + [Word(text[start..i], line)];
      }
    }
    assert tokens + [] == tokens;
    return Ok(tokens);
  }

  // ----- the block parser

  datatype Parsed = Parsed(tree: seq<Directive>, next: nat)

  /** The directives from token `i` to the closing brace, `words` being those of the directive in hand. */
  function Block(tokens: seq<Token>, i: nat, top: bool, words: seq<string>, from: nat): (r: Result<Parsed, Syntax>)
    requires i <= |tokens|
    ensures r.Ok? ==> i <= r.value.next <= |tokens| && (if top then r.value.next == |tokens| else i < r.value.next)
    decreases |tokens| - i
  {
    if i == |tokens| then
      if !top then Err(BlockNeverCloses) else if words != [] then Err(NeverEnds(from)) else Ok(Parsed([], i))
    else
      match tokens[i]
      case Word(value, line) => Block(tokens, i + 1, top, words + [value], if words == [] then line else from)
      case Semicolon(line) =>
        if words == [] then Err(SemicolonAlone(line))
        else Under(Directive(words[0], words[1..], Bare, from), Block(tokens, i + 1, top, [], from))
      case Brace(line) =>
        if words == [] then Err(BlockUnnamed(line))
        else
          var nested := Block(tokens, i + 1, false, [], 0);
          if nested.Err? then nested
          else Under(Directive(words[0], words[1..], Braced(nested.value.tree), from),
            Block(tokens, nested.value.next, top, [], from))
      case Unbrace(line) =>
        if top then Err(ClosesUnopened(line)) else if words != [] then Err(NeverEnds(from)) else Ok(Parsed([], i + 1))
  }

  function Under(d: Directive, rest: Result<Parsed, Syntax>): Result<Parsed, Syntax> {
    if rest.Ok? then Ok(Parsed([d] + rest.value.tree, rest.value.next)) else rest
  }

  function UnderAll(tree: seq<Directive>, rest: Result<Parsed, Syntax>): Result<Parsed, Syntax> {
    if rest.Ok? then Ok(Parsed(tree + rest.value.tree, rest.value.next)) else rest
  }

  lemma {:induction false} UnderUnder(a: seq<Directive>, d: Directive, rest: Result<Parsed, Syntax>)
    ensures UnderAll(a, Under(d, rest)) == UnderAll(a + [d], rest) && UnderAll([], rest) == rest
  {
    if rest.Ok? {
      assert a + ([d] + rest.value.tree) == (a + [d]) + rest.value.tree && [] + rest.value.tree == rest.value.tree;
    }
  }

  method ReadBlock(tokens: seq<Token>, index: nat, top: bool) returns (r: Result<Parsed, Syntax>)
    requires index <= |tokens|
    ensures r == Block(tokens, index, top, [], 0)
    decreases |tokens| - index
  {
    var out: seq<Directive>, words: seq<string>, from, i := [], [], 0, index;
    ghost var all := Block(tokens, index, top, [], 0);
    if all.Ok? { assert [] + all.value.tree == all.value.tree; }
    while i < |tokens|
      invariant index <= i <= |tokens|
      invariant all == UnderAll(out, Block(tokens, i, top, words, from))
      decreases |tokens| - i
    {
      match tokens[i]
      case Word(value, line) =>
        if words == [] { from := line; }
        words, i := words + [value], i + 1;
      case Semicolon(line) =>
        if words == [] { return Err(SemicolonAlone(line)); }
        UnderUnder(out, Directive(words[0], words[1..], Bare, from), Block(tokens, i + 1, top, [], from));
        out, words, i := out + [Directive(words[0], words[1..], Bare, from)], [], i + 1;
      case Brace(line) =>
        if words == [] { return Err(BlockUnnamed(line)); }
        var nested := ReadBlock(tokens, i + 1, false);
        if nested.Err? { return nested; }
        UnderUnder(out, Directive(words[0], words[1..], Braced(nested.value.tree), from),
          Block(tokens, nested.value.next, top, [], from));
        out, words, i := out + [Directive(words[0], words[1..], Braced(nested.value.tree), from)], [],
          nested.value.next;
      case Unbrace(line) =>
        if top { return Err(ClosesUnopened(line)); }
        if words != [] { return Err(NeverEnds(from)); }
        assert out + [] == out;
        return Ok(Parsed(out, i + 1));
    }
    if !top { return Err(BlockNeverCloses); }
    if words != [] { return Err(NeverEnds(from)); }
    assert out + [] == out;
    return Ok(Parsed(out, i));
  }

  function Parse(text: string): Result<seq<Directive>, Syntax> {
    var tokens := Lex(text, 0, 1);
    if tokens.Err? then Err(tokens.error)
    else
      var parsed := Block(tokens.value, 0, true, [], 0);
      if parsed.Err? then Err(parsed.error) else Ok(parsed.value.tree)
  }

  method ReadTree(text: string) returns (r: Result<seq<Directive>, Syntax>)
    ensures r == Parse(text)
  {
    var tokens := ReadTokens(text);
    if tokens.Err? { return Err(tokens.error); }
    var parsed := ReadBlock(tokens.value, 0, true);
    if parsed.Err? { return Err(parsed.error); }
    return Ok(parsed.value.tree);
  }

  // ----- the flat scanner

  function KindOf(c: char): Kind {
    if c == ';' then Statement else if c == '{' then Opens else Closes
  }

  function Flush(words: seq<string>, word: string): seq<string> {
    if word == "" then words else words + [word]
  }

  function Scan(text: string, i: nat, words: seq<string>, word: string, quote: Option<char>): seq<Entry>
    requires i <= |text|
    decreases |text| - i
  {
    if i == |text| then []
    else
      var c := text[i];
      if quote.Some? then
        if c == '\\' && i + 1 < |text| then Scan(text, i + 2, words, word + [c, text[i + 1]], quote)
        else Scan(text, i + 1, words, word + [c], if c == quote.value then None else quote)
      else if Quote(c) then Scan(text, i + 1, words, word + [c], Some(c))
      else if c == '#' then Scan(text, LineEnd(text, i + 1), words, word, None)
      else if Punctuation(c) then [Entry(KindOf(c), Flush(words, word))] + Scan(text, i + 1, [], "", None)
      else if IsSpace(c) then Scan(text, i + 1, Flush(words, word), "", None)
      else Scan(text, i + 1, words, word + [c], None)
  }

  function Statements(text: string): seq<Entry> {
    Scan(text, 0, [], "", None)
  }

  method ReadStatements(text: string) returns (found: seq<Entry>)
    ensures found == Statements(text)
  {
    found := [];
    var words: seq<string>, word, quote: Option<char>, i := [], "", None, 0;
    while i < |text|
      invariant i <= |text|
      invariant Statements(text) == found + Scan(text, i, words, word, quote)
      decreases |text| - i
    {
      var c := text[i];
      if quote.Some? {
        if c == '\\' && i + 1 < |text| {
          word, i := word + [c, text[i + 1]], i + 1;
        } else {
          word := word + [c];
          if c == quote.value { quote := None; }
        }
      } else if Quote(c) {
        quote, word := Some(c), word + [c];
      } else if c == '#' {
        i := LineEnd(text, i + 1);
        continue;
      } else if Punctuation(c) || IsSpace(c) {
        words, word := Flush(words, word), "";
        if !IsSpace(c) {
          found, words := found + [Entry(KindOf(c), words)], [];
        }
      } else {
        word := word + [c];
      }
      i := i + 1;
    }
  }
}
