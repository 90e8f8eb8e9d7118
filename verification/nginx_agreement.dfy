/**
 * That the flat scanner and the block parser read one configuration, and what the scanner's `geo` reading means in the
 * tree.
 */
module NginxAgreement {
  import opened NginxReaders
  import opened PythonText
  import opened Results

  // ----- one list of entries from the tokens, one from the tree

  /** What the scanner would list for the tokens from `i` on, `words` being in hand. */
  function Listed(tokens: seq<Token>, i: nat, words: seq<string>): seq<Entry>
    requires i <= |tokens|
    decreases |tokens| - i
  {
    if i == |tokens| then []
    else
      match tokens[i]
      case Word(value, _) => Listed(tokens, i + 1, words + [value])
      case Semicolon(_) => [Entry(Statement, words)] + Listed(tokens, i + 1, [])
      case Brace(_) => [Entry(Opens, words)] + Listed(tokens, i + 1, [])
      case Unbrace(_) => [Entry(Closes, words)] + Listed(tokens, i + 1, [])
  }

  /** No word is left in hand where the tokens end. */
  predicate Ended(tokens: seq<Token>, i: nat, words: seq<string>)
    requires i <= |tokens|
    decreases |tokens| - i
  {
    if i == |tokens| then words == []
    else Ended(tokens, i + 1, if tokens[i].Word? then words + [tokens[i].value] else [])
  }

  function WordsOf(d: Directive): seq<string> { [d.name] + d.args }

  /** The tree in pre-order: a statement, or what opens, lies within and closes a block. */
  function Flatten(tree: seq<Directive>): seq<Entry> {
    if tree == [] then [] else FlattenOne(tree[0]) + Flatten(tree[1..])
  }

  function FlattenOne(d: Directive): seq<Entry> {
    match d.block
    case Bare => [Entry(Statement, WordsOf(d))]
    case Braced(children) => [Entry(Opens, WordsOf(d))] + Flatten(children) + [Entry(Closes, [])]
  }

  /** Every statement and block is named, no directive is cut off by a brace, and every block closes. */
  predicate Nested(entries: seq<Entry>, depth: nat) {
    if entries == [] then depth == 0
    else
      match entries[0].kind
      case Statement => entries[0].words != [] && Nested(entries[1..], depth)
      case Opens => entries[0].words != [] && Nested(entries[1..], depth + 1)
      case Closes => entries[0].words == [] && depth > 0 && Nested(entries[1..], depth - 1)
  }

  // ----- characters to tokens

  lemma {:induction false} ScanWord(text: string, i: nat, j: nat, words: seq<string>, word: string)
    requires i <= j <= |text| && Plain(text, i) && forall k | i <= k < j :: !EndsWord(text[k])
    ensures Plain(text, j) && Scan(text, i, words, word, None) == Scan(text, j, words, word + text[i..j], None)
    decreases j - i
  {
    if i < j {
      ScanWord(text, i + 1, j, words, word + [text[i]]);
      assert word + [text[i]] + text[i + 1..j] == word + text[i..j];
    } else {
      assert word + text[i..j] == word;
    }
  }

  /** Where a word ends, having it in hand and having it listed come to the same. */
  lemma {:induction false} WordListed(text: string, i: nat, words: seq<string>, word: string)
    requires i <= |text| && Plain(text, i) && word != "" && (i < |text| ==> EndsWord(text[i]))
    ensures Scan(text, i, words, word, None) == Scan(text, i, words + [word], "", None)
  {
    if i < |text| && text[i] == '#' {
      var e := LineEnd(text, i + 1);
      if e < |text| {
        assert Scan(text, e, words, word, None) == Scan(text, e + 1, words + [word], "", None);
        assert Scan(text, e, words + [word], "", None) == Scan(text, e + 1, words + [word], "", None);
      }
    }
  }

  lemma {:induction false} ListedAppend(t: Token, rest: seq<Token>, i: nat, words: seq<string>)
    requires i <= |rest|
    ensures Listed([t] + rest, i + 1, words) == Listed(rest, i, words)
    ensures Ended([t] + rest, i + 1, words) == Ended(rest, i, words)
    decreases |rest| - i
  {
    if i < |rest| {
      assert ([t] + rest)[i + 1] == rest[i];
      ListedAppend(t, rest, i + 1, if rest[i].Word? then words + [rest[i].value] else []);
    }
  }

  /** On plain text the scanner lists exactly what the lexer's tokens list, accepted or not. */
  lemma {:induction false} ScanLists(text: string, i: nat, line: nat, words: seq<string>)
    requires i <= |text| && Plain(text, i)
    ensures Lex(text, i, line).Ok? && Scan(text, i, words, "", None) == Listed(Lex(text, i, line).value, 0, words)
    decreases |text| - i
  {
    if i < |text| {
      var c := text[i];
      if c == '\n' {
        ScanLists(text, i + 1, line + 1, words);
      } else if Blank(c) {
        ScanLists(text, i + 1, line, words);
      } else if c == '#' {
        ScanLists(text, LineEnd(text, i + 1), line, words);
      } else if Punctuation(c) {
        ScanLists(text, i + 1, line, []);
        ListedAppend(Mark(c, line), Lex(text, i + 1, line).value, 0, []);
      } else {
        var j := WordEnd(text, i + 1);
        ScanWord(text, i, j, words, "");
        ScanLists(text, j, line, words + [text[i..j]]);
        ListedAppend(Word(text[i..j], line), Lex(text, j, line).value, 0, words + [text[i..j]]);
        assert "" + text[i..j] == text[i..j];
        WordListed(text, j, words, text[i..j]);
      }
    }
  }

  // ----- tokens to the tree

  /** A parsed block lists as its pre-order, and what follows its brace as it would alone. */
  lemma {:induction false} BlockLists(tokens: seq<Token>, i: nat, top: bool, words: seq<string>, from: nat)
    requires i <= |tokens| && Block(tokens, i, top, words, from).Ok?
    ensures var r := Block(tokens, i, top, words, from).value;
      Listed(tokens, i, words) == Flatten(r.tree) + if top then [] else [Entry(Closes, [])] + Listed(tokens, r.next, [])
    decreases |tokens| - i
  {
    if i < |tokens| {
      var r := Block(tokens, i, top, words, from).value;
      match tokens[i]
      case Word(value, line) => BlockLists(tokens, i + 1, top, words + [value], if words == [] then line else from);
      case Semicolon(_) =>
        BlockLists(tokens, i + 1, top, [], from);
        assert words == WordsOf(r.tree[0]);
        assert r.tree[1..] == Block(tokens, i + 1, top, [], from).value.tree;
      case Brace(_) =>
        BlockLists(tokens, i + 1, false, [], 0);
        BlockLists(tokens, Block(tokens, i + 1, false, [], 0).value.next, top, [], from);
        BraceLists(tokens, i, top, words, from);
      case Unbrace(_) =>
    }
  }

  lemma {:induction false} BraceLists(tokens: seq<Token>, i: nat, top: bool, words: seq<string>, from: nat)
    requires i < |tokens| && tokens[i].Brace? && Block(tokens, i, top, words, from).Ok?
    requires var nested := Block(tokens, i + 1, false, [], 0).value;
      && Listed(tokens, i + 1, []) == Flatten(nested.tree) + ([Entry(Closes, [])] + Listed(tokens, nested.next, []))
      && var rest := Block(tokens, nested.next, top, [], from).value;
         Listed(tokens, nested.next, [])
         == Flatten(rest.tree) + if top then [] else [Entry(Closes, [])] + Listed(tokens, rest.next, [])
    ensures var r := Block(tokens, i, top, words, from).value;
      Listed(tokens, i, words) == Flatten(r.tree) + if top then [] else [Entry(Closes, [])] + Listed(tokens, r.next, [])
  {
    var r, nested := Block(tokens, i, top, words, from).value, Block(tokens, i + 1, false, [], 0).value;
    var rest := Block(tokens, nested.next, top, [], from).value;
    assert words == WordsOf(r.tree[0]) && r.tree[1..] == rest.tree;
    var after := if top then [] else [Entry(Closes, [])] + Listed(tokens, rest.next, []);
    BlockThenRest([Entry(Opens, words)], Flatten(nested.tree), [Entry(Closes, [])], Flatten(rest.tree), after);
  }

  lemma {:induction false} BlockThenRest(a: seq<Entry>, b: seq<Entry>, c: seq<Entry>, d: seq<Entry>, e: seq<Entry>)
    ensures a + (b + (c + (d + e))) == (a + b + c + d) + e
  {
  }

  /** What the block parser accepts, said of the list alone. */
  lemma {:induction false} BlockAcceptsIff(
      tokens: seq<Token>, i: nat, top: bool, words: seq<string>, from: nat, depth: nat)
    requires i <= |tokens| && (top <==> depth == 0)
    ensures var r := Block(tokens, i, top, words, from);
      Nested(Listed(tokens, i, words), depth) && Ended(tokens, i, words)
      <==> r.Ok? && (top || (Nested(Listed(tokens, r.value.next, []), depth - 1) && Ended(tokens, r.value.next, [])))
    decreases |tokens| - i
  {
    if i < |tokens| {
      match tokens[i]
      case Word(value, line) =>
        BlockAcceptsIff(tokens, i + 1, top, words + [value], if words == [] then line else from, depth);
      case Semicolon(_) => BlockAcceptsIff(tokens, i + 1, top, [], from, depth);
      case Brace(_) =>
        BlockAcceptsIff(tokens, i + 1, false, [], 0, depth + 1);
        var nested := Block(tokens, i + 1, false, [], 0);
        if nested.Ok? { BlockAcceptsIff(tokens, nested.value.next, top, [], from, depth); }
      case Unbrace(_) =>
    }
  }

  // ----- the two readers agree

  /** Whenever the parser accepts a plain text, the scanner lists exactly its tree in pre-order. */
  lemma {:induction false} ReadersAgree(text: string)
    requires Plain(text) && Parse(text).Ok?
    ensures Statements(text) == Flatten(Parse(text).value)
  {
    ScanLists(text, 0, 1, []);
    BlockLists(Lex(text, 0, 1).value, 0, true, [], 0);
    var tree := Parse(text).value;
    assert Flatten(tree) + [] == Flatten(tree);
  }

  // ----- and part over any other blank

  ghost predicate AllSpaceless(entries: seq<Entry>) {
    forall e | e in entries :: forall w | w in e.words :: Spaceless(w)
  }

  /** The scanner parts words at every blank, so none is left in a word it lists. */
  lemma {:induction false} ScanSpaceless(text: string, i: nat, words: seq<string>, word: string)
    requires i <= |text| && Unquoted(text, i) && (forall w | w in words :: Spaceless(w)) && Spaceless(word)
    ensures AllSpaceless(Scan(text, i, words, word, None))
    decreases |text| - i
  {
    if i < |text| {
      var c := text[i];
      if c == '#' {
        ScanSpaceless(text, LineEnd(text, i + 1), words, word);
      } else if Punctuation(c) {
        ScanSpaceless(text, i + 1, [], "");
      } else if IsSpace(c) {
        ScanSpaceless(text, i + 1, Flush(words, word), "");
      } else {
        ScanSpaceless(text, i + 1, words, word + [c]);
      }
    }
  }

  ghost predicate WordsSpaceless(tokens: seq<Token>, i: nat) {
    forall k | i <= k < |tokens| && tokens[k].Word? :: Spaceless(tokens[k].value)
  }

  /** Where every directive ends, every word of the tokens is in some entry. */
  lemma {:induction false} EveryWordListed(tokens: seq<Token>, i: nat, words: seq<string>)
    requires i <= |tokens| && Ended(tokens, i, words) && AllSpaceless(Listed(tokens, i, words))
    ensures (forall w | w in words :: Spaceless(w)) && WordsSpaceless(tokens, i)
    decreases |tokens| - i
  {
    if i < |tokens| {
      match tokens[i]
      case Word(value, _) =>
        EveryWordListed(tokens, i + 1, words + [value]);
        assert value in words + [value] && forall w | w in words :: w in words + [value];
      case _ =>
        var rest, all := Listed(tokens, i + 1, []), Listed(tokens, i, words);
        assert all[0].words == words && all[0] in all && all == [all[0]] + rest;
        EveryWordListed(tokens, i + 1, []);
    }
  }

  lemma {:induction false} UnquotedWord(text: string, i: nat, j: nat)
    requires i <= j <= |text| && Unquoted(text, i) && forall k | i <= k < j :: !EndsWord(text[k])
    ensures Unquoted(text, j)
    ensures Plain(text, i) <==> Spaceless(text[i..j]) && Plain(text, j)
    decreases j - i
  {
    if i < j {
      UnquotedWord(text, i + 1, j);
      assert text[i..j] == [text[i]] + text[i + 1..j];
    }
  }

  /** The text is plain exactly where no word the lexer reads holds a blank. */
  lemma {:induction false} PlainIffSpaceless(text: string, i: nat, line: nat)
    requires i <= |text| && Unquoted(text, i)
    ensures Lex(text, i, line).Ok? && (Plain(text, i) <==> WordsSpaceless(Lex(text, i, line).value, 0))
    decreases |text| - i
  {
    if i < |text| {
      var c := text[i];
      if c == '\n' {
        PlainIffSpaceless(text, i + 1, line + 1);
      } else if Blank(c) {
        PlainIffSpaceless(text, i + 1, line);
      } else if c == '#' {
        PlainIffSpaceless(text, LineEnd(text, i + 1), line);
      } else if Punctuation(c) {
        PlainIffSpaceless(text, i + 1, line);
        FirstSpaceless(Mark(c, line), Lex(text, i + 1, line).value);
      } else {
        var j := WordEnd(text, i + 1);
        UnquotedWord(text, i, j);
        PlainIffSpaceless(text, j, line);
        FirstSpaceless(Word(text[i..j], line), Lex(text, j, line).value);
      }
    }
  }

  lemma {:induction false} FirstSpaceless(t: Token, rest: seq<Token>)
    ensures WordsSpaceless([t] + rest, 0) <==> (t.Word? ==> Spaceless(t.value)) && WordsSpaceless(rest, 0)
  {
    var all := [t] + rest;
    assert all[0] == t && forall k | 1 <= k < |all| :: all[k] == rest[k - 1];
    if WordsSpaceless(all, 0) {
      forall k | 0 <= k < |rest| && rest[k].Word? ensures Spaceless(rest[k].value) { assert all[k + 1] == rest[k]; }
    }
  }

  /**
   * On every accepted text that opens no quote outside its comments, the scanner lists the parser's tree exactly where
   * no blank but nginx's own stands outside them, which is where no word the lexer reads holds one.
   */
  lemma {:induction false} ReadersAgreeIff(text: string)
    requires Unquoted(text) && Parse(text).Ok?
    ensures Statements(text) == Flatten(Parse(text).value) <==> Plain(text)
    ensures Plain(text) <==> forall t | t in Lex(text, 0, 1).value && t.Word? :: Spaceless(t.value)
  {
    var tokens := Lex(text, 0, 1).value;
    PlainIffSpaceless(text, 0, 1);
    if Plain(text) {
      ReadersAgree(text);
    } else if Statements(text) == Flatten(Parse(text).value) {
      ScanSpaceless(text, 0, [], "");
      BlockLists(tokens, 0, true, [], 0);
      BlockAcceptsIff(tokens, 0, true, [], 0, 0);
      assert Flatten(Parse(text).value) + [] == Flatten(Parse(text).value);
      EveryWordListed(tokens, 0, []);
    }
  }

  /**
   * The parser accepts a plain text exactly where the scanner's list nests and the lexer's last token ends a directive.
   */
  lemma {:induction false} ParserAcceptsIff(text: string)
    requires Plain(text)
    ensures Lex(text, 0, 1).Ok?
    ensures Parse(text).Ok? <==> Nested(Statements(text), 0) && Ended(Lex(text, 0, 1).value, 0, [])
  {
    ScanLists(text, 0, 1, []);
    BlockAcceptsIff(Lex(text, 0, 1).value, 0, true, [], 0, 0);
  }

  /** Every further character `str.isspace` takes parts the readers: one word to the lexer, two to the scanner. */
  lemma {:induction false} OtherWhitespaceParts(c: char)
    requires IsSpace(c) && !Blank(c)
    ensures var text := ['a', c, 'b', ';'];
      Parse(text) == Ok([Directive(text[..3], [], Bare, 1)]) && Statements(text) == [Entry(Statement, ["a", "b"])]
  {
    var text := ['a', c, 'b', ';'];
    assert !EndsWord(c) && !Quote(c);
    assert WordEnd(text, 3) == 3 && WordEnd(text, 2) == 3 && WordEnd(text, 1) == 3;
    assert Lex(text, 4, 1) == Ok([]);
    var last: seq<Token> := [Semicolon(1)];
    assert last + [] == last;
    assert Lex(text, 3, 1) == Then([Mark(';', 1)], Ok([])) == Ok(last);
    var tokens := [Word(text[0..3], 1), Semicolon(1)];
    assert [Word(text[0..3], 1)] + last == tokens;
    assert Lex(text, 0, 1) == Then([Word(text[0..3], 1)], Ok(last)) == Ok(tokens);
    assert Block(tokens, 2, true, [], 1) == Ok(Parsed([], 2));
    var tree := [Directive(text[..3], [], Bare, 1)];
    assert tree + [] == tree && [text[..3]][1..] == [];
    assert Block(tokens, 1, true, [text[..3]], 1) == Under(tree[0], Ok(Parsed([], 2))) == Ok(Parsed(tree, 2));
    assert text[0..3] == text[..3] && [] + [text[..3]] == [text[..3]];
    assert Block(tokens, 0, true, [], 0) == Block(tokens, 1, true, [text[..3]], 1);
    assert "" + ['a'] == "a" && "" + ['b'] == "b" && [] + ["a"] == ["a"];
    assert Scan(text, 4, [], "", None) == [];
    var entries := [Entry(Statement, ["a"] + ["b"])];
    assert entries + [] == entries && ["a"] + ["b"] == ["a", "b"];
    assert Scan(text, 3, ["a"], "b", None) == entries;
    assert Scan(text, 2, ["a"], "", None) == Scan(text, 3, ["a"], "" + ['b'], None);
    assert Scan(text, 1, [], "a", None) == Scan(text, 2, [] + ["a"], "", None);
    assert Scan(text, 0, [], "", None) == Scan(text, 1, [], "" + ['a'], None);
  }

  // ----- the list is the tree

  /** One tree but for the lines its directives stand on. */
  predicate SameTree(a: seq<Directive>, b: seq<Directive>) {
    |a| == |b| && (a == [] || (SameDirective(a[0], b[0]) && SameTree(a[1..], b[1..])))
  }

  predicate SameDirective(a: Directive, b: Directive) {
    && a.name == b.name && a.args == b.args
    && match (a.block, b.block)
       case (Bare, Bare) => true
       case (Braced(x), Braced(y)) => SameTree(x, y)
       case _ => false
  }

  predicate ClosesFirst(rest: seq<Entry>) {
    rest == [] || rest[0].kind == Closes
  }

  lemma {:induction false} FlattenInjective(a: seq<Directive>, b: seq<Directive>, x: seq<Entry>, y: seq<Entry>)
    requires Flatten(a) + x == Flatten(b) + y && ClosesFirst(x) && ClosesFirst(y)
    ensures SameTree(a, b) && x == y
    decreases a
  {
    if a == [] || b == [] {
      if a != [] { FirstEntry(a, x); }
      if b != [] { FirstEntry(b, y); }
      assert [] + x == x && [] + y == y;
    } else {
      assert Flatten(a) + x == FlattenOne(a[0]) + (Flatten(a[1..]) + x);
      assert Flatten(b) + y == FlattenOne(b[0]) + (Flatten(b[1..]) + y);
      FlattenOneInjective(a[0], b[0], Flatten(a[1..]) + x, Flatten(b[1..]) + y);
      FlattenInjective(a[1..], b[1..], x, y);
    }
  }

  lemma {:induction false} FirstEntry(a: seq<Directive>, x: seq<Entry>)
    requires a != []
    ensures !ClosesFirst(Flatten(a) + x)
  {
    var first := FlattenOne(a[0]);
    assert first != [] && first[0].kind != Closes;
    assert Flatten(a) + x == first + (Flatten(a[1..]) + x);
  }

  lemma {:induction false} FlattenOneInjective(a: Directive, b: Directive, x: seq<Entry>, y: seq<Entry>)
    requires FlattenOne(a) + x == FlattenOne(b) + y
    ensures SameDirective(a, b) && x == y
    decreases a
  {
    var all := FlattenOne(a) + x;
    assert all[0] == FlattenOne(a)[0] == FlattenOne(b)[0];
    assert WordsOf(a)[0] == WordsOf(b)[0] && WordsOf(a)[1..] == a.args && WordsOf(b)[1..] == b.args;
    if a.block.Bare? {
      assert all[1..] == x && all[1..] == y;
    } else {
      var c, d := [Entry(Closes, [])] + x, [Entry(Closes, [])] + y;
      assert all[1..] == Flatten(a.block.children) + c;
      assert all[1..] == Flatten(b.block.children) + d;
      FlattenInjective(a.block.children, b.block.children, c, d);
      assert c[1..] == x && d[1..] == y;
    }
  }

  /** Two accepted texts the scanner cannot tell apart hold one tree, so nothing the parser sees is lost to the list. */
  lemma {:induction false} ListDeterminesTree(s: string, t: string)
    requires Plain(s) && Plain(t) && Parse(s).Ok? && Parse(t).Ok? && Statements(s) == Statements(t)
    ensures SameTree(Parse(s).value, Parse(t).value)
  {
    ReadersAgree(s);
    ReadersAgree(t);
    FlattenInjective(Parse(s).value, Parse(t).value, [], []);
  }

  // ----- geo blocks

  datatype Arms = Arms(blocks: nat, arms: seq<seq<string>>)

  function Plus(a: Arms, b: Arms): Arms {
    Arms(a.blocks + b.blocks, a.arms + b.arms)
  }

  function Depth(depth: nat, kind: Kind): nat {
    if kind == Opens then depth + 1 else if kind == Closes && depth > 0 then depth - 1 else depth
  }

  function ArmsFrom(parsed: seq<Entry>, variable: string, depth: nat): Arms {
    if parsed == [] then Arms(0, [])
    else
      var (kind, words) := (parsed[0].kind, parsed[0].words);
      if depth > 0 then
        var depth' := Depth(depth, kind);
        Plus(Arms(0, if depth' == 1 && kind == Statement && words != [] then [words] else []),
          ArmsFrom(parsed[1..], variable, depth'))
      else if kind == Opens && words == ["geo", variable] then Plus(Arms(1, []), ArmsFrom(parsed[1..], variable, 1))
      else ArmsFrom(parsed[1..], variable, 0)
  }

  lemma {:induction false} PlusPlus(a: Arms, b: Arms, c: Arms)
    ensures Plus(a, Plus(b, c)) == Plus(Plus(a, b), c) && Plus(Arms(0, []), c) == c && Plus(a, Arms(0, [])) == a
  {
    assert a.arms + (b.arms + c.arms) == (a.arms + b.arms) + c.arms;
  }

  method GeoArms(parsed: seq<Entry>, variable: string) returns (blocks: nat, arms: seq<seq<string>>)
    ensures Arms(blocks, arms) == ArmsFrom(parsed, variable, 0)
  {
    blocks, arms := 0, [];
    var depth := 0;
    PlusPlus(Arms(0, []), Arms(0, []), ArmsFrom(parsed, variable, 0));
    for i := 0 to |parsed|
      invariant ArmsFrom(parsed, variable, 0) == Plus(Arms(blocks, arms), ArmsFrom(parsed[i..], variable, depth))
    {
      var kind, words := parsed[i].kind, parsed[i].words;
      ghost var before := Arms(blocks, arms);
      assert parsed[i..][0] == parsed[i] && parsed[i..][1..] == parsed[i + 1..];
      if depth > 0 {
        depth := Depth(depth, kind);
        if depth == 1 && kind == Statement && words != [] { arms := arms + [words]; }
      } else if kind == Opens && words == ["geo", variable] {
        blocks, depth := blocks + 1, 1;
      }
      PlusPlus(before, Arms(blocks - before.blocks, arms[|before.arms|..]), ArmsFrom(parsed[i + 1..], variable, depth));
    }
  }

  /** The statements directly under a block. */
  function Direct(tree: seq<Directive>): seq<seq<string>> {
    if tree == [] then [] else (if tree[0].block.Bare? then [WordsOf(tree[0])] else []) + Direct(tree[1..])
  }

  /**
   * Every outermost block named `geo <variable>`, at whatever level it stands, and the statements directly under it.
   */
  function Geo(tree: seq<Directive>, variable: string): Arms {
    if tree == [] then Arms(0, []) else Plus(GeoOne(tree[0], variable), Geo(tree[1..], variable))
  }

  function GeoOne(d: Directive, variable: string): Arms {
    match d.block
    case Bare => Arms(0, [])
    case Braced(children) =>
      if WordsOf(d) == ["geo", variable] then Arms(1, Direct(children)) else Geo(children, variable)
  }

  function Within(direct: seq<seq<string>>, depth: nat): Arms {
    Arms(0, if depth == 1 then direct else [])
  }

  /** Inside a matched block, the list contributes its own level's statements and nothing below. */
  lemma {:induction false} ArmsInside(tree: seq<Directive>, rest: seq<Entry>, variable: string, depth: nat)
    requires depth > 0
    ensures ArmsFrom(Flatten(tree) + rest, variable, depth)
      == Plus(Within(Direct(tree), depth), ArmsFrom(rest, variable, depth))
    decreases tree
  {
    if tree == [] {
      assert Flatten(tree) + rest == rest;
      PlusPlus(Arms(0, []), Arms(0, []), ArmsFrom(rest, variable, depth));
    } else {
      var d, after := tree[0], Flatten(tree[1..]) + rest;
      assert Flatten(tree) + rest == FlattenOne(d) + after;
      ArmsInsideOne(d, after, variable, depth);
      ArmsInside(tree[1..], rest, variable, depth);
      DirectJoined(tree, depth, ArmsFrom(rest, variable, depth));
    }
  }

  lemma {:induction false} DirectJoined(tree: seq<Directive>, depth: nat, rest: Arms)
    requires tree != []
    ensures Plus(Within(Direct([tree[0]]), depth), Plus(Within(Direct(tree[1..]), depth), rest))
      == Plus(Within(Direct(tree), depth), rest)
  {
    assert [tree[0]][1..] == [];
    assert Direct([tree[0]]) + Direct(tree[1..]) == Direct(tree);
    PlusPlus(Within(Direct([tree[0]]), depth), Within(Direct(tree[1..]), depth), rest);
  }

  lemma {:induction false} ArmsStep(entry: Entry, rest: seq<Entry>, variable: string, depth: nat)
    requires depth > 0
    ensures var depth' := Depth(depth, entry.kind);
      ArmsFrom([entry] + rest, variable, depth)
      == Plus(Within(if entry.kind == Statement && entry.words != [] then [entry.words] else [], depth'),
        ArmsFrom(rest, variable, depth'))
  {
    assert ([entry] + rest)[1..] == rest;
  }

  lemma {:induction false} Nothing(direct: seq<seq<string>>, depth: nat, rest: Arms)
    requires direct == [] || depth != 1
    ensures Plus(Within(direct, depth), rest) == rest
  {
  }

  lemma {:induction false} DirectOne(d: Directive)
    ensures Direct([d]) == if d.block.Bare? then [WordsOf(d)] else []
  {
    assert [d][1..] == [];
  }

  lemma {:induction false} BlockFlattened(d: Directive, after: seq<Entry>)
    requires d.block.Braced?
    ensures FlattenOne(d) + after == [Entry(Opens, WordsOf(d))]
      + (Flatten(d.block.children) + ([Entry(Closes, [])] + after))
  {
  }

  lemma {:induction false} ArmsInsideOne(d: Directive, after: seq<Entry>, variable: string, depth: nat)
    requires depth > 0
    ensures ArmsFrom(FlattenOne(d) + after, variable, depth)
      == Plus(Within(Direct([d]), depth), ArmsFrom(after, variable, depth))
    decreases d, 1
  {
    DirectOne(d);
    if d.block.Bare? {
      assert FlattenOne(d) == [Entry(Statement, WordsOf(d))];
      ArmsStated(WordsOf(d), after, variable, depth);
    } else {
      ArmsInsideBlock(d, after, variable, depth);
      Nothing([], depth, ArmsFrom(after, variable, depth));
    }
  }

  lemma {:induction false} ArmsInsideBlock(d: Directive, after: seq<Entry>, variable: string, depth: nat)
    requires depth > 0 && d.block.Braced?
    ensures ArmsFrom(FlattenOne(d) + after, variable, depth) == ArmsFrom(after, variable, depth)
    decreases d, 0
  {
    var children, closing := d.block.children, [Entry(Closes, [])] + after;
    BlockFlattened(d, after);
    ArmsOpens(WordsOf(d), Flatten(children) + closing, variable, depth);
    ArmsInside(children, closing, variable, depth + 1);
    BlockCloses(Direct(children), after, variable, depth);
  }

  lemma {:induction false} ArmsStated(words: seq<string>, rest: seq<Entry>, variable: string, depth: nat)
    requires depth > 0 && words != []
    ensures ArmsFrom([Entry(Statement, words)] + rest, variable, depth)
      == Plus(Within([words], depth), ArmsFrom(rest, variable, depth))
  {
    assert Depth(depth, Statement) == depth;
    ArmsStep(Entry(Statement, words), rest, variable, depth);
  }

  lemma {:induction false} ArmsOpens(words: seq<string>, rest: seq<Entry>, variable: string, depth: nat)
    requires depth > 0
    ensures ArmsFrom([Entry(Opens, words)] + rest, variable, depth) == ArmsFrom(rest, variable, depth + 1)
  {
    ArmsStep(Entry(Opens, words), rest, variable, depth);
    Nothing([], depth + 1, ArmsFrom(rest, variable, depth + 1));
  }

  lemma {:induction false} BlockCloses(direct: seq<seq<string>>, after: seq<Entry>, variable: string, depth: nat)
    requires depth > 0
    ensures Plus(Within(direct, depth + 1), ArmsFrom([Entry(Closes, [])] + after, variable, depth + 1))
      == ArmsFrom(after, variable, depth)
  {
    ArmsStep(Entry(Closes, []), after, variable, depth + 1);
    Nothing([], depth, ArmsFrom(after, variable, depth));
    Nothing(direct, depth + 1, ArmsFrom(after, variable, depth));
  }

  lemma {:induction false} ArmsOutside(tree: seq<Directive>, rest: seq<Entry>, variable: string)
    ensures ArmsFrom(Flatten(tree) + rest, variable, 0) == Plus(Geo(tree, variable), ArmsFrom(rest, variable, 0))
    decreases tree
  {
    if tree == [] {
      assert Flatten(tree) + rest == rest;
      PlusPlus(Arms(0, []), Arms(0, []), ArmsFrom(rest, variable, 0));
    } else {
      var after := Flatten(tree[1..]) + rest;
      assert Flatten(tree) + rest == FlattenOne(tree[0]) + after;
      ArmsOutsideOne(tree[0], after, variable);
      ArmsOutside(tree[1..], rest, variable);
      PlusPlus(GeoOne(tree[0], variable), Geo(tree[1..], variable), ArmsFrom(rest, variable, 0));
    }
  }

  lemma {:induction false} ArmsOutsideOne(d: Directive, after: seq<Entry>, variable: string)
    ensures ArmsFrom(FlattenOne(d) + after, variable, 0) == Plus(GeoOne(d, variable), ArmsFrom(after, variable, 0))
    decreases d
  {
    var all := FlattenOne(d) + after;
    if d.block.Bare? {
      assert all[0] == Entry(Statement, WordsOf(d)) && all[1..] == after;
    } else {
      var closing := [Entry(Closes, [])] + after;
      assert all[0] == Entry(Opens, WordsOf(d)) && all[1..] == Flatten(d.block.children) + closing;
      assert closing[1..] == after;
      if WordsOf(d) == ["geo", variable] {
        ArmsInside(d.block.children, closing, variable, 1);
        PlusPlus(Arms(1, []), Arms(0, Direct(d.block.children)), ArmsFrom(closing, variable, 1));
      } else {
        ArmsOutside(d.block.children, closing, variable);
      }
    }
    PlusPlus(Arms(0, []), Arms(0, []), ArmsFrom(after, variable, 0));
  }

  /** On an accepted plain text, the arms are the statements directly under the tree's outermost matching blocks. */
  lemma {:induction false} GeoArmsAreTheTrees(text: string, variable: string)
    requires Plain(text) && Parse(text).Ok?
    ensures ArmsFrom(Statements(text), variable, 0) == Geo(Parse(text).value, variable)
  {
    ReadersAgree(text);
    FlatArms(Parse(text).value, variable);
  }

  lemma {:induction false} FlatArms(tree: seq<Directive>, variable: string)
    ensures ArmsFrom(Flatten(tree), variable, 0) == Geo(tree, variable)
  {
    ArmsOutside(tree, [], variable);
    ArmsAlone(Flatten(tree), variable, Geo(tree, variable));
  }

  lemma {:induction false} ArmsAlone(parsed: seq<Entry>, variable: string, arms: Arms)
    requires ArmsFrom(parsed + [], variable, 0) == Plus(arms, ArmsFrom([], variable, 0))
    ensures ArmsFrom(parsed, variable, 0) == arms
  {
    NothingAfter(parsed);
    assert ArmsFrom([], variable, 0) == Arms(0, []);
    PlusPlus(arms, Arms(0, []), Arms(0, []));
  }

  lemma {:induction false} NothingAfter(parsed: seq<Entry>)
    ensures parsed + [] == parsed
  {
  }
}
