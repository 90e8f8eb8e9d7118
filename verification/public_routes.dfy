/**
 * Route handlers against the edge's locations: the URL a route file answers, the location nginx chooses for a URL,
 * and the accounting of every handler. Silence means what nginx would do, for every URL a handler answers.
 */
module PublicRoutes {
  import opened PythonText
  import opened Results

  // ----- the URL of a route file

  predicate IsWord(c: char) { 'A' <= c <= 'Z' || 'a' <= c <= 'z' || '0' <= c <= '9' }

  /** `^\([^()/]+\)$` on a whole name. */
  predicate GroupName(s: string) {
    |s| >= 3 && s[0] == '(' && s[|s| - 1] == ')' && forall i | 1 <= i < |s| - 1 :: s[i] !in "()/"
  }

  /** `^\[\[?(?:\.\.\.)?[A-Za-z0-9_]+\]?\]$` on a whole name. */
  predicate DynamicName(s: string) {
    && |s| >= 3 && s[0] == '[' && s[|s| - 1] == ']'
    && var a := if s[1] == '[' then 2 else 1;
       var b := if a + 3 <= |s| && s[a..a + 3] == "..." then a + 3 else a;
       var e := if s[|s| - 2] == ']' then |s| - 2 else |s| - 1;
       b < e && forall i | b <= i < e :: IsWord(s[i]) || s[i] == '_'
  }

  /** `^[A-Za-z0-9.~-][A-Za-z0-9._~-]*$` on a whole name. */
  predicate LiteralName(s: string) {
    s != "" && s[0] != '_' && forall i | 0 <= i < |s| :: IsWord(s[i]) || s[i] in "._~-"
  }

  /** A pattern's `$` stands before a closing line feed too. */
  function Chomped(s: string): string {
    if s != "" && s[|s| - 1] == '\n' then s[..|s| - 1] else s
  }

  predicate IsGroup(part: string) { GroupName(Chomped(part)) }
  predicate IsDynamic(part: string) { DynamicName(Chomped(part)) }
  predicate IsLiteral(part: string) { LiteralName(Chomped(part)) }

  datatype Route = Route(url: string, head: string, dynamic: bool)

  function Joined(segments: seq<string>): string {
    if segments == [] then "" else Join(segments, '/')
  }

  function Closed(parts: seq<string>): string {
    if parts == [] then "" else parts[0] + "/" + Closed(parts[1..])
  }

  function Kept(part: string): seq<string> { if IsGroup(part) then [] else [part] }

  /** The segments a URL keeps: every directory but a route group. */
  function Segments(parts: seq<string>): seq<string> {
    if parts == [] then [] else Kept(parts[0]) + Segments(parts[1..])
  }

  predicate Derivable(segments: seq<string>) {
    forall i | 0 <= i < |segments| :: IsDynamic(segments[i]) || IsLiteral(segments[i])
  }

  /** The segments before the first dynamic one. */
  function Static(segments: seq<string>): (head: seq<string>)
    ensures |head| <= |segments| && head == segments[..|head|]
    ensures forall i | 0 <= i < |head| :: !IsDynamic(head[i])
    ensures |head| < |segments| ==> IsDynamic(segments[|head|])
  {
    if segments == [] || IsDynamic(segments[0]) then [] else [segments[0]] + Static(segments[1..])
  }

  function RouteOf(segments: seq<string>): Route {
    var url, head := "/" + Joined(segments), Static(segments);
    var dynamic := |head| < |segments|;
    Route(url, if dynamic then "/" + Closed(head) else url, dynamic)
  }

  lemma {:induction false} SegmentsOneMore(parts: seq<string>, part: string)
    ensures Segments(parts + [part]) == Segments(parts) + Kept(part)
  {
    if parts == [] {
      assert parts + [part] == [part] && [part][1..] == [];
    } else {
      assert (parts + [part])[1..] == parts[1..] + [part];
      SegmentsOneMore(parts[1..], part);
    }
  }

  lemma {:induction false} SegmentsUpTo(parts: seq<string>, i: nat)
    requires i < |parts|
    ensures Segments(parts[..i + 1]) == Segments(parts[..i]) + Kept(parts[i])
  {
    assert parts[..i + 1] == parts[..i] + [parts[i]];
    SegmentsOneMore(parts[..i], parts[i]);
  }

  lemma {:induction false} StaticOneMore(segments: seq<string>, part: string)
    ensures Static(segments + [part])
      == if |Static(segments)| < |segments| || IsDynamic(part) then Static(segments) else Static(segments) + [part]
  {
    if segments == [] {
      assert segments + [part] == [part] && [part][1..] == [];
    } else {
      assert (segments + [part])[1..] == segments[1..] + [part];
      StaticOneMore(segments[1..], part);
    }
  }

  ghost predicate ReadSoFar(segments: seq<string>, head: seq<string>, dynamic: bool) {
    Derivable(segments) && head == Static(segments) && dynamic == (|head| < |segments|)
  }

  lemma {:induction false} ReadOneMore(segments: seq<string>, head: seq<string>, dynamic: bool, part: string)
    requires ReadSoFar(segments, head, dynamic) && (IsDynamic(part) || IsLiteral(part))
    ensures var now := dynamic || IsDynamic(part);
      ReadSoFar(segments + [part], if now then head else head + [part], now)
  {
    StaticOneMore(segments, part);
  }

  /** Refused at the first directory that is no group, dynamic or literal segment. */
  method UrlOf(parts: seq<string>) returns (route: Result<Route, string>)
    ensures route.Ok? <==> Derivable(Segments(parts))
    ensures route.Ok? ==> route.value == RouteOf(Segments(parts))
    ensures route.Err? ==> route.error in Segments(parts) && !IsDynamic(route.error) && !IsLiteral(route.error)
  {
    var segments: seq<string>, head: seq<string>, dynamic := [], [], false;
    for i := 0 to |parts|
      invariant segments == Segments(parts[..i]) && ReadSoFar(segments, head, dynamic)
    {
      var part := parts[i];
      SegmentsUpTo(parts, i);
      if IsGroup(part) { continue; }
      if !IsDynamic(part) && !IsLiteral(part) {
        NotDerivable(parts, i);
        return Err(part);
      }
      ReadOneMore(segments, head, dynamic, part);
      if IsDynamic(part) { dynamic := true; }
      segments := segments + [part];
      if !dynamic { head := head + [part]; }
    }
    assert parts[..|parts|] == parts;
    var url := "/" + Joined(segments);
    route := Ok(Route(url, if dynamic then "/" + Closed(head) else url, dynamic));
  }

  lemma {:induction false} NotDerivable(parts: seq<string>, i: nat)
    requires i < |parts| && !IsGroup(parts[i])
    ensures parts[i] in Segments(parts)
  {
    if i > 0 { NotDerivable(parts[1..], i - 1); }
  }

  // ----- which directories make a URL

  ghost predicate Ended(part: string, name: string) {
    part == name || part == name + "\n"
  }

  lemma {:induction false} EndedIff(part: string, name: string)
    requires name != "" && name[|name| - 1] != '\n'
    ensures Ended(part, name) <==> Chomped(part) == name
  {
    assert Ended(part, name + "\n") || Chomped(part) != name || part == name || part == name + "\n";
  }

  ghost predicate GroupNamed(part: string, name: string) {
    && name != "" && (forall i | 0 <= i < |name| :: name[i] != '(' && name[i] != ')' && name[i] != '/')
    && Ended(part, "(" + name + ")")
  }

  /** A directory is a route group exactly where it is a name in one pair of parentheses. */
  lemma {:induction false} GroupIff(part: string)
    ensures IsGroup(part) <==> exists name :: GroupNamed(part, name)
  {
    if IsGroup(part) {
      var s := Chomped(part);
      var name := s[1..|s| - 1];
      assert s == "(" + name + ")";
      EndedIff(part, s);
      assert GroupNamed(part, name);
    }
    forall name | GroupNamed(part, name) ensures IsGroup(part) {
      EndedIff(part, "(" + name + ")");
    }
  }

  lemma {:induction false} SegmentsConcat(a: seq<string>, b: seq<string>)
    ensures Segments(a + b) == Segments(a) + Segments(b)
  {
    if a == [] {
      assert a + b == b && [] + Segments(b) == Segments(b);
    } else {
      var rest := a[1..];
      assert (a + b)[1..] == rest + b && (a + b)[0] == a[0];
      SegmentsConcat(rest, b);
      assert Kept(a[0]) + (Segments(rest) + Segments(b)) == (Kept(a[0]) + Segments(rest)) + Segments(b);
    }
  }

  lemma {:induction false} SegmentsAround(a: seq<string>, part: string, b: seq<string>)
    ensures Segments(a + [part] + b) == Segments(a) + Kept(part) + Segments(b)
  {
    SegmentsConcat(a + [part], b);
    SegmentsOneMore(a, part);
  }

  /** A group is left out wherever it stands, so that the two paths answer one URL. */
  lemma {:induction false} GroupLeftOut(a: seq<string>, part: string, name: string, b: seq<string>)
    requires GroupNamed(part, name)
    ensures Segments(a + [part] + b) == Segments(a + b)
  {
    GroupIff(part);
    SegmentsAround(a, part, b);
    SegmentsConcat(a, b);
  }

  /** Any other directory is kept in its place. */
  lemma {:induction false} DirectoryKept(a: seq<string>, part: string, b: seq<string>)
    requires forall name :: !GroupNamed(part, name)
    ensures Segments(a + [part] + b) == Segments(a) + [part] + Segments(b)
  {
    GroupIff(part);
    SegmentsAround(a, part, b);
  }

  lemma {:induction false} WordIff(c: char)
    ensures IsWord(c) <==> 48 <= c as int < 58 || 65 <= c as int < 91 || 97 <= c as int < 123
  {
  }

  ghost predicate DynamicNamed(part: string, open: string, dots: string, name: string, close: string) {
    && open in {"[", "[["} && dots in {"", "..."} && close in {"]", "]]"}
    && name != "" && (forall i | 0 <= i < |name| :: IsWord(name[i]) || name[i] == '_')
    && Ended(part, open + dots + name + close)
  }

  lemma {:induction false} DynamicIff(part: string)
    ensures IsDynamic(part) <==> exists open, dots, name, close :: DynamicNamed(part, open, dots, name, close)
  {
    if IsDynamic(part) { var open, dots, name, close := DynamicSplit(part); }
    forall open, dots, name, close | DynamicNamed(part, open, dots, name, close) ensures IsDynamic(part) {
      DynamicReads(part, open, dots, name, close);
    }
  }

  lemma {:induction false} DynamicSplit(part: string)
    returns (open: string, dots: string, name: string, close: string)
    requires IsDynamic(part)
    ensures DynamicNamed(part, open, dots, name, close)
  {
    var s := Chomped(part);
    var a := if s[1] == '[' then 2 else 1;
    var b := if a + 3 <= |s| && s[a..a + 3] == "..." then a + 3 else a;
    var e := if s[|s| - 2] == ']' then |s| - 2 else |s| - 1;
    open, dots, name, close := s[..a], s[a..b], s[b..e], s[e..];
    DynamicParts(open, dots, close);
    FourParts(s, a, b, e);
    EndedIff(part, s);
  }

  lemma {:induction false} FourParts(s: string, a: nat, b: nat, e: nat)
    requires a <= b <= e <= |s|
    ensures s == s[..a] + s[a..b] + s[b..e] + s[e..]
  {
  }

  lemma {:induction false} DynamicParts(open: string, dots: string, close: string)
    requires 0 < |open| <= 2 && 0 < |close| <= 2 && (|dots| == 3 ==> dots == "...") && (|dots| in {0, 3})
    requires (forall i | 0 <= i < |open| :: open[i] == '[') && (forall i | 0 <= i < |close| :: close[i] == ']')
    ensures open in {"[", "[["} && dots in {"", "..."} && close in {"]", "]]"}
  {
    assert open == if |open| == 1 then "[" else "[[";
    assert close == if |close| == 1 then "]" else "]]";
  }

  lemma {:induction false} DynamicShape(s: string, a: nat, b: nat, e: nat)
    requires 1 <= a <= 2 && a <= b < e < |s| && |s| - e <= 2 && (b == a || b == a + 3)
    requires (forall i | 0 <= i < a :: s[i] == '[') && (forall i | e <= i < |s| :: s[i] == ']')
    requires (forall i | a <= i < b :: s[i] == '.') && forall i | b <= i < e :: IsWord(s[i]) || s[i] == '_'
    ensures DynamicName(s)
  {
    assert IsWord(s[b]) || s[b] == '_';
    assert s[a] != '[';
    assert IsWord(s[e - 1]) || s[e - 1] == '_';
    assert b == a + 3 ==> s[a..a + 3] == "...";
    assert b == a ==> s[a] != '.';
  }

  lemma {:induction false} DynamicReads(part: string, open: string, dots: string, name: string, close: string)
    requires DynamicNamed(part, open, dots, name, close)
    ensures IsDynamic(part)
  {
    var s, a, b := open + dots + name + close, |open|, |open| + |dots|;
    var e := b + |name|;
    EndedIff(part, s);
    forall i | b <= i < e ensures IsWord(s[i]) || s[i] == '_' { assert s[i] == name[i - b]; }
    forall i | 0 <= i < a ensures s[i] == '[' { assert s[i] == open[i]; }
    forall i | a <= i < b ensures s[i] == '.' { assert s[i] == dots[i - a]; }
    forall i | e <= i < |s| ensures s[i] == ']' { assert s[i] == close[i - e]; }
    DynamicShape(s, a, b, e);
  }

  /**
   * A directory is a literal segment exactly where its name is made of unreserved characters, the first no underscore.
   */
  lemma {:induction false} LiteralIff(part: string)
    ensures IsLiteral(part) <==> exists name ::
      && Ended(part, name) && name != "" && name[0] != '_'
      && forall i | 0 <= i < |name| :: IsWord(name[i]) || name[i] in ".~-_"
  {
    if IsLiteral(part) { EndedIff(part, Chomped(part)); }
    forall name | Ended(part, name) && name != "" && name[0] != '_'
      && forall i | 0 <= i < |name| :: IsWord(name[i]) || name[i] in ".~-_"
      ensures IsLiteral(part)
    {
      EndedIff(part, name);
    }
  }

  // ----- the URLs a handler answers

  predicate IsSegment(s: string) { s != "" && '/' !in s }

  predicate IsCatchAll(part: string) { "[..." <= part || "[[..." <= part }

  /** A dynamic segment is filled by one segment, a catch-all by one or more. */
  ghost predicate Fills(pattern: seq<string>, segments: seq<string>) {
    if pattern == [] then segments == []
    else if !IsDynamic(pattern[0]) then
      segments != [] && segments[0] == pattern[0] && Fills(pattern[1..], segments[1..])
    else exists k | 1 <= k <= |segments| ::
      && (!IsCatchAll(pattern[0]) ==> k == 1)
      && (forall i | 0 <= i < k :: IsSegment(segments[i])) && Fills(pattern[1..], segments[k..])
  }

  function Slashed(segments: seq<string>): string {
    if segments == [] then "" else "/" + segments[0] + Slashed(segments[1..])
  }

  lemma {:induction false} JoinedSlashed(segments: seq<string>)
    requires segments != []
    ensures "/" + Joined(segments) == Slashed(segments)
  {
    if |segments| == 1 {
      assert Slashed(segments[1..]) == "";
    } else {
      JoinedSlashed(segments[1..]);
      assert Joined(segments) == segments[0] + ("/" + Joined(segments[1..]));
    }
  }

  /** The URL is every segment after a slash, and the root's a slash alone. */
  lemma {:induction false} UrlIs(segments: seq<string>)
    ensures RouteOf(segments).url == if segments == [] then "/" else Slashed(segments)
  {
    if segments != [] { JoinedSlashed(segments); }
  }

  lemma {:induction false} ClosedSlashed(parts: seq<string>)
    ensures "/" + Closed(parts) == Slashed(parts) + "/"
  {
    if parts != [] {
      ClosedSlashed(parts[1..]);
      assert "/" + (parts[0] + "/" + Closed(parts[1..])) == "/" + parts[0] + ("/" + Closed(parts[1..]));
    }
  }

  lemma {:induction false} SlashedJoined(a: seq<string>, b: seq<string>)
    ensures Slashed(a + b) == Slashed(a) + Slashed(b)
  {
    if a == [] {
      assert a + b == b;
    } else {
      assert (a + b)[1..] == a[1..] + b;
      SlashedJoined(a[1..], b);
    }
  }

  lemma {:induction false} FillsStart(pattern: seq<string>, segments: seq<string>)
    requires Fills(pattern, segments)
    ensures var head := Static(pattern);
      |head| <= |segments| && segments[..|head|] == head && (|head| == |pattern| ==> |head| == |segments|)
      && (|head| < |pattern| ==> |head| < |segments| && IsSegment(segments[|head|]))
  {
    if pattern != [] {
      if IsDynamic(pattern[0]) {
        assert Static(pattern) == [] && segments[..0] == [];
      } else {
        FillsStart(pattern[1..], segments[1..]);
        var rest := Static(pattern[1..]);
        assert Static(pattern) == [pattern[0]] + rest;
        assert segments[..|rest| + 1] == [segments[0]] + segments[1..][..|rest|];
      }
    }
  }

  /** An optional catch-all among them: it is filled by several segments as one that is not. */
  lemma {:induction false} CatchAllsFilled(name: string, segments: seq<string>)
    requires segments != [] && forall i | 0 <= i < |segments| :: IsSegment(segments[i])
    requires name != "" && forall i | 0 <= i < |name| :: IsWord(name[i]) || name[i] == '_'
    ensures Fills(["[..." + name + "]"], segments) && Fills(["[[..." + name + "]]"], segments)
  {
    CatchAllNamed(name);
    CatchAllFilled("[..." + name + "]", segments);
    CatchAllFilled("[[..." + name + "]]", segments);
  }

  lemma {:induction false} CatchAllNamed(name: string)
    requires name != "" && forall i | 0 <= i < |name| :: IsWord(name[i]) || name[i] == '_'
    ensures IsDynamic("[..." + name + "]") && IsCatchAll("[..." + name + "]")
    ensures IsDynamic("[[..." + name + "]]") && IsCatchAll("[[..." + name + "]]")
  {
    var one, optional := "[..." + name + "]", "[[..." + name + "]]";
    assert one[1..4] == "..." && one[4..|one| - 1] == name;
    assert optional[2..5] == "..." && optional[5..|optional| - 2] == name;
    forall i | 4 <= i < |one| - 1 ensures IsWord(one[i]) || one[i] == '_' { assert one[i] == name[i - 4]; }
    forall i | 5 <= i < |optional| - 2 ensures IsWord(optional[i]) || optional[i] == '_' {
      assert optional[i] == name[i - 5];
    }
  }

  lemma {:induction false} CatchAllFilled(part: string, segments: seq<string>)
    requires segments != [] && (forall i | 0 <= i < |segments| :: IsSegment(segments[i]))
    requires IsDynamic(part) && IsCatchAll(part)
    ensures Fills([part], segments)
  {
    assert Fills([part][1..], segments[|segments|..]);
  }

  ghost function UrlOfFill(segments: seq<string>): string {
    "/" + Joined(segments)
  }

  /**
   * A handler without a dynamic segment answers its URL alone; one with it, URLs that go on from its head with a
   * segment.
   */
  lemma {:induction false} AnswersUnderHead(pattern: seq<string>, segments: seq<string>)
    requires Fills(pattern, segments)
    ensures var route, n := RouteOf(pattern), |Static(pattern)|;
      if route.dynamic then n < |segments| && IsSegment(segments[n]) && route.head + segments[n] <= UrlOfFill(segments)
      else UrlOfFill(segments) == route.url
  {
    FillsStart(pattern, segments);
    var head := Static(pattern);
    if |head| < |pattern| {
      assert segments == head + segments[|head|..];
      UrlGoesOn(head, segments[|head|..]);
    } else {
      assert segments == segments[..|head|] && pattern == pattern[..|head|];
    }
  }

  lemma {:induction false} UrlGoesOn(head: seq<string>, rest: seq<string>)
    requires rest != []
    ensures "/" + Closed(head) + rest[0] <= UrlOfFill(head + rest)
  {
    SlashedJoined(head, rest);
    JoinedSlashed(head + rest);
    ClosedSlashed(head);
    SlashBetween(Slashed(head), rest[0], Slashed(rest[1..]));
  }

  lemma {:induction false} SlashBetween(a: string, b: string, t: string)
    ensures a + "/" + b <= a + ("/" + b + t)
  {
    assert a + ("/" + b + t) == a + "/" + b + t;
  }

  /** Every dynamic segment filled alike. */
  function FilledWith(pattern: seq<string>, s: string): seq<string> {
    if pattern == [] then [] else [if IsDynamic(pattern[0]) then s else pattern[0]] + FilledWith(pattern[1..], s)
  }

  lemma {:induction false} FilledFills(pattern: seq<string>, s: string)
    requires IsSegment(s)
    ensures Fills(pattern, FilledWith(pattern, s)) && |FilledWith(pattern, s)| == |pattern|
    ensures forall i | 0 <= i < |pattern| && IsDynamic(pattern[i]) :: FilledWith(pattern, s)[i] == s
  {
    if pattern != [] {
      FilledFills(pattern[1..], s);
      assert FilledWith(pattern, s)[1..] == FilledWith(pattern[1..], s);
    }
  }

  lemma {:induction false} CharJoined(segments: seq<string>, i: nat, c: char)
    requires i < |segments| && c in segments[i]
    ensures c in Joined(segments)
  {
    if i > 0 { CharJoined(segments[1..], i - 1, c); }
  }

  /** No literal path is a dynamic handler's URL: it keeps the bracket. */
  lemma {:induction false} DynamicBracketed(segments: seq<string>)
    requires RouteOf(segments).dynamic
    ensures '[' in RouteOf(segments).url
  {
    var i := |Static(segments)|;
    assert segments[i][0] == '[';
    CharJoined(segments, i, '[');
  }
}
