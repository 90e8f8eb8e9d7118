/**
 * A character class read as what it is written in: units that each name a character, and items that each name a set.
 */
module QuotingUnits {
  import opened PythonText
  import opened QuotingClass
  import opened Results

  // ----- units

  datatype Unit = Bare(c: char) | Marked(c: char) | Hexed(marker: char, digits: string)

  ghost predicate UnitOk(alnum: char -> bool, u: Unit) {
    match u
    case Bare(c) => c != '\\'
    case Marked(c) => c != 'u' && c != 'x' && !alnum(c)
    case Hexed(marker, digits) =>
      AllHex(digits) && ((marker == 'u' && |digits| == 4) || (marker == 'x' && |digits| == 2))
  }

  function Written(u: Unit): string {
    match u
    case Bare(c) => [c]
    case Marked(c) => "\\" + [c]
    case Hexed(marker, digits) => "\\" + [marker] + digits
  }

  ghost function AtomOf(u: Unit): Atom
    requires u.Hexed? ==> AllHex(u.digits)
  {
    match u
    case Bare(c) => Atom(c as nat, false)
    case Marked(c) => Atom(c as nat, true)
    case Hexed(_, digits) => Atom(FromHex(digits), true)
  }

  /** Either case of a letter. */
  lemma {:induction false} HexIff(c: char, v: nat)
    requires v < 16
    ensures IsHex(c) && HexValue(c) == v <==> c == "0123456789abcdef"[v] || c == "0123456789ABCDEF"[v]
  {
  }

  lemma {:induction false} HexDigits(s: string, c: char)
    requires AllHex(s) && IsHex(c)
    ensures FromHex("") == 0 && AllHex(s + [c]) && FromHex(s + [c]) == 16 * FromHex(s) + HexValue(c)
  {
    assert (s + [c])[..|s|] == s;
  }

  ghost predicate Opens(alnum: char -> bool, body: string, u: Unit) {
    UnitOk(alnum, u) && Written(u) <= body
  }

  lemma {:induction false} HexedOpens(alnum: char -> bool, body: string, width: nat)
    requires |body| >= 2 && body[0] == '\\' && ((body[1] == 'u' && width == 4) || (body[1] == 'x' && width == 2))
    ensures forall digits :: Opens(alnum, body, Hexed(body[1], digits)) <==>
      2 + width <= |body| && digits == body[2..2 + width] && AllHex(digits)
  {
    forall digits | 2 + width <= |body| && digits == body[2..2 + width]
      ensures Written(Hexed(body[1], digits)) <= body
    {
      assert "\\" + [body[1]] + digits == body[..2 + width];
    }
    forall digits | Opens(alnum, body, Hexed(body[1], digits)) ensures digits == body[2..2 + width] {
      assert digits == Written(Hexed(body[1], digits))[2..];
    }
  }

  /** An atom is read exactly where its unit opens the body. */
  lemma {:induction false} AtomIff(alnum: char -> bool, body: string, u: Unit)
    requires body != "" && UnitOk(alnum, u)
    ensures Written(u) <= body <==> FirstAtom(alnum, body) == Ok((AtomOf(u), |Written(u)|)) && Opens(alnum, body, u)
  {
    if Written(u) <= body {
      assert body[0] == Written(u)[0];
      if u.Hexed? {
        assert body[1] == Written(u)[1];
        HexedOpens(alnum, body, |u.digits|);
      } else if u.Marked? {
        assert body[1] == Written(u)[1];
      }
    }
  }

  lemma {:induction false} UnitRead(alnum: char -> bool, body: string) returns (u: Unit)
    requires body != "" && FirstAtom(alnum, body).Ok?
    ensures Opens(alnum, body, u) && FirstAtom(alnum, body) == Ok((AtomOf(u), |Written(u)|))
  {
    if body[0] != '\\' {
      u := Bare(body[0]);
    } else if body[1] != 'u' && body[1] != 'x' {
      u := Marked(body[1]);
      assert Written(u) == body[..2];
    } else {
      var width := if body[1] == 'u' then 4 else 2;
      HexedOpens(alnum, body, width);
      u := Hexed(body[1], body[2..2 + width]);
    }
  }

  /** What is refused, and how it is named. */
  ghost predicate Refuses(alnum: char -> bool, body: string, e: Unreadable) {
    && (forall u :: !Opens(alnum, body, u))
    && match e
       case EndsOnBackslash => body == "\\"
       case Shorthand(marker) => "\\" + [marker] <= body && marker != 'u' && marker != 'x'
       case NotHex(marker) => "\\" + [marker] <= body && (marker == 'u' || marker == 'x')
       case _ => false
  }

  lemma {:induction false} RefusedIff(alnum: char -> bool, body: string, e: Unreadable)
    requires body != ""
    ensures FirstAtom(alnum, body) == Err(e) <==> Refuses(alnum, body, e)
  {
    forall u | Opens(alnum, body, u) ensures FirstAtom(alnum, body).Ok? { AtomIff(alnum, body, u); }
    if FirstAtom(alnum, body).Ok? {
      var u := UnitRead(alnum, body);
    } else if |body| > 1 {
      assert body[..2] == "\\" + [body[1]];
    }
  }

  function TextOf(units: seq<Unit>): string {
    if units == [] then "" else Written(units[0]) + TextOf(units[1..])
  }

  ghost function AtomsOf(units: seq<Unit>): seq<Atom>
    requires forall u | u in units :: u.Hexed? ==> AllHex(u.digits)
  {
    if units == [] then [] else [AtomOf(units[0])] + AtomsOf(units[1..])
  }

  /** A body of units reads as theirs. */
  lemma {:induction false} UnitsRead(alnum: char -> bool, units: seq<Unit>)
    requires forall u | u in units :: UnitOk(alnum, u)
    ensures forall u | u in units :: u.Hexed? ==> AllHex(u.digits)
    ensures Atoms(alnum, TextOf(units)) == Ok(AtomsOf(units))
  {
    if units != [] {
      assert forall u | u in units[1..] :: u in units;
      UnitsRead(alnum, units[1..]);
      var u, rest := units[0], TextOf(units[1..]);
      AtomIff(alnum, Written(u) + rest, u);
      assert (Written(u) + rest)[|Written(u)|..] == rest;
    }
  }

  /** And a body that reads is one of units. */
  lemma {:induction false} ReadInUnits(alnum: char -> bool, body: string) returns (units: seq<Unit>)
    requires Atoms(alnum, body).Ok?
    ensures (forall u | u in units :: UnitOk(alnum, u)) && TextOf(units) == body
    decreases |body|
  {
    if body == "" {
      units := [];
    } else {
      var u := UnitRead(alnum, body);
      var rest := ReadInUnits(alnum, body[|Written(u)|..]);
      units := [u] + rest;
      assert units[1..] == rest && body == Written(u) + body[|Written(u)|..];
    }
  }

  // ----- items

  datatype Item = Single(point: Atom) | Range(lo: Atom, hi: Atom)

  function ItemAtoms(item: Item): seq<Atom> {
    match item
    case Single(point) => [point]
    case Range(lo, hi) => [lo, DASH, hi]
  }

  function AtomsOfItems(items: seq<Item>): seq<Atom> {
    if items == [] then [] else ItemAtoms(items[0]) + AtomsOfItems(items[1..])
  }

  /**
   * A bare hyphen between two atoms makes a range, the leftmost first: a single one stands before one only at the end.
   */
  ghost predicate Leftmost(items: seq<Item>) {
    forall i | 0 <= i < |items| - 1 && items[i].Single? && ItemAtoms(items[i + 1])[0] == DASH ::
      items[i + 1].Single? && i + 2 == |items|
  }

  ghost predicate Names(item: Item, p: nat) {
    match item
    case Single(point) => p == point.point
    case Range(lo, hi) => lo.point <= p <= hi.point
  }

  ghost predicate Forward(items: seq<Item>) {
    forall i | 0 <= i < |items| && items[i].Range? :: items[i].lo.point <= items[i].hi.point
  }

  lemma {:induction false} LeftmostRest(items: seq<Item>)
    requires Leftmost(items) && items != []
    ensures Leftmost(items[1..])
  {
    forall i | 0 <= i < |items| - 2 && items[1..][i].Single? && ItemAtoms(items[1..][i + 1])[0] == DASH
      ensures items[1..][i + 1].Single? && i + 3 == |items|
    {
      assert items[1..][i] == items[i + 1] && items[1..][i + 1] == items[i + 2];
    }
  }

  lemma {:induction false} ForwardRest(items: seq<Item>)
    requires items != []
    ensures Forward(items) <==>
      Forward(items[1..]) && (items[0].Range? ==> items[0].lo.point <= items[0].hi.point)
  {
    assert forall i | 1 <= i < |items| :: items[i] == items[1..][i - 1];
  }

  ghost predicate NamedBy(items: seq<Item>, p: nat) {
    exists i | 0 <= i < |items| :: Names(items[i], p)
  }

  lemma {:induction false} NamedRest(items: seq<Item>, p: nat)
    requires items != []
    ensures NamedBy(items, p) <==> Names(items[0], p) || NamedBy(items[1..], p)
  {
    assert forall i | 1 <= i < |items| :: items[i] == items[1..][i - 1];
  }

  /** A list of items expands to what they name, refused where a range runs backwards. */
  lemma {:induction false} ItemsExpand(items: seq<Item>)
    requires Leftmost(items)
    ensures if Forward(items) then
      Expanded(AtomsOfItems(items)).Ok? && forall p: nat ::
        p in Expanded(AtomsOfItems(items)).value <==> NamedBy(items, p)
      else Expanded(AtomsOfItems(items)) == Err(Backwards)
  {
    if items != [] {
      LeftmostRest(items);
      ForwardRest(items);
      ItemsExpand(items[1..]);
      FirstExpands(items[0], items[1..], AtomsOfItems(items));
      forall p: nat ensures NamedBy(items, p) <==> Names(items[0], p) || NamedBy(items[1..], p) {
        NamedRest(items, p);
      }
    }
  }

  lemma {:induction false} FirstExpands(item: Item, rest: seq<Item>, read: seq<Atom>)
    requires read == ItemAtoms(item) + AtomsOfItems(rest)
    requires item.Single? && rest != [] && ItemAtoms(rest[0])[0] == DASH ==> rest[0].Single? && |rest| == 1
    ensures item.Single? ==> Expanded(read) == United({item.point.point}, Expanded(AtomsOfItems(rest)))
    ensures item.Range? ==> Expanded(read) == if item.hi.point < item.lo.point then Err(Backwards)
      else United(Span(item.lo.point, item.hi.point), Expanded(AtomsOfItems(rest)))
  {
    var after := AtomsOfItems(rest);
    if item.Single? {
      assert read[1..] == after;
      if rest != [] { assert read[1] == ItemAtoms(rest[0])[0]; }
      assert |rest| == 1 && rest[0].Single? ==> |AtomsOfItems(rest)| == 1 by {
        if |rest| == 1 { assert AtomsOfItems(rest[1..]) == []; }
      }
    } else {
      assert read[3..] == after;
    }
  }

  /** Every list of atoms is one of items. */
  lemma {:induction false} InItems(read: seq<Atom>) returns (items: seq<Item>)
    ensures Leftmost(items) && AtomsOfItems(items) == read
    decreases |read|
  {
    if read == [] {
      items := [];
    } else if 2 < |read| && read[1] == DASH {
      var rest := InItems(read[3..]);
      items := [Range(read[0], read[2])] + rest;
      assert items[1..] == rest && read == [read[0], DASH, read[2]] + read[3..];
      LeftmostAfter(items[0], rest);
    } else {
      var rest := InItems(read[1..]);
      items := [Single(read[0])] + rest;
      assert items[1..] == rest && read == [read[0]] + read[1..];
      if rest != [] {
        assert read[1] == ItemAtoms(rest[0])[0];
        if read[1] == DASH { OneAtom(rest); }
      }
      LeftmostAfter(items[0], rest);
    }
  }

  lemma {:induction false} AsManyAtoms(items: seq<Item>)
    ensures |AtomsOfItems(items)| >= |items|
  {
    if items != [] { AsManyAtoms(items[1..]); }
  }

  lemma {:induction false} OneAtom(rest: seq<Item>)
    requires |AtomsOfItems(rest)| == 1
    ensures |rest| == 1 && rest[0].Single?
  {
    AsManyAtoms(rest[1..]);
  }

  lemma {:induction false} LeftmostAfter(item: Item, rest: seq<Item>)
    requires Leftmost(rest)
    requires item.Single? && rest != [] && ItemAtoms(rest[0])[0] == DASH ==> rest[0].Single? && |rest| == 1
    ensures Leftmost([item] + rest)
  {
    var items := [item] + rest;
    forall i | 0 <= i < |items| - 1 && items[i].Single? && ItemAtoms(items[i + 1])[0] == DASH
      ensures items[i + 1].Single? && i + 2 == |items|
    {
      assert items[i + 1] == rest[i];
      if i > 0 { assert items[i] == rest[i - 1]; }
    }
  }
}
