/**
 * The counts behind the daily ceiling: rows keyed by a string of counter, pseudonym and day, raised atomically,
 * carried to another pseudonym at an address change and removed by an erasure.
 */
module DailyCounts {
  import opened PythonText
  import opened Results

  const BUDGETS: map<string, nat> :=
    map["kontakt" := 300, "spieler" := 20, "schiedsrichter" := 100, "adresswechsel" := 10]

  datatype Row = Row(n: nat, ablauf: int)

  /** What a key stands for. A pseudonym is a keyed hash in hexadecimal, so it holds no colon. */
  datatype Slot = Slot(zaehler: string, pseudonym: string, day: string) {
    predicate Fits() { zaehler in BUDGETS && ':' !in pseudonym }

    function Key(): string { CountPrefix(zaehler, pseudonym) + day }
  }

  function CountPrefix(zaehler: string, pseudonym: string): string {
    zaehler + ":" + pseudonym + ":"
  }

  /** `s.replace(a, b, 1)`. */
  function ReplaceFirst(s: string, a: string, b: string): string {
    if a <= s then b + s[|a|..] else if s == "" then "" else [s[0]] + ReplaceFirst(s[1..], a, b)
  }

  lemma {:induction false} ColonParts(a: string, s: string, b: string, t: string)
    requires ':' !in a && ':' !in b
    ensures a + ":" <= b + ":" + t ==> a == b
    ensures a + ":" + s == b + ":" + t ==> a == b && s == t
  {
    var left, right := a + ":", b + ":" + t;
    FindUnique(right, ':', |b|);
    if left <= right {
      forall i | 0 <= i < |a| ensures right[i] != ':' { assert left[i] == a[i]; }
      assert right[|a|] == left[|a|] == ':';
      FindUnique(right, ':', |a|);
      assert a == right[..|a|] == b;
    }
    if left + s == right {
      assert left <= right;
      assert s == (left + s)[|left|..] == right[|left|..] == t;
    }
  }

  /** The prefix a filter names picks out that counter and pseudonym, every day of them, and no other row. */
  lemma {:induction false} PrefixSelects(zaehler: string, pseudonym: string, slot: Slot)
    requires slot.Fits() && zaehler in BUDGETS && ':' !in pseudonym
    ensures CountPrefix(zaehler, pseudonym) <= slot.Key() <==> slot.zaehler == zaehler && slot.pseudonym == pseudonym
  {
    var rest := slot.pseudonym + ":" + slot.day;
    assert slot.Key() == slot.zaehler + ":" + rest;
    if CountPrefix(zaehler, pseudonym) <= slot.Key() {
      assert zaehler + ":" <= CountPrefix(zaehler, pseudonym) <= slot.zaehler + ":" + rest;
      ColonParts(zaehler, "", slot.zaehler, rest);
      var k := |zaehler| + 1;
      assert pseudonym + ":" == CountPrefix(zaehler, pseudonym)[k..] <= slot.Key()[k..] == rest;
      ColonParts(pseudonym, "", slot.pseudonym, slot.day);
    }
    if slot.zaehler == zaehler && slot.pseudonym == pseudonym {
      assert slot.Key()[..|CountPrefix(zaehler, pseudonym)|] == CountPrefix(zaehler, pseudonym);
    }
  }

  lemma {:induction false} KeyInjective(a: Slot, b: Slot)
    requires a.Fits() && b.Fits() && a.Key() == b.Key()
    ensures a == b
  {
    PrefixSelects(a.zaehler, a.pseudonym, a);
    PrefixSelects(a.zaehler, a.pseudonym, b);
    var k := |CountPrefix(a.zaehler, a.pseudonym)|;
    assert a.day == a.Key()[k..] == b.Key()[k..] == b.day;
  }

  lemma {:induction false} ReplacedAfter(before: string, a: string, b: string, rest: string)
    requires ':' !in before && a != "" && a[0] == ':'
    ensures ReplaceFirst(before + a + rest, a, b) == before + b + rest
  {
    var s := before + a + rest;
    if before == "" {
      assert s == a + rest && s[|a|..] == rest;
      assert before + b + rest == b + rest;
    } else {
      assert s[0] == before[0] && !(a <= s);
      assert s[1..] == before[1..] + a + rest;
      ReplacedAfter(before[1..], a, b, rest);
      assert [before[0]] + (before[1..] + b + rest) == before + b + rest;
    }
  }

  lemma {:induction false} ReplacesNothing(s: string, a: string, b: string)
    requires forall i | 0 <= i <= |s| :: !(a <= s[i..])
    ensures ReplaceFirst(s, a, b) == s
  {
    assert !(a <= s[0..]) && s[0..] == s;
    if s != "" {
      forall i | 0 <= i <= |s[1..]| ensures !(a <= s[1..][i..]) { assert s[1..][i..] == s[i + 1..]; }
      ReplacesNothing(s[1..], a, b);
    }
  }

  /** The one textual replacement moves the row to the other pseudonym, its counter and day kept. */
  lemma {:induction false} ReplaceRekeys(slot: Slot, neu: string)
    requires slot.Fits()
    ensures ReplaceFirst(slot.Key(), ":" + slot.pseudonym + ":", ":" + neu + ":") == slot.(pseudonym := neu).Key()
  {
    KeyParts(slot);
    KeyParts(slot.(pseudonym := neu));
    ReplacedAfter(slot.zaehler, ":" + slot.pseudonym + ":", ":" + neu + ":", slot.day);
  }

  lemma {:induction false} KeyParts(slot: Slot)
    ensures slot.Key() == slot.zaehler + (":" + slot.pseudonym + ":") + slot.day
  {
  }

  // ----- what the rows stand for

  type Book = map<Slot, Row>

  function At(book: Book, slot: Slot): Option<Row> {
    if slot in book then Some(book[slot]) else None
  }

  function N(book: Book, slot: Slot): nat {
    if slot in book then book[slot].n else 0
  }

  /** `$inc` of `n`, `ablauf` set where the row is new. */
  function Joined(row: Option<Row>, n: nat, ablauf: int): Row {
    if row.None? then Row(n, ablauf) else Row(row.value.n + n, row.value.ablauf)
  }

  function Raised(book: Book, slot: Slot, ablauf: int): Book {
    book[slot := Joined(At(book, slot), 1, ablauf)]
  }

  function Onto(row: Option<Row>, from: Option<Row>): Option<Row> {
    if from.None? then row else Some(Joined(row, from.value.n, from.value.ablauf))
  }

  /** Each day's count of `alt` joins `neu`'s; and `alt` is left with none, even where it is `neu`. */
  function CarriedAt(book: Book, slot: Slot, alt: string, neu: string): Option<Row> {
    if slot.pseudonym == alt then None
    else if slot.pseudonym == neu then Onto(At(book, slot), At(book, slot.(pseudonym := alt)))
    else At(book, slot)
  }

  ghost predicate Carried(book: Book, alt: string, neu: string, after: Book) {
    forall slot: Slot :: At(after, slot) == CarriedAt(book, slot, alt, neu)
  }

  function Removed(book: Book, pseudonym: string, zaehler: set<string>): Book {
    map slot | slot in book && !(slot.pseudonym == pseudonym && slot.zaehler in zaehler) :: book[slot]
  }

  ghost predicate Shows(rows: map<string, Row>, book: Book) {
    && (forall slot | slot in book :: slot.Fits() && slot.Key() in rows && rows[slot.Key()] == book[slot])
    && (forall k | k in rows :: exists slot | slot in book :: slot.Key() == k)
  }

  lemma {:induction false} ShowsAt(rows: map<string, Row>, book: Book, slot: Slot)
    requires Shows(rows, book) && slot.Fits()
    ensures slot.Key() in rows <==> slot in book
    ensures slot in book ==> rows[slot.Key()] == book[slot]
  {
    if slot.Key() in rows {
      var other :| other in book && other.Key() == slot.Key();
      KeyInjective(slot, other);
    }
  }

  lemma {:induction false} ShowsPut(rows: map<string, Row>, book: Book, slot: Slot, row: Row)
    requires Shows(rows, book) && slot.Fits()
    ensures Shows(rows[slot.Key() := row], book[slot := row])
  {
    var rows', book' := rows[slot.Key() := row], book[slot := row];
    forall other | other in book' ensures other.Fits() && other.Key() in rows' && rows'[other.Key()] == book'[other] {
      if other != slot && other.Key() == slot.Key() { KeyInjective(other, slot); }
    }
    forall k | k in rows' ensures exists other | other in book' :: other.Key() == k {
      if k == slot.Key() {
        assert slot in book';
      } else {
        var other :| other in book && other.Key() == k;
        assert other in book';
      }
    }
  }

  predicate Matches(key: string, pseudonym: string, zaehler: set<string>) {
    exists z | z in zaehler :: CountPrefix(z, pseudonym) <= key
  }

  lemma {:induction false} MatchesIff(slot: Slot, pseudonym: string, zaehler: set<string>)
    requires slot.Fits() && zaehler <= BUDGETS.Keys && ':' !in pseudonym
    ensures Matches(slot.Key(), pseudonym, zaehler) <==> slot.pseudonym == pseudonym && slot.zaehler in zaehler
  {
    forall z | z in zaehler
      ensures CountPrefix(z, pseudonym) <= slot.Key() <==> slot.zaehler == z && slot.pseudonym == pseudonym
    {
      PrefixSelects(z, pseudonym, slot);
    }
  }

  function Matching(rows: map<string, Row>, pseudonym: string, zaehler: set<string>): set<string> {
    set k | k in rows && Matches(k, pseudonym, zaehler)
  }

  lemma {:induction false} ShowsRemoved(rows: map<string, Row>, book: Book, pseudonym: string, zaehler: set<string>)
    requires Shows(rows, book) && zaehler <= BUDGETS.Keys && ':' !in pseudonym
    ensures Shows(rows - Matching(rows, pseudonym, zaehler), Removed(book, pseudonym, zaehler))
  {
    var left, kept := rows - Matching(rows, pseudonym, zaehler), Removed(book, pseudonym, zaehler);
    forall slot | slot in kept ensures slot.Fits() && slot.Key() in left && left[slot.Key()] == kept[slot] {
      MatchesIff(slot, pseudonym, zaehler);
    }
    forall k | k in left ensures exists slot | slot in kept :: slot.Key() == k {
      var slot :| slot in book && slot.Key() == k;
      MatchesIff(slot, pseudonym, zaehler);
      assert slot in kept;
    }
  }

  /** The rows carried so far, `alt`'s own not yet removed. */
  ghost predicate Moving(before: Book, now: Book, alt: string, neu: string, done: set<string>) {
    forall slot: Slot :: At(now, slot) == MovingAt(before, slot, alt, neu, done)
  }

  ghost function MovingAt(before: Book, slot: Slot, alt: string, neu: string, done: set<string>): Option<Row> {
    var from := slot.(pseudonym := alt);
    if slot.pseudonym == neu && from in before && from.Key() in done then
      Onto(At(before, slot), At(before, from))
    else At(before, slot)
  }

  lemma {:induction false} MovesOne(before: Book, now: Book, from: Slot, neu: string, done: set<string>)
    requires Moving(before, now, from.pseudonym, neu, done)
    requires forall slot | slot in before :: slot.Fits()
    requires from in before && from.Key() !in done && ':' !in neu
    ensures var target := from.(pseudonym := neu);
      Moving(before, now[target := Joined(At(now, target), before[from].n, before[from].ablauf)], from.pseudonym, neu,
        done + {from.Key()})
  {
    var target := from.(pseudonym := neu);
    var alt, now' := from.pseudonym, now[target := Joined(At(now, target), before[from].n, before[from].ablauf)];
    forall slot: Slot ensures At(now', slot) == MovingAt(before, slot, alt, neu, done + {from.Key()}) {
      assert At(now, slot) == MovingAt(before, slot, alt, neu, done);
      var other := slot.(pseudonym := alt);
      if slot.pseudonym == neu && other in before && other.Key() == from.Key() { KeyInjective(other, from); }
    }
  }

  lemma {:induction false} MovedAll(before: Book, now: Book, alt: string, neu: string, done: set<string>)
    requires Moving(before, now, alt, neu, done)
    requires forall slot | slot in before :: slot.Fits() && (slot.pseudonym == alt ==> slot.Key() in done)
    ensures Carried(before, alt, neu, Removed(now, alt, BUDGETS.Keys))
  {
    forall slot: Slot ensures At(Removed(now, alt, BUDGETS.Keys), slot) == CarriedAt(before, slot, alt, neu) {
      assert At(now, slot) == MovingAt(before, slot, alt, neu, done);
      var from := slot.(pseudonym := alt);
      if slot.pseudonym == alt && slot in now {
        assert slot in before || from in before;
      }
    }
  }

  lemma {:induction false} CarriedDetermines(book: Book, alt: string, neu: string, a: Book, b: Book)
    requires Carried(book, alt, neu, a) && Carried(book, alt, neu, b)
    ensures a == b
  {
    forall slot: Slot ensures At(a, slot) == At(b, slot) { }
    forall slot | slot in a ensures slot in b && a[slot] == b[slot] { assert At(a, slot) == At(b, slot); }
    forall slot | slot in b ensures slot in a { assert At(a, slot) == At(b, slot); }
  }

  class Counts {
    var rows: map<string, Row>
    ghost var book: Book

    ghost predicate Valid()
      reads this
    {
      Shows(rows, book)
    }

    constructor ()
      ensures Valid() && book == map[]
    {
      rows, book := map[], map[];
    }

    /** `$inc` of `n` under this key, the row made where there is none. */
    method Upsert(key: string, n: nat, ablauf: int, ghost slot: Slot) returns (row: Row)
      requires Valid() && slot.Fits() && key == slot.Key()
      modifies this
      ensures Valid() && row == Joined(At(old(book), slot), n, ablauf) && book == old(book)[slot := row]
    {
      ShowsAt(rows, book, slot);
      row := Joined(if key in rows then Some(rows[key]) else None, n, ablauf);
      ShowsPut(rows, book, slot, row);
      rows, book := rows[key := row], book[slot := row];
    }

    /** The find-and-update: one atomic step, answering the count it left. */
    method Raise(slot: Slot, ablauf: int) returns (n: nat)
      requires Valid() && slot.Fits()
      modifies this
      ensures Valid() && book == Raised(old(book), slot, ablauf) && n == N(book, slot)
    {
      var row := Upsert(slot.Key(), 1, ablauf, slot);
      n := row.n;
    }

    method Erase(pseudonym: string, zaehler: set<string>) returns (erased: nat)
      requires Valid() && ':' !in pseudonym && zaehler <= BUDGETS.Keys
      modifies this
      ensures Valid() && book == Removed(old(book), pseudonym, zaehler)
      ensures erased == |Matching(old(rows), pseudonym, zaehler)|
    {
      var keys := Matching(rows, pseudonym, zaehler);
      ShowsRemoved(rows, book, pseudonym, zaehler);
      rows, book := rows - keys, Removed(book, pseudonym, zaehler);
      erased := |keys|;
    }

    /** Row by row in any order, each added to the other pseudonym's; the rows moved are deleted after. */
    method Carry(alt: string, neu: string) returns (moved: nat)
      requires Valid() && ':' !in alt && ':' !in neu
      modifies this
      ensures Valid() && Carried(old(book), alt, neu, book)
      ensures moved == |Matching(old(rows), alt, BUDGETS.Keys)|
    {
      ghost var before := book;
      var found := rows;
      var keys := Matching(rows, alt, BUDGETS.Keys);
      var left := keys;
      while left != {}
        invariant Valid() && left <= keys && Moving(before, book, alt, neu, keys - left)
        decreases |left|
      {
        var k :| k in left;
        ghost var from := SlotOf(found, before, k, alt);
        ReplaceRekeys(from, neu);
        MovesOne(before, book, from, neu, keys - left);
        assert keys - (left - {k}) == keys - left + {k};
        left := left - {k};
        var _ := Upsert(ReplaceFirst(k, ":" + alt + ":", ":" + neu + ":"), found[k].n, found[k].ablauf,
          from.(pseudonym := neu));
      }
      assert keys - left == keys;
      forall slot | slot in before && slot.pseudonym == alt
        ensures slot.Key() in keys
      {
        MatchesIff(slot, alt, BUDGETS.Keys);
      }
      MovedAll(before, book, alt, neu, keys);
      ShowsRemoved(rows, book, alt, BUDGETS.Keys);
      AltKeys(found, rows, before, book, alt, neu, keys);
      rows, book := rows - keys, Removed(book, alt, BUDGETS.Keys);
      moved := |keys|;
    }
  }

  ghost function SlotOf(rows: map<string, Row>, book: Book, k: string, alt: string): (slot: Slot)
    requires Shows(rows, book) && ':' !in alt && k in Matching(rows, alt, BUDGETS.Keys)
    ensures slot in book && slot.Key() == k && slot.pseudonym == alt && book[slot] == rows[k]
  {
    var slot :| slot in book && slot.Key() == k;
    MatchesIff(slot, alt, BUDGETS.Keys);
    slot
  }

  /** Deleting the rows that were read is deleting every row of the old pseudonym. */
  lemma {:induction false} AltKeys(
      found: map<string, Row>, rows: map<string, Row>, before: Book, now: Book, alt: string, neu: string,
      keys: set<string>)
    requires Shows(found, before) && Shows(rows, now) && ':' !in alt && keys == Matching(found, alt, BUDGETS.Keys)
    requires Moving(before, now, alt, neu, keys)
    ensures rows - keys == rows - Matching(rows, alt, BUDGETS.Keys)
  {
    forall k | k in rows ensures k in keys <==> Matches(k, alt, BUDGETS.Keys) {
      var slot :| slot in now && slot.Key() == k;
      MatchesIff(slot, alt, BUDGETS.Keys);
      assert At(now, slot) == MovingAt(before, slot, alt, neu, keys);
      if slot.pseudonym == alt {
        assert slot in before || slot.(pseudonym := alt) in before;
        ShowsAt(found, before, slot);
      }
    }
  }
}
