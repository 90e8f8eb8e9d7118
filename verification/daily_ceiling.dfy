/**
 * The ceiling over whole runs: requests, their transaction reruns, address changes and erasures in any order.
 * However often a person changes address, one day admits at most the ceiling and names the person at most once.
 */
module DailyCeiling {
  import opened DailyCounts
  import opened Results

  /** A call that passes uncounted, one admitted, or one refused; `named` where the refusal is logged. */
  datatype Answer = Passed | Admitted | Refused(named: bool)

  function Judged(n: nat, zaehler: string): Answer
    requires zaehler in BUDGETS
  {
    if n <= BUDGETS[zaehler] then Admitted else Refused(n == BUDGETS[zaehler] + 1)
  }

  /** What a call answers: `spent` where its request was admitted before. */
  function Answered(book: Book, spent: bool, slot: Slot): Answer
    requires slot.zaehler in BUDGETS
  {
    if spent then Passed else Judged(N(book, slot) + 1, slot.zaehler)
  }

  function After(book: Book, spent: bool, slot: Slot, ablauf: int): Book {
    if spent then book else Raised(book, slot, ablauf)
  }

  /** One request's dependency: `zugelassen` outlives the reruns of the transaction calling it. */
  class Drossel {
    const funktion: string
    const pseudonym: string
    var zugelassen: bool

    constructor (funktion: string, pseudonym: string)
      requires funktion in BUDGETS && ':' !in pseudonym
      ensures this.funktion == funktion && this.pseudonym == pseudonym && !zugelassen
    {
      this.funktion, this.pseudonym, zugelassen := funktion, pseudonym, false;
    }

    method Drosseln(counts: Counts, zaehler: Option<string>, day: string, ablauf: int) returns (answer: Answer)
      requires counts.Valid() && funktion in BUDGETS && ':' !in pseudonym
      requires (zaehler.Some? ==> zaehler.value in BUDGETS)
      modifies this, counts
      ensures counts.Valid()
      ensures var slot := Slot(if zaehler.Some? then zaehler.value else funktion, pseudonym, day);
        && answer == Answered(old(counts.book), old(zugelassen), slot)
        && counts.book == After(old(counts.book), old(zugelassen), slot, ablauf)
        && zugelassen == (old(zugelassen) || answer == Admitted)
    {
      if zugelassen { return Passed; }
      var slot := Slot(if zaehler.Some? then zaehler.value else funktion, pseudonym, day);
      var gezaehlt := counts.Raise(slot, ablauf);
      var ceiling := BUDGETS[slot.zaehler];
      if gezaehlt <= ceiling {
        zugelassen := true;
        return Admitted;
      }
      answer := Refused(gezaehlt == ceiling + 1);
    }
  }

  // ----- runs

  datatype Event =
    | Call(request: nat, slot: Slot, ablauf: int)
    | Carry(alt: string, neu: string)
    | Erase(pseudonym: string, zaehler: set<string>)

  datatype State = State(book: Book, spent: set<nat>)

  predicate Possible(e: Event) {
    e.Call? ==> e.slot.Fits()
  }

  function AnswerTo(s: State, e: Event): Answer
    requires e.Call? && Possible(e)
  {
    Answered(s.book, e.request in s.spent, e.slot)
  }

  ghost predicate Step(s: State, e: Event, t: State)
    requires Possible(e)
  {
    match e
    case Call(request, slot, ablauf) =>
      && t.book == After(s.book, request in s.spent, slot, ablauf)
      && t.spent == if AnswerTo(s, e) == Admitted then s.spent + {request} else s.spent
    case Carry(alt, neu) => Carried(s.book, alt, neu, t.book) && t.spent == s.spent
    case Erase(pseudonym, zaehler) => t.book == Removed(s.book, pseudonym, zaehler) && t.spent == s.spent
  }

  /** `states` are those the events pass through, any of them from any request. */
  ghost predicate Run(states: seq<State>, events: seq<Event>) {
    && |states| == |events| + 1
    && (forall i | 0 <= i < |events| :: Possible(events[i]))
    && (forall i | 0 <= i < |events| :: var j := i + 1; Step(states[i], events[i], states[j]))
  }

  function Answers(s: State, e: Event): Option<Answer>
    requires Possible(e)
  {
    if e.Call? then Some(AnswerTo(s, e)) else None
  }

  // ----- one request

  function Tally(one: bool): nat { if one then 1 else 0 }

  function AdmissionsOf(states: seq<State>, events: seq<Event>, request: nat, upto: nat): nat
    requires Run(states, events) && upto <= |events|
  {
    if upto == 0 then 0
    else AdmissionsOf(states, events, request, upto - 1)
         + Tally(events[upto - 1].Call? && events[upto - 1].request == request
           && Answers(states[upto - 1], events[upto - 1]) == Some(Admitted))
  }

  /**
   * However many attempts a request reruns, it is admitted once, and from then on its calls leave every count alone.
   */
  lemma {:induction false} AdmittedOnce(states: seq<State>, events: seq<Event>, request: nat, upto: nat)
    requires Run(states, events) && upto <= |events|
    ensures AdmissionsOf(states, events, request, upto)
      == Tally(request in states[upto].spent && request !in states[0].spent)
    ensures request in states[0].spent ==> request in states[upto].spent
    ensures upto < |events| && events[upto].Call? && events[upto].request == request && request in states[upto].spent
      ==> states[upto + 1] == states[upto]
  {
    if upto < |events| { assert Step(states[upto], events[upto], states[upto + 1]); }
    if upto > 0 {
      AdmittedOnce(states, events, request, upto - 1);
      assert Step(states[upto - 1], events[upto - 1], states[upto]);
    }
  }

  // ----- one person's day

  /** The person's pseudonym once the first `upto` events have happened. */
  function Current(events: seq<Event>, who: string, upto: nat): string
    requires upto <= |events|
  {
    if upto == 0 then who
    else
      var before := Current(events, who, upto - 1);
      if events[upto - 1].Carry? && events[upto - 1].alt == before then events[upto - 1].neu else before
  }

  function DaySlot(events: seq<Event>, who: string, zaehler: string, day: string, upto: nat): Slot
    requires upto <= |events|
  {
    Slot(zaehler, Current(events, who, upto), day)
  }

  function DayCount(states: seq<State>, events: seq<Event>, who: string, zaehler: string, day: string, upto: nat): nat
    requires Run(states, events) && upto <= |events|
  {
    N(states[upto].book, DaySlot(events, who, zaehler, day, upto))
  }

  /** Calls answered so, on the person's own count of that day. */
  function DayAnswers(
      states: seq<State>, events: seq<Event>, who: string, zaehler: string, day: string, answer: Answer, upto: nat): nat
    requires Run(states, events) && upto <= |events|
  {
    if upto == 0 then 0
    else
      DayAnswers(states, events, who, zaehler, day, answer, upto - 1)
      + Tally(Mine(states, events, who, zaehler, day, answer, upto - 1))
  }

  predicate Mine(
      states: seq<State>, events: seq<Event>, who: string, zaehler: string, day: string, answer: Answer, i: nat)
    requires Run(states, events) && i < |events|
  {
    events[i].Call? && events[i].slot == DaySlot(events, who, zaehler, day, i)
      && Answers(states[i], events[i]) == Some(answer)
  }

  /**
   * No erasure takes the person's count of this kind, nor do they change to the address they have: either starts their
   * day afresh.
   */
  ghost predicate Stays(events: seq<Event>, who: string, zaehler: string) {
    forall i | 0 <= i < |events| :: KeepsPerson(events[i], Current(events, who, i), zaehler)
  }

  predicate KeepsPerson(e: Event, current: string, zaehler: string) {
    !(e.Erase? && e.pseudonym == current && zaehler in e.zaehler) && !(e.Carry? && e.alt == current == e.neu)
  }

  function Met(n: nat, zaehler: string): nat
    requires zaehler in BUDGETS
  {
    if n <= BUDGETS[zaehler] then n else BUDGETS[zaehler]
  }

  function Over(n: nat, zaehler: string): nat
    requires zaehler in BUDGETS
  {
    Tally(n > BUDGETS[zaehler])
  }

  /** What a carry adds to the person's count: the other pseudonym's, whichever of the two is theirs. */
  function Joining(book: Book, e: Event, current: string, zaehler: string, day: string): nat {
    if !e.Carry? || e.alt == e.neu then 0
    else if e.alt == current then N(book, Slot(zaehler, e.neu, day))
    else if e.neu == current then N(book, Slot(zaehler, e.alt, day))
    else 0
  }

  /** Read off the two counts before the carry: within the ceiling, and past it once they are one. */
  predicate StepsOver(book: Book, e: Event, current: string, zaehler: string, day: string)
    requires zaehler in BUDGETS
  {
    var n := N(book, Slot(zaehler, current, day));
    n <= BUDGETS[zaehler] < n + Joining(book, e, current, zaehler, day)
  }

  lemma {:induction false} CarryJoins(s: State, e: Event, t: State, zaehler: string, current: string, day: string)
    requires e.Carry? && Step(s, e, t) && !(e.alt == current == e.neu)
    ensures N(t.book, Slot(zaehler, if e.alt == current then e.neu else current, day))
      == N(s.book, Slot(zaehler, current, day)) + Joining(s.book, e, current, zaehler, day)
  {
    var next := Slot(zaehler, if e.alt == current then e.neu else current, day);
    assert At(t.book, next) == CarriedAt(s.book, next, e.alt, e.neu);
    assert next.(pseudonym := e.alt) == Slot(zaehler, e.alt, day);
  }

  lemma {:induction false} DayStep(s: State, e: Event, t: State, zaehler: string, current: string, day: string)
    requires zaehler in BUDGETS && Possible(e) && Step(s, e, t) && KeepsPerson(e, current, zaehler)
    ensures var next := if e.Carry? && e.alt == current then e.neu else current;
      var n, m := N(s.book, Slot(zaehler, current, day)), N(t.book, Slot(zaehler, next, day));
      var mine, joining := e.Call? && e.slot == Slot(zaehler, current, day), Joining(s.book, e, current, zaehler, day);
      && n + Tally(mine && AnswerTo(s, e) != Passed) + joining == m
      && Met(n, zaehler) + Tally(mine && AnswerTo(s, e) == Admitted) + (Met(n + joining, zaehler) - Met(n, zaehler))
        == Met(m, zaehler)
      && Over(n, zaehler) + Tally(mine && AnswerTo(s, e) == Refused(true))
        + Tally(StepsOver(s.book, e, current, zaehler, day))
         == Over(m, zaehler)
  {
    if e.Carry? { CarryJoins(s, e, t, zaehler, current, day); }
  }

  /** Calls that raised the person's own count of the day, whatever they were answered. */
  function DayCalls(states: seq<State>, events: seq<Event>, who: string, zaehler: string, day: string, upto: nat): nat
    requires Run(states, events) && upto <= |events|
  {
    if upto == 0 then 0
    else
      DayCalls(states, events, who, zaehler, day, upto - 1)
      + Tally(Raises(states, events, who, zaehler, day, upto - 1))
  }

  predicate Raises(states: seq<State>, events: seq<Event>, who: string, zaehler: string, day: string, i: nat)
    requires Run(states, events) && i < |events|
  {
    && events[i].Call? && events[i].slot == DaySlot(events, who, zaehler, day, i)
    && Possible(events[i]) && AnswerTo(states[i], events[i]) != Passed
  }

  /** What carries have added to the person's count, and of it what fell within the ceiling. */
  function DayJoined(states: seq<State>, events: seq<Event>, who: string, zaehler: string, day: string, upto: nat): nat
    requires Run(states, events) && upto <= |events|
  {
    if upto == 0 then 0
    else
      var i := upto - 1;
      DayJoined(states, events, who, zaehler, day, i)
        + Joining(states[i].book, events[i], Current(events, who, i), zaehler, day)
  }

  function DayJoinedWithin(
      states: seq<State>, events: seq<Event>, who: string, zaehler: string, day: string, upto: nat): nat
    requires Run(states, events) && upto <= |events| && zaehler in BUDGETS
  {
    if upto == 0 then 0
    else
      var i := upto - 1;
      var n := DayCount(states, events, who, zaehler, day, i);
      DayJoinedWithin(states, events, who, zaehler, day, i)
      + (Met(n + Joining(states[i].book, events[i], Current(events, who, i), zaehler, day), zaehler) - Met(n, zaehler))
  }

  predicate StepsOverAt(states: seq<State>, events: seq<Event>, who: string, zaehler: string, day: string, i: nat)
    requires Run(states, events) && i < |events| && zaehler in BUDGETS
  {
    StepsOver(states[i].book, events[i], Current(events, who, i), zaehler, day)
  }

  function DayStepsOver(
      states: seq<State>, events: seq<Event>, who: string, zaehler: string, day: string, upto: nat): nat
    requires Run(states, events) && upto <= |events| && zaehler in BUDGETS
  {
    if upto == 0 then 0
    else
      DayStepsOver(states, events, who, zaehler, day, upto - 1)
      + Tally(StepsOverAt(states, events, who, zaehler, day, upto - 1))
  }

  /** Over every run the day is accounted for: its count, what it admitted, and whether it named the person. */
  lemma {:induction false} DayAccounts(
      states: seq<State>, events: seq<Event>, who: string, zaehler: string, day: string, upto: nat)
    requires Run(states, events) && upto <= |events| && zaehler in BUDGETS && Stays(events, who, zaehler)
    ensures DayCount(states, events, who, zaehler, day, 0) + DayCalls(states, events, who, zaehler, day, upto)
      + DayJoined(states, events, who, zaehler, day, upto) == DayCount(states, events, who, zaehler, day, upto)
    ensures Met(DayCount(states, events, who, zaehler, day, 0), zaehler)
      + DayAnswers(states, events, who, zaehler, day, Admitted, upto)
      + DayJoinedWithin(states, events, who, zaehler, day, upto)
        == Met(DayCount(states, events, who, zaehler, day, upto), zaehler)
    ensures Over(DayCount(states, events, who, zaehler, day, 0), zaehler)
      + DayAnswers(states, events, who, zaehler, day, Refused(true), upto)
      + DayStepsOver(states, events, who, zaehler, day, upto)
        == Over(DayCount(states, events, who, zaehler, day, upto), zaehler)
  {
    if upto > 0 {
      var i := upto - 1;
      DayAccounts(states, events, who, zaehler, day, i);
      assert Possible(events[i]) && Step(states[i], events[i], states[upto]);
      DayStep(states[i], events[i], states[upto], zaehler, Current(events, who, i), day);
    }
  }

  /** Across every address change the day admits at most the ceiling, and names the person at most once. */
  lemma {:induction false} DayBounded(
      states: seq<State>, events: seq<Event>, who: string, zaehler: string, day: string, upto: nat)
    requires Run(states, events) && upto <= |events| && zaehler in BUDGETS && Stays(events, who, zaehler)
    ensures DayAnswers(states, events, who, zaehler, day, Admitted, upto) <= BUDGETS[zaehler]
    ensures DayAnswers(states, events, who, zaehler, day, Refused(true), upto) <= 1
  {
    DayAccounts(states, events, who, zaehler, day, upto);
  }

  /**
   * A day begun within its ceiling and ended past it has named its person, unless a carry took the two counts it joined
   * from within the ceiling past it; and a day within its ceiling has named nobody.
   */
  lemma {:induction false} DayNamedIff(
      states: seq<State>, events: seq<Event>, who: string, zaehler: string, day: string, upto: nat)
    requires Run(states, events) && upto <= |events| && zaehler in BUDGETS && Stays(events, who, zaehler)
    requires DayCount(states, events, who, zaehler, day, 0) <= BUDGETS[zaehler]
    ensures DayAnswers(states, events, who, zaehler, day, Refused(true), upto) == 1
      <==> DayCount(states, events, who, zaehler, day, upto) > BUDGETS[zaehler]
           && forall i | 0 <= i < upto :: !StepsOverAt(states, events, who, zaehler, day, i)
  {
    DayAccounts(states, events, who, zaehler, day, upto);
    StepsOverSum(states, events, who, zaehler, day, upto);
  }

  lemma {:induction false} StepsOverSum(
      states: seq<State>, events: seq<Event>, who: string, zaehler: string, day: string, upto: nat)
    requires Run(states, events) && upto <= |events| && zaehler in BUDGETS
    ensures DayStepsOver(states, events, who, zaehler, day, upto) == 0
      <==> forall i | 0 <= i < upto :: !StepsOverAt(states, events, who, zaehler, day, i)
  {
    if upto > 0 { StepsOverSum(states, events, who, zaehler, day, upto - 1); }
  }

  /** Where no other count joins theirs, the ceiling is used up exactly, and passing it is what names the person. */
  lemma {:induction false} DayExact(
      states: seq<State>, events: seq<Event>, who: string, zaehler: string, day: string, upto: nat)
    requires Run(states, events) && upto <= |events| && zaehler in BUDGETS && Stays(events, who, zaehler)
    requires DayJoined(states, events, who, zaehler, day, upto) == 0
    requires DayCount(states, events, who, zaehler, day, 0) == 0
    ensures DayCount(states, events, who, zaehler, day, upto) == DayCalls(states, events, who, zaehler, day, upto)
    ensures DayAnswers(states, events, who, zaehler, day, Admitted, upto)
      == Met(DayCalls(states, events, who, zaehler, day, upto), zaehler)
    ensures DayAnswers(states, events, who, zaehler, day, Refused(true), upto)
      == Over(DayCalls(states, events, who, zaehler, day, upto), zaehler)
  {
    DayAccounts(states, events, who, zaehler, day, upto);
    NothingJoined(states, events, who, zaehler, day, upto);
  }

  lemma {:induction false} NothingJoined(
      states: seq<State>, events: seq<Event>, who: string, zaehler: string, day: string, upto: nat)
    requires Run(states, events) && upto <= |events| && zaehler in BUDGETS
    requires DayJoined(states, events, who, zaehler, day, upto) == 0
    ensures DayJoinedWithin(states, events, who, zaehler, day, upto) == 0
    ensures DayStepsOver(states, events, who, zaehler, day, upto) == 0
  {
    if upto > 0 { NothingJoined(states, events, who, zaehler, day, upto - 1); }
  }

  /** Admissions under any of these pseudonyms. */
  function AdmittedUnder(
      states: seq<State>, events: seq<Event>, pseudonyms: set<string>, zaehler: string, day: string, upto: nat): nat
    requires Run(states, events) && upto <= |events|
  {
    if upto == 0 then 0
    else
      AdmittedUnder(states, events, pseudonyms, zaehler, day, upto - 1)
      + Tally(Under(states, events, pseudonyms, zaehler, day, upto - 1))
  }

  predicate Under(states: seq<State>, events: seq<Event>, pseudonyms: set<string>, zaehler: string, day: string, i: nat)
    requires Run(states, events) && i < |events|
  {
    && events[i].Call? && events[i].slot == Slot(zaehler, events[i].slot.pseudonym, day)
    && events[i].slot.pseudonym in pseudonyms
    && Answers(states[i], events[i]) == Some(Admitted)
  }

  /**
   * A chain of address changes taken together: where each pseudonym writes only while it is the person's, all of them
   * share one ceiling.
   */
  lemma {:induction false} ChainSharesOneCeiling(
      states: seq<State>, events: seq<Event>, who: string, pseudonyms: set<string>, zaehler: string, day: string,
      upto: nat)
    requires Run(states, events) && upto <= |events| && zaehler in BUDGETS && Stays(events, who, zaehler)
    requires forall i | 0 <= i < |events| && events[i].Call? && events[i].slot.pseudonym in pseudonyms ::
      events[i].slot.pseudonym == Current(events, who, i)
    ensures AdmittedUnder(states, events, pseudonyms, zaehler, day, upto)
      <= DayAnswers(states, events, who, zaehler, day, Admitted, upto)
      <= BUDGETS[zaehler]
    ensures (forall i | 0 <= i < upto :: Current(events, who, i) in pseudonyms) ==>
      AdmittedUnder(states, events, pseudonyms, zaehler, day, upto)
      == DayAnswers(states, events, who, zaehler, day, Admitted, upto)
  {
    DayBounded(states, events, who, zaehler, day, upto);
    if upto > 0 { ChainSharesOneCeiling(states, events, who, pseudonyms, zaehler, day, upto - 1); }
  }

  /** A carry conserves the day: what the two pseudonyms held between them, the new one holds. */
  lemma {:induction false} CarryConserves(s: State, e: Event, t: State, zaehler: string, day: string, other: string)
    requires e.Carry? && e.alt != e.neu && Step(s, e, t) && other != e.alt && other != e.neu
    ensures N(t.book, Slot(zaehler, e.neu, day)) == N(s.book, Slot(zaehler, e.alt, day))
      + N(s.book, Slot(zaehler, e.neu, day))
    ensures N(t.book, Slot(zaehler, e.alt, day)) == 0
    ensures N(t.book, Slot(zaehler, other, day)) == N(s.book, Slot(zaehler, other, day))
  {
    var alt, neu := Slot(zaehler, e.alt, day), Slot(zaehler, e.neu, day);
    assert neu.(pseudonym := e.alt) == alt;
    assert At(t.book, neu) == CarriedAt(s.book, neu, e.alt, e.neu);
    assert At(t.book, alt) == CarriedAt(s.book, alt, e.alt, e.neu);
    var third := Slot(zaehler, other, day);
    assert At(t.book, third) == CarriedAt(s.book, third, e.alt, e.neu);
  }

  /**
   * A row keeps the expiry it was made with: a call's own, or that of the row carried to where none stood.
   */
  lemma {:induction false} ExpiryKept(s: State, e: Event, t: State, slot: Slot)
    requires Possible(e) && Step(s, e, t) && slot in t.book
    ensures slot in s.book ==> t.book[slot].ablauf == s.book[slot].ablauf
    ensures slot !in s.book ==>
      || (e.Call? && e.slot == slot && t.book[slot] == Row(1, e.ablauf))
      || (e.Carry? && slot.pseudonym == e.neu && slot.(pseudonym := e.alt) in s.book
          && t.book[slot] == s.book[slot.(pseudonym := e.alt)])
  {
    if e.Carry? { assert At(t.book, slot) == CarriedAt(s.book, slot, e.alt, e.neu); }
  }

  /** Carried onto themselves, a person's counts are gone: the rows are added to and then deleted. */
  lemma {:induction false} CarryOntoItselfForgets(s: State, t: State, alt: string, zaehler: string, day: string)
    requires Step(s, Carry(alt, alt), t)
    ensures N(t.book, Slot(zaehler, alt, day)) == 0
  {
    var slot := Slot(zaehler, alt, day);
    assert At(t.book, slot) == CarriedAt(s.book, slot, alt, alt);
  }

  /** Onto a pseudonym already holding counts: ten joined by one, and the twelfth call is refused with nobody named. */
  lemma {:induction false} CarryOntoCountsNamesNobody(day: string)
    ensures exists states: seq<State>, events: seq<Event> ::
      && Run(states, events) && Stays(events, "a", "adresswechsel")
      && states[0].book
         == map[Slot("adresswechsel", "a", day) := Row(10, 0), Slot("adresswechsel", "b", day) := Row(1, 0)]
      && |events| == 2 && DayAnswers(states, events, "a", "adresswechsel", day, Refused(false), 2) == 1
      && DayAnswers(states, events, "a", "adresswechsel", day, Refused(true), 2) == 0
  {
    var a, b := Slot("adresswechsel", "a", day), Slot("adresswechsel", "b", day);
    var s0 := State(map[a := Row(10, 0), b := Row(1, 0)], {});
    var s1 := State(map[b := Row(11, 0)], {});
    var s2 := State(map[b := Row(12, 0)], {});
    var events := [Carry("a", "b"), Call(0, b, 0)];
    var states := [s0, s1, s2];
    forall slot: Slot ensures At(s1.book, slot) == CarriedAt(s0.book, slot, "a", "b") {
      if slot.pseudonym == "b" && slot.(pseudonym := "a") == a { assert slot == b; }
    }
    assert Step(s0, events[0], s1);
    assert s2.book == Raised(s1.book, b, 0);
    assert AnswerTo(s1, events[1]) == Refused(false);
    assert Step(s1, events[1], s2);
    assert Current(events, "a", 1) == "b";
    assert KeepsPerson(events[0], "a", "adresswechsel")
      && KeepsPerson(events[1], Current(events, "a", 1), "adresswechsel");
    assert Run(states, events);
    assert Mine(states, events, "a", "adresswechsel", day, Refused(false), 1);
    assert !Mine(states, events, "a", "adresswechsel", day, Refused(true), 1)
      && !Mine(states, events, "a", "adresswechsel", day, Refused(true), 0);
    assert DayAnswers(states, events, "a", "adresswechsel", day, Refused(false), 1) == 0;
    assert DayAnswers(states, events, "a", "adresswechsel", day, Refused(true), 1) == 0;
  }
}
