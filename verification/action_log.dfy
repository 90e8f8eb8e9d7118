/**
 * The write helpers of one collection and the action log beside it. A row keeps the state its write
 * replaced, so the log run backwards is the way back; a fan-out and an erasure keep a count alone.
 */
module ActionLog {
  import opened Ordering
  import opened Results

  datatype Row<D> =
    | Inserted(id: nat)
    | Patched(id: nat, before: D)
    | Removed(ids: seq<nat>, images: seq<D>)
    | InsertedMany(count: nat)
    | PatchedMany(count: nat)
    | Erased(count: nat)

  datatype Error = DocumentNotFound | DuplicateKey | BulkWriteError | EmptyBatch

  /** Which image `patch_one_in_db` answers. */
  datatype ReturnDocument = Before | After

  // ----- the writes, as what each does to the collection and the log

  datatype State<D> = State(docs: map<nat, D>, log: seq<Row<D>>)

  datatype Write<D> =
    | Insert(id: nat, doc: D)
    | Patch(id: nat, after: D, inTransaction: bool)
    | Remove(ids: seq<nat>)
    | InsertMany(ids: seq<nat>, documents: seq<D>, inTransaction: bool)
    | PatchMany(images: map<nat, D>)
    | Erase(gone: set<nat>)

  function Members(ids: seq<nat>): set<nat> {
    set id | id in ids
  }

  function Zip<D>(ids: seq<nat>, documents: seq<D>): (m: map<nat, D>)
    requires |ids| == |documents|
    ensures forall id :: id in m <==> id in ids
  {
    if ids == [] then map[] else Zip(ids[..|ids| - 1], documents[..|ids| - 1])[ids[|ids| - 1] := documents[|ids| - 1]]
  }

  function Images<D>(docs: map<nat, D>, ids: seq<nat>): (images: seq<D>)
    requires forall id | id in ids :: id in docs
    ensures |images| == |ids| && forall i | 0 <= i < |ids| :: images[i] == docs[ids[i]]
  {
    if ids == [] then [] else Images(docs, ids[..|ids| - 1]) + [docs[ids[|ids| - 1]]]
  }

  predicate Refused(docs: set<nat>, ids: seq<nat>, i: nat)
    requires i < |ids|
  {
    ids[i] in docs || exists j | 0 <= j < i :: ids[j] == ids[i]
  }

  /** How many documents an ordered `insert_many` writes before the first one refused. */
  function Landed(docs: set<nat>, ids: seq<nat>, from: nat := 0): (n: nat)
    requires from <= |ids| && forall i | 0 <= i < from :: !Refused(docs, ids, i)
    ensures from <= n <= |ids| && (n < |ids| ==> Refused(docs, ids, n))
    ensures forall i | 0 <= i < n :: !Refused(docs, ids, i)
    decreases |ids| - from
  {
    if from == |ids| || Refused(docs, ids, from) then from else Landed(docs, ids, from + 1)
  }

  lemma {:induction false} LandedDistinct(docs: set<nat>, ids: seq<nat>, n: nat)
    requires n <= |ids| && forall i | 0 <= i < n :: !Refused(docs, ids, i)
    ensures Distinct(ids[..n]) && forall i | 0 <= i < n :: ids[i] !in docs
  {
    forall i, j | 0 <= i < j < n ensures ids[i] != ids[j] { assert !Refused(docs, ids, j); }
    forall i | 0 <= i < n ensures ids[i] !in docs { assert !Refused(docs, ids, i); }
  }

  ghost predicate Legal<D>(docs: map<nat, D>, w: Write<D>) {
    match w
    case Insert(id, _) => id !in docs
    case Patch(id, _, _) => id in docs
    case Remove(ids) => Distinct(ids) && forall id | id in ids :: id in docs
    case InsertMany(ids, documents, _) => |ids| == |documents|
    case PatchMany(images) => images.Keys <= docs.Keys && forall id | id in images :: images[id] != docs[id]
    case Erase(gone) => gone <= docs.Keys
  }

  /**
   * How many documents a batch leaves written: all or, where one was refused, those before it unless a transaction
   * takes them back.
   */
  function Standing(docs: set<nat>, ids: seq<nat>, inTransaction: bool): (n: nat)
    ensures n <= |ids| && (n < |ids| ==> Refused(docs, ids, n) || n == 0)
    ensures forall i | 0 <= i < n :: !Refused(docs, ids, i)
  {
    var landed := Landed(docs, ids);
    if landed < |ids| && inTransaction then 0 else landed
  }

  function Effect<D>(docs: map<nat, D>, w: Write<D>): map<nat, D>
    requires Legal(docs, w)
  {
    match w
    case Insert(id, doc) => docs[id := doc]
    case Patch(id, after, _) => docs[id := after]
    case Remove(ids) => docs - Members(ids)
    case InsertMany(ids, documents, inTransaction) =>
      var n := Standing(docs.Keys, ids, inTransaction);
      docs + Zip(ids[..n], documents[..n])
    case PatchMany(images) => docs + images
    case Erase(gone) => docs - gone
  }

  /** The row a write leaves, or none where it took or changed nothing. */
  function Rows<D(==)>(docs: map<nat, D>, w: Write<D>): (rows: seq<Row<D>>)
    requires Legal(docs, w)
    ensures |rows| <= 1
  {
    match w
    case Insert(id, doc) => [Inserted(id)]
    // Inside a transaction the document is read back, and one left as it was is not logged.
    case Patch(id, after, inTransaction) => if inTransaction && after == docs[id] then [] else [Patched(id, docs[id])]
    case Remove(ids) => if ids == [] then [] else [Removed(ids, Images(docs, ids))]
    case InsertMany(ids, documents, inTransaction) =>
      var n := Standing(docs.Keys, ids, inTransaction);
      if n == 0 then [] else [InsertedMany(n)]
    case PatchMany(images) => if images == map[] then [] else [PatchedMany(|images|)]
    case Erase(gone) => if gone == {} then [] else [Erased(|gone|)]
  }

  function Do<D(==)>(s: State<D>, w: Write<D>): State<D>
    requires Legal(s.docs, w)
  {
    State(Effect(s.docs, w), s.log + Rows(s.docs, w))
  }

  ghost predicate LegalRun<D>(s: State<D>, writes: seq<Write<D>>)
    decreases |writes|
  {
    |writes| == 0 || (Legal(s.docs, writes[0]) && LegalRun(Do(s, writes[0]), writes[1..]))
  }

  ghost function Run<D>(s: State<D>, writes: seq<Write<D>>): State<D>
    requires LegalRun(s, writes)
    decreases |writes|
  {
    if |writes| == 0 then s else Run(Do(s, writes[0]), writes[1..])
  }

  // ----- the helpers

  class Collection<D(==)> {
    var docs: map<nat, D>
    var log: seq<Row<D>>
    var sent: bool

    constructor (docs: map<nat, D>)
      ensures this.docs == docs && log == [] && !sent
    {
      this.docs, log, sent := docs, [], false;
    }

    function Now(): State<D>
      reads this
    {
      State(docs, log)
    }

    method PostOne(id: nat, document: D) returns (result: Result<nat, Error>)
      modifies this
      ensures sent
      ensures result.Ok? <==> id !in old(docs)
      ensures result.Ok? ==> result.value == id && Now() == Do(old(Now()), Insert(id, document))
      ensures result.Err? ==> Now() == old(Now())
    {
      sent := true;
      if id in docs { return Err(DuplicateKey); }
      docs := docs[id := document];
      log := log + [Inserted(id)];
      return Ok(id);
    }

    /** The driver picks one match; the image logged is the one the update itself took. */
    method PatchOne(dbFilter: (nat, D) -> bool, update: D -> D, inTransaction: bool, returned: ReturnDocument)
      returns (result: Result<D, Error>, ghost id: nat)
      modifies this
      ensures sent
      ensures result.Err? <==> forall k | k in old(docs) :: !dbFilter(k, old(docs)[k])
      ensures result.Err? ==> Now() == old(Now())
      ensures result.Ok? ==> id in old(docs) && dbFilter(id, old(docs)[id])
      ensures result.Ok? ==> Now() == Do(old(Now()), Patch(id, update(old(docs)[id]), inTransaction))
      ensures result.Ok? ==> result.value == if returned == Before then old(docs)[id] else docs[id]
    {
      sent := true;
      id := 0;
      if forall k | k in docs :: !dbFilter(k, docs[k]) { return Err(DocumentNotFound), id; }
      var picked :| picked in docs && dbFilter(picked, docs[picked]);
      var before := docs[picked];
      docs := docs[picked := update(before)];
      var asItWas := inTransaction && docs[picked] == before;
      if !asItWas { log := log + [Patched(picked, before)]; }
      id := picked;
      result := Ok(if returned == Before then before else docs[picked]);
    }

    /** Read first, then removed: the row holds every document the removal took and no other. */
    method DeleteMany(dbFilter: (nat, D) -> bool) returns (deleted: nat, ghost ids: seq<nat>)
      modifies this
      ensures sent
      ensures Legal(old(docs), Remove(ids)) && Now() == Do(old(Now()), Remove(ids)) && deleted == |ids|
      ensures forall k :: k in ids <==> k in old(docs) && dbFilter(k, old(docs)[k])
    {
      var matching := set k | k in docs && dbFilter(k, docs[k]);
      var due, found := matching, [];
      while due != {}
        invariant forall k :: k in found <==> k in matching && k !in due
        invariant due <= matching && Distinct(found) && |found| + |due| == |matching|
        decreases |due|
      {
        var k :| k in due;
        due, found := due - {k}, found + [k];
      }
      var before := Images(docs, found);
      sent := true;
      deleted, ids := |matching|, found;
      assert matching == Members(found);
      docs := docs - matching;
      if before != [] { log := log + [Removed(found, before)]; }
    }

    /** The driver's count is of what changed: a fan-out that matched and changed nothing records nothing. */
    method PatchMany(dbFilter: (nat, D) -> bool, update: D -> D) returns (modified: nat, ghost images: map<nat, D>)
      modifies this
      ensures sent
      ensures forall k :: k in images <==>
        k in old(docs) && dbFilter(k, old(docs)[k]) && update(old(docs)[k]) != old(docs)[k]
      ensures forall k | k in images :: images[k] == update(old(docs)[k])
      ensures Now() == Do(old(Now()), Write.PatchMany(images)) && modified == |images|
    {
      sent := true;
      var now := docs;
      var changed := map k | k in now && dbFilter(k, now[k]) && update(now[k]) != now[k] :: update(now[k]);
      docs := docs + changed;
      modified, images := |changed|, changed;
      if changed != map[] { log := log + [PatchedMany(|changed|)]; }
    }

    method EraseMany(ids: set<nat>) returns (erased: nat)
      modifies this
      ensures sent
      ensures Now() == Do(old(Now()), Erase(ids * old(docs).Keys)) && erased == |ids * old(docs).Keys|
    {
      sent := true;
      var gone := ids * docs.Keys;
      docs := docs - gone;
      erased := |gone|;
      if gone != {} { log := log + [Erased(|gone|)]; }
    }

    /**
     * Ordered and not atomic: outside a transaction what was written before a refusal stands, and is recorded as what
     * landed. The driver refuses an empty batch.
     */
    method PostMany(ids: seq<nat>, documents: seq<D>, inTransaction: bool) returns (result: Result<nat, Error>)
      requires |ids| == |documents|
      modifies this
      ensures sent
      ensures Now() == Do(old(Now()), InsertMany(ids, documents, inTransaction))
      ensures result == Err(EmptyBatch) <==> ids == []
      ensures result.Ok? <==> ids != [] && forall i | 0 <= i < |ids| :: !Refused(old(docs).Keys, ids, i)
      ensures result.Ok? ==> result.value == |ids| && docs == old(docs) + Zip(ids, documents)
      ensures result == Err(DuplicateKey) || result == Err(EmptyBatch) ==> Now() == old(Now())
    {
      sent := true;
      if ids == [] {
        assert docs + Zip(ids, documents) == docs && log + [] == log;
        return Err(EmptyBatch);
      }
      var landed := 0;
      var docs': map<nat, D> := docs;
      while landed < |ids| && ids[landed] !in docs'
        invariant sent && docs == old(docs) && log == old(log)
        invariant Landing(docs, ids, documents, landed, docs')
      {
        LandOne(docs, ids, documents, landed);
        docs' := docs'[ids[landed] := documents[landed]];
        landed := landed + 1;
      }
      LandingEnds(docs, ids, documents, landed, docs');
      if landed == |ids| || (landed > 0 && !inTransaction) {
        docs, log := docs', log + [InsertedMany(landed)];
      }
      // Else nothing stands: nothing landed, or the error aborts the transaction, which takes back what did.
      if landed == |ids| { return Ok(landed); }
      result := if landed > 0 && !inTransaction then Err(BulkWriteError) else Err(DuplicateKey);
    }
  }

  ghost predicate Landing<D>(docs: map<nat, D>, ids: seq<nat>, documents: seq<D>, n: nat, docs': map<nat, D>)
    requires |ids| == |documents|
  {
    n <= |ids| && docs' == docs + Zip(ids[..n], documents[..n]) && forall i | 0 <= i < n :: !Refused(docs.Keys, ids, i)
  }

  lemma {:induction false} LandingEnds<D>(
      docs: map<nat, D>, ids: seq<nat>, documents: seq<D>, n: nat, docs': map<nat, D>)
    requires |ids| == |documents| && Landing(docs, ids, documents, n, docs') && (n < |ids| ==> ids[n] in docs')
    ensures Landed(docs.Keys, ids) == n && (n < |ids| ==> Refused(docs.Keys, ids, n))
    ensures n == |ids| ==> docs' == docs + Zip(ids, documents)
    ensures docs + Zip(ids[..0], documents[..0]) == docs
  {
    if n < |ids| && ids[n] !in docs { assert ids[n] in ids[..n]; }
    LandedUnique(docs.Keys, ids, n);
    assert ids[..|ids|] == ids && documents[..|ids|] == documents;
  }

  lemma {:induction false} LandOne<D>(docs: map<nat, D>, ids: seq<nat>, documents: seq<D>, n: nat)
    requires |ids| == |documents| && n < |ids| && ids[n] !in docs && ids[n] !in Zip(ids[..n], documents[..n])
    ensures docs + Zip(ids[..n + 1], documents[..n + 1])
      == (docs + Zip(ids[..n], documents[..n]))[ids[n] := documents[n]]
    ensures !Refused(docs.Keys, ids, n)
  {
    assert ids[..n + 1][..n] == ids[..n] && documents[..n + 1][..n] == documents[..n];
    assert ids[n] !in ids[..n];
  }

  lemma {:induction false} LandedUnique(docs: set<nat>, ids: seq<nat>, n: nat)
    requires n <= |ids| && (forall i | 0 <= i < n :: !Refused(docs, ids, i)) && (n < |ids| ==> Refused(docs, ids, n))
    ensures Landed(docs, ids) == n
  {
  }

  // ----- the way back

  function Undo<D>(docs: map<nat, D>, row: Row<D>): map<nat, D> {
    match row
    case Inserted(id) => docs - {id}
    case Patched(id, before) => docs[id := before]
    case Removed(ids, images) => if |ids| == |images| then docs + Zip(ids, images) else docs
    case _ => docs
  }

  /** The rows from the newest to the oldest. */
  function UndoAll<D>(docs: map<nat, D>, rows: seq<Row<D>>): map<nat, D> {
    if rows == [] then docs else Undo(UndoAll(docs, rows[1..]), rows[0])
  }

  predicate KeepsImages<D>(w: Write<D>) {
    w.Insert? || w.Patch? || w.Remove?
  }

  lemma {:induction false} ZipAt<D>(ids: seq<nat>, documents: seq<D>, i: nat)
    requires |ids| == |documents| && Distinct(ids) && i < |ids|
    ensures Zip(ids, documents)[ids[i]] == documents[i]
  {
    if i < |ids| - 1 { ZipAt(ids[..|ids| - 1], documents[..|ids| - 1], i); }
  }

  lemma {:induction false} RemovalUndone<D>(docs: map<nat, D>, ids: seq<nat>)
    requires Legal(docs, Remove(ids))
    ensures (docs - Members(ids)) + Zip(ids, Images(docs, ids)) == docs
  {
    var images := Images(docs, ids);
    var back := Zip(ids, images);
    forall id | id in back ensures back[id] == docs[id] {
      var i :| 0 <= i < |ids| && ids[i] == id;
      ZipAt(ids, images, i);
    }
    var gone := Members(ids);
    assert gone == back.Keys;
    assert (docs - gone) + back == docs;
  }

  /** What one write logged takes it back, whichever of nothing or one row that is. */
  lemma {:induction false} OneWriteUndone<D>(docs: map<nat, D>, w: Write<D>)
    requires Legal(docs, w) && KeepsImages(w)
    ensures UndoAll(Effect(docs, w), Rows(docs, w)) == docs
  {
    var rows := Rows(docs, w);
    match w
    case Insert(id, doc) => assert docs[id := doc] - {id} == docs;
    case Patch(id, after, _) => assert docs[id := after][id := docs[id]] == docs && docs[id := docs[id]] == docs;
    case Remove(ids) =>
      RemovalUndone(docs, ids);
      if ids == [] { assert Effect(docs, w) == docs; }
    if rows != [] { assert rows[1..] == []; }
  }

  /** A write is undone by its own row exactly where it keeps images or changed nothing. */
  lemma {:induction false} UndoneIff<D>(docs: map<nat, D>, w: Write<D>)
    requires Legal(docs, w)
    ensures UndoAll(Effect(docs, w), Rows(docs, w)) == docs <==> KeepsImages(w) || Effect(docs, w) == docs
  {
    if KeepsImages(w) {
      OneWriteUndone(docs, w);
    } else {
      var rows := Rows(docs, w);
      if rows != [] { assert rows[1..] == [] && Undo(Effect(docs, w), rows[0]) == Effect(docs, w); }
    }
  }

  lemma {:induction false} UndoAllConcat<D>(docs: map<nat, D>, older: seq<Row<D>>, newer: seq<Row<D>>)
    ensures UndoAll(docs, older + newer) == UndoAll(UndoAll(docs, newer), older)
  {
    if older == [] {
      assert older + newer == newer;
    } else {
      assert (older + newer)[1..] == older[1..] + newer;
      UndoAllConcat(docs, older[1..], newer);
    }
  }

  /**
   * Run backwards, the log of any run of inserts, patches and set deletions gives back the collection it started from.
   */
  lemma {:induction false} LogUndoesTheRun<D>(s: State<D>, writes: seq<Write<D>>)
    requires LegalRun(s, writes) && forall w | w in writes :: KeepsImages(w)
    ensures s.log <= Run(s, writes).log && UndoAll(Run(s, writes).docs, Run(s, writes).log[|s.log|..]) == s.docs
    decreases |writes|
  {
    var end := Run(s, writes);
    if writes == [] {
      assert end.log[|s.log|..] == [];
    } else {
      var s' := Do(s, writes[0]);
      OneWriteUndone(s.docs, writes[0]);
      LogUndoesTheRun(s', writes[1..]);
      assert end.log[|s.log|..] == Rows(s.docs, writes[0]) + end.log[|s'.log|..];
      UndoAllConcat(end.docs, Rows(s.docs, writes[0]), end.log[|s'.log|..]);
    }
  }

  /** A write keeping no image is past undoing: two collections that differ can end alike with one log. */
  lemma {:induction false} ErasureForgets<D>(x: D, y: D)
    requires x != y
    ensures var s, t, w := map[0 := x], map[0 := y], Erase({0});
      s != t && Legal(s, w) && Legal(t, w) && Effect(s, w) == Effect(t, w) && Rows(s, w) == Rows(t, w)
  {
    var s, t := map[0 := x], map[0 := y];
    assert s[0] != t[0];
    assert s - {0} == map[] == t - {0};
  }

  /**
   * A row is left by exactly the writes that changed something, and by every patch outside a transaction, which is not
   * read back.
   */
  lemma {:induction false} RowIffChanged<D>(docs: map<nat, D>, w: Write<D>)
    requires Legal(docs, w)
    ensures Rows(docs, w) == [] <==> Effect(docs, w) == docs && !(w.Patch? && !w.inTransaction)
  {
    if Rows(docs, w) == [] {
      UnloggedIsUnchanged(docs, w);
    } else if !(w.Patch? && !w.inTransaction) {
      var id := Touched(docs, w);
    }
  }

  /** A patch outside a transaction that leaves its document as it was, and its row beside it. */
  lemma {:induction false} UnchangedPatchLogged<D>(x: D)
    ensures var docs, w := map[0 := x], Patch(0, x, false);
      Legal(docs, w) && Effect(docs, w) == docs && Rows(docs, w) == [Patched(0, x)]
  {
    assert map[0 := x][0 := x] == map[0 := x];
  }

  lemma {:induction false} UnloggedIsUnchanged<D>(docs: map<nat, D>, w: Write<D>)
    requires Legal(docs, w) && Rows(docs, w) == []
    ensures Effect(docs, w) == docs
  {
  }

  /** A document a logged write left other than it was. */
  lemma {:induction false} Touched<D>(docs: map<nat, D>, w: Write<D>) returns (id: nat)
    requires Legal(docs, w) && !(w.Patch? && !w.inTransaction)
    requires Rows(docs, w) != []
    ensures var now := Effect(docs, w); (id in docs) != (id in now) || (id in docs && docs[id] != now[id])
  {
    match w
    case Insert(i, _) => id := i;
    case Patch(i, _, _) => id := i;
    case Remove(ids) => id := ids[0];
    case InsertMany(ids, documents, inTransaction) =>
      var n := Standing(docs.Keys, ids, inTransaction);
      LandedDistinct(docs.Keys, ids, n);
      id := ids[0];
      assert id == ids[..n][0];
    case PatchMany(images) => id :| id in images;
    case Erase(gone) => id :| id in gone;
  }

  /** A fan-out's one row counts the documents it changed. */
  lemma {:induction false} FanOutCounts<D>(docs: map<nat, D>, images: map<nat, D>)
    requires Legal(docs, PatchMany(images))
    ensures var changed := set id | id in docs && Effect(docs, PatchMany(images))[id] != docs[id];
      Rows(docs, PatchMany(images)) == if changed == {} then [] else [PatchedMany(|changed|)]
  {
    var changed := set id | id in docs && Effect(docs, PatchMany(images))[id] != docs[id];
    assert changed == images.Keys && |images| == |images.Keys|;
  }

  // ----- the counts

  function Growth<D>(row: Row<D>): int {
    match row
    case Inserted(_) => 1
    case Patched(_, _) => 0
    case Removed(ids, _) => 0 - |ids|
    case InsertedMany(count) => count
    case PatchedMany(_) => 0
    case Erased(count) => 0 - count
  }

  function TotalGrowth<D>(rows: seq<Row<D>>): int {
    if rows == [] then 0 else TotalGrowth(rows[..|rows| - 1]) + Growth(rows[|rows| - 1])
  }

  lemma {:induction false} ZipSize<D>(ids: seq<nat>, documents: seq<D>)
    requires |ids| == |documents| && Distinct(ids)
    ensures |Zip(ids, documents)| == |ids|
  {
    if ids != [] { ZipSize(ids[..|ids| - 1], documents[..|ids| - 1]); }
  }

  lemma {:induction false} DistinctSize(ids: seq<nat>)
    requires Distinct(ids)
    ensures |Members(ids)| == |ids|
  {
    if ids == [] {
      assert Members(ids) == {};
    } else {
      var last := |ids| - 1;
      DistinctSize(ids[..last]);
      var before := Members(ids[..last]);
      assert ids == ids[..last] + [ids[last]];
      assert Members(ids) == before + {ids[last]};
      assert ids[last] !in before;
    }
  }

  lemma {:induction false} OneWriteCounts<D>(docs: map<nat, D>, w: Write<D>)
    requires Legal(docs, w)
    ensures |Effect(docs, w)| == |docs| + TotalGrowth(Rows(docs, w))
  {
    var now, rows := Effect(docs, w), Rows(docs, w);
    assert |now| == |now.Keys| && |docs| == |docs.Keys|;
    if rows == [] {
      UnloggedIsUnchanged(docs, w);
    } else {
      assert rows[..0] == [];
      OneRowCounts(docs, w);
    }
  }

  lemma {:induction false} OneRowCounts<D>(docs: map<nat, D>, w: Write<D>)
    requires Legal(docs, w) && Rows(docs, w) != []
    ensures |Effect(docs, w).Keys| == |docs.Keys| + Growth(Rows(docs, w)[0])
  {
    if w.Remove? {
      RemovalCounts(docs, w.ids);
    } else if w.InsertMany? {
      BatchCounts(docs, w.ids, w.documents, Standing(docs.Keys, w.ids, w.inTransaction));
    } else {
      KeyedCounts(docs, w);
    }
  }

  lemma {:induction false} KeyedCounts<D>(docs: map<nat, D>, w: Write<D>)
    requires Legal(docs, w) && !w.Remove? && !w.InsertMany? && Rows(docs, w) != []
    ensures |Effect(docs, w).Keys| == |docs.Keys| + Growth(Rows(docs, w)[0])
  {
    var now := Effect(docs, w);
    if w.Insert? {
      assert now.Keys == docs.Keys + {w.id};
    } else if w.Erase? {
      assert now.Keys == docs.Keys - w.gone;
    } else {
      assert now.Keys == docs.Keys;
    }
  }

  lemma {:induction false} RemovalCounts<D>(docs: map<nat, D>, ids: seq<nat>)
    requires Legal(docs, Remove(ids))
    ensures |(docs - Members(ids)).Keys| == |docs.Keys| - |ids|
  {
    DistinctSize(ids);
    assert (docs - Members(ids)).Keys == docs.Keys - Members(ids) && Members(ids) <= docs.Keys;
  }

  lemma {:induction false} BatchCounts<D>(docs: map<nat, D>, ids: seq<nat>, documents: seq<D>, n: nat)
    requires |ids| == |documents| && n <= |ids| && forall i | 0 <= i < n :: !Refused(docs.Keys, ids, i)
    ensures |(docs + Zip(ids[..n], documents[..n])).Keys| == |docs.Keys| + n
  {
    var added := Zip(ids[..n], documents[..n]);
    LandedDistinct(docs.Keys, ids, n);
    ZipSize(ids[..n], documents[..n]);
    assert |added| == |added.Keys|;
    assert (docs + added).Keys == docs.Keys + added.Keys && docs.Keys !! added.Keys;
  }

  lemma {:induction false} TotalGrowthConcat<D>(older: seq<Row<D>>, newer: seq<Row<D>>)
    ensures TotalGrowth(older + newer) == TotalGrowth(older) + TotalGrowth(newer)
  {
    if newer == [] {
      assert older + newer == older;
    } else {
      assert (older + newer)[..|older + newer| - 1] == older + newer[..|newer| - 1];
      TotalGrowthConcat(older, newer[..|newer| - 1]);
    }
  }

  /** The rows' counts account for every document gained and lost, whichever helpers ran and whatever a batch landed. */
  lemma {:induction false} LogAccountsForTheSize<D>(s: State<D>, writes: seq<Write<D>>)
    requires LegalRun(s, writes)
    ensures |Run(s, writes).docs| == |s.docs| + TotalGrowth(Run(s, writes).log) - TotalGrowth(s.log)
    decreases |writes|
  {
    if writes != [] {
      OneWriteCounts(s.docs, writes[0]);
      TotalGrowthConcat(s.log, Rows(s.docs, writes[0]));
      LogAccountsForTheSize(Do(s, writes[0]), writes[1..]);
    }
  }
}
