/**
 * Storing an address against erasing it. A store of documents, transactions that each read one snapshot,
 * commits refused where a document of the write set was written since that snapshot, and the anchor
 * document per folded address that puts a storer and an eraser in one write set.
 */
module AddressAnchor {

  import opened Results

  /** A spelling of a mailbox; the sign-in fold keeps the mailbox alone. */
  datatype Address = Address(mailbox: nat, spelling: nat)

  /** An anchor's id is a keyed hash of the folded address, taken as injective: it is the mailbox. */
  datatype Key = Record(id: nat) | Anchor(mailbox: nat)

  datatype Doc = RecordDoc(adressen: set<Address>, rest: nat) | AnchorDoc(boundedWrites: nat)

  type Docs = map<Key, Doc>

  function At(docs: Docs, k: Key): Option<Doc> {
    if k in docs then Some(docs[k]) else None
  }

  predicate Holds(doc: Option<Doc>, mailbox: nat) {
    doc.Some? && doc.value.RecordDoc? && exists a | a in doc.value.adressen :: a.mailbox == mailbox
  }

  ghost predicate Names(docs: Docs, id: nat, mailbox: nat) {
    Holds(At(docs, Record(id)), mailbox)
  }

  // ----- one transaction, as the request's callback drives it

  /** What a transaction carries to its commit: the snapshot it read, what it writes, whom it erases. */
  datatype Txn = Txn(began: nat, snapshot: Docs, writes: map<Key, Option<Doc>>, erases: set<nat>) {

    /** A read inside the transaction sees its own writes. */
    function Sees(k: Key): Option<Doc> {
      if k in writes then writes[k] else At(snapshot, k)
    }

    /** The transaction makes this record name the mailbox, where its snapshot did not. */
    ghost predicate Stores(id: nat, m: nat) {
      Record(id) in writes && Holds(writes[Record(id)], m) && !Names(snapshot, id, m)
    }

    /**
     * Every address newly stored is anchored; an erasure anchors its address and leaves no record it sees naming it.
     */
    ghost predicate Disciplined() {
      && (forall id, m | Stores(id, m) :: Anchor(m) in writes)
      && (forall m | m in erases :: Anchor(m) in writes)
      && (forall id, m | m in erases :: !Holds(Sees(Record(id)), m))
    }
  }

  class Session {
    const began: nat
    const snapshot: Docs
    var writes: map<Key, Option<Doc>>
    var erases: set<nat>
    var sent: bool

    constructor (began: nat, snapshot: Docs)
      ensures AsTxn() == Txn(began, snapshot, map[], {}) && !sent
    {
      this.began, this.snapshot := began, snapshot;
      writes, erases, sent := map[], {}, false;
    }

    function AsTxn(): Txn
      reads this
    {
      Txn(began, snapshot, writes, erases)
    }

    /** One write reaching the driver. A write that leaves its document as it was joins no write set. */
    method Put(k: Key, doc: Option<Doc>)
      modifies this
      ensures sent && erases == old(erases)
      ensures writes == if old(AsTxn().Sees(k)) == doc then old(writes) else old(writes)[k := doc]
    {
      sent := true;
      if AsTxn().Sees(k) != doc { writes := writes[k := doc]; }
    }

    /**
     * `$inc` of the anchor's field, creating the anchor where nobody has written it: never a constant, so it always
     * writes.
     */
    method AnchorById(ids: seq<nat>)
      modifies this
      ensures sent && erases == old(erases)
      ensures forall m :: Anchor(m) in writes <==> m in ids || Anchor(m) in old(writes)
      ensures forall id :: Record(id) in writes <==> Record(id) in old(writes)
      ensures forall id | Record(id) in writes :: writes[Record(id)] == old(writes)[Record(id)]
    {
      sent := true;
      for i := 0 to |ids|
        invariant sent && erases == old(erases)
        invariant forall m :: Anchor(m) in writes <==> m in ids[..i] || Anchor(m) in old(writes)
        invariant forall id :: Record(id) in writes <==> Record(id) in old(writes)
        invariant forall id | Record(id) in writes :: writes[Record(id)] == old(writes)[Record(id)]
      {
        var before := AsTxn().Sees(Anchor(ids[i]));
        var count := if before.Some? && before.value.AnchorDoc? then before.value.boundedWrites else 0;
        Put(Anchor(ids[i]), Some(AnchorDoc(count + 1)));
      }
    }

    /** Anchor every address here, an empty slot anchoring nothing. */
    method AnchorTheAddresses(adressen: seq<Option<Address>>)
      modifies this
      ensures erases == old(erases)
      ensures forall m :: Anchor(m) in writes <==> Anchor(m) in old(writes) || Given(adressen, m)
      ensures forall id :: Record(id) in writes <==> Record(id) in old(writes)
      ensures forall id | Record(id) in writes :: writes[Record(id)] == old(writes)[Record(id)]
    {
      var ids: seq<nat> := [];
      for i := 0 to |adressen|
        invariant forall m :: Given(adressen[..i], m) <==> m in ids
      {
        if adressen[i].Some? && adressen[i].value.mailbox !in ids { ids := ids + [adressen[i].value.mailbox]; }
        assert adressen[..i + 1] == adressen[..i] + [adressen[i]];
      }
      assert adressen[..|adressen|] == adressen;
      if ids != [] { AnchorById(ids); }
    }

    /** A write route: every address of the record is anchored, then the record is written. */
    method StoreRecord(id: nat, adressen: seq<Option<Address>>, rest: nat)
      requires AsTxn().Disciplined() && erases == {}
      modifies this
      ensures AsTxn().Disciplined() && erases == {}
      ensures AsTxn().Sees(Record(id)) == Some(RecordDoc(Filled(adressen), rest))
      ensures forall other | other != id :: AsTxn().Sees(Record(other)) == old(AsTxn().Sees(Record(other)))
    {
      AnchorTheAddresses(adressen);
      ghost var anchored := writes;
      Put(Record(id), Some(RecordDoc(Filled(adressen), rest)));
      assert forall m :: Anchor(m) in writes <==> Anchor(m) in anchored;
      forall id', m | AsTxn().Stores(id', m) ensures Anchor(m) in writes {
        if writes[Record(id')] != Some(RecordDoc(Filled(adressen), rest)) { assert old(AsTxn()).Stores(id', m); }
      }
    }

    /**
     * An erasure: the address anchored before anything is read, then exactly the records the transaction sees naming it
     * removed.
     */
    method Erase(address: Address)
      requires writes == map[] && erases == {}
      modifies this
      ensures AsTxn().Disciplined() && erases == {address.mailbox}
      ensures forall id ::
        AsTxn().Sees(Record(id)) == if Names(snapshot, id, address.mailbox) then None else At(snapshot, Record(id))
    {
      var adressen := [Some(address)];
      AnchorTheAddresses(adressen);
      assert Some(address) in adressen && Given(adressen, address.mailbox);
      erases := {address.mailbox};
      var due := set k | k in snapshot && k.Record? && Holds(AsTxn().Sees(k), address.mailbox);
      while due != {}
        invariant erases == {address.mailbox} && Anchor(address.mailbox) in writes
        invariant forall id | Holds(AsTxn().Sees(Record(id)), address.mailbox) :: Record(id) in due
        invariant forall k | k in due :: k in snapshot && k.Record? && Holds(At(snapshot, k), address.mailbox)
        invariant forall id | Record(id) in writes :: writes[Record(id)] == None && Names(snapshot, id, address.mailbox)
        decreases |due|
      {
        var k :| k in due;
        Put(k, None);
        due := due - {k};
      }
    }
  }

  ghost predicate Given(adressen: seq<Option<Address>>, mailbox: nat) {
    exists slot | slot in adressen :: slot.Some? && slot.value.mailbox == mailbox
  }

  function Filled(adressen: seq<Option<Address>>): set<Address> {
    set a | a in adressen && a.Some? :: a.value
  }
}
