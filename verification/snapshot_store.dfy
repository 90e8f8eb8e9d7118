/**
 * The store every transaction commits to, as a state machine: snapshots open, buffered writes grow, commits
 * meet conflicts, and the TTL monitor removes anchors, in any interleaving. What is proved is what the
 * anchor is for: an erasure and a writer storing the erased address never both commit unseen.
 */
module SnapshotStore {
  import opened AddressAnchor
  import opened Results

  /** `written[k]` is the commit that last wrote or removed the document `k`. */
  datatype Store = Store(clock: nat, docs: Docs, written: map<Key, nat>, running: map<nat, Txn>) {
    function WrittenAt(k: Key): nat { if k in written then written[k] else 0 }
  }

  datatype Step =
    | Begin(t: nat)
    | Work(t: nat, txn: Txn)     // the callback writes: `txn` is the transaction after it
    | Commit(t: nat)
    | Abort(t: nat)
    | Expire(mailbox: nat)       // the TTL monitor removes an anchor, a write of its own

  function Apply(docs: Docs, writes: map<Key, Option<Doc>>): (r: Docs)
    ensures forall k :: At(r, k) == if k in writes then writes[k] else At(docs, k)
  {
    (docs - writes.Keys) + map k | k in writes && writes[k].Some? :: writes[k].value
  }

  /** First committer wins: nothing this transaction writes was written since its snapshot. */
  ghost predicate Unconflicted(s: Store, txn: Txn) {
    forall k | k in txn.writes :: s.WrittenAt(k) <= txn.began
  }

  function Committed(s: Store, t: nat): Store
    requires t in s.running
  {
    var txn := s.running[t];
    Store(s.clock + 1, Apply(s.docs, txn.writes), s.written + map k | k in txn.writes :: s.clock + 1, s.running - {t})
  }

  ghost predicate Next(s: Store, step: Step, s': Store) {
    match step
    case Begin(t) => t !in s.running && s' == s.(running := s.running[t := Txn(s.clock, s.docs, map[], {})])
    case Work(t, txn) =>
      && t in s.running && txn.began == s.running[t].began && txn.snapshot == s.running[t].snapshot
      && s' == s.(running := s.running[t := txn])
    case Commit(t) => t in s.running && s.running[t].Disciplined() && Unconflicted(s, s.running[t])
      && s' == Committed(s, t)
    case Abort(t) => t in s.running && s' == s.(running := s.running - {t})
    case Expire(m) => s' == s.(clock := s.clock + 1, docs := s.docs - {Anchor(m)},
      written := s.written[Anchor(m) := s.clock + 1])
  }

  ghost predicate Run(states: seq<Store>, steps: seq<Step>) {
    && |states| == |steps| + 1
    && states[0].running == map[] && (forall k | k in states[0].written :: states[0].written[k] <= states[0].clock)
    && forall i | 0 <= i < |steps| :: Next(states[i], steps[i], states[i + 1])
  }

  // ----- the invariant

  /** A document not written since the snapshot is as the snapshot holds it. */
  ghost predicate SnapshotHolds(s: Store, txn: Txn) {
    txn.began <= s.clock && forall k | s.WrittenAt(k) <= txn.began :: At(s.docs, k) == At(txn.snapshot, k)
  }

  /** A record that came to name a mailbox since the snapshot left the mark on its anchor. */
  ghost predicate NewNamesAnchored(s: Store, txn: Txn) {
    forall id, m | Names(s.docs, id, m) && !Names(txn.snapshot, id, m) :: s.WrittenAt(Anchor(m)) > txn.began
  }

  ghost predicate Inv(s: Store) {
    && (forall k | k in s.written :: s.written[k] <= s.clock)
    && forall t | t in s.running :: SnapshotHolds(s, s.running[t]) && NewNamesAnchored(s, s.running[t])
  }

  lemma {:induction false} CommitKeeps(s: Store, t: nat, other: Txn)
    requires Inv(s) && t in s.running && s.running[t].Disciplined() && Unconflicted(s, s.running[t])
    requires SnapshotHolds(s, other) && NewNamesAnchored(s, other)
    ensures SnapshotHolds(Committed(s, t), other) && NewNamesAnchored(Committed(s, t), other)
  {
    var txn, s' := s.running[t], Committed(s, t);
    forall id, m | Names(s'.docs, id, m) && !Names(other.snapshot, id, m)
      ensures s'.WrittenAt(Anchor(m)) > other.began
    {
      var k := Record(id);
      if k in txn.writes {
        if !txn.Stores(id, m) {
          assert s.WrittenAt(k) <= txn.began;
          assert Names(s.docs, id, m);
        }
      } else {
        assert Names(s.docs, id, m);
      }
    }
  }

  lemma {:induction false} NextKeeps(s: Store, step: Step, s': Store)
    requires Inv(s) && Next(s, step, s')
    ensures Inv(s')
  {
    match step
    case Begin(t) =>
    case Work(t, txn) =>
    case Abort(t) =>
    case Commit(t) =>
      forall t' | t' in s'.running ensures SnapshotHolds(s', s'.running[t']) && NewNamesAnchored(s', s'.running[t']) {
        CommitKeeps(s, t, s.running[t']);
      }
    case Expire(m) =>
      forall t' | t' in s'.running ensures SnapshotHolds(s', s'.running[t']) && NewNamesAnchored(s', s'.running[t']) {
        ExpireKeeps(s, m, s', s'.running[t']);
      }
  }

  lemma {:induction false} ExpireKeeps(s: Store, m: nat, s': Store, txn: Txn)
    requires Inv(s) && Next(s, Expire(m), s') && SnapshotHolds(s, txn) && NewNamesAnchored(s, txn)
    ensures SnapshotHolds(s', txn) && NewNamesAnchored(s', txn)
  {
    assert forall id :: At(s'.docs, Record(id)) == At(s.docs, Record(id));
  }

  lemma {:induction false} RunKeeps(states: seq<Store>, steps: seq<Step>, i: nat)
    requires Run(states, steps) && i < |states|
    ensures Inv(states[i])
  {
    if i > 0 {
      RunKeeps(states, steps, i - 1);
      assert Next(states[i - 1], steps[i - 1], states[i - 1 + 1]);
      NextKeeps(states[i - 1], steps[i - 1], states[i]);
    }
  }

  // ----- what the anchor promises

  ghost predicate ErasureCommits(states: seq<Store>, steps: seq<Step>, i: nat, mailbox: nat)
    requires Run(states, steps) && i < |steps|
  {
    steps[i].Commit? && steps[i].t in states[i].running && mailbox in states[i].running[steps[i].t].erases
  }

  ghost predicate NamedNowhere(docs: Docs, mailbox: nat) {
    forall id :: !Names(docs, id, mailbox)
  }

  /**
   * No record naming the address survives the moment its erasure commits, however many storers and erasures overlap it.
   */
  lemma {:induction false} NoRecordSurvivesErasure(states: seq<Store>, steps: seq<Step>, i: nat, mailbox: nat)
    requires Run(states, steps) && i < |steps| && ErasureCommits(states, steps, i, mailbox)
    ensures NamedNowhere(states[i + 1].docs, mailbox)
  {
    RunKeeps(states, steps, i);
    var s, s' := states[i], states[i + 1];
    assert Next(s, steps[i], s');
    var txn := s.running[steps[i].t];
    assert SnapshotHolds(s, txn) && NewNamesAnchored(s, txn);
    forall id ensures !Names(s'.docs, id, mailbox) {
      assert !Holds(txn.Sees(Record(id)), mailbox);
      assert Record(id) !in txn.writes ==> !Names(txn.snapshot, id, mailbox);
    }
  }

  /**
   * After an erasure at commit `c`: whatever names the address again was written later, and the anchor no earlier than
   * `c`.
   */
  ghost predicate Erased(s: Store, mailbox: nat, c: nat) {
    && c <= s.clock && s.WrittenAt(Anchor(mailbox)) >= c
    && forall id | Names(s.docs, id, mailbox) :: s.WrittenAt(Record(id)) > c
  }

  lemma {:induction false} ErasedStays(s: Store, step: Step, s': Store, mailbox: nat, c: nat)
    requires Inv(s) && Next(s, step, s') && Erased(s, mailbox, c)
    ensures Erased(s', mailbox, c)
  {
    match step
    case Commit(t) =>
      forall id | Names(s'.docs, id, mailbox) ensures s'.WrittenAt(Record(id)) > c {
        if Record(id) !in s.running[t].writes { assert Names(s.docs, id, mailbox); }
      }
    case Expire(m) => assert forall id :: At(s'.docs, Record(id)) == At(s.docs, Record(id));
    case _ =>
  }

  lemma {:induction false} ErasedAlong(states: seq<Store>, steps: seq<Step>, i: nat, mailbox: nat, j: nat)
    requires Run(states, steps) && i < |steps| && ErasureCommits(states, steps, i, mailbox) && i < j < |states|
    ensures Inv(states[j]) && Erased(states[j], mailbox, states[i + 1].clock)
  {
    RunKeeps(states, steps, j);
    if j == i + 1 {
      ErasedAtOnce(states, steps, i, mailbox);
    } else {
      ErasedAlong(states, steps, i, mailbox, j - 1);
      StepsNext(states, steps, j - 1);
      ErasedStays(states[j - 1], steps[j - 1], states[j], mailbox, states[i + 1].clock);
    }
  }

  lemma {:induction false} StepsNext(states: seq<Store>, steps: seq<Step>, i: nat)
    requires Run(states, steps) && i < |steps|
    ensures Next(states[i], steps[i], states[i + 1])
  {
  }

  lemma {:induction false} ErasedAtOnce(states: seq<Store>, steps: seq<Step>, i: nat, mailbox: nat)
    requires Run(states, steps) && i < |steps| && ErasureCommits(states, steps, i, mailbox)
    ensures Erased(states[i + 1], mailbox, states[i + 1].clock)
  {
    RunKeeps(states, steps, i);
    NoRecordSurvivesErasure(states, steps, i, mailbox);
    StepsNext(states, steps, i);
    assert Anchor(mailbox) in states[i].running[steps[i].t].writes;
  }

  /**
   * Whichever commits second runs again: a commit that leaves a record naming an erased address read a snapshot no
   * older than the erasure.
   */
  lemma {:induction false} LaterStorersReadTheErasure(
      states: seq<Store>, steps: seq<Step>, i: nat, mailbox: nat, j: nat, id: nat)
    requires Run(states, steps) && i < j < |steps| && ErasureCommits(states, steps, i, mailbox)
    requires steps[j].Commit? && steps[j].t in states[j].running
    requires Record(id) in states[j].running[steps[j].t].writes && Names(states[j + 1].docs, id, mailbox)
    ensures states[j].running[steps[j].t].began >= states[i + 1].clock
  {
    ErasedAlong(states, steps, i, mailbox, j);
    var s := states[j];
    assert Next(s, steps[j], states[j + 1]);
    var txn := s.running[steps[j].t];
    if txn.Stores(id, mailbox) {
      assert s.WrittenAt(Anchor(mailbox)) <= txn.began;
    } else {
      assert SnapshotHolds(s, txn) && s.WrittenAt(Record(id)) <= txn.began;
      assert Names(s.docs, id, mailbox);
    }
  }

  /**
   * Transactions over different documents never wait on each other: one's commit leaves the other as free to commit as
   * it was.
   */
  lemma {:induction false} OthersDoNotConflict(s: Store, t: nat, u: nat)
    requires t in s.running && u in s.running && t != u && s.running[t].writes.Keys !! s.running[u].writes.Keys
    ensures u in Committed(s, t).running
    ensures (Unconflicted(Committed(s, t), s.running[u]) <==> Unconflicted(s, s.running[u]))
  {
    var s', txn := Committed(s, t), s.running[u];
    forall k | k in txn.writes ensures s'.WrittenAt(k) == s.WrittenAt(k) { assert k !in s.running[t].writes; }
  }

  /**
   * The anchor is what rules the skew out. A storer that writes the record alone is refused by no conflict, and an
   * erasure over the older snapshot, disciplined and unconflicted, then commits with the record standing.
   */
  lemma {:induction false} WithoutTheAnchorARecordSurvives(a: Address)
    ensures var m, empty := a.mailbox, map[];
      var storer := Txn(0, empty, map[Record(0) := Some(RecordDoc({a}, 0))], {});
      var eraser := Txn(0, empty, map[Anchor(m) := Some(AnchorDoc(1))], {m});
      var s := Store(0, empty, map[], map[1 := storer, 2 := eraser]);
      && Inv(s) && Unconflicted(s, storer) && !storer.Disciplined()
      && eraser.Disciplined() && Unconflicted(Committed(s, 1), eraser)
      && Names(Committed(Committed(s, 1), 2).docs, 0, m)
  {
    var m := a.mailbox;
    var storer := Txn(0, map[], map[Record(0) := Some(RecordDoc({a}, 0))], {});
    assert Holds(storer.writes[Record(0)], m);
    assert storer.Stores(0, m);
  }
}
