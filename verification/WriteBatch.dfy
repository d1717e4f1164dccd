/** Write batches, as the lists of operations they carry. */
module WriteBatch {
  import opened Wrappers
  import opened Entries

  datatype Op = Put(key: UserKey, value: Value) | Delete(key: UserKey)

  /** A write batch: its i-th operation carries sequence number start + i. */
  datatype Batch = Batch(start: nat, ops: seq<Op>) {
    function EntryAt(i: nat): Entry
      requires i < |ops|
    {
      match ops[i]
      case Put(key, value) => Entry(key, start + i, ValueTag, value)
      case Delete(key) => Entry(key, start + i, DeletionTag, "")
    }

    /** The sequence number of the last operation; one below the first when there is none. */
    function Last(): int { start + |ops| - 1 }

    ghost function Prefix(k: nat): set<Entry>
      requires k <= |ops|
    {
      set i: nat | i < k :: EntryAt(i)
    }

    ghost function All(): set<Entry> { Prefix(|ops|) }
  }

  /** Added to older entries, each operation answers a reader at its own sequence number: a put gives
      its value, a delete nothing. */
  lemma OperationAnswers(b: Batch, older: set<Entry>, i: nat)
    requires i < |b.ops| && UniqueSeqs(older + b.All()) && forall e | e in older :: e.sequence < b.start
    ensures b.ops[i].Put? ==> Read(older + b.All(), b.ops[i].key, b.start + i) == Some(b.ops[i].value)
    ensures b.ops[i].Delete? ==> Read(older + b.All(), b.ops[i].key, b.start + i) == None
  {
    var e := b.EntryAt(i);
    assert e in b.All();
    assert Newest(older + b.All(), e.user, b.start + i, e);
    ReadIs(older + b.All(), e.user, b.start + i, e);
  }

  /** The i-th operation is the last one on its key. */
  ghost predicate IsLastOn(b: Batch, i: nat) {
    i < |b.ops| && forall j | i < j < |b.ops| :: b.ops[j].key != b.ops[i].key
  }

  ghost predicate Touches(b: Batch, key: UserKey) { exists op :: op in b.ops && op.key == key }

  /** Added to older entries, a batch answers by the last operation on a key. */
  lemma LastOperationAnswers(b: Batch, older: set<Entry>, i: nat, last: nat)
    requires IsLastOn(b, i) && UniqueSeqs(older + b.All()) && last >= b.Last()
    requires forall e | e in older :: e.sequence < b.start
    ensures b.ops[i].Put? ==> Read(older + b.All(), b.ops[i].key, last) == Some(b.ops[i].value)
    ensures b.ops[i].Delete? ==> Read(older + b.All(), b.ops[i].key, last) == None
  {
    var e := b.EntryAt(i);
    assert e in b.All();
    forall f | f in older + b.All() && f.SeenBy(e.user, last) ensures f.sequence <= e.sequence {
      if f in b.All() {
        var j: nat :| j < |b.ops| && f == b.EntryAt(j);
        assert b.ops[j].key == e.user;
      }
    }
    assert Newest(older + b.All(), e.user, last, e);
    ReadIs(older + b.All(), e.user, last, e);
  }
}
