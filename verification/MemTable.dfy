/** The memtable: entry buffers kept in a skip list in internal-key order. */
module MemTable {
  import opened Wrappers
  import opened Entries
  import opened WriteBatch
  import opened Coding
  import opened DbFormat
  import opened SkipList
  import Compaction

  /** A byte string as a value; bytes and characters are the same thing in the source. */
  function Text(b: seq<byte>): Value { seq(|b|, i requires 0 <= i < |b| => b[i] as char) }

  /** What a comparison and a read see in an entry's buffer. */
  function Decoded(rank: Ranking, buf: seq<byte>): Entry {
    match KeyPart(buf)
    case None => Entry(0.0, 0, 0, "")
    case Some(key) =>
      EntryOf(rank, key, match ValuePart(buf) case Some(v) => Text(v) case None => "")
  }

  lemma DecodedIs(rank: Ranking, user: seq<byte>, sequence: nat, tag: nat, value: seq<byte>)
    requires sequence <= MaxSequence && tag <= ValueTag
    requires |user| + 8 < SizeLimit && |value| < SizeLimit
    ensures Decoded(rank, EncodeEntry(user, sequence, tag, value)) == Entry(rank(user), sequence, tag, Text(value))
  {
    EntryReadsBack(user, sequence, tag, value, []);
    assert EncodeEntry(user, sequence, tag, value) + [] == EncodeEntry(user, sequence, tag, value);
    TagReadsBack(user, sequence, tag);
    ModIs(PackSequenceAndType(sequence, tag), 256, sequence, tag);
  }

  lemma TargetIs(rank: Ranking, user: seq<byte>, sequence: nat)
    requires sequence <= MaxSequence && |user| + 8 < SizeLimit
    ensures var t := Decoded(rank, NewLookupKey(user, sequence).MemtableKey());
            t.user == rank(user) && t.sequence == sequence && t.tag == TypeForSeek
  {
    LookupKeyViews(user, sequence);
    TagReadsBack(user, sequence, TypeForSeek);
    ModIs(PackSequenceAndType(sequence, TypeForSeek), 256, sequence, TypeForSeek);
  }

  /** In sorted entries that all parse, the first one not before the seek target of (key, s) is
      the newest the reader may see, unless it is for another key; then there is none. */
  lemma SeekFindsNewest(es: seq<Entry>, key: UserKey, s: nat, i: nat, target: Entry)
    requires Sorted(es) && i <= |es| && forall e | e in es :: e.Parses()
    requires target.user == key && target.sequence == s && target.tag == TypeForSeek
    requires forall j: nat | j < i :: Before(es[j], target)
    requires forall j: nat | i <= j < |es| :: !Before(es[j], target)
    ensures i < |es| && es[i].user == key ==> Newest(Compaction.Contents(es), key, s, es[i])
    ensures !(i < |es| && es[i].user == key) ==> !Sees(Compaction.Contents(es), key, s)
  {
    forall e | e in Compaction.Contents(es) && e.SeenBy(key, s)
      ensures i < |es| && es[i].user == key && e.sequence <= es[i].sequence
    {
      var j: nat :| j < |es| && es[j] == e;
      assert i < j ==> Before(es[i], es[j]);
    }
  }

  class MemTable {
    const rank: Ranking
    const table: SkipList

    ghost predicate Valid()
      reads this, table, table.head, table.repr
    {
      && table.Valid() && table.Settled()
      && (forall e | e in table.Contents() :: e.Parses() && e.sequence <= MaxSequence)
      && Sorted(table.Contents())
    }

    ghost function Contents(): set<Entry>
      requires |table.levels| == MaxHeight
      reads this, table
    {
      Compaction.Contents(table.Contents())
    }

    constructor (rank: Ranking)
      ensures Valid() && Contents() == {} && this.rank == rank && fresh(table) && fresh(table.repr)
    {
      this.rank := rank;
      table := new SkipList();
    }

    /** The entry joins the table. `height` is the level the skip list draws. */
    method Add(sequence: nat, tag: nat, key: seq<byte>, value: seq<byte>, height: nat)
      requires Valid() && sequence <= MaxSequence && tag <= ValueTag
      requires |key| + 8 < SizeLimit && |value| < SizeLimit && 1 <= height <= MaxHeight
      requires forall e | e in Contents() :: e.user == rank(key) ==> e.sequence != sequence
      modifies table, table.repr
      ensures Valid() && fresh(table.repr - old(table.repr))
      ensures Contents() == old(Contents()) + {Entry(rank(key), sequence, tag, Text(value))}
    {
      var buf := EncodeEntry(key, sequence, tag, value);
      DecodedIs(rank, key, sequence, tag, value);
      ghost var before := table.Contents();
      var e := Decoded(rank, buf);
      forall n | n in table.levels[0] ensures Before(n.key, e) || Before(e, n.key) {
        var j: nat :| j < |before| && table.levels[0][j] == n;
        assert before[j] in Contents();
      }
      InsertedMembers(before, e);
      table.Insert(e, height);
      assert table.Linked(0);
    }

    /** The newest version the lookup may see: its value, or that it was deleted; not found when
        there is none here. */
    method Get(key: seq<byte>, sequence: nat) returns (found: bool, value: Option<Value>)
      requires Valid() && sequence <= MaxSequence && |key| + 8 < SizeLimit
      ensures found <==> Sees(Contents(), rank(key), sequence)
      ensures found && UniqueSeqs(Contents()) ==> value == Read(Contents(), rank(key), sequence)
      ensures !found ==> value == None
    {
      var lookup := NewLookupKey(key, sequence);
      LookupKeyViews(key, sequence);
      TargetIs(rank, key, sequence);
      var target := Decoded(rank, lookup.MemtableKey());
      var iter := new Iterator(table);
      ghost var i := iter.Seek(target);
      ghost var es := table.Contents();
      assert forall j: nat | j < |es| :: es[j] == table.levels[0][j].key;
      SeekFindsNewest(es, rank(key), sequence, i, target);
      found, value := false, None;
      if iter.node != null {
        var e := iter.node.key;
        assert e == es[i];
        if e.user == rank(lookup.UserKey()) {
          if e.tag == ValueTag {
            found, value := true, Some(e.value);
          } else if e.tag == DeletionTag {
            found, value := true, None;
          }
          if UniqueSeqs(Contents()) {
            ReadIs(Contents(), rank(key), sequence, e);
          }
        }
      }
    }
  }

  // ---- Applying a batch ----

  datatype Update = Update(tag: nat, key: seq<byte>, value: seq<byte>) {
    predicate Fits() {
      tag <= ValueTag && |key| + 8 < SizeLimit && |value| < SizeLimit && (tag == DeletionTag ==> value == [])
    }

    function AsOp(rank: Ranking): Op {
      if tag == ValueTag then Put(rank(key), Text(value)) else Delete(rank(key))
    }
  }

  function AsBatch(rank: Ranking, start: nat, updates: seq<Update>): Batch {
    Batch(start, seq(|updates|, i requires 0 <= i < |updates| => updates[i].AsOp(rank)))
  }

  /** What a reader at the update's number is answered. */
  ghost predicate Answers(rank: Ranking, sequence: nat, u: Update, es: set<Entry>) {
    Read(es, rank(u.key), sequence) == if u.tag == ValueTag then Some(Text(u.value)) else None
  }

  lemma UpdatesAnswer(rank: Ranking, start: nat, updates: seq<Update>, older: set<Entry>)
    requires (forall u | u in updates :: u.Fits()) && forall e | e in older :: e.sequence < start
    ensures UniqueSeqs(older) ==>
              forall i: nat | i < |updates| ::
                Answers(rank, start + i, updates[i], older + AsBatch(rank, start, updates).All())
  {
    if UniqueSeqs(older) {
      forall i: nat | i < |updates|
        ensures Answers(rank, start + i, updates[i], older + AsBatch(rank, start, updates).All())
      {
        assert updates[i] in updates;
        OperationAnswers(AsBatch(rank, start, updates), older, i);
      }
    }
  }

  /** The i-th update of a batch goes in with the i-th sequence number: a reader at that number is
      answered by it, a value by the value and a deletion by nothing. */
  method InsertInto(mem: MemTable, start: nat, updates: seq<Update>, heights: seq<nat>)
    requires mem.Valid() && |heights| == |updates| && start + |updates| <= MaxSequence + 1
    requires forall u | u in updates :: u.Fits()
    requires forall h | h in heights :: 1 <= h <= MaxHeight
    requires forall e | e in mem.Contents() :: e.sequence < start
    modifies mem.table, mem.table.repr
    ensures mem.Valid() && fresh(mem.table.repr - old(mem.table.repr))
    ensures mem.Contents() == old(mem.Contents()) + AsBatch(mem.rank, start, updates).All()
    ensures UniqueSeqs(old(mem.Contents())) ==>
              forall i: nat | i < |updates| :: Answers(mem.rank, start + i, updates[i], mem.Contents())
  {
    hide Answers, UniqueSeqs;
    UpdatesAnswer(mem.rank, start, updates, mem.Contents());
    ghost var b := AsBatch(mem.rank, start, updates);
    for i := 0 to |updates|
      invariant mem.Valid() && fresh(mem.table.repr - old(mem.table.repr))
      invariant mem.Contents() == old(mem.Contents()) + b.Prefix(i)
    {
      assert updates[i] in updates && heights[i] in heights;
      assert forall e | e in mem.Contents() :: e.sequence < start + i;
      mem.Add(start + i, updates[i].tag, updates[i].key, updates[i].value, heights[i]);
      assert Text([]) == "" && b.ops[i] == updates[i].AsOp(mem.rank);
      assert b.EntryAt(i) == Entry(mem.rank(updates[i].key), start + i, updates[i].tag, Text(updates[i].value));
      assert b.Prefix(i + 1) == b.Prefix(i) + {b.EntryAt(i)};
    }
  }

  lemma {:induction false} InsertedMembers(es: seq<Entry>, key: Entry)
    ensures forall e :: e in Inserted(es, key) <==> e == key || e in es
  {
    if |es| > 0 && Before(es[0], key) {
      InsertedMembers(es[1..], key);
    }
  }
}
