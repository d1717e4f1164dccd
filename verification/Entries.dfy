/** Versioned entries and what a read of a collection of them answers.

    A user comparator orders countably many keys, and every countable total order embeds in
    the rationals, so a user key stands here as its position in that order: a `real`. Two keys
    the comparator calls equal have the same position. */
module Entries {
  import opened Wrappers

  type UserKey = real
  type Value = string

  /** The low byte of an internal key. Bytes above `ValueTag` do not parse. */
  const DeletionTag: nat := 0
  const ValueTag: nat := 1
  const MaxSequence: nat := 0xFF_FFFF_FFFF_FFFF

  datatype Entry = Entry(user: UserKey, sequence: nat, tag: nat, value: Value) {
    /** ParseInternalKey's verdict on the type byte. */
    predicate Parses() { tag <= ValueTag }

    /** A reader of `key` at snapshot `s` may be answered by this entry. */
    predicate SeenBy(key: UserKey, s: nat) {
      user == key && sequence <= s && Parses()
    }

    function Answer(): Option<Value> {
      if tag == ValueTag then Some(value) else None
    }
  }

  /** The internal-key order: user keys ascending, then sequence numbers descending, then type
      bytes descending. */
  predicate Before(a: Entry, b: Entry) {
    || a.user < b.user
    || (a.user == b.user && (a.sequence > b.sequence || (a.sequence == b.sequence && a.tag > b.tag)))
  }

  ghost predicate Sorted(es: seq<Entry>) {
    forall i, j | 0 <= i < j < |es| :: Before(es[i], es[j])
  }

  /** No two different entries carry the same sequence number. */
  ghost predicate UniqueSeqs(es: set<Entry>) {
    forall a, b | a in es && b in es && a.sequence == b.sequence :: a == b
  }

  /** `e` is the newest entry for `key` a reader at `s` may see. */
  ghost predicate Newest(es: set<Entry>, key: UserKey, s: nat, e: Entry) {
    && e in es
    && e.SeenBy(key, s)
    && forall f | f in es && f.SeenBy(key, s) :: f.sequence <= e.sequence
  }

  ghost predicate Sees(es: set<Entry>, key: UserKey, s: nat) {
    exists e :: e in es && e.SeenBy(key, s)
  }

  /** What a read of `key` at snapshot `s` answers: the newest visible entry decides, and a
      deletion marker, like no entry at all, answers "not found". */
  ghost function Read(es: set<Entry>, key: UserKey, s: nat): Option<Value> {
    if e: Entry :| Newest(es, key, s, e) then e.Answer() else None
  }

  /** Two collections no reader at `floor` or above can tell apart. */
  ghost predicate SameReads(a: set<Entry>, b: set<Entry>, floor: nat) {
    forall key, s | s >= floor :: Read(a, key, s) == Read(b, key, s)
  }

  /** Everything in `a` is strictly newer than everything in `b`. */
  ghost predicate Above(a: set<Entry>, b: set<Entry>) {
    forall x, y | x in a && y in b :: x.sequence > y.sequence
  }

  lemma {:induction false} NewestExists(es: set<Entry>, key: UserKey, s: nat) returns (e: Entry)
    requires Sees(es, key, s)
    ensures Newest(es, key, s, e)
    decreases es
  {
    e :| e in es && e.SeenBy(key, s);
    var rest := es - {e};
    if Sees(rest, key, s) {
      var f := NewestExists(rest, key, s);
      if e.sequence < f.sequence {
        e := f;
      }
    }
  }

  lemma ReadIs(es: set<Entry>, key: UserKey, s: nat, e: Entry)
    requires UniqueSeqs(es) && Newest(es, key, s, e)
    ensures Read(es, key, s) == e.Answer()
  {
  }

  lemma ReadNone(es: set<Entry>, key: UserKey, s: nat)
    requires !Sees(es, key, s)
    ensures Read(es, key, s) == None
  {
  }

  /** A read of a union is answered by the newer part whenever that part has anything to say:
      the reason a lookup may stop at the first layer that answers. */
  lemma ReadLayered(newer: set<Entry>, older: set<Entry>, key: UserKey, s: nat)
    requires UniqueSeqs(newer + older) && Above(newer, older)
    ensures Sees(newer, key, s) ==> Read(newer + older, key, s) == Read(newer, key, s)
    ensures !Sees(newer, key, s) ==> Read(newer + older, key, s) == Read(older, key, s)
  {
    if Sees(newer, key, s) {
      var e := NewestExists(newer, key, s);
      ReadIs(newer, key, s, e);
      assert Newest(newer + older, key, s, e);
      ReadIs(newer + older, key, s, e);
    } else if Sees(older, key, s) {
      var e := NewestExists(older, key, s);
      ReadIs(older, key, s, e);
      assert Newest(newer + older, key, s, e);
      ReadIs(newer + older, key, s, e);
    } else {
      ReadNone(older, key, s);
      ReadNone(newer + older, key, s);
    }
  }

  /** Adding the same newer entries to two collections that read alike keeps them reading
      alike. */
  lemma SameReadsExtend(a: set<Entry>, b: set<Entry>, newer: set<Entry>, floor: nat)
    requires SameReads(a, b, floor)
    requires UniqueSeqs(newer + a) && UniqueSeqs(newer + b)
    requires Above(newer, a) && Above(newer, b)
    ensures SameReads(newer + a, newer + b, floor)
  {
    forall key, s | s >= floor
      ensures Read(newer + a, key, s) == Read(newer + b, key, s)
    {
      ReadLayered(newer, a, key, s);
      ReadLayered(newer, b, key, s);
    }
  }
}
