/** Internal keys and memtable entries as bytes, and the order the comparator puts on them. */
module DbFormat {
  import opened Wrappers
  import opened Entries
  import opened Coding

  /** Where a user comparator puts a key: equal ranks are keys it calls equal. */
  type Ranking = seq<byte> -> UserKey

  const TypeForSeek: nat := ValueTag

  datatype ParsedKey = ParsedKey(user: seq<byte>, sequence: nat, tag: nat)

  /** Sequence number in the upper 56 bits, type in the low byte. */
  function PackSequenceAndType(sequence: nat, tag: nat): nat { 256 * sequence + tag }

  function InternalKey(user: seq<byte>, sequence: nat, tag: nat): seq<byte> {
    user + Fixed(8, PackSequenceAndType(sequence, tag))
  }

  function ExtractUserKey(key: seq<byte>): seq<byte>
    requires |key| >= 8
  {
    key[..|key| - 8]
  }

  function TagOf(key: seq<byte>): nat
    requires |key| >= 8
  {
    FixedValue(key[|key| - 8..])
  }

  function ParseInternalKey(key: seq<byte>): Option<ParsedKey> {
    if |key| < 8 then None
    else
      var num := TagOf(key);
      if num % 256 <= ValueTag then Some(ParsedKey(ExtractUserKey(key), num / 256, num % 256)) else None
  }

  /** The order of internal keys: -1, 0 or 1. */
  function Compare(rank: Ranking, a: seq<byte>, b: seq<byte>): int
    requires |a| >= 8 && |b| >= 8
  {
    if rank(ExtractUserKey(a)) < rank(ExtractUserKey(b)) then -1
    else if rank(ExtractUserKey(a)) > rank(ExtractUserKey(b)) then 1
    else if TagOf(a) > TagOf(b) then -1
    else if TagOf(a) < TagOf(b) then 1
    else 0
  }

  /** The entry a key and a value stand for, readable or not. */
  function EntryOf(rank: Ranking, key: seq<byte>, value: Value): Entry
    requires |key| >= 8
  {
    Entry(rank(ExtractUserKey(key)), TagOf(key) / 256, TagOf(key) % 256, value)
  }

  lemma PackedFits(sequence: nat, tag: nat)
    requires sequence <= MaxSequence && tag < 256
    ensures PackSequenceAndType(sequence, tag) < Pow256(8)
  {
    assert Pow256(8) == 0x1_0000_0000_0000_0000;
  }

  lemma TagReadsBack(user: seq<byte>, sequence: nat, tag: nat)
    requires sequence <= MaxSequence && tag < 256
    ensures ExtractUserKey(InternalKey(user, sequence, tag)) == user
    ensures TagOf(InternalKey(user, sequence, tag)) == PackSequenceAndType(sequence, tag)
  {
    var k := InternalKey(user, sequence, tag);
    var num := PackSequenceAndType(sequence, tag);
    assert k[..|user|] == user && k[|user|..] == Fixed(8, num);
    PackedFits(sequence, tag);
    FixedReadsBack(8, num);
    ModIs(num, Pow256(8), 0, num);
  }

  /** An internal key byte by byte: the user key, one byte of type, seven of sequence number with the
      least significant first. */
  lemma KeyBytes(user: seq<byte>, sequence: nat, tag: nat, i: nat)
    requires sequence <= MaxSequence && tag < 256 && i < 7
    ensures var k := InternalKey(user, sequence, tag);
            && |k| == |user| + 8 && k[..|user|] == user && k[|user|] == tag
            && k[|user| + 1 + i] == sequence / Pow256(i) % 256
  {
    var num, tail := PackSequenceAndType(sequence, tag), Fixed(8, PackSequenceAndType(sequence, tag));
    ModIs(num, 256, sequence, tag);
    FixedAt(8, num, 0);
    FixedAt(8, num, i + 1);
    DivTwice(num, 256, Pow256(i));
    assert InternalKey(user, sequence, tag)[|user|..] == tail;
    assert InternalKey(user, sequence, tag)[|user| + 1 + i] == tail[1 + i];
  }

  /** A put is of type 1, a deletion of type 0; a search begins with type 1. */
  lemma TypeBytes(user: seq<byte>, sequence: nat)
    requires sequence <= MaxSequence
    ensures InternalKey(user, sequence, ValueTag)[|user|] == 1 && InternalKey(user, sequence, DeletionTag)[|user|] == 0
    ensures InternalKey(user, sequence, TypeForSeek)[|user|] == 1
  {
    KeyBytes(user, sequence, ValueTag, 0);
    KeyBytes(user, sequence, DeletionTag, 0);
  }

  /** Parsing undoes appending. */
  lemma ParseInverts(user: seq<byte>, sequence: nat, tag: nat)
    requires sequence <= MaxSequence && tag <= ValueTag
    ensures ParseInternalKey(InternalKey(user, sequence, tag)) == Some(ParsedKey(user, sequence, tag))
  {
    TagReadsBack(user, sequence, tag);
    ModIs(PackSequenceAndType(sequence, tag), 256, sequence, tag);
  }

  /** Whatever parses is the encoding of what it parses to; what does not is too short or has a
      type byte above the two known ones. */
  lemma ParseIsExact(key: seq<byte>)
    ensures match ParseInternalKey(key)
            case Some(p) => p.sequence <= MaxSequence && p.tag <= ValueTag
                && InternalKey(p.user, p.sequence, p.tag) == key
            case None => |key| < 8 || key[|key| - 8] > ValueTag
  {
    if |key| >= 8 {
      var low := key[|key| - 8..];
      FixedOnto(low);
      var num, high := FixedValue(low), FixedValue(low[1..]);
      ModIs(num, 256, high, low[0]);
      assert Pow256(8) == 0x1_0000_0000_0000_0000;
      assert PackSequenceAndType(high, low[0]) == num;
      assert ExtractUserKey(key) + low == key;
    }
  }

  /** The comparator orders encodings as the entries they stand for, corrupt ones included. */
  lemma CompareIsBefore(rank: Ranking, a: seq<byte>, b: seq<byte>, v: Value, w: Value)
    requires |a| >= 8 && |b| >= 8
    ensures Compare(rank, a, b) < 0 <==> Before(EntryOf(rank, a, v), EntryOf(rank, b, w))
    ensures Compare(rank, a, b) > 0 <==> Before(EntryOf(rank, b, w), EntryOf(rank, a, v))
  {
    var x, y := TagOf(a), TagOf(b);
    assert x == 256 * (x / 256) + x % 256 && y == 256 * (y / 256) + y % 256;
  }

  // ---- Memtable entries ----

  /** Sizes are written in 32 bits. */
  const SizeLimit: nat := 0x1_0000_0000

  /** The buffer an entry lies in: the internal key and the value, each behind its length. */
  function EncodeEntry(user: seq<byte>, sequence: nat, tag: nat, value: seq<byte>): seq<byte> {
    Varint(|user| + 8) + InternalKey(user, sequence, tag) + Varint(|value|) + value
  }

  /** A small entry byte by byte. */
  lemma EntryBytes(user: seq<byte>, sequence: nat, tag: nat, value: seq<byte>)
    requires |user| < 120 && |value| < 128
    ensures EncodeEntry(user, sequence, tag, value)
            == [|user| + 8] + user + Fixed(8, 256 * sequence + tag) + [|value|] + value
  {
    assert Varint(|user| + 8) == [|user| + 8] && Varint(|value|) == [|value|];
  }

  /** A length and as many bytes as it says, and how many bytes the two take together. */
  function LengthPrefixed(b: seq<byte>): Option<(seq<byte>, nat)> {
    match ReadVarint(b, 5)
    case None => None
    case Some(r) => if r.1 + r.0 <= |b| then Some((b[r.1..r.1 + r.0], r.1 + r.0)) else None
  }

  lemma {:induction false} ReadVarintShort(b: seq<byte>, n: nat)
    ensures ReadVarint(b, n).Some? ==> 0 < ReadVarint(b, n).value.1 <= |b|
  {
    if n > 0 && |b| > 0 && b[0] >= 128 {
      ReadVarintShort(b[1..], n - 1);
    }
  }

  lemma LengthReadsBack(body: seq<byte>, rest: seq<byte>)
    requires |body| < SizeLimit
    ensures LengthPrefixed(Varint(|body|) + body + rest) == Some((body, |Varint(|body|)| + |body|))
  {
    assert Pow128(5) >= SizeLimit;
    VarintFits(|body|, 5);
    var b := Varint(|body|) + body + rest;
    assert b == Varint(|body|) + (body + rest);
    VarintReadsBack(|body|, body + rest, 5);
    assert b[|Varint(|body|)|..|Varint(|body|)| + |body|] == body;
  }

  /** The key a comparison of buffers looks at. */
  function KeyPart(buf: seq<byte>): Option<seq<byte>> {
    match LengthPrefixed(buf)
    case Some(r) => if |r.0| >= 8 then Some(r.0) else None
    case None => None
  }

  function ValuePart(buf: seq<byte>): Option<seq<byte>> {
    match LengthPrefixed(buf)
    case None => None
    case Some(r) =>
      ReadWithin(buf, r.1)
  }

  function ReadWithin(buf: seq<byte>, from: nat): Option<seq<byte>> {
    if from > |buf| then None
    else
      match LengthPrefixed(buf[from..])
      case Some(v) => Some(v.0)
      case None => None
  }

  /** An entry's buffer gives back its key and its value, whatever follows it in memory. */
  lemma EntryReadsBack(user: seq<byte>, sequence: nat, tag: nat, value: seq<byte>, rest: seq<byte>)
    requires |user| + 8 < SizeLimit && |value| < SizeLimit
    ensures KeyPart(EncodeEntry(user, sequence, tag, value) + rest) == Some(InternalKey(user, sequence, tag))
    ensures ValuePart(EncodeEntry(user, sequence, tag, value) + rest) == Some(value)
  {
    var key := InternalKey(user, sequence, tag);
    var tail := Varint(|value|) + value + rest;
    var buf := EncodeEntry(user, sequence, tag, value) + rest;
    assert buf == Varint(|key|) + key + tail;
    LengthReadsBack(key, tail);
    assert buf[|Varint(|key|)| + |key|..] == tail;
    LengthReadsBack(value, rest);
  }

  // ---- Lookup keys ----

  /** One buffer that serves as a memtable key from its start and as an internal key from `kstart`. */
  datatype LookupKey = LookupKey(space: seq<byte>, kstart: nat) {
    function MemtableKey(): seq<byte> { space }

    function InternalKey(): seq<byte>
      requires kstart <= |space|
    {
      space[kstart..]
    }

    function UserKey(): seq<byte>
      requires kstart + 8 <= |space|
    {
      space[kstart..|space| - 8]
    }
  }

  function NewLookupKey(user: seq<byte>, sequence: nat): LookupKey {
    LookupKey(Varint(|user| + 8) + InternalKey(user, sequence, TypeForSeek), |Varint(|user| + 8)|)
  }

  /** All three views of a lookup key agree. */
  lemma LookupKeyViews(user: seq<byte>, sequence: nat)
    requires |user| + 8 < SizeLimit
    ensures var k := NewLookupKey(user, sequence);
            && k.kstart + 8 <= |k.space|
            && KeyPart(k.MemtableKey()) == Some(InternalKey(user, sequence, TypeForSeek))
            && k.InternalKey() == InternalKey(user, sequence, TypeForSeek)
            && k.UserKey() == user
  {
    var k := NewLookupKey(user, sequence);
    var key := InternalKey(user, sequence, TypeForSeek);
    assert k.space == Varint(|key|) + key + [];
    LengthReadsBack(key, []);
    assert k.space[k.kstart..] == key;
    assert k.space[k.kstart..|k.space| - 8] == user;
  }

  /** What lies at or after a lookup key and has its user key is what its snapshot may see. */
  lemma SeekLandsOnVisible(rank: Ranking, key: seq<byte>, user: seq<byte>, sequence: nat)
    requires sequence <= MaxSequence && ParseInternalKey(key).Some?
    requires rank(ExtractUserKey(key)) == rank(user)
    ensures Compare(rank, key, InternalKey(user, sequence, TypeForSeek)) >= 0
            <==> ParseInternalKey(key).value.sequence <= sequence
  {
    TagReadsBack(user, sequence, TypeForSeek);
    var x := TagOf(key);
    assert x == 256 * (x / 256) + x % 256;
  }
}
