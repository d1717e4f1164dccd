/** Values and tags on the wire: varints as the decoder reads them, sign extension and zigzag. */
module PbWire {
  import opened Wrappers
  import opened Coding
  import opened PbTypes

  const Two32: nat := 0x1_0000_0000
  const Two63: nat := 0x8000_0000_0000_0000
  const Two64: nat := 0x1_0000_0000_0000_0000

  // ---- Varints ----

  /** Up to five bytes, cut to 32 bits. */
  function Varint32(b: seq<byte>): Option<(nat, nat)> {
    match ReadVarint(b, 5)
    case None => None
    case Some(r) => Some((r.0 % Two32, r.1))
  }

  /** Up to ten bytes, cut to 64 bits. */
  function Varint64(b: seq<byte>): Option<(nat, nat)> {
    match ReadVarint(b, 10)
    case None => None
    case Some(r) => Some((r.0 % Two64, r.1))
  }

  lemma {:induction false} VarintLength(b: seq<byte>, n: nat)
    ensures ReadVarint(b, n).Some? ==> 0 < ReadVarint(b, n).value.1 <= |b| && ReadVarint(b, n).value.1 <= n
  {
    if n > 0 && |b| > 0 && b[0] >= 128 {
      VarintLength(b[1..], n - 1);
    }
  }

  lemma Reads32(v: nat, rest: seq<byte>)
    requires v < Two32
    ensures Varint32(Varint(v) + rest) == Some((v, |Varint(v)|))
  {
    assert Pow128(5) == 0x8_0000_0000;
    VarintFits(v, 5);
    VarintReadsBack(v, rest, 5);
    ModIs(v, Two32, 0, v);
  }

  lemma Reads64(v: nat, rest: seq<byte>)
    requires v < Two64
    ensures Varint64(Varint(v) + rest) == Some((v, |Varint(v)|))
  {
    assert Pow128(10) == 0x40_0000_0000_0000_0000;
    VarintFits(v, 10);
    VarintReadsBack(v, rest, 10);
    ModIs(v, Two64, 0, v);
  }

  // ---- Signed integers ----

  /** The bit pattern of a signed 64-bit integer. */
  function Unsigned64(v: int): nat { v % Two64 }

  /** The low bytes of a bit pattern as a signed integer. */
  function SignedOf(u: nat, size: nat): int {
    var m := 2 * HalfRange(size);
    if u % m >= HalfRange(size) then u % m - m else u % m
  }

  /** Twice a positive value; one less than twice the magnitude of a negative one. */
  function ZigZagged(v: int): nat { if v < 0 then -2 * v - 1 else 2 * v }

  function UnZigZagged(u: nat): int { if u % 2 == 1 then -(u / 2) - 1 else u / 2 }

  lemma ZigZagInverts(v: int)
    ensures UnZigZagged(ZigZagged(v)) == v
    ensures 0 - Two63 <= v < Two63 ==> ZigZagged(v) < Two64
  {
  }

  lemma ZigZagOnto(u: nat)
    ensures ZigZagged(UnZigZagged(u)) == u
  {
  }

  // ---- What the field decoders make of a number ----

  /** A signed varint: fields of up to 32 bits look at the low 32 bits only, and then the value has
      to fit the field. */
  function FromVarint(u: nat, size: nat): Option<int> {
    var s := if size == 8 then SignedOf(u, 8) else SignedOf(u, 4);
    if SignedOf(s % Two64, size) == s then Some(s) else None
  }

  function FromUnsigned(u: nat, size: nat): Option<int> {
    if u < 2 * HalfRange(size) then Some(u) else None
  }

  function FromZigZag(u: nat, size: nat): Option<int> {
    var s := UnZigZagged(u);
    if SignedOf(s % Two64, size) == s then Some(s) else None
  }

  /** The low bytes of a sign-extended integer give it back. */
  lemma LowBytes(v: int, size: nat)
    requires IntSize(size) && 0 - HalfRange(size) <= v < HalfRange(size)
    ensures SignedOf(Unsigned64(v), size) == v
  {
    var m := 2 * HalfRange(size);
    var q := Two64 / m;
    assert q * m == Two64;
    if v >= 0 {
      ModIs(v, Two64, 0, v);
      ModIs(v, m, 0, v);
    } else {
      assert v % Two64 == v + Two64;
      ModIs(v + Two64, m, q - 1, v + m);
    }
  }

  lemma SignExtends(v: int, size: nat)
    requires IntSize(size) && 0 - HalfRange(size) <= v < HalfRange(size)
    ensures Unsigned64(v) < Two64 && FromVarint(Unsigned64(v), size) == Some(v)
    ensures ZigZagged(v) < Two64 && FromZigZag(ZigZagged(v), size) == Some(v)
  {
    LowBytes(v, size);
    LowBytes(v, if size == 8 then 8 else 4);
    ZigZagInverts(v);
  }

  // ---- Tags ----

  const WtVarint: nat := 0
  const Wt64: nat := 1
  const WtString: nat := 2
  const Wt32: nat := 5

  function WireType(t: LType): nat {
    match t
    case Fixed32 => Wt32
    case Fixed64 => Wt64
    case Bytes(_) => WtString
    case String(_) => WtString
    case Submessage(_) => WtString
    case FixedBytes(_) => WtString
    case _ => WtVarint
  }

  function TagBytes(wireType: nat, tag: nat): seq<byte> { Varint(8 * tag + wireType) }

  /** A tag, the end of the message, or an error. A varint that does not end counts as the end of the
      message when nothing follows it, and so does a zero. */
  datatype TagRead = Tag(wireType: nat, tag: nat, rest: seq<byte>) | Eof | Bad

  function ReadTag(b: seq<byte>): (t: TagRead)
    ensures t.Tag? ==> |t.rest| < |b|
  {
    VarintLength(b, 5);
    match Varint32(b)
    case None => if |b| <= 5 then Eof else Bad
    case Some(r) => if r.0 == 0 then Eof else Tag(r.0 % 8, r.0 / 8, b[r.1..])
  }

  lemma TagReads(wireType: nat, tag: nat, rest: seq<byte>)
    requires tag <= TagMax && wireType < 8 && tag + wireType > 0
    ensures ReadTag(TagBytes(wireType, tag) + rest) == Tag(wireType, tag, rest)
  {
    var v := 8 * tag + wireType;
    Reads32(v, rest);
    ModIs(v, 8, tag, wireType);
    assert (Varint(v) + rest)[|Varint(v)|..] == rest;
  }
}
