/** What goes over the wire, byte by byte, and what a decoder makes of forms the encoder does not use. */
module PbBytes {
  import opened Wrappers
  import opened Coding
  import opened PbTypes
  import opened PbWire
  import opened PbFormat
  import opened PbRoundTrip

  // ---- Tags ----

  /** The wire type is in the three low bits of the first byte, and a field number below 16 in the next
      four; numbers that take varints have wire type 0, those of eight bytes 1, those of four 5, and all
      that begins with a length 2. */
  lemma FirstByte(t: LType, tag: nat)
    ensures TagBytes(WireType(t), tag)[0] % 8 == (if t.Fixed64? then 1 else if t.Fixed32? then 5
                                                  else if t.Packable() then 0 else 2)
    ensures tag < 16 ==> TagBytes(WireType(t), tag) == [8 * tag + WireType(t)]
  {
    var v := 8 * tag + WireType(t);
    VarintAt(v, 0);
    assert Pow128(0) == 1;
    LowBits(v);
    ModIs(v, 8, tag, WireType(t));
  }

  lemma LowBits(v: nat)
    ensures (v % 128) % 8 == v % 8 && (v % 128 + 128) % 8 == v % 8
  {
    var q, r := v / 128, v % 128;
    var a, s := r / 8, r % 8;
    ModIs(v, 8, 16 * q + a, s);
    ModIs(r + 128, 8, a + 16, s);
  }

  // ---- Numbers ----

  /** Zigzag form counts up by the magnitude: 0, -1, 1, -2, 2 and so on become 0, 1, 2, 3, 4. */
  lemma ZigZagCounts(v: nat)
    ensures ZigZagged(0) == 0 && ZigZagged(v + 1) == ZigZagged(v) + 2 && ZigZagged(0 - v - 1) == ZigZagged(v) + 1
  {
  }

  /** A signed integer goes out with its sign extended, all the bits of its two's complement, low ones first. */
  lemma SignedBytes(n: nat, v: int, i: nat)
    requires Typed(SignedVarint(n), Int(v)) && IntSize(n) && i < |Encoded(SignedVarint(n), Int(v))|
    ensures var r, u := Encoded(SignedVarint(n), Int(v)), if v < 0 then v + 0x1_0000_0000_0000_0000 else v;
            r[i] == u / Pow128(i) % 128 + if i < |r| - 1 then 128 else 0
  {
    hide Varint, Pow128, Unsigned64;
    VarintAt(Unsigned64(v), i);
    TwosComplement(v);
  }

  lemma TwosComplement(v: int)
    requires 0 - Two63 <= v < Two63
    ensures Unsigned64(v) == if v < 0 then v + 0x1_0000_0000_0000_0000 else v
  {
    if v >= 0 {
      ModIs(v, Two64, 0, v);
    } else {
      assert v % Two64 == v + Two64;
    }
  }

  /** A number too wide for where it is read is cut to 32 or 64 bits. */
  lemma CutToWidth(v: nat, rest: seq<byte>)
    ensures v < 0x8_0000_0000 ==> Varint32(Varint(v) + rest) == Some((v % 0x1_0000_0000, |Varint(v)|))
    ensures v < 0x40_0000_0000_0000_0000 ==>
              Varint64(Varint(v) + rest) == Some((v % 0x1_0000_0000_0000_0000, |Varint(v)|))
  {
    hide Varint, ReadVarint, Pow128;
    Widths();
    if v < 0x8_0000_0000 {
      VarintFits(v, 5);
      VarintReadsBack(v, rest, 5);
    }
    if v < 0x40_0000_0000_0000_0000 {
      VarintFits(v, 10);
      VarintReadsBack(v, rest, 10);
    }
  }

  lemma Widths()
    ensures Pow128(5) == 0x8_0000_0000 && Pow128(10) == 0x40_0000_0000_0000_0000
  {
  }

  /** Fixed-width numbers, least significant byte first. */
  lemma FixedBytesSent(t: LType, v: Value, i: nat)
    requires Typed(t, v) && (t.Fixed32? || t.Fixed64?) && i < (if t.Fixed32? then 4 else 8)
    ensures |Encoded(t, v)| == (if t.Fixed32? then 4 else 8) && Encoded(t, v)[i] == v.i / Pow256(i) % 256
  {
    FixedAt(if t.Fixed32? then 4 else 8, v.i, i);
  }

  /** Bytes, strings up to their NUL, and messages come behind their length. */
  lemma LengthFirst(t: LType, v: Value)
    requires Typed(t, v) && !t.Packable()
    ensures exists body: seq<byte> :: Encoded(t, v) == Varint(|body|) + body
              && match t
                 case Bytes(_) => body == v.b
                 case FixedBytes(_) => body == v.b
                 case String(c) => body <= v.b && |body| <= c && (forall k | 0 <= k < |body| :: body[k] != 0)
                     && (|body| == |v.b| || |body| == c || v.b[|body|] == 0)
                 case Submessage(fs) => body == EncodedFrom(fs, v.slots, 0)
                 case _ => true
  {
    if t.String? {
      UpToNul(v.b, t.capacity);
    }
  }

  lemma {:induction false} UpToNul(b: seq<byte>, c: nat)
    ensures var s := CString(b, c);
            && s <= b && |s| <= c && (forall k | 0 <= k < |s| :: s[k] != 0)
            && (|s| == |b| || |s| == c || b[|s|] == 0)
    decreases |b|
  {
    if |b| > 0 && c > 0 && b[0] != 0 {
      UpToNul(b[1..], c - 1);
      var s := CString(b[1..], c - 1);
      assert b == [b[0]] + b[1..];
      assert s == b[1..][..|s|];
      assert [b[0]] + s == b[..|s| + 1];
    }
  }

  /** The examples of the Protocol Buffers Encoding guide, sections "A Simple Message" and "Length-Delimited
      Records": 150 in field 1, "testing" in field 2, and the first of these as a message in field 3. */
  lemma GuideExamples()
    ensures EncodedField(Guide1, Opt(true, Int(150))) == [0x08, 0x96, 0x01]
    ensures EncodedField(Field(2, String(16), Optional(true), None), Opt(true, Data(Testing))) == [0x12, 0x07] + Testing
    ensures TypedSlot(Guide3, Opt(true, Struct([Opt(true, Int(150))])))
    ensures EncodedField(Guide3, Opt(true, Struct([Opt(true, Int(150))]))) == [0x1a, 0x03, 0x08, 0x96, 0x01]
  {
    GuideNumber();
    GuideString();
    GuideMessage();
  }

  const Testing: seq<byte> := [0x74, 0x65, 0x73, 0x74, 0x69, 0x6e, 0x67]
  const Guide1 := Field(1, SignedVarint(4), Optional(true), None)
  const Guide3 := Field(3, Submessage([Guide1]), Optional(true), None)

  lemma GuideNumber()
    ensures EncodedField(Guide1, Opt(true, Int(150))) == [0x08, 0x96, 0x01]
  {
    hide Varint;
    OneByte(8);
    OneByte(1);
    TwoBytes(150);
    ModIs(150, Two64, 0, 150);
    assert TagBytes(WireType(Guide1.ltype), 1) == [0x08];
  }

  lemma GuideString()
    ensures EncodedField(Field(2, String(16), Optional(true), None), Opt(true, Data(Testing))) == [0x12, 0x07] + Testing
  {
    hide Varint, CString;
    OneByte(18);
    OneByte(7);
    WholeCString(Testing, 16);
    assert TagBytes(WtString, 2) == [0x12];
  }

  lemma GuideMessage()
    ensures TypedSlot(Guide3, Opt(true, Struct([Opt(true, Int(150))])))
    ensures EncodedField(Guide3, Opt(true, Struct([Opt(true, Int(150))]))) == [0x1a, 0x03, 0x08, 0x96, 0x01]
  {
    var inner := Opt(true, Int(150));
    assert TypedSlot(Guide1, inner) && TypedMessage([Guide1], [inner]);
    hide Varint, EncodedField;
    GuideNumber();
    assert EncodedFrom([Guide1], [inner], 1) == [];
    assert EncodedFrom([Guide1], [inner], 0) == [0x08, 0x96, 0x01] + [];
    OneByte(26);
    OneByte(3);
    MessageField(Struct([inner]), [0x08, 0x96, 0x01]);
  }

  lemma MessageField(v: Value, e: seq<byte>)
    requires Typed(Guide3.ltype, v) && EncodedFrom([Guide1], v.slots, 0) == e
    ensures EncodedField(Guide3, Opt(true, v)) == TagBytes(WtString, 3) + (Varint(|e|) + e)
  {
    hide Varint, EncodedFrom, TypedMessage, Items, Silent, TagBytes;
  }

  lemma OneByte(v: nat)
    requires v < 128
    ensures Varint(v) == [v]
  {
  }

  lemma TwoBytes(v: nat)
    requires 128 <= v < 128 * 128
    ensures Varint(v) == [128 + v % 128, v / 128]
  {
    OneByte(v / 128);
  }

  // ---- Forms the encoder does not use ----

  /** A tag that breaks off ends a message when fewer bytes than a tag may have are left, and is an error when
      five bytes have not ended it. A zero ends a message too. */
  lemma BrokenTag(b: seq<byte>)
    requires forall k | 0 <= k < |b| && k < 5 :: b[k] >= 128
    ensures ReadTag(b) == if |b| > 5 then Bad else Eof
    ensures forall rest: seq<byte> :: ReadTag([0] + rest) == Eof
  {
    NeverEnds(b, 5);
  }

  lemma {:induction false} NeverEnds(b: seq<byte>, n: nat)
    requires forall k | 0 <= k < |b| && k < n :: b[k] >= 128
    ensures ReadVarint(b, n) == None
  {
    if n > 0 && |b| > 0 {
      NeverEnds(b[1..], n - 1);
    }
  }

  /** Older encoders sent a negative number of at most 32 bits in five bytes; it is accepted all the same. */
  lemma FiveByteForm(n: nat, v: int, rest: seq<byte>)
    requires IntSize(n) && n <= 4 && 0 - HalfRange(n) <= v < HalfRange(n)
    ensures DecodedNumber(SignedVarint(n), Varint(v % Two32) + rest) == Got(Int(v), rest)
  {
    var u := v % Two32;
    ModIs(u, Two64, 0, u);
    Reads64(u, rest);
    Halves(Varint(u), rest);
    LowHalf(v, n);
  }

  lemma LowHalf(v: int, n: nat)
    requires IntSize(n) && n <= 4 && 0 - HalfRange(n) <= v < HalfRange(n)
    ensures FromVarint(v % Two32, n) == Some(v)
  {
    LowBytes(v, n);
    ModIs(v % Two32, Two32, 0, v % Two32);
  }

  /** An array of numbers may also come unpacked, item by item, and adds to what is there. */
  lemma UnpackedReads(fs: seq<Field>, i: nat, done: seq<Value>, vs: seq<Value>, spare: Value, rest: seq<byte>,
                      cur: seq<Slot>, seen: set<nat>)
    requires GoodTable(fs) && i < |fs| && |cur| == |fs| && fs[i].htype.Repeated? && fs[i].ltype.Packable()
    requires 0 < |vs| && |done| + |vs| <= fs[i].htype.max && forall k: nat | k < |vs| :: Typed(fs[i].ltype, vs[k])
    requires |Items(fs[i], vs, false)| < Two32
    ensures DecodedFields(fs, Items(fs[i], vs, false) + rest, cur[i := Many(done, spare)], seen)
            == DecodedFields(fs, rest, cur[i := Many(done + vs, spare)], seen + {i})
  {
    var f := fs[i];
    forall k: nat | k < |vs| ensures InBounds(f.ltype, vs[k]) {
      NumbersInBounds(f.ltype, vs[k]);
    }
    assert GoodField(f);
    NumbersArrive(f, vs);
    ItemsRead(fs, i, done, vs, spare, rest, cur, seen);
  }

  lemma NumbersInBounds(t: LType, v: Value)
    requires t.Packable() && Typed(t, v)
    ensures InBounds(t, v)
  {
  }

  lemma {:induction false} NumbersArrive(f: Field, vs: seq<Value>)
    requires f.ltype.Packable() && forall k: nat | k < |vs| :: Typed(f.ltype, vs[k])
    ensures ArrivingItems(f, vs) == vs
    decreases |vs|
  {
    if |vs| > 0 {
      NumbersArrive(f, vs[1..]);
      assert [vs[0]] + vs[1..] == vs;
    }
  }

  /** A number, a string or bytes that come again replace what came before. */
  lemma LastOneCounts(f: Field, wireType: nat, b: seq<byte>, s: Slot, s': Slot)
    requires (f.htype.Required? || f.htype.Optional? || f.htype.Oneof?) && !f.ltype.Submessage?
    ensures DecodedField(f, wireType, b, s) == DecodedField(f, wireType, b, s')
    ensures var r := DecodedField(f, wireType, b, s);
            r.Got? ==> match r.value
                       case One(v) => Decoded(f.ltype, b, v) == Got(v, r.rest)
                       case Opt(has, v) => has && Decoded(f.ltype, b, v) == Got(v, r.rest)
                       case Choice(chosen, v) => chosen && Decoded(f.ltype, b, v) == Got(v, r.rest)
                       case Many(_, _) => false
  {
  }
}
