/** Fields in any order, with unknown ones among them. */
module PbOrder {
  import opened Wrappers
  import opened Coding
  import opened PbTypes
  import opened PbWire
  import opened PbFormat
  import opened PbRoundTrip

  // ---- Decoders look no further than their own bytes ----

  lemma {:induction false} VarintLocal(b: seq<byte>, rest: seq<byte>, n: nat)
    requires ReadVarint(b, n).Some?
    ensures ReadVarint(b + rest, n) == ReadVarint(b, n) && ReadVarint(b, n).value.1 <= |b|
  {
    assert (b + rest)[0] == b[0];
    if b[0] >= 128 {
      VarintLocal(b[1..], rest, n - 1);
      assert (b + rest)[1..] == b[1..] + rest;
    }
  }

  lemma CutLocal<T>(b: seq<T>, rest: seq<T>, n: nat)
    requires n <= |b|
    ensures (b + rest)[n..] == b[n..] + rest && (b + rest)[..n] == b[..n]
  {
  }

  lemma StringLocal(b: seq<byte>, rest: seq<byte>)
    requires TakeString(b).Got?
    ensures TakeString(b + rest) == Got(TakeString(b).value, TakeString(b).rest + rest)
  {
    VarintLocal(b, rest, 5);
    var r := Varint32(b).value;
    CutLocal(b, rest, r.1);
    CutLocal(b[r.1..], rest, r.0);
  }

  lemma NumberLocal(t: LType, b: seq<byte>, rest: seq<byte>)
    requires t.Packable() && DecodedNumber(t, b).Got?
    ensures DecodedNumber(t, b + rest) == Got(DecodedNumber(t, b).value, DecodedNumber(t, b).rest + rest)
  {
    if t.Fixed32? {
      CutLocal(b, rest, 4);
    } else if t.Fixed64? {
      CutLocal(b, rest, 8);
    } else {
      VarintLocal(b, rest, 10);
      CutLocal(b, rest, Varint64(b).value.1);
    }
  }

  lemma ValueLocal(t: LType, b: seq<byte>, rest: seq<byte>, before: Value)
    requires Decoded(t, b, before).Got?
    ensures Decoded(t, b + rest, before) == Got(Decoded(t, b, before).value, Decoded(t, b, before).rest + rest)
  {
    hide TakeString, DecodedNumber, DecodedMessage;
    if t.Packable() {
      NumberLocal(t, b, rest);
    } else {
      StringLocal(b, rest);
    }
  }

  lemma FieldLocal(f: Field, wireType: nat, b: seq<byte>, rest: seq<byte>, s: Slot)
    requires DecodedField(f, wireType, b, s).Got?
    ensures DecodedField(f, wireType, b + rest, s)
            == Got(DecodedField(f, wireType, b, s).value, DecodedField(f, wireType, b, s).rest + rest)
  {
    hide TakeString, Decoded, DecodedItems;
    if f.htype.Repeated? && wireType == WtString && f.ltype.Packable() {
      StringLocal(b, rest);
    } else if f.htype.Repeated? || f.htype.Oneof? {
      ValueLocal(f.ltype, b, rest, Default(f.ltype));
    } else {
      ValueLocal(f.ltype, b, rest, SlotValue(f, s));
    }
  }

  lemma {:induction false} SkipLocal(wireType: nat, b: seq<byte>, rest: seq<byte>)
    requires Skipped(wireType, b).Some?
    ensures Skipped(wireType, b + rest) == Some(Skipped(wireType, b).value + rest)
  {
    if wireType == WtVarint {
      SkipVarintLocal(b, rest);
    } else if wireType == Wt64 {
      CutLocal(b, rest, 8);
    } else if wireType == Wt32 {
      CutLocal(b, rest, 4);
    } else {
      StringLocal(b, rest);
    }
  }

  lemma {:induction false} SkipVarintLocal(b: seq<byte>, rest: seq<byte>)
    requires SkippedVarint(b).Some?
    ensures SkippedVarint(b + rest) == Some(SkippedVarint(b).value + rest)
  {
    CutLocal(b, rest, 1);
    assert (b + rest)[0] == b[0];
    if b[0] >= 128 {
      SkipVarintLocal(b[1..], rest);
    }
  }

  // ---- Any order ----

  /** One field as it comes: its tag and its bytes. */
  datatype Chunk = Chunk(tag: nat, wireType: nat, body: seq<byte>) {
    function Encoding(): seq<byte> { TagBytes(wireType, tag) + body }

    predicate Plain() { tag <= TagMax && wireType < 8 && tag + wireType > 0 }
  }

  function Concatenated(cs: seq<Chunk>): seq<byte> {
    if |cs| == 0 then [] else cs[0].Encoding() + Concatenated(cs[1..])
  }

  /** Each chunk in its turn is read or passed over in full. */
  ghost predicate Readable(fs: seq<Field>, cs: seq<Chunk>, m: seq<Slot>)
    requires |m| == |fs|
    decreases |cs|
  {
    |cs| > 0 ==>
      var c := cs[0];
      && c.Plain()
      && match FieldOf(fs, c.tag)
         case None => Skipped(c.wireType, c.body) == Some([]) && Readable(fs, cs[1..], m)
         case Some(i) =>
           var r := DecodedField(fs[i], c.wireType, c.body, m[i]);
           r.Got? && r.rest == [] && Readable(fs, cs[1..], Put(fs, m, i, r.value))
  }

  /** The table's fields that occur among the chunks. */
  ghost predicate Occurs(fs: seq<Field>, cs: seq<Chunk>, i: nat) {
    exists k: nat :: k < |cs| && FieldOf(fs, cs[k].tag) == Some(i)
  }

  ghost function Occurring(fs: seq<Field>, cs: seq<Chunk>): set<nat> {
    if |cs| == 0 then {}
    else (match FieldOf(fs, cs[0].tag) case None => {} case Some(i) => {i}) + Occurring(fs, cs[1..])
  }

  lemma {:induction false} OccursIf(fs: seq<Field>, cs: seq<Chunk>, i: nat)
    ensures i in Occurring(fs, cs) <==> Occurs(fs, cs, i)
  {
    if |cs| > 0 {
      OccursIf(fs, cs[1..], i);
      if Occurs(fs, cs, i) {
        var k: nat :| k < |cs| && FieldOf(fs, cs[k].tag) == Some(i);
        assert k > 0 ==> cs[1..][k - 1] == cs[k];
      }
      if Occurs(fs, cs[1..], i) {
        var k: nat :| k < |cs| - 1 && FieldOf(fs, cs[1..][k].tag) == Some(i);
        assert cs[k + 1] == cs[1..][k];
      }
    }
  }

  lemma {:induction false} ChunksRead(fs: seq<Field>, cs: seq<Chunk>, m: seq<Slot>, seen: set<nat>)
    requires |m| == |fs| && Readable(fs, cs, m)
    ensures DecodedFields(fs, Concatenated(cs), m, seen).Some?
    ensures DecodedFields(fs, Concatenated(cs), m, seen).value.1 == seen + Occurring(fs, cs)
    decreases |cs|
  {
    hide DecodedField, Skipped, FieldOf, ReadTag, TagBytes;
    if |cs| == 0 {
      assert seen + {} == seen;
    } else {
      var c, rest := cs[0], Concatenated(cs[1..]);
      Associative(TagBytes(c.wireType, c.tag), c.body, rest);
      TagReads(c.wireType, c.tag, c.body + rest);
      NotEmpty(c, rest);
      match FieldOf(fs, c.tag)
      case None =>
        SkipLocal(c.wireType, c.body, rest);
        assert [] + rest == rest;
        ChunksRead(fs, cs[1..], m, seen);
      case Some(i) =>
        var r := DecodedField(fs[i], c.wireType, c.body, m[i]);
        FieldLocal(fs[i], c.wireType, c.body, rest, m[i]);
        assert [] + rest == rest;
        ChunksRead(fs, cs[1..], Put(fs, m, i, r.value), seen + {i});
        assert (seen + {i}) + Occurring(fs, cs[1..]) == seen + ({i} + Occurring(fs, cs[1..]));
    }
  }

  lemma NotEmpty(c: Chunk, rest: seq<byte>)
    ensures |TagBytes(c.wireType, c.tag) + (c.body + rest)| > 0
  {
  }

  /** A message whose fields can be read, in whatever order and with whatever unknown fields among
      them, is accepted exactly when every required field occurs. */
  lemma AcceptedIffComplete(fs: seq<Field>, cs: seq<Chunk>, m: seq<Slot>)
    requires |m| == |fs| && Readable(fs, cs, m)
    ensures DecodedMessage(fs, Concatenated(cs), m).Some?
            <==> forall i: nat | i < |fs| && fs[i].htype.Required? :: Occurs(fs, cs, i)
  {
    ChunksRead(fs, cs, m, {});
    forall i: nat | i < |fs| ensures i in Occurring(fs, cs) <==> Occurs(fs, cs, i) {
      OccursIf(fs, cs, i);
    }
    hide DecodedFields, Concatenated, Occurs, Readable;
    var seen := DecodedFields(fs, Concatenated(cs), m, {}).value.1;
    assert seen == Occurring(fs, cs);
  }

  // ---- Messages in parts ----

  /** The bytes are whole fields to their end, and all of them can be read. */
  ghost predicate WholeFields(fs: seq<Field>, b: seq<byte>, m: seq<Slot>)
    requires |m| == |fs|
    decreases |b|
  {
    |b| > 0 ==>
      match ReadTag(b)
      case Eof => false
      case Bad => false
      case Tag(wireType, tag, rest) =>
        match FieldOf(fs, tag)
        case None => Skipped(wireType, rest).Some? && WholeFields(fs, Skipped(wireType, rest).value, m)
        case Some(i) =>
          var r := DecodedField(fs[i], wireType, rest, m[i]);
          r.Got? && WholeFields(fs, r.rest, Put(fs, m, i, r.value))
  }

  lemma TagLocal(b: seq<byte>, rest: seq<byte>)
    requires ReadTag(b).Tag?
    ensures ReadTag(b + rest) == ReadTag(b).(rest := ReadTag(b).rest + rest)
  {
    VarintLocal(b, rest, 5);
    CutLocal(b, rest, Varint32(b).value.1);
  }

  /** Whole fields followed by others are read first. */
  lemma {:induction false} FirstThenRest(fs: seq<Field>, a: seq<byte>, b: seq<byte>, m: seq<Slot>, seen: set<nat>)
    requires |m| == |fs| && WholeFields(fs, a, m)
    ensures DecodedFields(fs, a, m, seen).Some?
    ensures var r := DecodedFields(fs, a, m, seen).value;
            && |r.0| == |fs| && DecodedFields(fs, a + b, m, seen) == DecodedFields(fs, b, r.0, r.1)
    decreases |a|
  {
    hide DecodedField, Skipped, FieldOf, ReadTag, Put;
    if |a| == 0 {
      assert a + b == b;
    } else {
      var t := ReadTag(a);
      TagLocal(a, b);
      assert |a + b| > 0;
      match FieldOf(fs, t.tag)
      case None =>
        SkipLocal(t.wireType, t.rest, b);
        FirstThenRest(fs, Skipped(t.wireType, t.rest).value, b, m, seen);
      case Some(i) =>
        var r := DecodedField(fs[i], t.wireType, t.rest, m[i]);
        FieldLocal(fs[i], t.wireType, t.rest, b, m[i]);
        FirstThenRest(fs, r.rest, b, Put(fs, m, i, r.value), seen + {i});
    }
  }

  lemma {:induction false} SeenGrows(fs: seq<Field>, b: seq<byte>, m: seq<Slot>, seen: set<nat>, more: set<nat>)
    requires |m| == |fs| && DecodedFields(fs, b, m, seen).Some?
    ensures DecodedFields(fs, b, m, seen + more).Some?
    ensures DecodedFields(fs, b, m, seen + more).value.0 == DecodedFields(fs, b, m, seen).value.0
    ensures DecodedFields(fs, b, m, seen + more).value.1 == DecodedFields(fs, b, m, seen).value.1 + more
    decreases |b|
  {
    hide DecodedField, Skipped, FieldOf, ReadTag, Put;
    if |b| > 0 && ReadTag(b).Tag? {
      var t := ReadTag(b);
      match FieldOf(fs, t.tag)
      case None => SeenGrows(fs, Skipped(t.wireType, t.rest).value, m, seen, more);
      case Some(i) =>
        var r := DecodedField(fs[i], t.wireType, t.rest, m[i]);
        SeenGrows(fs, r.rest, Put(fs, m, i, r.value), seen + {i}, more);
        assert seen + more + {i} == seen + {i} + more;
    }
  }

  /** A message is read like its parts one after the other. */
  lemma PartsAreMerged(fs: seq<Field>, a: seq<byte>, b: seq<byte>, m: seq<Slot>)
    requires |m| == |fs| && WholeFields(fs, a, m) && DecodedMessage(fs, a, m).Some?
    requires DecodedMessage(fs, b, DecodedMessage(fs, a, m).value).Some?
    ensures DecodedMessage(fs, a + b, m) == DecodedMessage(fs, b, DecodedMessage(fs, a, m).value)
  {
    hide DecodedFields, WholeFields;
    FirstThenRest(fs, a, b, m, {});
    var r := DecodedFields(fs, a, m, {}).value;
    SeenGrows(fs, b, r.0, {}, r.1);
    assert {} + r.1 == r.1;
  }

  function Delimited(b: seq<byte>): seq<byte> { Varint(|b|) + b }

  /** A single submessage that comes twice is merged: it is read as if its contents had come at once, and
      what the first part set and the second does not stays. */
  lemma SubmessagesMerge(f: Field, wireType: nat, a: seq<byte>, b: seq<byte>, rest: seq<byte>, s: Slot)
    requires (f.htype.Required? || f.htype.Optional?) && f.ltype.Submessage? && |a| + |b| < Two32
    requires SlotValue(f, s).Struct? && |SlotValue(f, s).slots| == |f.ltype.fields|
    requires WholeFields(f.ltype.fields, a, SlotValue(f, s).slots)
    requires DecodedField(f, wireType, Delimited(a), s).Got?
    requires DecodedField(f, wireType, Delimited(b), DecodedField(f, wireType, Delimited(a), s).value).Got?
    ensures DecodedField(f, wireType, Delimited(a + b) + rest, s)
            == DecodedField(f, wireType, Delimited(b) + rest, DecodedField(f, wireType, Delimited(a), s).value)
  {
    hide DecodedMessage, WholeFields, TakeString, Varint;
    assert Delimited(a) + [] == Delimited(a) && Delimited(b) + [] == Delimited(b);
    TakesString(a, []);
    TakesString(b, []);
    TakesString(b, rest);
    TakesString(a + b, rest);
    PartsAreMerged(f.ltype.fields, a, b, SlotValue(f, s).slots);
  }
}
