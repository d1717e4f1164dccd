/** Messages written to a stream field by field. */
module PbWriter {
  import opened Wrappers
  import opened Coding
  import opened PbTypes
  import opened PbWire
  import opened PbFormat
  import opened PbRequired
  import opened PbEncode
  import PbRoundTrip
  import PbIter

  // ---- Which messages can be written at all ----

  /** No bytes field is longer than its array. */
  ghost predicate Fits(t: LType, v: Value)
    requires Typed(t, v)
    decreases t, 2
  {
    match t
    case Bytes(c) => |v.b| <= c
    case Submessage(fs) => FitsFrom(fs, v.slots, 0)
    case _ => true
  }

  ghost predicate FitsItems(t: LType, vs: seq<Value>)
    requires forall k: nat | k < |vs| :: Typed(t, vs[k])
    decreases t, 3
  {
    forall k: nat | k < |vs| :: Fits(t, vs[k])
  }

  ghost predicate FitsSlot(f: Field, s: Slot)
    requires TypedSlot(f, s)
    decreases f, 3
  {
    PbRoundTrip.Sent(f, s) ==>
      if f.htype.Repeated? then |s.vs| <= f.htype.max && FitsItems(f.ltype, s.vs) else Fits(f.ltype, s.v)
  }

  ghost predicate FitsFrom(fs: seq<Field>, m: seq<Slot>, i: nat)
    requires TypedMessage(fs, m) && i <= |fs|
    decreases fs, 4, |fs| - i
  {
    i < |fs| ==> FitsSlot(fs[i], m[i]) && FitsFrom(fs, m, i + 1)
  }

  ghost function OfValue(t: LType, v: Value): Option<seq<byte>>
    requires Typed(t, v)
  {
    if Fits(t, v) then Some(Encoded(t, v)) else None
  }

  ghost function OfItems(f: Field, vs: seq<Value>, packed: bool): Option<seq<byte>>
    requires forall k: nat | k < |vs| :: Typed(f.ltype, vs[k])
  {
    if FitsItems(f.ltype, vs) then Some(Items(f, vs, packed)) else None
  }

  ghost function OfField(f: Field, s: Slot): Option<seq<byte>>
    requires TypedSlot(f, s)
  {
    if FitsSlot(f, s) then Some(EncodedField(f, s)) else None
  }

  ghost function OfFields(fs: seq<Field>, m: seq<Slot>, i: nat): Option<seq<byte>>
    requires TypedMessage(fs, m) && i <= |fs|
  {
    if FitsFrom(fs, m, i) then Some(EncodedFrom(fs, m, i)) else None
  }

  // ---- One thing after another ----

  ghost function Prepend(a: seq<byte>, e: Option<seq<byte>>): Option<seq<byte>> {
    match e case None => None case Some(b) => Some(a + b)
  }

  lemma Then(o: OStream, was: Progress, mid: Progress, now: Progress, ok: bool, a: seq<byte>, e: Option<seq<byte>>)
    requires Emits(o, was, mid, true, Some(a)) && Emits(o, mid, now, ok, e)
    ensures Emits(o, was, now, ok, Prepend(a, e))
  {
    if e.Some? {
      Associative(was.out, a, e.value);
    }
  }

  lemma Stops(o: OStream, was: Progress, mid: Progress, now: Progress, a: seq<byte>, e: Option<seq<byte>>)
    requires Emits(o, was, mid, false, Some(a))
    ensures Emits(o, was, now, false, Prepend(a, e))
  {
  }

  ghost function Both(e: Option<seq<byte>>, rest: Option<seq<byte>>): Option<seq<byte>> {
    match e case None => None case Some(b) => Prepend(b, rest)
  }

  /** One more part of a whole that is written part by part. */
  lemma Onward(o: OStream, was: Progress, mid: Progress, now: Progress, ok: bool, done: seq<byte>,
               e: Option<seq<byte>>, rest: Option<seq<byte>>) returns (more: seq<byte>)
    requires Emits(o, was, mid, true, Some(done)) && Emits(o, mid, now, ok, e)
    ensures ok ==> Emits(o, was, now, true, Some(more)) && Prepend(more, rest) == Prepend(done, Both(e, rest))
    ensures !ok ==> Emits(o, was, now, false, Prepend(done, Both(e, rest)))
  {
    more := done;
    if ok {
      more := done + e.value;
      Associative(was.out, done, e.value);
      if rest.Some? {
        Associative(done, e.value, rest.value);
      }
    }
  }

  lemma NothingFirst(e: Option<seq<byte>>)
    ensures Prepend([], e) == e
  {
    if e.Some? {
      Whole(e.value);
    }
  }

  lemma NothingLast(a: seq<byte>)
    ensures Prepend(a, Some([])) == Some(a)
  {
    Whole(a);
  }

  lemma Nothing(o: OStream, p: Progress)
    requires o.sizing || p.count <= o.maxSize
    ensures Emits(o, p, p, true, Some([]))
  {
    Whole(p.out);
  }

  // ---- Values ----

  method EncodeValue(o: OStream, t: LType, v: Value) returns (ok: bool)
    requires o.Valid() && Typed(t, v) && GoodType(t) && |Encoded(t, v)| < Two64
    modifies o, o.buf
    ensures o.Valid() && Emits(o, old(o.Now()), o.Now(), ok, OfValue(t, v))
    decreases t, 1
  {
    hide Emits, Varint;
    match t {
      case SignedVarint(n) => ok := o.EncodeVarint(Unsigned64(v.i));
      case UnsignedVarint(n) => ok := o.EncodeVarint(v.i);
      case ZigZag(n) => ok := o.EncodeSVarint(v.i);
      case Fixed32 => ok := o.EncodeFixed32(v.i);
      case Fixed64 => ok := o.EncodeFixed64(v.i);
      case Bytes(c) =>
        if |v.b| > c {
          ok := false;
          Unwritable(o, o.Now());
        } else {
          ok := o.EncodeString(v.b);
        }
      case String(c) =>
        var size := StringLength(v.b, c);
        ok := o.EncodeString(v.b[..size]);
      case FixedBytes(n) => ok := o.EncodeString(v.b);
      case Submessage(fs) => ok := EncodeSubmessage(o, fs, v.slots);
    }
  }

  lemma Unwritable(o: OStream, p: Progress)
    ensures Emits(o, p, p, false, None)
  {
  }

  /** The length of a C string in an array; one that does not fill it is followed by a NUL. */
  method StringLength(b: seq<byte>, capacity: nat) returns (size: nat)
    ensures size <= |b| && b[..size] == CString(b, capacity)
  {
    size := 0;
    assert b[0..] == b;
    while size < capacity && size < |b| && b[size] != 0
      invariant size <= |b| && size <= capacity
      invariant CString(b, capacity) == b[..size] + CString(b[size..], capacity - size)
    {
      assert b[size..][1..] == b[size + 1..];
      Associative(b[..size], [b[size]], CString(b[size + 1..], capacity - size - 1));
      assert b[..size + 1] == b[..size] + [b[size]];
      size := size + 1;
    }
    Whole(b[..size]);
  }

  /** A submessage behind its length, which a counting pass finds. The writing pass never comes to
      another length. */
  method EncodeSubmessage(o: OStream, fs: seq<Field>, m: seq<Slot>) returns (ok: bool)
    requires o.Valid() && TypedMessage(fs, m) && GoodTable(fs) && |EncodedFrom(fs, m, 0)| < Two64
    modifies o, o.buf
    ensures o.Valid() && Emits(o, old(o.Now()), o.Now(), ok, OfValue(Submessage(fs), Struct(m)))
    decreases fs, 9
  {
    hide Varint, EncodedFrom, FitsFrom, TypedMessage, GoodTable;
    ghost var was := o.Now();
    var counter := new OStream.Sizing();
    ok := EncodeMessage(counter, fs, m);
    if ok {
      var size := counter.bytesWritten;
      ghost var e := EncodedFrom(fs, m, 0);
      ok := o.EncodeVarint(size);
      ghost var mid := o.Now();
      if !ok {
        Stops(o, was, mid, mid, Varint(size), Some(e));
      } else {
        if o.sizing {
          o.Count(size);
        } else if o.bytesWritten + size > o.maxSize {
          ok := false;
        } else {
          var sub := new OStream.Within(o.buf, o.state, size);
          ok := EncodeMessage(sub, fs, m);
          o.bytesWritten, o.state := o.bytesWritten + sub.bytesWritten, sub.state;
          if sub.bytesWritten != size {
            assert false;
          }
        }
        Then(o, was, mid, o.Now(), ok, Varint(size), Some(e));
      }
    }
  }

  // ---- Fields ----

  method EncodeTagged(o: OStream, f: Field, v: Value) returns (ok: bool)
    requires o.Valid() && Typed(f.ltype, v) && GoodField(f) && |Encoded(f.ltype, v)| < Two64
    modifies o, o.buf
    ensures o.Valid()
    ensures Emits(o, old(o.Now()), o.Now(), ok, Prepend(TagBytes(WireType(f.ltype), f.tag), OfValue(f.ltype, v)))
    decreases f, 2
  {
    hide Emits, OfValue, Encoded, TagBytes, Typed;
    ghost var was := o.Now();
    ghost var tag := TagBytes(WireType(f.ltype), f.tag);
    ok := o.EncodeTag(WireType(f.ltype), f.tag);
    ghost var mid := o.Now();
    if ok {
      ok := EncodeValue(o, f.ltype, v);
      Then(o, was, mid, o.Now(), ok, tag, OfValue(f.ltype, v));
    } else {
      Stops(o, was, mid, mid, tag, OfValue(f.ltype, v));
    }
  }

  ghost function OfItem(f: Field, v: Value, packed: bool): Option<seq<byte>>
    requires Typed(f.ltype, v)
  {
    if packed then OfValue(f.ltype, v) else Prepend(TagBytes(WireType(f.ltype), f.tag), OfValue(f.ltype, v))
  }

  lemma ItemsFrom(f: Field, vs: seq<Value>, k: nat, packed: bool)
    requires k < |vs| && forall j: nat | j < |vs| :: Typed(f.ltype, vs[j])
    ensures OfItems(f, vs[k..], packed) == Both(OfItem(f, vs[k], packed), OfItems(f, vs[k + 1..], packed))
    ensures |Items(f, vs[k..], packed)| >= |Encoded(f.ltype, vs[k])| + |Items(f, vs[k + 1..], packed)|
  {
    hide Encoded, Typed, Fits, TagBytes;
    var rest := vs[k..];
    assert rest[1..] == vs[k + 1..] && rest[0] == vs[k];
    assert FitsItems(f.ltype, rest) <==> Fits(f.ltype, vs[k]) && FitsItems(f.ltype, vs[k + 1..]) by {
      if FitsItems(f.ltype, rest) {
        forall j: nat | j < |rest| - 1 ensures Fits(f.ltype, rest[1..][j]) {
          assert rest[1..][j] == rest[j + 1];
        }
      }
    }
    Associative(TagBytes(WireType(f.ltype), f.tag), Encoded(f.ltype, vs[k]), Items(f, vs[k + 1..], packed));
    Whole(Encoded(f.ltype, vs[k]));
  }

  lemma NoItems(f: Field, vs: seq<Value>, packed: bool)
    requires |vs| == 0
    ensures OfItems(f, vs, packed) == Some([])
  {
  }

  /** The items of an array one by one. */
  method EncodeItems(o: OStream, f: Field, vs: seq<Value>, packed: bool) returns (ok: bool)
    requires o.Valid() && GoodField(f) && (forall k: nat | k < |vs| :: Typed(f.ltype, vs[k]))
    requires |Items(f, vs, packed)| < Two64
    modifies o, o.buf
    ensures o.Valid() && Emits(o, old(o.Now()), o.Now(), ok, OfItems(f, vs, packed))
    decreases f, 3
  {
    hide Emits, OfItems, Items, Typed, OfValue, Encoded, TagBytes, Prepend, Both;
    ghost var was, done, whole := o.Now(), [], OfItems(f, vs, packed);
    var k := 0;
    ok := true;
    assert vs[0..] == vs;
    Nothing(o, was);
    NothingFirst(whole);
    while ok && k < |vs|
      invariant k <= |vs| && o.Valid() && |Items(f, vs[k..], packed)| < Two64
      invariant ok ==> Emits(o, was, o.Now(), true, Some(done)) && Prepend(done, OfItems(f, vs[k..], packed)) == whole
      invariant !ok ==> Emits(o, was, o.Now(), false, whole)
      decreases ok, |vs| - k
    {
      ghost var mid := o.Now();
      ghost var e := OfItem(f, vs[k], packed);
      ItemsFrom(f, vs, k, packed);
      if packed {
        ok := EncodeValue(o, f.ltype, vs[k]);
      } else {
        ok := EncodeTagged(o, f, vs[k]);
      }
      done := Onward(o, was, mid, o.Now(), ok, done, e, OfItems(f, vs[k + 1..], packed));
      k := k + 1;
    }
    if ok {
      NoItems(f, vs[k..], packed);
      NothingLast(done);
    }
  }

  /** An array: packed behind its length when its type allows, else item by item. */
  method EncodeArray(o: OStream, f: Field, s: Slot) returns (ok: bool)
    requires o.Valid() && GoodField(f) && f.htype.Repeated? && TypedSlot(f, s) && |EncodedField(f, s)| < Two64
    modifies o, o.buf
    ensures o.Valid() && Emits(o, old(o.Now()), o.Now(), ok, OfField(f, s))
    decreases f, 5
  {
    hide Emits, Items, Typed, TagBytes, Encoded, Fits;
    var vs := s.vs;
    if |vs| == 0 {
      ok := true;
      Nothing(o, o.Now());
    } else if |vs| > f.htype.max {
      ok := false;
      Unwritable(o, o.Now());
    } else if f.ltype.Packable() {
      NumbersFit(f, vs);
      ok := EncodePacked(o, f, vs);
    } else {
      ok := EncodeItems(o, f, vs, false);
    }
  }

  method EncodePacked(o: OStream, f: Field, vs: seq<Value>) returns (ok: bool)
    requires o.Valid() && GoodField(f) && f.ltype.Packable() && (forall k: nat | k < |vs| :: Typed(f.ltype, vs[k]))
    requires |Items(f, vs, true)| < Two64
    modifies o, o.buf
    ensures o.Valid() && Emits(o, old(o.Now()), o.Now(), ok,
                               Some(TagBytes(WtString, f.tag) + Varint(|Items(f, vs, true)|) + Items(f, vs, true)))
    decreases f, 4
  {
    hide Emits, Items, TagBytes, Varint, Typed, Prepend;
    ghost var was, items := o.Now(), Items(f, vs, true);
    ghost var tag, length := TagBytes(WtString, f.tag), Varint(|items|);
    PackedParts(tag, length, items);
    NumbersFit(f, vs);
    ok := o.EncodeTag(WtString, f.tag);
    ghost var mid := o.Now();
    if !ok {
      Stops(o, was, mid, mid, tag, Some(length + items));
    } else {
      var size := PackedSize(f, vs);
      ok := o.EncodeVarint(size);
      ghost var next := o.Now();
      if !ok {
        Stops(o, mid, next, next, length, Some(items));
      } else {
        if o.sizing {
          Counted(o, next, items);
          o.Count(size);
        } else {
          ok := EncodeItems(o, f, vs, true);
        }
        Then(o, mid, next, o.Now(), ok, length, Some(items));
      }
      Then(o, was, mid, o.Now(), ok, tag, Some(length + items));
    }
  }

  lemma PackedParts(tag: seq<byte>, length: seq<byte>, items: seq<byte>)
    ensures Prepend(length, Some(items)) == Some(length + items)
    ensures Prepend(tag, Some(length + items)) == Some(tag + length + items)
  {
    Associative(tag, length, items);
  }

  lemma Counted(o: OStream, p: Progress, e: seq<byte>)
    requires o.sizing
    ensures Emits(o, p, p.(count := p.count + |e|), true, Some(e))
  {
  }

  lemma NumbersFit(f: Field, vs: seq<Value>)
    requires f.ltype.Packable() && forall k: nat | k < |vs| :: Typed(f.ltype, vs[k])
    ensures OfItems(f, vs, true) == Some(Items(f, vs, true))
  {
    assert forall k: nat | k < |vs| :: Fits(f.ltype, vs[k]) by {
      assert forall k: nat | k < |vs| :: Typed(f.ltype, vs[k]);
    }
  }

  /** The size of a packed array: by arithmetic for fixed widths, else by a counting pass. */
  method PackedSize(f: Field, vs: seq<Value>) returns (size: nat)
    requires GoodField(f) && f.ltype.Packable() && (forall k: nat | k < |vs| :: Typed(f.ltype, vs[k]))
    requires |Items(f, vs, true)| < Two64
    ensures size == |Items(f, vs, true)|
    decreases f, 4, 0
  {
    hide Items, Typed;
    if f.ltype.Fixed32? {
      FixedItems(f, vs, 4);
      size := 4 * |vs|;
    } else if f.ltype.Fixed64? {
      FixedItems(f, vs, 8);
      size := 8 * |vs|;
    } else {
      NumbersFit(f, vs);
      var counter := new OStream.Sizing();
      var ok := EncodeItems(counter, f, vs, true);
      size := counter.bytesWritten;
    }
  }

  lemma {:induction false} FixedItems(f: Field, vs: seq<Value>, width: nat)
    requires (f.ltype.Fixed32? && width == 4) || (f.ltype.Fixed64? && width == 8)
    requires forall k: nat | k < |vs| :: Typed(f.ltype, vs[k])
    ensures |Items(f, vs, true)| == width * |vs|
    decreases |vs|
  {
    if |vs| > 0 {
      FixedItems(f, vs[1..], width);
    }
  }

  lemma StoredIsTyped(f: Field, s: Slot)
    requires TypedSlot(f, s)
    ensures Typed(f.ltype, s.Stored())
  {
    hide Typed;
  }

  /** Whether a field without a flag of its own has nothing to send. A submessage is searched field by
      field for something that is not zero, by what the storage holds. */
  method IsSilent(t: LType, v: Value) returns (silent: bool)
    requires Typed(t, v)
    ensures silent == Silent(t, v)
    decreases t
  {
    hide Descriptors, PbIter.DataAt, PbIter.SizeAt, PbIter.RequiredBefore;
    match v {
      case Int(i) => silent := i == 0;
      case Data(b) => silent := |b| == 0 || (t.String? && b[0] == 0);
      case Struct(m) =>
        var fs := t.fields;
        var iter := new PbIter.FieldIter(Descriptors(fs));
        var more := iter.Begin();
        ghost var at := 0;
        silent := true;
        while more
          invariant iter.Valid() && iter.fields == Descriptors(fs) && at <= |fs|
          invariant more ==> silent && at == iter.pos < |fs|
          invariant silent && !more ==> at == |fs|
          invariant silent ==> forall j | 0 <= j < at :: Silent(fs[j].ltype, m[j].Stored())
          invariant !silent ==> !Silent(t, v)
          decreases more, |fs| - at
        {
          var i := iter.pos;
          StoredIsTyped(fs[i], m[i]);
          silent := IsSilent(fs[i].ltype, m[i].Stored());
          at := at + 1;
          more := false;
          if silent {
            more := iter.Next();
          }
        }
    }
  }

  method EncodeField(o: OStream, f: Field, s: Slot) returns (ok: bool)
    requires o.Valid() && GoodField(f) && TypedSlot(f, s) && |EncodedField(f, s)| < Two64
    modifies o, o.buf
    ensures o.Valid() && Emits(o, old(o.Now()), o.Now(), ok, OfField(f, s))
    decreases f, 6
  {
    hide Emits, Items, Typed, TagBytes, Encoded, Fits, Silent;
    ok := true;
    match f.htype {
      case Required => ok := EncodeTagged(o, f, s.v);
      case Optional(has) =>
        var present;
        if has {
          present := s.has;
        } else {
          var silent := IsSilent(f.ltype, s.v);
          present := !silent;
        }
        if present {
          ok := EncodeTagged(o, f, s.v);
        } else {
          Nothing(o, o.Now());
        }
      case Repeated(_) => ok := EncodeArray(o, f, s);
      case Oneof(_) =>
        if s.chosen {
          ok := EncodeTagged(o, f, s.v);
        } else {
          Nothing(o, o.Now());
        }
    }
  }

  // ---- Messages ----

  lemma FieldsFrom(fs: seq<Field>, m: seq<Slot>, i: nat)
    requires TypedMessage(fs, m) && i < |fs|
    ensures OfFields(fs, m, i) == Both(OfField(fs[i], m[i]), OfFields(fs, m, i + 1))
    ensures |EncodedFrom(fs, m, i)| == |EncodedField(fs[i], m[i])| + |EncodedFrom(fs, m, i + 1)|
    ensures TypedSlot(fs[i], m[i])
  {
    hide FitsSlot, EncodedField;
  }

  lemma NoFields(fs: seq<Field>, m: seq<Slot>)
    requires TypedMessage(fs, m)
    ensures OfFields(fs, m, |fs|) == Some([])
  {
  }

  /** All fields of a message in the order of its table. Writing succeeds exactly when no array or
      bytes field exceeds its bounds and the encoding fits. */
  method EncodeMessage(o: OStream, fs: seq<Field>, m: seq<Slot>) returns (ok: bool)
    requires o.Valid() && TypedMessage(fs, m) && GoodTable(fs) && |EncodedFrom(fs, m, 0)| < Two64
    modifies o, o.buf
    ensures o.Valid() && Emits(o, old(o.Now()), o.Now(), ok, OfFields(fs, m, 0))
    decreases fs, 8
  {
    hide Emits, OfFields, EncodedFrom, EncodedField, OfField, Prepend, Both, TypedSlot, GoodField;
    hide Descriptors, PbIter.DataAt, PbIter.SizeAt, PbIter.RequiredBefore;
    ghost var was, done, whole := o.Now(), [], OfFields(fs, m, 0);
    var iter := new PbIter.FieldIter(Descriptors(fs));
    var more := iter.Begin();
    ghost var at := 0;
    ok := true;
    Nothing(o, was);
    NothingFirst(whole);
    while more
      invariant o.Valid() && iter.Valid() && iter.fields == Descriptors(fs) && at <= |fs|
      invariant |EncodedFrom(fs, m, at)| < Two64
      invariant more ==> ok && at == iter.pos < |fs|
      invariant ok && !more ==> at == |fs|
      invariant ok ==> Emits(o, was, o.Now(), true, Some(done)) && Prepend(done, OfFields(fs, m, at)) == whole
      invariant !ok ==> Emits(o, was, o.Now(), false, whole)
      decreases more, |fs| - at
    {
      ghost var mid := o.Now();
      var i := iter.pos;
      FieldsFrom(fs, m, i);
      ok := EncodeField(o, fs[i], m[i]);
      done := Onward(o, was, mid, o.Now(), ok, done, OfField(fs[i], m[i]), OfFields(fs, m, i + 1));
      at := at + 1;
      more := false;
      if ok {
        more := iter.Next();
      }
    }
    if ok {
      NoFields(fs, m);
      NothingLast(done);
    }
  }

  /** The size a message would have, by a pass that only counts. */
  method EncodedSize(fs: seq<Field>, m: seq<Slot>) returns (ok: bool, size: nat)
    requires TypedMessage(fs, m) && GoodTable(fs) && |EncodedFrom(fs, m, 0)| < Two64
    ensures ok <==> FitsFrom(fs, m, 0)
    ensures ok ==> size == |EncodedFrom(fs, m, 0)|
  {
    hide FitsFrom, EncodedFrom;
    var counter := new OStream.Sizing();
    ok := EncodeMessage(counter, fs, m);
    size := counter.bytesWritten;
  }

  // ---- Messages in bounds ----

  /** A message within the bounds of its table can be written, given room, and what is written reads
      back. */
  lemma InBoundsTravels(fs: seq<Field>, m: seq<Slot>)
    requires GoodTable(fs) && TypedMessage(fs, m) && MessageInBounds(fs, m) && |EncodedFrom(fs, m, 0)| < Two32
    ensures OfFields(fs, m, 0).Some?
    ensures DecodedNew(fs, OfFields(fs, m, 0).value) == Some(PbRoundTrip.ArrivingTo(fs, m, |fs|))
  {
    InBoundsFits(fs, m, 0);
    PbRoundTrip.RoundTrip(fs, m);
  }

  lemma {:induction false} InBoundsFits(fs: seq<Field>, m: seq<Slot>, i: nat)
    requires TypedMessage(fs, m) && MessageInBounds(fs, m) && i <= |fs|
    ensures FitsFrom(fs, m, i)
    decreases fs, |fs| - i
  {
    if i < |fs| {
      InBoundsFits(fs, m, i + 1);
      assert TypedSlot(fs[i], m[i]) && SlotInBounds(fs[i], m[i]);
      SlotFits(fs[i], m[i]);
    }
  }

  lemma {:induction false} SlotFits(f: Field, s: Slot)
    requires TypedSlot(f, s) && SlotInBounds(f, s)
    ensures FitsSlot(f, s)
    decreases f, 1
  {
    if f.htype.Repeated? {
      forall k: nat | k < |s.vs| ensures Fits(f.ltype, s.vs[k]) {
        ValueFits(f.ltype, s.vs[k]);
      }
    } else if PbRoundTrip.Sent(f, s) {
      ValueFits(f.ltype, s.v);
    }
  }

  lemma {:induction false} ValueFits(t: LType, v: Value)
    requires Typed(t, v) && InBounds(t, v)
    ensures Fits(t, v)
    decreases t, 0
  {
    if t.Submessage? {
      InBoundsFits(t.fields, v.slots, 0);
    }
  }

  /** What a message owes its table apart from the sizes of arrays and bytes fields: strings end within
      their arrays, at most one member of a union is chosen, and what is not sent is in bounds. */
  ghost predicate Decent(t: LType, v: Value)
    requires Typed(t, v)
    decreases t, 2
  {
    match t
    case String(c) => |v.b| < c && forall k | 0 <= k < |v.b| :: v.b[k] != 0
    case Submessage(fs) => DecentMessage(fs, v.slots)
    case _ => true
  }

  ghost predicate DecentSlot(f: Field, s: Slot)
    requires TypedSlot(f, s)
    decreases f, 3
  {
    match f.htype
    case Required => Decent(f.ltype, s.v)
    case Optional(has) =>
      if has then s.has ==> Decent(f.ltype, s.v)
      else if Silent(f.ltype, s.v) then InBounds(f.ltype, s.v) else Decent(f.ltype, s.v)
    case Repeated(_) => forall k: nat | k < |s.vs| :: Decent(f.ltype, s.vs[k])
    case Oneof(_) => s.chosen ==> Decent(f.ltype, s.v)
  }

  ghost predicate DecentMessage(fs: seq<Field>, m: seq<Slot>)
    requires TypedMessage(fs, m)
    decreases fs, 4
  {
    && (forall i: nat | i < |fs| :: DecentSlot(fs[i], m[i]))
    && forall i: nat, j: nat | i < j < |fs| && fs[i].htype.Oneof? && fs[i].htype == fs[j].htype ::
         m[i].Choice? && m[j].Choice? ==> !(m[i].chosen && m[j].chosen)
  }

  /** Such a message is refused exactly when an array or a bytes field of it, at any depth, is out of bounds;
      by InBoundsTravels, whatever is not refused reads back. */
  lemma {:induction false} RefusedIffOutOfBounds(fs: seq<Field>, m: seq<Slot>)
    requires TypedMessage(fs, m) && DecentMessage(fs, m)
    ensures OfFields(fs, m, 0).Some? <==> MessageInBounds(fs, m)
    decreases fs, 5
  {
    hide FitsSlot, SlotInBounds, DecentSlot, TypedSlot;
    forall i: nat | i < |fs| ensures TypedSlot(fs[i], m[i]) && (FitsSlot(fs[i], m[i]) <==> SlotInBounds(fs[i], m[i])) {
      assert TypedSlot(fs[i], m[i]) && DecentSlot(fs[i], m[i]);
      SlotRefused(fs[i], m[i]);
    }
    FitsAll(fs, m, 0);
  }

  lemma {:induction false} FitsAll(fs: seq<Field>, m: seq<Slot>, i: nat)
    requires TypedMessage(fs, m) && i <= |fs|
    ensures FitsFrom(fs, m, i) <==> forall k: nat | i <= k < |fs| :: TypedSlot(fs[k], m[k]) && FitsSlot(fs[k], m[k])
    decreases |fs| - i
  {
    hide FitsSlot, TypedSlot;
    if i < |fs| {
      FitsAll(fs, m, i + 1);
    }
  }

  lemma {:induction false} SlotRefused(f: Field, s: Slot)
    requires TypedSlot(f, s) && DecentSlot(f, s)
    ensures FitsSlot(f, s) <==> SlotInBounds(f, s)
    decreases f, 3
  {
    hide Fits, InBounds, Typed, Silent, Decent;
    if f.htype.Repeated? {
      forall k: nat | k < |s.vs| ensures Fits(f.ltype, s.vs[k]) <==> InBounds(f.ltype, s.vs[k]) {
        ValueRefused(f.ltype, s.vs[k]);
      }
    } else if PbRoundTrip.Sent(f, s) {
      ValueRefused(f.ltype, s.v);
    }
  }

  lemma {:induction false} ValueRefused(t: LType, v: Value)
    requires Typed(t, v) && Decent(t, v)
    ensures Fits(t, v) <==> InBounds(t, v)
    decreases t, 2
  {
    if t.Submessage? {
      RefusedIffOutOfBounds(t.fields, v.slots);
    }
  }
}
