/** Decoding what was encoded restores every field that was sent. */
module PbRoundTrip {
  import opened Wrappers
  import opened Coding
  import opened PbTypes
  import opened PbWire
  import opened PbFormat

  // ---- What arrives ----

  /** A value with everything that is not sent set to its default. */
  function Arriving(t: LType, v: Value): Value
    requires Typed(t, v)
    decreases t, 0
  {
    match t
    case Submessage(fs) => Struct(ArrivingTo(fs, v.slots, |fs|))
    case _ => v
  }

  function ArrivingSlot(f: Field, s: Slot): Slot
    requires TypedSlot(f, s)
    decreases f, 2
  {
    match f.htype
    case Required => One(Arriving(f.ltype, s.v))
    case Optional(has) =>
      if !(if has then s.has else !Silent(f.ltype, s.v)) then DefaultSlot(f)
      else if has then Opt(true, Arriving(f.ltype, s.v)) else One(Arriving(f.ltype, s.v))
    case Repeated(_) => Many(ArrivingItems(f, s.vs), Default(f.ltype))
    case Oneof(_) => if s.chosen then Choice(true, Arriving(f.ltype, s.v)) else DefaultSlot(f)
  }

  function ArrivingItems(f: Field, vs: seq<Value>): (r: seq<Value>)
    requires forall k: nat | k < |vs| :: Typed(f.ltype, vs[k])
    ensures |r| == |vs|
    decreases f, 1, |vs|
  {
    if |vs| == 0 then [] else [Arriving(f.ltype, vs[0])] + ArrivingItems(f, vs[1..])
  }

  /** The slots below i as they arrive, the others as they begin. */
  function ArrivingTo(fs: seq<Field>, m: seq<Slot>, i: nat): (r: seq<Slot>)
    requires TypedMessage(fs, m) && i <= |fs|
    ensures |r| == |fs|
    decreases fs, i
  {
    if i == 0 then Defaults(fs, |fs|)
    else ArrivingTo(fs, m, i - 1)[i - 1 := ArrivingSlot(fs[i - 1], m[i - 1])]
  }

  predicate Sent(f: Field, s: Slot)
    requires TypedSlot(f, s)
  {
    match f.htype
    case Required => true
    case Optional(has) => if has then s.has else !Silent(f.ltype, s.v)
    case Repeated(_) => |s.vs| > 0
    case Oneof(_) => s.chosen
  }

  function SentTo(fs: seq<Field>, m: seq<Slot>, i: nat): set<nat>
    requires TypedMessage(fs, m) && i <= |fs|
  {
    set j: nat | j < i && Sent(fs[j], m[j])
  }

  // ---- Single values ----

  lemma Halves<T>(a: seq<T>, b: seq<T>)
    ensures (a + b)[..|a|] == a && (a + b)[|a|..] == b
  {
  }

  lemma Associative<T>(a: seq<T>, b: seq<T>, c: seq<T>)
    ensures (a + b) + c == a + (b + c)
  {
  }

  lemma TakesString(s: seq<byte>, rest: seq<byte>)
    requires |s| < Two32
    ensures TakeString(Varint(|s|) + s + rest) == Got(s, rest)
  {
    hide Varint32, Varint;
    Associative(Varint(|s|), s, rest);
    Reads32(|s|, s + rest);
    Halves(Varint(|s|), s + rest);
    Halves(s, rest);
  }

  lemma NumberReads(t: LType, v: Value, rest: seq<byte>)
    requires t.Packable() && GoodType(t) && Typed(t, v)
    ensures DecodedNumber(t, Encoded(t, v) + rest) == Got(v, rest)
  {
    if t.Fixed32? {
      FixedReads(4, v.i, rest);
      assert Pow256(4) == Two32;
    } else if t.Fixed64? {
      FixedReads(8, v.i, rest);
      assert Pow256(8) == Two64;
    } else {
      VarintReads(t, v, rest);
    }
  }

  lemma FixedReads(n: nat, i: nat, rest: seq<byte>)
    requires i < Pow256(n)
    ensures var b := Fixed(n, i) + rest; |b| >= n && FixedValue(b[..n]) == i && b[n..] == rest
  {
    hide Pow256, Fixed, FixedValue;
    Halves(Fixed(n, i), rest);
    FixedReadsBack(n, i);
    ModIs(i, Pow256(n), 0, i);
  }

  lemma VarintReads(t: LType, v: Value, rest: seq<byte>)
    requires t.Packable() && !t.Fixed32? && !t.Fixed64? && GoodType(t) && Typed(t, v)
    ensures DecodedNumber(t, Encoded(t, v) + rest) == Got(v, rest)
  {
    hide Varint64, Varint, FromVarint, FromZigZag, Unsigned64, ZigZagged;
    match t
    case SignedVarint(n) =>
      SignExtends(v.i, n);
      Reads64(Unsigned64(v.i), rest);
      Halves(Varint(Unsigned64(v.i)), rest);
    case UnsignedVarint(n) =>
      Reads64(v.i, rest);
      Halves(Varint(v.i), rest);
    case ZigZag(n) =>
      SignExtends(v.i, n);
      Reads64(ZigZagged(v.i), rest);
      Halves(Varint(ZigZagged(v.i)), rest);
  }

  lemma {:induction false} WholeCString(b: seq<byte>, capacity: nat)
    requires |b| <= capacity && forall k | 0 <= k < |b| :: b[k] != 0
    ensures CString(b, capacity) == b
    decreases |b|
  {
    if |b| > 0 {
      assert b[0] != 0;
      WholeCString(b[1..], capacity - 1);
    }
  }

  lemma {:induction false} ValueReads(t: LType, v: Value, rest: seq<byte>, before: Value)
    requires GoodType(t) && Typed(t, v) && InBounds(t, v) && |Encoded(t, v)| < Two32
    requires t.Submessage? ==> before == Default(t)
    ensures Decoded(t, Encoded(t, v) + rest, before) == Got(Arriving(t, v), rest)
    decreases t, 0
  {
    if t.Packable() {
      NumberReads(t, v, rest);
    } else {
      match t
      case Bytes(c) => TakesString(v.b, rest);
      case String(c) =>
        WholeCString(v.b, c);
        TakesString(v.b, rest);
      case FixedBytes(n) => TakesString(v.b, rest);
      case Submessage(fs) =>
        var e := EncodedFrom(fs, v.slots, 0);
        TakesString(e, rest);
        RoundTrip(fs, v.slots);
    }
  }

  // ---- Whole messages ----

  /** A message read into a fresh struct: everything sent is there, everything else is at its default. */
  lemma {:induction false} RoundTrip(fs: seq<Field>, m: seq<Slot>)
    requires GoodTable(fs) && TypedMessage(fs, m) && MessageInBounds(fs, m) && |EncodedFrom(fs, m, 0)| < Two32
    ensures DecodedNew(fs, EncodedFrom(fs, m, 0)) == Some(ArrivingTo(fs, m, |fs|))
    decreases fs, |fs| + 2
  {
    assert SentTo(fs, m, 0) == {};
    FieldsRead(fs, m, 0);
    assert Complete(fs, SentTo(fs, m, |fs|));
  }

  lemma {:induction false} FieldsRead(fs: seq<Field>, m: seq<Slot>, i: nat)
    requires GoodTable(fs) && TypedMessage(fs, m) && MessageInBounds(fs, m) && i <= |fs|
    requires |EncodedFrom(fs, m, i)| < Two32
    ensures DecodedFields(fs, EncodedFrom(fs, m, i), ArrivingTo(fs, m, i), SentTo(fs, m, i))
            == Some((ArrivingTo(fs, m, |fs|), SentTo(fs, m, |fs|)))
    decreases fs, |fs| - i
  {
    if i < |fs| {
      var rest := EncodedFrom(fs, m, i + 1);
      FieldReads(fs, m, i, rest);
      FieldsRead(fs, m, i + 1);
    }
  }

  /** One field's bytes, read in their turn. */
  lemma {:induction false} FieldReads(fs: seq<Field>, m: seq<Slot>, i: nat, rest: seq<byte>)
    requires GoodTable(fs) && TypedMessage(fs, m) && MessageInBounds(fs, m) && i < |fs|
    requires |EncodedField(fs[i], m[i])| < Two32
    ensures DecodedFields(fs, EncodedField(fs[i], m[i]) + rest, ArrivingTo(fs, m, i), SentTo(fs, m, i))
            == DecodedFields(fs, rest, ArrivingTo(fs, m, i + 1), SentTo(fs, m, i + 1))
    decreases fs, 0
  {
    var f, s, cur, seen := fs[i], m[i], ArrivingTo(fs, m, i), SentTo(fs, m, i);
    assert TypedSlot(f, s) && SlotInBounds(f, s) && GoodField(f);
    StillDefault(fs, m, i, i);
    SentNext(fs, m, i);
    if !Sent(f, s) {
      NotSent(f, s);
      assert cur[i := cur[i]] == cur;
      assert EncodedField(f, s) + rest == rest;
    } else if f.htype.Repeated? && f.ltype.Packable() {
      PackedReads(fs, i, s, rest, cur, seen);
    } else if f.htype.Repeated? {
      ItemsRead(fs, i, [], s.vs, Default(f.ltype), rest, cur, seen);
      assert [] + ArrivingItems(f, s.vs) == ArrivingItems(f, s.vs);
      assert cur[i := Many([], Default(f.ltype))] == cur;
    } else {
      Alone(fs, m, i);
      SingleReads(fs, i, s, rest, cur, seen);
    }
  }

  lemma SentNext(fs: seq<Field>, m: seq<Slot>, i: nat)
    requires TypedMessage(fs, m) && i < |fs|
    ensures SentTo(fs, m, i + 1) == if Sent(fs[i], m[i]) then SentTo(fs, m, i) + {i} else SentTo(fs, m, i)
  {
  }

  lemma {:induction false} DefaultAt(fs: seq<Field>, n: nat, j: nat)
    requires j < n <= |fs|
    ensures Defaults(fs, n)[j] == DefaultSlot(fs[j])
  {
    if j < n - 1 {
      DefaultAt(fs, n - 1, j);
    }
  }

  /** What is not reached yet is as it began; what was reached has arrived. */
  lemma {:induction false} StillDefault(fs: seq<Field>, m: seq<Slot>, i: nat, j: nat)
    requires TypedMessage(fs, m) && i <= |fs| && j < |fs|
    ensures ArrivingTo(fs, m, i)[j] == if j < i then ArrivingSlot(fs[j], m[j]) else DefaultSlot(fs[j])
    decreases i
  {
    if i == 0 {
      DefaultAt(fs, |fs|, j);
    } else {
      StillDefault(fs, m, i - 1, j);
    }
  }

  lemma NotSent(f: Field, s: Slot)
    requires TypedSlot(f, s) && !Sent(f, s)
    ensures EncodedField(f, s) == [] && ArrivingSlot(f, s) == DefaultSlot(f)
  {
  }

  /** Nobody else in its union is chosen when a member is. */
  ghost predicate AloneIn(fs: seq<Field>, m: seq<Slot>, i: nat)
    requires |m| == |fs| && i < |fs|
  {
    forall j: nat | j < |fs| && j != i && fs[i].htype.Oneof? && fs[j].htype == fs[i].htype ::
      m[j] == Choice(false, Default(fs[j].ltype))
  }

  lemma Alone(fs: seq<Field>, m: seq<Slot>, i: nat)
    requires TypedMessage(fs, m) && MessageInBounds(fs, m) && i < |fs| && Sent(fs[i], m[i])
    ensures AloneIn(fs, ArrivingTo(fs, m, i), i)
  {
    forall j: nat | j < |fs| && j != i && fs[i].htype.Oneof? && fs[j].htype == fs[i].htype
      ensures ArrivingTo(fs, m, i)[j] == Choice(false, Default(fs[j].ltype))
    {
      StillDefault(fs, m, i, j);
      assert TypedSlot(fs[i], m[i]) && TypedSlot(fs[j], m[j]);
    }
  }

  lemma PutAlone(fs: seq<Field>, m: seq<Slot>, i: nat, s: Slot)
    requires |m| == |fs| && i < |fs| && AloneIn(fs, m, i)
    ensures Put(fs, m, i, s) == m[i := s]
  {
  }

  lemma {:induction false} FindsField(fs: seq<Field>, i: nat)
    requires i < |fs| && forall j: nat, k: nat | j < k < |fs| :: fs[j].tag != fs[k].tag
    ensures FieldOf(fs, fs[i].tag) == Some(i)
    decreases |fs|
  {
    if i < |fs| - 1 {
      FindsField(fs[..|fs| - 1], i);
    }
  }

  /** A tag leads to its field's decoder. */
  lemma TagLeads(fs: seq<Field>, i: nat, wireType: nat, body: seq<byte>, cur: seq<Slot>, seen: set<nat>)
    requires GoodTable(fs) && i < |fs| && |cur| == |fs| && wireType < 8
    ensures DecodedFields(fs, TagBytes(wireType, fs[i].tag) + body, cur, seen)
            == match DecodedField(fs[i], wireType, body, cur[i])
               case Fail => None
               case Got(s, next) => DecodedFields(fs, next, Put(fs, cur, i, s), seen + {i})
  {
    assert GoodField(fs[i]);
    TagReads(wireType, fs[i].tag, body);
    FindsField(fs, i);
    assert |TagBytes(wireType, fs[i].tag)| > 0;
  }

  lemma {:induction false} SingleReads(fs: seq<Field>, i: nat, s: Slot, rest: seq<byte>, cur: seq<Slot>, seen: set<nat>)
    requires GoodTable(fs) && i < |fs| && |cur| == |fs| && cur[i] == DefaultSlot(fs[i]) && AloneIn(fs, cur, i)
    requires TypedSlot(fs[i], s) && SlotInBounds(fs[i], s) && Sent(fs[i], s) && !fs[i].htype.Repeated?
    requires |EncodedField(fs[i], s)| < Two32
    ensures DecodedFields(fs, EncodedField(fs[i], s) + rest, cur, seen)
            == DecodedFields(fs, rest, cur[i := ArrivingSlot(fs[i], s)], seen + {i})
    decreases fs[i], 0
  {
    var f := fs[i];
    assert GoodField(f);
    var tag, e := TagBytes(WireType(f.ltype), f.tag), Encoded(f.ltype, s.v);
    assert EncodedField(f, s) == tag + e;
    Associative(tag, e, rest);
    TagLeads(fs, i, WireType(f.ltype), e + rest, cur, seen);
    ValueReads(f.ltype, s.v, rest, if f.htype.Oneof? then Default(f.ltype) else Initial(f));
    PutAlone(fs, cur, i, ArrivingSlot(f, s));
  }

  lemma {:induction false} PackedItems(f: Field, vs: seq<Value>, done: seq<Value>, max: nat)
    requires f.ltype.Packable() && GoodType(f.ltype) && |done| + |vs| <= max
    requires forall k: nat | k < |vs| :: Typed(f.ltype, vs[k])
    ensures DecodedItems(f.ltype, Items(f, vs, true), done, max) == Some(done + vs)
    ensures ArrivingItems(f, vs) == vs
    decreases |vs|
  {
    if |vs| == 0 {
      assert done + vs == done;
    } else {
      var e, rest := Encoded(f.ltype, vs[0]), Items(f, vs[1..], true);
      assert Items(f, vs, true) == [] + e + rest == e + rest;
      NumberReads(f.ltype, vs[0], rest);
      PackedItems(f, vs[1..], done + [vs[0]], max);
      Associative(done, [vs[0]], vs[1..]);
      assert [vs[0]] + vs[1..] == vs;
      SomeBytes(f.ltype, vs[0]);
    }
  }

  lemma SomeBytes(t: LType, v: Value)
    requires Typed(t, v)
    ensures |Encoded(t, v)| > 0
  {
  }

  lemma {:induction false} PackedReads(fs: seq<Field>, i: nat, s: Slot, rest: seq<byte>, cur: seq<Slot>,
                                       seen: set<nat>)
    requires GoodTable(fs) && i < |fs| && |cur| == |fs| && cur[i] == DefaultSlot(fs[i])
    requires fs[i].htype.Repeated? && fs[i].ltype.Packable() && TypedSlot(fs[i], s) && 0 < |s.vs| <= fs[i].htype.max
    requires |EncodedField(fs[i], s)| < Two32
    ensures DecodedFields(fs, EncodedField(fs[i], s) + rest, cur, seen)
            == DecodedFields(fs, rest, cur[i := ArrivingSlot(fs[i], s)], seen + {i})
  {
    var f, vs := fs[i], s.vs;
    assert GoodField(f);
    var tag, items := TagBytes(WtString, f.tag), Items(f, vs, true);
    Associative(tag, Varint(|items|), items);
    Associative(tag, Varint(|items|) + items, rest);
    TagLeads(fs, i, WtString, Varint(|items|) + items + rest, cur, seen);
    TakesString(items, rest);
    PackedItems(f, vs, [], f.htype.max);
    assert [] + vs == vs;
    PutAlone(fs, cur, i, ArrivingSlot(f, s));
  }

  /** Items one at a time, each behind its tag. */
  lemma {:induction false} ItemsRead(fs: seq<Field>, i: nat, done: seq<Value>, vs: seq<Value>, spare: Value,
                                     rest: seq<byte>, cur: seq<Slot>, seen: set<nat>)
    requires GoodTable(fs) && i < |fs| && |cur| == |fs| && fs[i].htype.Repeated?
    requires |done| + |vs| <= fs[i].htype.max
    requires forall k: nat | k < |vs| :: Typed(fs[i].ltype, vs[k]) && InBounds(fs[i].ltype, vs[k])
    requires |Items(fs[i], vs, false)| < Two32
    ensures DecodedFields(fs, Items(fs[i], vs, false) + rest, cur[i := Many(done, spare)], seen)
            == DecodedFields(fs, rest, cur[i := Many(done + ArrivingItems(fs[i], vs), spare)],
                             if |vs| == 0 then seen else seen + {i})
    decreases fs[i], 0, |vs|
  {
    hide Encoded, Arriving, Typed, InBounds, TagBytes, DecodedFields, Put;
    var f := fs[i];
    assert GoodField(f);
    if |vs| == 0 {
      assert [] + rest == rest && done + [] == done;
    } else {
      var tag, e, more := TagBytes(WireType(f.ltype), f.tag), Encoded(f.ltype, vs[0]), Items(f, vs[1..], false);
      var now, v := cur[i := Many(done, spare)], Arriving(f.ltype, vs[0]);
      Associative(tag, e, more);
      Associative(tag, e + more, rest);
      Associative(e, more, rest);
      TagLeads(fs, i, WireType(f.ltype), e + (more + rest), now, seen);
      ValueReads(f.ltype, vs[0], more + rest, Default(f.ltype));
      PutAlone(fs, now, i, Many(done + [v], spare));
      ItemsRead(fs, i, done + [v], vs[1..], spare, rest, cur, seen + {i});
      Associative(done, [v], ArrivingItems(f, vs[1..]));
      assert now[i := Many(done + [v], spare)] == cur[i := Many(done + [v], spare)];
      assert seen + {i} + {i} == seen + {i};
    }
  }
}
