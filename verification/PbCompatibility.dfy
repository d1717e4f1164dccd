/** Messages between programs whose tables differ: integers of other widths, and fields one of them
    does not know. */
module PbCompatibility {
  import opened Wrappers
  import opened Coding
  import opened PbTypes
  import opened PbWire
  import opened PbFormat
  import opened PbRoundTrip

  // ---- Widths ----

  /** The types differ in nothing but the widths of integers. */
  ghost predicate Alike(t: LType, u: LType)
    decreases t, 0
  {
    match t
    case SignedVarint(_) => u.SignedVarint?
    case UnsignedVarint(_) => u.UnsignedVarint?
    case ZigZag(_) => u.ZigZag?
    case Submessage(fs) => u.Submessage? && AlikeTables(fs, u.fields)
    case _ => t == u
  }

  ghost predicate AlikeFields(f: Field, g: Field)
    decreases f, 1
  {
    f.tag == g.tag && f.htype == g.htype && Alike(f.ltype, g.ltype)
  }

  ghost predicate AlikeTables(fs: seq<Field>, gs: seq<Field>)
    decreases fs, 1
  {
    |fs| == |gs| && forall i: nat | i < |fs| :: AlikeFields(fs[i], gs[i])
  }

  /** A value is sent the same whatever width its type declares. */
  lemma {:induction false} ValuesAlike(t: LType, u: LType, v: Value)
    requires Alike(t, u) && Typed(t, v) && Typed(u, v)
    ensures Encoded(t, v) == Encoded(u, v) && WireType(t) == WireType(u)
    ensures Silent(t, v) == Silent(u, v)
    decreases t, 0
  {
    if t.Submessage? {
      MessagesAlike(t.fields, u.fields, v.slots, 0);
      forall i | 0 <= i < |t.fields|
        ensures Silent(t.fields[i].ltype, v.slots[i].Stored()) == Silent(u.fields[i].ltype, v.slots[i].Stored())
      {
        assert TypedSlot(t.fields[i], v.slots[i]) && TypedSlot(u.fields[i], v.slots[i]);
        assert AlikeFields(t.fields[i], u.fields[i]);
        ValuesAlike(t.fields[i].ltype, u.fields[i].ltype, v.slots[i].Stored());
      }
    }
  }

  lemma {:induction false} ItemsAlike(f: Field, g: Field, vs: seq<Value>, packed: bool)
    requires AlikeFields(f, g) && forall k: nat | k < |vs| :: Typed(f.ltype, vs[k]) && Typed(g.ltype, vs[k])
    ensures Items(f, vs, packed) == Items(g, vs, packed)
    decreases f, 1, |vs|
  {
    hide Encoded, Typed, Silent, Alike;
    if |vs| > 0 {
      ValuesAlike(f.ltype, g.ltype, vs[0]);
      ItemsAlike(f, g, vs[1..], packed);
    }
  }

  lemma {:induction false} FieldsAlike(f: Field, g: Field, s: Slot)
    requires AlikeFields(f, g) && TypedSlot(f, s) && TypedSlot(g, s)
    ensures EncodedField(f, s) == EncodedField(g, s)
    decreases f, 2
  {
    hide Encoded, Typed, Silent, Items;
    if f.htype.Repeated? {
      ItemsAlike(f, g, s.vs, f.ltype.Packable());
    } else {
      ValuesAlike(f.ltype, g.ltype, s.v);
    }
  }

  lemma {:induction false} MessagesAlike(fs: seq<Field>, gs: seq<Field>, m: seq<Slot>, i: nat)
    requires AlikeTables(fs, gs) && TypedMessage(fs, m) && TypedMessage(gs, m) && i <= |fs|
    ensures EncodedFrom(fs, m, i) == EncodedFrom(gs, m, i)
    decreases fs, |fs| - i
  {
    hide TypedSlot, AlikeFields, EncodedField;
    if i < |fs| {
      assert AlikeFields(fs[i], gs[i]) && TypedSlot(fs[i], m[i]) && TypedSlot(gs[i], m[i]);
      FieldsAlike(fs[i], gs[i], m[i]);
      MessagesAlike(fs, gs, m, i + 1);
    }
  }

  /** Integers may be declared wider or narrower on the other side: what fits both tables is sent the
      same by either, and read by one it is what the other sent. */
  lemma WidthsAreNotSent(fs: seq<Field>, gs: seq<Field>, m: seq<Slot>)
    requires AlikeTables(fs, gs) && GoodTable(gs) && TypedMessage(fs, m) && TypedMessage(gs, m)
    requires MessageInBounds(gs, m) && |EncodedFrom(fs, m, 0)| < Two32
    ensures EncodedFrom(fs, m, 0) == EncodedFrom(gs, m, 0)
    ensures DecodedNew(gs, EncodedFrom(fs, m, 0)) == Some(ArrivingTo(gs, m, |gs|))
  {
    MessagesAlike(fs, gs, m, 0);
    RoundTrip(gs, m);
  }

  /** A signed integer is extended to 64 bits before it is sent: a negative one takes ten bytes. */
  lemma NegativeTakesTen(n: nat, v: int)
    requires IntSize(n) && 0 - HalfRange(n) <= v < 0
    ensures |Encoded(SignedVarint(n), Int(v))| == 10
  {
    var u := Unsigned64(v);
    assert u >= Two63;
    assert Pow128(9) == Two63;
    LongVarint(u, 9);
    assert Pow128(10) == 128 * Two63;
    VarintFits(u, 10);
  }

  lemma {:induction false} LongVarint(v: nat, n: nat)
    requires v >= Pow128(n)
    ensures |Varint(v)| > n
  {
    if n > 0 {
      assert Pow128(n - 1) > 0;
      LongVarint(v / 128, n - 1);
    }
  }

  // ---- Fields that are not known ----

  lemma {:induction false} VarintPassed(v: nat, rest: seq<byte>)
    ensures SkippedVarint(Varint(v) + rest) == Some(rest)
  {
    var b := Varint(v) + rest;
    if v >= 128 {
      assert b[1..] == Varint(v / 128) + rest;
      VarintPassed(v / 128, rest);
    } else {
      assert b[1..] == rest;
    }
  }

  lemma StringPassed(s: seq<byte>, rest: seq<byte>)
    requires |s| < Two32
    ensures Skipped(WtString, Varint(|s|) + s + rest) == Some(rest)
  {
    hide TakeString;
    TakesString(s, rest);
  }

  /** By the wire type alone, exactly the bytes of a value are passed over. */
  lemma ValuePassed(t: LType, v: Value, rest: seq<byte>)
    requires GoodType(t) && Typed(t, v) && |Encoded(t, v)| < Two32
    ensures Skipped(WireType(t), Encoded(t, v) + rest) == Some(rest)
  {
    hide TakeString, SkippedVarint, Varint, EncodedFrom;
    match t
    case SignedVarint(_) => VarintPassed(Unsigned64(v.i), rest);
    case UnsignedVarint(_) => VarintPassed(v.i, rest);
    case ZigZag(_) => VarintPassed(ZigZagged(v.i), rest);
    case Fixed32 => Halves(Fixed(4, v.i), rest);
    case Fixed64 => Halves(Fixed(8, v.i), rest);
    case Bytes(_) => StringPassed(v.b, rest);
    case String(c) => StringPassed(CString(v.b, c), rest);
    case FixedBytes(_) => StringPassed(v.b, rest);
    case Submessage(fs) => StringPassed(EncodedFrom(fs, v.slots, 0), rest);
  }

  /** A tag that is not known leads past what follows it. */
  lemma TagPassed(fs: seq<Field>, tag: nat, wireType: nat, body: seq<byte>, cur: seq<Slot>, seen: set<nat>)
    requires 0 < tag <= TagMax && wireType < 8 && |cur| == |fs| && FieldOf(fs, tag).None?
    ensures DecodedFields(fs, TagBytes(wireType, tag) + body, cur, seen)
            == match Skipped(wireType, body) case None => None case Some(next) => DecodedFields(fs, next, cur, seen)
  {
    TagReads(wireType, tag, body);
    assert |TagBytes(wireType, tag)| > 0;
  }

  lemma {:induction false} ItemsPassed(fs: seq<Field>, g: Field, vs: seq<Value>, rest: seq<byte>, cur: seq<Slot>,
                                       seen: set<nat>)
    requires GoodField(g) && |cur| == |fs| && FieldOf(fs, g.tag).None?
    requires (forall k: nat | k < |vs| :: Typed(g.ltype, vs[k])) && |Items(g, vs, false)| < Two32
    ensures DecodedFields(fs, Items(g, vs, false) + rest, cur, seen) == DecodedFields(fs, rest, cur, seen)
    decreases |vs|
  {
    hide Encoded, Typed, TagBytes, DecodedFields, Skipped, FieldOf;
    if |vs| == 0 {
      assert [] + rest == rest;
    } else {
      var tag, e, more := TagBytes(WireType(g.ltype), g.tag), Encoded(g.ltype, vs[0]), Items(g, vs[1..], false);
      Associative(tag, e, more);
      Associative(tag, e + more, rest);
      Associative(e, more, rest);
      TagPassed(fs, g.tag, WireType(g.ltype), e + (more + rest), cur, seen);
      ValuePassed(g.ltype, vs[0], more + rest);
      ItemsPassed(fs, g, vs[1..], rest, cur, seen);
    }
  }

  /** A field the table does not know is read as if it were not there: single, packed or item by item. */
  lemma FieldPassed(fs: seq<Field>, g: Field, s: Slot, rest: seq<byte>, cur: seq<Slot>, seen: set<nat>)
    requires GoodField(g) && TypedSlot(g, s) && |EncodedField(g, s)| < Two32
    requires |cur| == |fs| && FieldOf(fs, g.tag).None?
    ensures DecodedFields(fs, EncodedField(g, s) + rest, cur, seen) == DecodedFields(fs, rest, cur, seen)
  {
    hide Encoded, Typed, TagBytes, DecodedFields, Skipped, FieldOf, Items;
    var wt := WireType(g.ltype);
    if !Sent(g, s) {
      assert [] + rest == rest;
    } else if g.htype.Repeated? && g.ltype.Packable() {
      var items := Items(g, s.vs, true);
      Associative(TagBytes(WtString, g.tag), Varint(|items|), items);
      Associative(TagBytes(WtString, g.tag), Varint(|items|) + items, rest);
      TagPassed(fs, g.tag, WtString, Varint(|items|) + items + rest, cur, seen);
      StringPassed(items, rest);
    } else if g.htype.Repeated? {
      ItemsPassed(fs, g, s.vs, rest, cur, seen);
    } else {
      Associative(TagBytes(wt, g.tag), Encoded(g.ltype, s.v), rest);
      TagPassed(fs, g.tag, wt, Encoded(g.ltype, s.v) + rest, cur, seen);
      ValuePassed(g.ltype, s.v, rest);
    }
  }

  // ---- Messages of a larger table ----

  /** What is kept of the first n of a table's fields or of a message's slots. */
  function Kept<T>(xs: seq<T>, keep: set<nat>, n: nat): seq<T>
    requires n <= |xs|
  {
    if n == 0 then [] else Kept(xs, keep, n - 1) + (if n - 1 in keep then [xs[n - 1]] else [])
  }

  lemma {:induction false} KeptGrows<T>(xs: seq<T>, keep: set<nat>, i: nat, n: nat)
    requires i <= n <= |xs|
    ensures Kept(xs, keep, i) <= Kept(xs, keep, n)
    decreases n
  {
    if i < n {
      KeptGrows(xs, keep, i, n - 1);
    }
  }

  lemma {:induction false} SameLength<S, T>(xs: seq<S>, ys: seq<T>, keep: set<nat>, n: nat)
    requires n <= |xs| == |ys|
    ensures |Kept(xs, keep, n)| == |Kept(ys, keep, n)|
  {
    if n > 0 {
      SameLength(xs, ys, keep, n - 1);
    }
  }

  /** Where the i-th field, if it is kept, stands in the smaller table. */
  function Place<T>(xs: seq<T>, keep: set<nat>, i: nat): nat
    requires i <= |xs|
  {
    |Kept(xs, keep, i)|
  }

  lemma KeptAt<T>(xs: seq<T>, keep: set<nat>, i: nat)
    requires i < |xs| && i in keep
    ensures Place(xs, keep, i) < |Kept(xs, keep, |xs|)|
    ensures Kept(xs, keep, |xs|)[Place(xs, keep, i)] == xs[i] && Place(xs, keep, i + 1) == Place(xs, keep, i) + 1
  {
    KeptGrows(xs, keep, i + 1, |xs|);
  }

  /** Every kept one comes from somewhere, later ones from later on. */
  lemma {:induction false} KeptFrom<T>(xs: seq<T>, keep: set<nat>, n: nat, a: nat) returns (i: nat)
    requires n <= |xs| && a < |Kept(xs, keep, n)|
    ensures i < n && i in keep && Place(xs, keep, i) == a && Kept(xs, keep, n)[a] == xs[i]
  {
    if a < |Kept(xs, keep, n - 1)| {
      i := KeptFrom(xs, keep, n - 1, a);
    } else {
      i := n - 1;
    }
  }

  lemma PlacesAscend<T>(xs: seq<T>, keep: set<nat>, i: nat, j: nat)
    requires i <= |xs| && j <= |xs| && Place(xs, keep, i) < Place(xs, keep, j)
    ensures i < j
  {
    if j <= i {
      KeptGrows(xs, keep, j, i);
    }
  }

  lemma KeptIsGood(gs: seq<Field>, keep: set<nat>)
    requires GoodTable(gs)
    ensures GoodTable(Kept(gs, keep, |gs|))
  {
    hide GoodField, Kept, Place;
    var fs := Kept(gs, keep, |gs|);
    forall a: nat | a < |fs| ensures GoodField(fs[a]) {
      var i := KeptFrom(gs, keep, |gs|, a);
    }
    forall a: nat, b: nat | a < b < |fs| ensures fs[a].tag != fs[b].tag {
      var i, j := KeptPair(gs, keep, a, b);
    }
  }

  lemma KeptPair<T>(xs: seq<T>, keep: set<nat>, a: nat, b: nat) returns (i: nat, j: nat)
    requires a < b < |Kept(xs, keep, |xs|)|
    ensures i < j < |xs| && Kept(xs, keep, |xs|)[a] == xs[i] && Kept(xs, keep, |xs|)[b] == xs[j]
    ensures Place(xs, keep, i) == a && Place(xs, keep, j) == b && i in keep && j in keep
  {
    hide Kept, Place;
    i := KeptFrom(xs, keep, |xs|, a);
    j := KeptFrom(xs, keep, |xs|, b);
    PlacesAscend(xs, keep, i, j);
  }

  lemma SamePlace<S, T>(xs: seq<S>, ys: seq<T>, keep: set<nat>, i: nat)
    requires i < |xs| == |ys| && i in keep
    ensures Place(xs, keep, i) == Place(ys, keep, i) < |Kept(ys, keep, |ys|)| == |Kept(xs, keep, |xs|)|
    ensures Kept(ys, keep, |ys|)[Place(xs, keep, i)] == ys[i]
  {
    hide Kept;
    SameLength(xs, ys, keep, i);
    SameLength(xs, ys, keep, |xs|);
    KeptAt(ys, keep, i);
  }

  lemma KeptMessage(gs: seq<Field>, m: seq<Slot>, keep: set<nat>)
    requires TypedMessage(gs, m) && MessageInBounds(gs, m)
    ensures TypedMessage(Kept(gs, keep, |gs|), Kept(m, keep, |m|))
    ensures MessageInBounds(Kept(gs, keep, |gs|), Kept(m, keep, |m|))
  {
    hide Kept, Place, TypedSlot, SlotInBounds;
    var fs, n := Kept(gs, keep, |gs|), Kept(m, keep, |m|);
    SameLength(gs, m, keep, |gs|);
    forall a: nat | a < |fs| ensures TypedSlot(fs[a], n[a]) && SlotInBounds(fs[a], n[a]) {
      var i := KeptFrom(gs, keep, |gs|, a);
      SamePlace(gs, m, keep, i);
    }
    forall a: nat, b: nat | a < b < |fs| && fs[a].htype.Oneof? && fs[a].htype == fs[b].htype
      ensures n[a].Choice? && n[b].Choice? ==> !(n[a].chosen && n[b].chosen)
    {
      var i, j := KeptPair(gs, keep, a, b);
      SamePlace(gs, m, keep, i);
      SamePlace(gs, m, keep, j);
    }
  }

  lemma NotKept(gs: seq<Field>, keep: set<nat>, k: nat)
    requires GoodTable(gs) && k < |gs| && k !in keep
    ensures FieldOf(Kept(gs, keep, |gs|), gs[k].tag).None?
  {
    hide Kept, Place, FieldOf, GoodField;
    var fs := Kept(gs, keep, |gs|);
    if FieldOf(fs, gs[k].tag).Some? {
      var i := KeptFrom(gs, keep, |gs|, FieldOf(fs, gs[k].tag).value);
    }
  }

  /** The smaller table reads on as from its own message. */
  lemma {:induction false} FieldsPassed(gs: seq<Field>, m: seq<Slot>, keep: set<nat>, k: nat)
    requires GoodTable(gs) && TypedMessage(gs, m) && MessageInBounds(gs, m) && k <= |gs|
    requires |EncodedFrom(gs, m, k)| < Two32
    ensures Place(gs, keep, k) <= |Kept(gs, keep, |gs|)|
    ensures TypedMessage(Kept(gs, keep, |gs|), Kept(m, keep, |m|))
    ensures var fs, n, p := Kept(gs, keep, |gs|), Kept(m, keep, |m|), Place(gs, keep, k);
            && DecodedFields(fs, EncodedFrom(gs, m, k), ArrivingTo(fs, n, p), SentTo(fs, n, p))
               == Some((ArrivingTo(fs, n, |fs|), SentTo(fs, n, |fs|)))
            && |EncodedFrom(fs, n, p)| <= |EncodedFrom(gs, m, k)|
    decreases |gs| - k
  {
    hide GoodTable, TypedMessage, MessageInBounds, EncodedField, DecodedFields, ArrivingTo, SentTo, GoodField;
    var fs, n, p := Kept(gs, keep, |gs|), Kept(m, keep, |m|), Place(gs, keep, k);
    KeptIsGood(gs, keep);
    KeptMessage(gs, m, keep);
    KeptGrows(gs, keep, k, |gs|);
    if k == |gs| {
      NothingLeft(fs, n);
    } else {
      FieldsPassed(gs, m, keep, k + 1);
      FieldIsGood(gs, m, k);
      var rest := EncodedFrom(gs, m, k + 1);
      if k in keep {
        KeptAt(gs, keep, k);
        SamePlace(gs, m, keep, k);
        FieldReads(fs, n, p, rest);
      } else {
        NotKept(gs, keep, k);
        FieldPassed(fs, gs[k], m[k], rest, ArrivingTo(fs, n, p), SentTo(fs, n, p));
      }
    }
  }

  lemma FieldIsGood(gs: seq<Field>, m: seq<Slot>, k: nat)
    requires GoodTable(gs) && TypedMessage(gs, m) && k < |gs|
    ensures |m| == |gs| && GoodField(gs[k]) && TypedSlot(gs[k], m[k])
  {
  }

  lemma NothingLeft(fs: seq<Field>, n: seq<Slot>)
    requires TypedMessage(fs, n)
    ensures EncodedFrom(fs, n, |fs|) == []
    ensures DecodedFields(fs, [], ArrivingTo(fs, n, |fs|), SentTo(fs, n, |fs|))
            == Some((ArrivingTo(fs, n, |fs|), SentTo(fs, n, |fs|)))
  {
  }

  /** A message written under a table is read under any part of that table as if the other fields were
      absent: as what the smaller table itself would have sent. */
  lemma UnknownIsAbsent(gs: seq<Field>, m: seq<Slot>, keep: set<nat>)
    requires GoodTable(gs) && TypedMessage(gs, m) && MessageInBounds(gs, m) && |EncodedFrom(gs, m, 0)| < Two32
    ensures TypedMessage(Kept(gs, keep, |gs|), Kept(m, keep, |m|))
    ensures var fs, n := Kept(gs, keep, |gs|), Kept(m, keep, |m|);
            && DecodedNew(fs, EncodedFrom(gs, m, 0)) == DecodedNew(fs, EncodedFrom(fs, n, 0))
            && DecodedNew(fs, EncodedFrom(gs, m, 0)) == Some(ArrivingTo(fs, n, |fs|))
  {
    var fs, n := Kept(gs, keep, |gs|), Kept(m, keep, |m|);
    FieldsPassed(gs, m, keep, 0);
    KeptIsGood(gs, keep);
    KeptMessage(gs, m, keep);
    RoundTrip(fs, n);
    assert SentTo(fs, n, 0) == {};
    assert Complete(fs, SentTo(fs, n, |fs|));
  }
}
