/** When a message comes back as it was. A field without a flag of its own is sent only when a search
    finds something in it that is not zero, and the search looks at the first place of each field
    whatever its flags, counts and tags say. */
module PbFidelity {
  import opened Wrappers
  import opened PbTypes
  import opened PbWire
  import opened PbFormat
  import opened PbRoundTrip

  // ---- The same content ----

  /** The values agree in all that their flags, counts and tags show. */
  ghost predicate SameValue(t: LType, v: Value, w: Value)
    decreases t, 2
  {
    if t.Submessage? then v.Struct? && w.Struct? && SameMessage(t.fields, v.slots, w.slots) else v == w
  }

  ghost predicate SameSlot(f: Field, s: Slot, r: Slot)
    decreases f, 3
  {
    match f.htype
    case Required => s.One? && r.One? && SameValue(f.ltype, s.v, r.v)
    case Optional(has) =>
      if has then s.Opt? && r.Opt? && s.has == r.has && (s.has ==> SameValue(f.ltype, s.v, r.v))
      else s.One? && r.One? && SameValue(f.ltype, s.v, r.v)
    case Repeated(_) =>
      && s.Many? && r.Many? && |s.vs| == |r.vs|
      && forall k: nat | k < |s.vs| :: SameValue(f.ltype, s.vs[k], r.vs[k])
    case Oneof(_) => s.Choice? && r.Choice? && s.chosen == r.chosen && (s.chosen ==> SameValue(f.ltype, s.v, r.v))
  }

  ghost predicate SameMessage(fs: seq<Field>, m: seq<Slot>, r: seq<Slot>)
    decreases fs, 4
  {
    |m| == |fs| == |r| && forall i: nat | i < |fs| :: SameSlot(fs[i], m[i], r[i])
  }

  // ---- What comes back ----

  /** Wherever a field without a flag is silent it holds what it holds before anything is read. */
  ghost predicate KeptValue(t: LType, v: Value)
    requires Typed(t, v)
    decreases t, 2
  {
    t.Submessage? ==> KeptMessage(t.fields, v.slots)
  }

  ghost predicate KeptSlot(f: Field, s: Slot)
    requires TypedSlot(f, s)
    decreases f, 3
  {
    match f.htype
    case Required => KeptValue(f.ltype, s.v)
    case Optional(has) =>
      if has then s.has ==> KeptValue(f.ltype, s.v)
      else if Silent(f.ltype, s.v) then SameValue(f.ltype, s.v, Initial(f)) else KeptValue(f.ltype, s.v)
    case Repeated(_) => forall k: nat | k < |s.vs| :: KeptValue(f.ltype, s.vs[k])
    case Oneof(_) => s.chosen ==> KeptValue(f.ltype, s.v)
  }

  ghost predicate KeptMessage(fs: seq<Field>, m: seq<Slot>)
    requires TypedMessage(fs, m)
    decreases fs, 4
  {
    forall i: nat | i < |fs| :: KeptSlot(fs[i], m[i])
  }

  lemma {:induction false} ArrivingItemAt(f: Field, vs: seq<Value>, k: nat)
    requires k < |vs| && forall j: nat | j < |vs| :: Typed(f.ltype, vs[j])
    ensures ArrivingItems(f, vs)[k] == Arriving(f.ltype, vs[k])
    decreases |vs|
  {
    if k > 0 {
      ArrivingItemAt(f, vs[1..], k - 1);
    }
  }

  lemma {:induction false} ValueKept(t: LType, v: Value)
    requires Typed(t, v)
    ensures SameValue(t, v, Arriving(t, v)) <==> KeptValue(t, v)
    decreases t, 0
  {
    if t.Submessage? {
      var fs, m := t.fields, v.slots;
      forall i: nat | i < |fs|
        ensures SameSlot(fs[i], m[i], ArrivingTo(fs, m, |fs|)[i]) <==> KeptSlot(fs[i], m[i])
      {
        SlotKept(fs[i], m[i]);
        StillDefault(fs, m, |fs|, i);
      }
    }
  }

  lemma {:induction false} SlotKept(f: Field, s: Slot)
    requires TypedSlot(f, s)
    ensures SameSlot(f, s, ArrivingSlot(f, s)) <==> KeptSlot(f, s)
    decreases f, 1
  {
    hide SameValue, KeptValue, Arriving, Silent, Initial, Typed;
    if f.htype.Repeated? {
      forall k: nat | k < |s.vs|
        ensures SameValue(f.ltype, s.vs[k], ArrivingItems(f, s.vs)[k]) <==> KeptValue(f.ltype, s.vs[k])
      {
        ArrivingItemAt(f, s.vs, k);
        ValueKept(f.ltype, s.vs[k]);
      }
    } else {
      ValueKept(f.ltype, s.v);
    }
  }

  /** A message comes back with the content it had exactly when every silent field without a flag, at
      whatever depth, holds what it would hold anyway; so does each of its fields. */
  lemma ComesBackIff(fs: seq<Field>, m: seq<Slot>)
    requires GoodTable(fs) && TypedMessage(fs, m) && MessageInBounds(fs, m) && |EncodedFrom(fs, m, 0)| < Two32
    ensures DecodedNew(fs, EncodedFrom(fs, m, 0)).Some?
    ensures var r := DecodedNew(fs, EncodedFrom(fs, m, 0)).value;
            && (SameMessage(fs, m, r) <==> KeptMessage(fs, m))
            && forall i: nat | i < |fs| :: SameSlot(fs[i], m[i], r[i]) <==> KeptSlot(fs[i], m[i])
  {
    hide SameSlot, KeptSlot, ArrivingSlot, TypedSlot, MessageInBounds, GoodTable, EncodedFrom;
    RoundTrip(fs, m);
    forall i: nat | i < |fs|
      ensures SameSlot(fs[i], m[i], ArrivingTo(fs, m, |fs|)[i]) <==> KeptSlot(fs[i], m[i])
    {
      assert TypedSlot(fs[i], m[i]);
      SlotKept(fs[i], m[i]);
      StillDefault(fs, m, |fs|, i);
    }
  }

  /** A field without a flag: when it is silent its content is lost, unless it is what a struct begins
      with; when it is not, it arrives with all that is sent of it. */
  lemma FlaglessArrives(fs: seq<Field>, m: seq<Slot>, i: nat)
    requires GoodTable(fs) && TypedMessage(fs, m) && MessageInBounds(fs, m) && |EncodedFrom(fs, m, 0)| < Two32
    requires i < |fs| && fs[i].htype == Optional(false)
    ensures DecodedNew(fs, EncodedFrom(fs, m, 0)).Some? && m[i].One? && Typed(fs[i].ltype, m[i].v)
    ensures var t, v, r := fs[i].ltype, m[i].v, DecodedNew(fs, EncodedFrom(fs, m, 0)).value[i];
            && r == One(if Silent(t, v) then Initial(fs[i]) else Arriving(t, v))
            && (SameSlot(fs[i], m[i], r) <==>
                if Silent(t, v) then SameValue(t, v, Initial(fs[i])) else KeptValue(t, v))
  {
    hide MessageInBounds, GoodTable, EncodedFrom, Silent, KeptValue, Initial, Arriving, SameValue;
    RoundTrip(fs, m);
    assert TypedSlot(fs[i], m[i]);
    StillDefault(fs, m, |fs|, i);
    SlotKept(fs[i], m[i]);
  }

  // ---- Tables that lose nothing ----

  /** No submessage without a flag of its own, no declared default on a field without one. */
  ghost predicate Plain(t: LType)
    decreases t, 0
  {
    t.Submessage? ==> PlainTable(t.fields)
  }

  ghost predicate PlainField(f: Field)
    decreases f, 1
  {
    Plain(f.ltype) && (f.htype == Optional(false) ==> !f.ltype.Submessage? && f.initial.None?)
  }

  ghost predicate PlainTable(fs: seq<Field>)
    decreases fs, 1
  {
    forall i: nat | i < |fs| :: PlainField(fs[i])
  }

  /** Every message of such a table is kept, and so comes back. */
  lemma {:induction false} PlainTablesKeepAll(fs: seq<Field>, m: seq<Slot>)
    requires PlainTable(fs) && GoodTable(fs) && TypedMessage(fs, m) && MessageInBounds(fs, m)
    ensures KeptMessage(fs, m)
    decreases fs, 4
  {
    hide TypedSlot, SlotInBounds, GoodField, KeptSlot, PlainField;
    forall i: nat | i < |fs| ensures KeptSlot(fs[i], m[i]) {
      assert TypedSlot(fs[i], m[i]) && SlotInBounds(fs[i], m[i]) && GoodField(fs[i]);
      PlainSlot(fs[i], m[i]);
    }
  }

  lemma {:induction false} PlainSlot(f: Field, s: Slot)
    requires TypedSlot(f, s) && SlotInBounds(f, s) && GoodField(f) && PlainField(f)
    ensures KeptSlot(f, s)
    decreases f, 3
  {
    if f.htype.Repeated? {
      forall k: nat | k < |s.vs| ensures KeptValue(f.ltype, s.vs[k]) {
        PlainValue(f.ltype, s.vs[k]);
      }
    } else if Sent(f, s) {
      PlainValue(f.ltype, s.v);
    }
  }

  lemma {:induction false} PlainValue(t: LType, v: Value)
    requires Typed(t, v) && InBounds(t, v) && GoodType(t) && Plain(t)
    ensures KeptValue(t, v)
    decreases t, 2
  {
    if t.Submessage? {
      PlainTablesKeepAll(t.fields, v.slots);
    }
  }

  // ---- Messages that are empty ----

  /** A type without fixed-length arrays and without declared defaults, at any depth. */
  ghost predicate Zeroable(t: LType)
    decreases t, 0
  {
    !t.FixedBytes? && (t.Submessage? ==> ZeroableTable(t.fields))
  }

  ghost predicate ZeroableField(f: Field)
    decreases f, 1
  {
    Zeroable(f.ltype) && f.initial.None?
  }

  ghost predicate ZeroableTable(fs: seq<Field>)
    decreases fs, 1
  {
    forall i: nat | i < |fs| :: ZeroableField(fs[i])
  }

  lemma {:induction false} ZeroIsTyped(t: LType)
    requires Zeroable(t)
    ensures Typed(t, Default(t)) && Silent(t, Default(t))
    decreases t, 0
  {
    if t.Submessage? {
      var fs := t.fields;
      hide ZeroableField, TypedSlot, DefaultSlot;
      forall i: nat | i < |fs|
        ensures TypedSlot(fs[i], Defaults(fs, |fs|)[i]) && Silent(fs[i].ltype, Defaults(fs, |fs|)[i].Stored())
      {
        DefaultAt(fs, |fs|, i);
        ZeroSlot(fs[i]);
      }
    }
  }

  lemma {:induction false} ZeroSlot(f: Field)
    requires ZeroableField(f)
    ensures TypedSlot(f, DefaultSlot(f)) && Silent(f.ltype, DefaultSlot(f).Stored())
    ensures !f.htype.Required? ==> EncodedField(f, DefaultSlot(f)) == []
    decreases f, 1
  {
    ZeroIsTyped(f.ltype);
  }

  /** A struct at its zeros costs nothing: nothing is sent of a fresh message without required fields. */
  lemma {:induction false} FreshIsNotSent(fs: seq<Field>, i: nat)
    requires ZeroableTable(fs) && i <= |fs| && forall k: nat | k < |fs| :: !fs[k].htype.Required?
    ensures TypedMessage(fs, Defaults(fs, |fs|)) && EncodedFrom(fs, Defaults(fs, |fs|), i) == []
    decreases |fs| - i
  {
    hide ZeroableField, TypedSlot, DefaultSlot, EncodedField;
    forall k: nat | k < |fs| ensures TypedSlot(fs[k], Defaults(fs, |fs|)[k]) {
      DefaultAt(fs, |fs|, k);
      ZeroSlot(fs[k]);
    }
    if i < |fs| {
      DefaultAt(fs, |fs|, i);
      ZeroSlot(fs[i]);
      FreshIsNotSent(fs, i + 1);
    }
  }

  // ---- A message that is lost ----

  /** An array of up to two numbers inside a submessage without a flag: [0, x] is never sent. */
  lemma SilentArrayIsLost(tag: nat, x: int)
    requires 0 < tag <= TagMax && 0 < x < HalfRange(4)
    ensures
      var inner := [Field(tag, SignedVarint(4), Repeated(2), None)];
      var fs := [Field(tag, Submessage(inner), Optional(false), None)];
      var m := [One(Struct([Many([Int(0), Int(x)], Int(0))]))];
      && GoodTable(fs) && TypedMessage(fs, m) && MessageInBounds(fs, m) && EncodedFrom(fs, m, 0) == []
      && DecodedNew(fs, []) == Some([One(Struct([Many([], Int(0))]))])
  {
    var inner := [Field(tag, SignedVarint(4), Repeated(2), None)];
    var fs := [Field(tag, Submessage(inner), Optional(false), None)];
    var m := [One(Struct([Many([Int(0), Int(x)], Int(0))]))];
    assert GoodField(inner[0]) && GoodTable(inner);
    assert GoodField(fs[0]) && GoodTable(fs);
    var vs := m[0].v.slots[0].vs;
    assert forall k: nat | k < |vs| :: Typed(inner[0].ltype, vs[k]) && InBounds(inner[0].ltype, vs[k]);
    assert TypedSlot(inner[0], m[0].v.slots[0]) && SlotInBounds(inner[0], m[0].v.slots[0]);
    assert TypedSlot(fs[0], m[0]) && SlotInBounds(fs[0], m[0]);
    assert Silent(inner[0].ltype, m[0].v.slots[0].Stored());
    assert EncodedField(fs[0], m[0]) == [] == EncodedFrom(fs, m, 1);
    assert Defaults(inner, 0) == [] && Defaults(fs, 0) == [];
    assert Defaults(inner, 1) == [DefaultSlot(inner[0])] == [Many([], Int(0))];
    assert |inner| == 1 && Initial(fs[0]) == Struct(Defaults(inner, 1));
    assert Defaults(fs, 1) == [DefaultSlot(fs[0])] == [One(Struct([Many([], Int(0))]))];
    assert DecodedFields(fs, [], Defaults(fs, 1), {}) == Some((Defaults(fs, 1), {}));
  }
}
