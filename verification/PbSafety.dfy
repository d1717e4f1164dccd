/** What any bytes at all can do to a struct. */
module PbSafety {
  import opened Coding
  import opened PbTypes
  import opened PbWire
  import opened PbFormat

  // ---- Bounds ----

  /** The value fits its place in the struct: numbers their width, data its array, and a string leaves
      room for its NUL. */
  ghost predicate Within(t: LType, v: Value)
    decreases t, 2
  {
    match t
    case SignedVarint(n) => v.Int? && 0 - HalfRange(n) <= v.i < HalfRange(n)
    case ZigZag(n) => v.Int? && 0 - HalfRange(n) <= v.i < HalfRange(n)
    case UnsignedVarint(n) => v.Int? && 0 <= v.i < 2 * HalfRange(n)
    case Fixed32 => v.Int? && 0 <= v.i < 0x1_0000_0000
    case Fixed64 => v.Int? && 0 <= v.i < 0x1_0000_0000_0000_0000
    case Bytes(c) => v.Data? && |v.b| <= c
    case String(c) => v.Data? && |v.b| < c
    case FixedBytes(n) => v.Data? && |v.b| == n
    case Submessage(fs) => v.Struct? && WithinMessage(fs, v.slots)
  }

  ghost predicate WithinSlot(f: Field, s: Slot)
    decreases f, 3
  {
    match f.htype
    case Required => s.One? && Within(f.ltype, s.v)
    case Optional(has) => (if has then s.Opt? else s.One?) && Within(f.ltype, s.v)
    case Repeated(max) => s.Many? && |s.vs| <= max && forall k: nat | k < |s.vs| :: Within(f.ltype, s.vs[k])
    case Oneof(_) => s.Choice? && Within(f.ltype, s.v)
  }

  /** Every slot is within its bounds, and of a union at most one member is chosen. */
  ghost predicate WithinMessage(fs: seq<Field>, m: seq<Slot>)
    decreases fs, 4
  {
    |m| == |fs| && (forall i: nat | i < |fs| :: WithinSlot(fs[i], m[i])) && OneChosen(fs, m)
  }

  ghost predicate OneChosen(fs: seq<Field>, m: seq<Slot>)
    requires |m| == |fs|
  {
    forall i: nat, j: nat | i < j < |fs| && fs[i].htype.Oneof? && fs[i].htype == fs[j].htype ::
      !(m[i].Choice? && m[i].chosen && m[j].Choice? && m[j].chosen)
  }

  /** The defaults a table declares are values of their fields. */
  ghost predicate FitDefaults(t: LType)
    decreases t, 0
  {
    t.Submessage? ==> FitTable(t.fields)
  }

  ghost predicate FitDefault(f: Field)
    decreases f, 1
  {
    FitDefaults(f.ltype) && (f.initial.Some? ==> Within(f.ltype, f.initial.value))
  }

  ghost predicate FitTable(fs: seq<Field>)
    decreases fs, 1
  {
    forall i: nat | i < |fs| :: FitDefault(fs[i])
  }

  // ---- A fresh struct ----

  lemma {:induction false} FreshValue(t: LType)
    requires GoodType(t) && FitDefaults(t)
    ensures Within(t, Default(t))
    decreases t, 0
  {
    if t.Submessage? {
      FreshMessage(t.fields);
    }
  }

  lemma {:induction false} FreshSlot(f: Field)
    requires GoodField(f) && FitDefault(f)
    ensures WithinSlot(f, DefaultSlot(f))
    decreases f, 1
  {
    FreshValue(f.ltype);
  }

  lemma {:induction false} DefaultsAt(fs: seq<Field>, n: nat, j: nat)
    requires j < n <= |fs|
    ensures Defaults(fs, n)[j] == DefaultSlot(fs[j])
  {
    if j < n - 1 {
      DefaultsAt(fs, n - 1, j);
    }
  }

  lemma {:induction false} FreshMessage(fs: seq<Field>)
    requires GoodTable(fs) && FitTable(fs)
    ensures WithinMessage(fs, Defaults(fs, |fs|))
    decreases fs, 2
  {
    hide GoodField, FitDefault, DefaultSlot, WithinSlot;
    var m := Defaults(fs, |fs|);
    forall i: nat | i < |fs| ensures WithinSlot(fs[i], m[i]) {
      DefaultsAt(fs, |fs|, i);
      FreshSlot(fs[i]);
    }
    forall i: nat | i < |fs| ensures m[i].Choice? ==> !m[i].chosen {
      DefaultsAt(fs, |fs|, i);
      NotChosen(fs[i]);
    }
  }

  lemma NotChosen(f: Field)
    ensures DefaultSlot(f).Choice? ==> !DefaultSlot(f).chosen
  {
  }

  // ---- Numbers ----

  lemma SignedRange(s: int, n: nat)
    requires IntSize(n) && SignedOf(s % Two64, n) == s
    ensures 0 - HalfRange(n) <= s < HalfRange(n)
  {
  }

  lemma FixedRange(b: seq<byte>)
    ensures |b| == 4 ==> FixedValue(b) < Two32
    ensures |b| == 8 ==> FixedValue(b) < Two64
  {
    FixedOnto(b);
    assert Pow256(4) == Two32 && Pow256(8) == Two64;
  }

  lemma NumberWithin(t: LType, b: seq<byte>)
    requires t.Packable() && GoodType(t) && DecodedNumber(t, b).Got?
    ensures Within(t, DecodedNumber(t, b).value)
  {
    hide SignedOf, FixedValue, UnZigZagged;
    if t.Fixed32? {
      FixedRange(b[..4]);
    } else if t.Fixed64? {
      FixedRange(b[..8]);
    } else {
      var r := Varint64(b).value;
      match t
      case SignedVarint(n) => SignedRange(FromVarint(r.0, n).value, n);
      case UnsignedVarint(n) =>
      case ZigZag(n) => SignedRange(FromZigZag(r.0, n).value, n);
    }
  }

  lemma {:induction false} ItemsWithin(t: LType, b: seq<byte>, vs: seq<Value>, max: nat)
    requires t.Packable() && GoodType(t) && DecodedItems(t, b, vs, max).Some?
    requires |vs| <= max && forall k: nat | k < |vs| :: Within(t, vs[k])
    ensures var r := DecodedItems(t, b, vs, max).value;
            |r| <= max && forall k: nat | k < |r| :: Within(t, r[k])
    decreases |b|
  {
    hide DecodedNumber, Within;
    if |b| > 0 {
      NumberWithin(t, b);
      var r := DecodedNumber(t, b);
      ItemsWithin(t, r.rest, vs + [r.value], max);
    }
  }

  // ---- Fields ----

  lemma {:induction false} ValueWithin(t: LType, b: seq<byte>, before: Value)
    requires GoodType(t) && FitDefaults(t) && Decoded(t, b, before).Got?
    requires t.Submessage? ==> Within(t, before)
    ensures Within(t, Decoded(t, b, before).value)
    decreases t, 0
  {
    hide DecodedNumber, TakeString, DecodedMessage, WithinMessage;
    if t.Packable() {
      NumberWithin(t, b);
    } else if t.Submessage? {
      MessageWithin(t.fields, TakeString(b).value, before.slots);
    }
  }

  lemma {:induction false} FieldWithin(f: Field, wireType: nat, b: seq<byte>, s: Slot)
    requires GoodField(f) && FitDefault(f) && WithinSlot(f, s) && DecodedField(f, wireType, b, s).Got?
    ensures WithinSlot(f, DecodedField(f, wireType, b, s).value)
    decreases f, 1
  {
    hide Decoded, DecodedItems, TakeString, Within, FitDefaults, GoodType;
    if f.htype.Repeated? && wireType == WtString && f.ltype.Packable() {
      ItemsWithin(f.ltype, TakeString(b).value, s.vs, f.htype.max);
    } else if f.htype.Repeated? || f.htype.Oneof? {
      FreshValue(f.ltype);
      ValueWithin(f.ltype, b, Default(f.ltype));
    } else {
      ValueWithin(f.ltype, b, SlotValue(f, s));
    }
  }

  lemma PutWithin(fs: seq<Field>, m: seq<Slot>, i: nat, s: Slot)
    requires GoodTable(fs) && FitTable(fs) && WithinMessage(fs, m) && i < |fs| && WithinSlot(fs[i], s)
    ensures WithinMessage(fs, Put(fs, m, i, s))
  {
    hide GoodField, FitDefault, Within;
    var r := Put(fs, m, i, s);
    forall j: nat | j < |fs| ensures WithinSlot(fs[j], r[j]) {
      assert GoodField(fs[j]) && FitDefault(fs[j]) && WithinSlot(fs[j], m[j]);
      DefaultWithin(fs[j]);
    }
  }

  lemma DefaultWithin(f: Field)
    requires GoodField(f) && FitDefault(f)
    ensures Within(f.ltype, Default(f.ltype))
  {
    FreshValue(f.ltype);
  }

  lemma {:induction false} FieldsWithin(fs: seq<Field>, b: seq<byte>, m: seq<Slot>, seen: set<nat>)
    requires GoodTable(fs) && FitTable(fs) && WithinMessage(fs, m) && |m| == |fs|
    requires DecodedFields(fs, b, m, seen).Some?
    ensures WithinMessage(fs, DecodedFields(fs, b, m, seen).value.0)
    decreases fs, |b|
  {
    hide WithinMessage, GoodTable, FitTable, DecodedField, Skipped, Put, FieldOf, ReadTag;
    if |b| > 0 && ReadTag(b).Tag? {
      var t := ReadTag(b);
      match FieldOf(fs, t.tag)
      case None => FieldsWithin(fs, Skipped(t.wireType, t.rest).value, m, seen);
      case Some(i) =>
        var r := DecodedField(fs[i], t.wireType, t.rest, m[i]);
        OfTable(fs, m, i);
        FieldWithin(fs[i], t.wireType, t.rest, m[i]);
        PutWithin(fs, m, i, r.value);
        FieldsWithin(fs, r.rest, Put(fs, m, i, r.value), seen + {i});
    }
  }

  lemma OfTable(fs: seq<Field>, m: seq<Slot>, i: nat)
    requires GoodTable(fs) && FitTable(fs) && WithinMessage(fs, m) && i < |fs|
    ensures GoodField(fs[i]) && FitDefault(fs[i]) && WithinSlot(fs[i], m[i])
  {
  }

  lemma {:induction false} MessageWithin(fs: seq<Field>, b: seq<byte>, m: seq<Slot>)
    requires GoodTable(fs) && FitTable(fs) && WithinMessage(fs, m) && |m| == |fs| && DecodedMessage(fs, b, m).Some?
    ensures WithinMessage(fs, DecodedMessage(fs, b, m).value)
    decreases fs, |b| + 1
  {
    hide WithinMessage, GoodTable, FitTable, DecodedFields;
    FieldsWithin(fs, b, m, {});
  }

  /** Whatever bytes arrive: a message that is accepted is within the bounds of its struct at every depth,
      numbers, strings, arrays and all, and of each union at most one member is chosen. */
  lemma AcceptedIsWithin(fs: seq<Field>, b: seq<byte>)
    requires GoodTable(fs) && FitTable(fs) && DecodedNew(fs, b).Some?
    ensures WithinMessage(fs, DecodedNew(fs, b).value)
  {
    FreshMessage(fs);
    MessageWithin(fs, b, Defaults(fs, |fs|));
  }

  // ---- Fields that do not occur ----

  lemma {:induction false} OthersRest(fs: seq<Field>, b: seq<byte>, m: seq<Slot>, seen: set<nat>, i: nat)
    requires |m| == |fs| && DecodedFields(fs, b, m, seen).Some? && i < |fs|
    ensures seen <= DecodedFields(fs, b, m, seen).value.1
    ensures i !in DecodedFields(fs, b, m, seen).value.1 && !fs[i].htype.Oneof? ==>
              DecodedFields(fs, b, m, seen).value.0[i] == m[i]
    decreases |b|
  {
    hide DecodedField, Skipped, FieldOf, ReadTag;
    if |b| > 0 && ReadTag(b).Tag? {
      var t := ReadTag(b);
      match FieldOf(fs, t.tag)
      case None => OthersRest(fs, Skipped(t.wireType, t.rest).value, m, seen, i);
      case Some(k) =>
        var r := DecodedField(fs[k], t.wireType, t.rest, m[k]);
        OthersRest(fs, r.rest, Put(fs, m, k, r.value), seen + {k}, i);
    }
  }

  /** A field that does not occur in a message shows the default its table declares, or zero, or nothing. */
  lemma AbsentIsDeclared(fs: seq<Field>, b: seq<byte>, i: nat)
    requires DecodedNew(fs, b).Some? && i < |fs| && !fs[i].ltype.Submessage?
    requires i !in DecodedFields(fs, b, Defaults(fs, |fs|), {}).value.1
    ensures var f, s := fs[i], DecodedNew(fs, b).value[i];
            && (f.htype == Optional(true) ==> s.Opt? && !s.has)
            && (f.htype.Optional? ==>
                  && (s.Opt? || s.One?)
                  && (f.initial.Some? ==> s.v == f.initial.value)
                  && (f.initial.None? ==> s.v == Int(0) || (s.v.Data? && forall k | 0 <= k < |s.v.b| :: s.v.b[k] == 0)))
            && (f.htype.Repeated? ==> s.Many? && s.vs == [])
  {
    hide DecodedFields, Default;
    OthersRest(fs, b, Defaults(fs, |fs|), {}, i);
    DefaultsAt(fs, |fs|, i);
    ZeroOfType(fs[i].ltype);
  }

  lemma ZeroOfType(t: LType)
    requires !t.Submessage?
    ensures var v := Default(t); v == Int(0) || (v.Data? && forall k | 0 <= k < |v.b| :: v.b[k] == 0)
  {
  }
}
