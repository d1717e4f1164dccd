/** The bytes of a message, and what bytes decode to. */
module PbFormat {
  import opened Wrappers
  import opened Coding
  import opened PbTypes
  import opened PbWire

  // ---- Encoding ----

  /** A C string: up to the first NUL, within the array. */
  function CString(b: seq<byte>, capacity: nat): seq<byte> {
    if |b| == 0 || capacity == 0 || b[0] == 0 then [] else [b[0]] + CString(b[1..], capacity - 1)
  }

  /** The value has the shape of its type. */
  ghost predicate Typed(t: LType, v: Value)
    decreases t, 2
  {
    match t
    case Bytes(_) => v.Data?
    case String(_) => v.Data?
    case FixedBytes(n) => v.Data? && |v.b| == n
    case Submessage(fs) => v.Struct? && TypedMessage(fs, v.slots)
    case Fixed32 => v.Int? && 0 <= v.i < Two32
    case Fixed64 => v.Int? && 0 <= v.i < Two64
    case UnsignedVarint(n) => v.Int? && 0 <= v.i < 2 * HalfRange(n)
    case SignedVarint(n) => v.Int? && 0 - HalfRange(n) <= v.i < HalfRange(n)
    case ZigZag(n) => v.Int? && 0 - HalfRange(n) <= v.i < HalfRange(n)
  }

  ghost predicate TypedSlot(f: Field, s: Slot)
    decreases f, 3
  {
    match f.htype
    case Required => s.One? && Typed(f.ltype, s.v)
    case Optional(has) => if has then s.Opt? && Typed(f.ltype, s.v) else s.One? && Typed(f.ltype, s.v)
    case Repeated(_) => s.Many? && Typed(f.ltype, s.spare) && forall k: nat | k < |s.vs| :: Typed(f.ltype, s.vs[k])
    case Oneof(_) => s.Choice? && Typed(f.ltype, s.v)
  }

  ghost predicate TypedMessage(fs: seq<Field>, m: seq<Slot>)
    decreases fs, 4
  {
    |m| == |fs| && forall i: nat | i < |fs| :: TypedSlot(fs[i], m[i])
  }

  function Encoded(t: LType, v: Value): seq<byte>
    requires Typed(t, v)
    decreases t, 0
  {
    match t
    case SignedVarint(_) => Varint(Unsigned64(v.i))
    case UnsignedVarint(_) => Varint(v.i)
    case ZigZag(_) => Varint(ZigZagged(v.i))
    case Fixed32 => Fixed(4, v.i)
    case Fixed64 => Fixed(8, v.i)
    case Bytes(_) => Varint(|v.b|) + v.b
    case String(c) => var s := CString(v.b, c); Varint(|s|) + s
    case FixedBytes(n) => Varint(n) + v.b
    case Submessage(fs) => var e := EncodedFrom(fs, v.slots, 0); Varint(|e|) + e
  }

  /** The items of a packed array, or of an unpacked one, each behind the field's tag. */
  function Items(f: Field, vs: seq<Value>, packed: bool): seq<byte>
    requires forall k: nat | k < |vs| :: Typed(f.ltype, vs[k])
    decreases f, 1, |vs|
  {
    if |vs| == 0 then []
    else
      (if packed then [] else TagBytes(WireType(f.ltype), f.tag)) + Encoded(f.ltype, vs[0]) + Items(f, vs[1..], packed)
  }

  /** A value a field without a flag of its own does not send: zero, nothing, or a submessage in whose
      storage every field's first place holds such a value, whatever its flags, counts and tags say. */
  predicate Silent(t: LType, v: Value)
    decreases t
  {
    match v
    case Int(i) => i == 0
    case Data(b) => |b| == 0 || (t.String? && b[0] == 0)
    case Struct(m) =>
      t.Submessage? && |m| == |t.fields| && forall i | 0 <= i < |m| :: Silent(t.fields[i].ltype, m[i].Stored())
  }

  function EncodedField(f: Field, s: Slot): seq<byte>
    requires TypedSlot(f, s)
    decreases f, 2
  {
    var tag := TagBytes(WireType(f.ltype), f.tag);
    match f.htype
    case Required => tag + Encoded(f.ltype, s.v)
    case Optional(has) =>
      if (if has then s.has else !Silent(f.ltype, s.v)) then tag + Encoded(f.ltype, s.v) else []
    case Repeated(_) =>
      if |s.vs| == 0 then []
      else if f.ltype.Packable() then
        var items := Items(f, s.vs, true);
        TagBytes(WtString, f.tag) + Varint(|items|) + items
      else Items(f, s.vs, false)
    case Oneof(_) => if s.chosen then tag + Encoded(f.ltype, s.v) else []
  }

  /** The fields from the i-th on. */
  function EncodedFrom(fs: seq<Field>, m: seq<Slot>, i: nat): seq<byte>
    requires TypedMessage(fs, m) && i <= |fs|
    decreases fs, |fs| - i
  {
    if i == |fs| then [] else EncodedField(fs[i], m[i]) + EncodedFrom(fs, m, i + 1)
  }

  // ---- Decoding ----

  /** A value and how much of the input it took. */
  datatype Read<T> = Fail | Got(value: T, rest: seq<byte>)

  function TakeBytes(b: seq<byte>, n: nat): Read<seq<byte>> {
    if n <= |b| then Got(b[..n], b[n..]) else Fail
  }

  /** As many bytes as a 32-bit length in front of them says. */
  function TakeString(b: seq<byte>): (r: Read<seq<byte>>)
    ensures r.Got? ==> |r.rest| < |b|
  {
    VarintLength(b, 5);
    match Varint32(b)
    case None => Fail
    case Some(r) => TakeBytes(b[r.1..], r.0)
  }

  function AsInt(o: Option<int>, rest: seq<byte>): Read<Value> {
    match o case None => Fail case Some(i) => Got(Int(i), rest)
  }

  /** A number of the field's type. */
  function DecodedNumber(t: LType, b: seq<byte>): (r: Read<Value>)
    requires t.Packable()
    ensures r.Got? ==> |r.rest| < |b|
  {
    if t.Fixed32? then (if |b| >= 4 then Got(Int(FixedValue(b[..4])), b[4..]) else Fail)
    else if t.Fixed64? then (if |b| >= 8 then Got(Int(FixedValue(b[..8])), b[8..]) else Fail)
    else
      VarintLength(b, 10);
      match Varint64(b)
      case None => Fail
      case Some(r) =>
        var rest := b[r.1..];
        match t
        case SignedVarint(n) => AsInt(FromVarint(r.0, n), rest)
        case UnsignedVarint(n) => AsInt(FromUnsigned(r.0, n), rest)
        case ZigZag(n) => AsInt(FromZigZag(r.0, n), rest)
  }

  /** A value of the field's type. A submessage adds to what `before` holds. */
  function Decoded(t: LType, b: seq<byte>, before: Value): (r: Read<Value>)
    ensures r.Got? ==> |r.rest| < |b|
    decreases t, 0
  {
    if t.Packable() then DecodedNumber(t, b)
    else
      match TakeString(b)
      case Fail => Fail
      case Got(s, rest) =>
        match t
        case Bytes(c) => if |s| <= SizeMax && |s| <= c then Got(Data(s), rest) else Fail
        case String(c) => if |s| < c then Got(Data(s), rest) else Fail
        case FixedBytes(n) =>
          if |s| > SizeMax then Fail
          else if |s| == 0 then Got(Data(Zeros(n)), rest)
          else if |s| == n then Got(Data(s), rest) else Fail
        case Submessage(fs) =>
          if !before.Struct? || |before.slots| != |fs| then Fail
          else
            match DecodedMessage(fs, s, before.slots)
            case None => Fail
            case Some(m) => Got(Struct(m), rest)
  }

  /** A packed array: items until nothing is left, as long as there is room. */
  function DecodedItems(t: LType, b: seq<byte>, vs: seq<Value>, max: nat): Option<seq<Value>>
    requires t.Packable()
    decreases |b|
  {
    if |b| == 0 then Some(vs)
    else if |vs| >= max then None
    else
      match DecodedNumber(t, b)
      case Fail => None
      case Got(v, rest) => DecodedItems(t, rest, vs + [v], max)
  }

  /** One occurrence of a field. The wire type matters only to arrays of numbers. */
  function DecodedField(f: Field, wireType: nat, b: seq<byte>, s: Slot): (r: Read<Slot>)
    ensures r.Got? ==> |r.rest| < |b|
    decreases f, 1
  {
    match f.htype
    case Required => WithSlot(Decoded(f.ltype, b, SlotValue(f, s)), v => One(v))
    case Optional(has) => WithSlot(Decoded(f.ltype, b, SlotValue(f, s)), v => if has then Opt(true, v) else One(v))
    case Oneof(_) => WithSlot(Decoded(f.ltype, b, Default(f.ltype)), v => Choice(true, v))
    case Repeated(max) =>
      if !s.Many? then Fail
      else if wireType == WtString && f.ltype.Packable() then
        match TakeString(b)
        case Fail => Fail
        case Got(items, rest) =>
          (match DecodedItems(f.ltype, items, s.vs, max)
           case None => Fail
           case Some(vs) => Got(Many(vs, s.spare), rest))
      else if |s.vs| >= max then Fail
      else WithSlot(Decoded(f.ltype, b, Default(f.ltype)), v => Many(s.vs + [v], s.spare))
  }

  function WithSlot(r: Read<Value>, make: Value -> Slot): Read<Slot> {
    match r case Fail => Fail case Got(v, rest) => Got(make(v), rest)
  }

  /** What a slot holds now. */
  function SlotValue(f: Field, s: Slot): Value {
    match s case One(v) => v case Opt(_, v) => v case Choice(_, v) => v case Many(_, _) => Default(f.ltype)
  }

  /** A decoded slot takes its place; the other members of its union are chosen no longer. */
  function Put(fs: seq<Field>, m: seq<Slot>, i: nat, s: Slot): (r: seq<Slot>)
    requires |m| == |fs| && i < |fs|
    ensures |r| == |fs| && r[i] == s
  {
    seq(|fs|, j requires 0 <= j < |fs| =>
      if j == i then s
      else if fs[i].htype.Oneof? && fs[j].htype == fs[i].htype then Choice(false, Default(fs[j].ltype))
      else m[j])
  }

  /** The field with this tag. */
  function FieldOf(fs: seq<Field>, tag: nat): (r: Option<nat>)
    ensures r.Some? ==> r.value < |fs| && fs[r.value].tag == tag
    ensures r.None? ==> forall j | 0 <= j < |fs| :: fs[j].tag != tag
  {
    if |fs| == 0 then None
    else if fs[|fs| - 1].tag == tag then Some(|fs| - 1)
    else FieldOf(fs[..|fs| - 1], tag)
  }

  /** What follows a field nobody knows. */
  function Skipped(wireType: nat, b: seq<byte>): (r: Option<seq<byte>>)
    ensures r.Some? ==> |r.value| <= |b|
    decreases |b|
  {
    if wireType == WtVarint then SkippedVarint(b)
    else if wireType == Wt64 then (if |b| >= 8 then Some(b[8..]) else None)
    else if wireType == Wt32 then (if |b| >= 4 then Some(b[4..]) else None)
    else if wireType == WtString then (match TakeString(b) case Fail => None case Got(_, rest) => Some(rest))
    else None
  }

  /** A varint to be passed over may be of any length. */
  function SkippedVarint(b: seq<byte>): (r: Option<seq<byte>>)
    ensures r.Some? ==> |r.value| < |b|
  {
    if |b| == 0 then None else if b[0] < 128 then Some(b[1..]) else SkippedVarint(b[1..])
  }

  /** The fields of a message, and which of the table's fields occurred. */
  function DecodedFields(fs: seq<Field>, b: seq<byte>, m: seq<Slot>, seen: set<nat>): (r: Option<(seq<Slot>, set<nat>)>)
    requires |m| == |fs|
    ensures r.Some? ==> |r.value.0| == |fs|
    decreases fs, |b|
  {
    if |b| == 0 then Some((m, seen))
    else
      match ReadTag(b)
      case Eof => Some((m, seen))
      case Bad => None
      case Tag(wireType, tag, rest) =>
        match FieldOf(fs, tag)
        case None =>
          (match Skipped(wireType, rest)
           case None => None
           case Some(next) => DecodedFields(fs, next, m, seen))
        case Some(i) =>
          match DecodedField(fs[i], wireType, rest, m[i])
          case Fail => None
          case Got(s, next) => DecodedFields(fs, next, Put(fs, m, i, s), seen + {i})
  }

  /** Every required field occurred. */
  predicate Complete(fs: seq<Field>, seen: set<nat>) {
    forall i | 0 <= i < |fs| && fs[i].htype.Required? :: i in seen
  }

  /** A message read into what a struct holds. */
  function DecodedMessage(fs: seq<Field>, b: seq<byte>, m: seq<Slot>): (r: Option<seq<Slot>>)
    requires |m| == |fs|
    ensures r.Some? ==> |r.value| == |fs|
    decreases fs, |b| + 1
  {
    match DecodedFields(fs, b, m, {})
    case None => None
    case Some(r) => if Complete(fs, r.1) then Some(r.0) else None
  }

  /** A message read into a fresh struct. */
  function DecodedNew(fs: seq<Field>, b: seq<byte>): Option<seq<Slot>> {
    DecodedMessage(fs, b, Defaults(fs, |fs|))
  }
}
