/** Message tables and the values they describe. */
module PbTypes {
  import opened Wrappers
  import opened Coding

  /** The largest value of pb_size_t, which PB_FIELD_32BIT makes four bytes wide. */
  const SizeMax: nat := 0xFFFF_FFFF

  /** The largest field number: a tag and its wire type share 32 bits. */
  const TagMax: nat := 0x1FFF_FFFF

  /** How a field's data is stored and put on the wire. Integer sizes are in bytes, capacities are
      those of the arrays in the C struct. */
  datatype LType =
    | SignedVarint(size: nat)
    | UnsignedVarint(size: nat)
    | ZigZag(size: nat)
    | Fixed32
    | Fixed64
    | Bytes(capacity: nat)
    | String(capacity: nat)
    | Submessage(fields: seq<Field>)
    | FixedBytes(length: nat)
  {
    predicate Packable() { SignedVarint? || UnsignedVarint? || ZigZag? || Fixed32? || Fixed64? }
  }

  /** How often a field occurs. `has` says whether an optional field has a flag of its own; fields of
      one group share a union. */
  datatype HType = Required | Optional(has: bool) | Repeated(max: nat) | Oneof(group: nat)

  /** `initial` is a default value the table declares. */
  datatype Field = Field(tag: nat, ltype: LType, htype: HType, initial: Option<Value>)

  datatype Value = Int(i: int) | Data(b: seq<byte>) | Struct(slots: seq<Slot>)

  /** A field's place in the struct. Storage holds something even where no flag, count or tag says so:
      an absent optional value, the first place of an empty array (`spare`), and what a union reads as
      through a member that is not chosen. */
  datatype Slot =
    | One(v: Value)
    | Opt(has: bool, v: Value)
    | Many(vs: seq<Value>, spare: Value)
    | Choice(chosen: bool, v: Value)
  {
    /** What the field's first place in the struct holds. */
    function Stored(): Value {
      match this
      case One(v) => v
      case Opt(_, v) => v
      case Many(vs, spare) => if |vs| > 0 then vs[0] else spare
      case Choice(_, v) => v
    }
  }

  // ---- Tables ----

  predicate IntSize(n: nat) { n == 1 || n == 2 || n == 4 || n == 8 }

  ghost predicate GoodType(t: LType)
    decreases t, 0
  {
    match t
    case SignedVarint(n) => IntSize(n)
    case UnsignedVarint(n) => IntSize(n)
    case ZigZag(n) => IntSize(n)
    case Bytes(c) => c <= SizeMax
    case String(c) => 0 < c <= SizeMax
    case FixedBytes(n) => 0 < n <= SizeMax
    case Submessage(fs) => GoodTable(fs)
    case _ => true
  }

  /** Tags are distinct, positive and fit their type. */
  ghost predicate GoodTable(fs: seq<Field>)
    decreases fs, 1
  {
    && (forall i: nat, j: nat | i < j < |fs| :: fs[i].tag != fs[j].tag)
    && forall i: nat | i < |fs| :: GoodField(fs[i])
  }

  ghost predicate GoodField(f: Field)
    decreases f, 1
  {
    && 0 < f.tag <= TagMax && GoodType(f.ltype)
    && (f.htype.Repeated? ==> f.htype.max <= SizeMax)
  }

  // ---- Defaults ----

  function Zeros(n: nat): seq<byte> { seq(n, _ => 0) }

  function Default(t: LType): Value
    decreases t, 0
  {
    match t
    case Bytes(_) => Data([])
    case String(_) => Data([])
    case FixedBytes(n) => Data(Zeros(n))
    case Submessage(fs) => Struct(Defaults(fs, |fs|))
    case _ => Int(0)
  }

  /** What a field holds before anything is read: its declared default or zeros, and in a submessage
      the defaults of its fields. */
  function Initial(f: Field): Value
    decreases f, 0
  {
    if f.ltype.Submessage? || f.initial.None? then Default(f.ltype) else f.initial.value
  }

  function DefaultSlot(f: Field): Slot
    decreases f, 1
  {
    match f.htype
    case Required => One(Initial(f))
    case Optional(has) => if has then Opt(false, Initial(f)) else One(Initial(f))
    case Repeated(_) => Many([], Default(f.ltype))
    case Oneof(_) => Choice(false, Default(f.ltype))
  }

  function Defaults(fs: seq<Field>, n: nat): (m: seq<Slot>)
    requires n <= |fs|
    ensures |m| == n
    decreases fs, n
  {
    if n == 0 then [] else Defaults(fs, n - 1) + [DefaultSlot(fs[n - 1])]
  }

  // ---- Values in bounds ----

  /** Half the range of an integer of this many bytes. */
  function HalfRange(size: nat): (r: nat)
    ensures r > 0
  {
    if size == 1 then 0x80 else if size == 2 then 0x8000 else if size == 4 then 0x8000_0000 else 0x8000_0000_0000_0000
  }

  ghost predicate InBounds(t: LType, v: Value)
    decreases t, 2
  {
    match t
    case SignedVarint(n) => v.Int? && 0 - HalfRange(n) <= v.i < HalfRange(n)
    case ZigZag(n) => v.Int? && 0 - HalfRange(n) <= v.i < HalfRange(n)
    case UnsignedVarint(n) => v.Int? && 0 <= v.i < 2 * HalfRange(n)
    case Fixed32 => v.Int? && 0 <= v.i < 0x1_0000_0000
    case Fixed64 => v.Int? && 0 <= v.i < 0x1_0000_0000_0000_0000
    case Bytes(c) => v.Data? && |v.b| <= c
    case String(c) => v.Data? && |v.b| < c && forall k | 0 <= k < |v.b| :: v.b[k] != 0
    case FixedBytes(n) => v.Data? && |v.b| == n
    case Submessage(fs) => v.Struct? && MessageInBounds(fs, v.slots)
  }

  ghost predicate SlotInBounds(f: Field, s: Slot)
    decreases f, 3
  {
    match f.htype
    case Required => s.One? && InBounds(f.ltype, s.v)
    case Optional(has) => if has then s.Opt? && (s.has ==> InBounds(f.ltype, s.v)) else s.One? && InBounds(f.ltype, s.v)
    case Repeated(max) => s.Many? && |s.vs| <= max && forall k: nat | k < |s.vs| :: InBounds(f.ltype, s.vs[k])
    case Oneof(_) => s.Choice? && (s.chosen ==> InBounds(f.ltype, s.v))
  }

  /** Every slot is in bounds, and of a union at most one member is chosen. */
  ghost predicate MessageInBounds(fs: seq<Field>, m: seq<Slot>)
    decreases fs, 4
  {
    && |m| == |fs|
    && (forall i: nat | i < |fs| :: SlotInBounds(fs[i], m[i]))
    && forall i: nat, j: nat | i < j < |fs| && fs[i].htype.Oneof? && fs[i].htype == fs[j].htype ::
         m[i].Choice? && m[j].Choice? ==> !(m[i].chosen && m[j].chosen)
  }
}
