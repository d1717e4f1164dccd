/** Messages read from a stream into a struct in place. */
module PbMessage {
  import opened Wrappers
  import opened Coding
  import opened PbTypes
  import opened PbWire
  import opened PbFormat
  import opened PbDecode
  import opened PbRequired
  import PbIter

  // ---- Values ----

  method DecodeNumber(s: IStream, t: LType) returns (ok: bool, v: Value)
    requires s.Valid() && t.Packable()
    modifies s
    ensures s.Valid() && s.End() == old(s.End())
    ensures DecodedNumber(t, old(s.Rest())) == if ok then Got(v, s.Rest()) else Fail
  {
    hide ReadVarint;
    v := Int(0);
    if t.Fixed32? || t.Fixed64? {
      var data;
      ok, data := s.Read(if t.Fixed32? then 4 else 8);
      v := Int(FixedValue(data));
    } else {
      var u: nat;
      ok, u := s.DecodeVarint();
      if ok {
        var i := match t
          case SignedVarint(n) => FromVarint(u, n)
          case UnsignedVarint(n) => FromUnsigned(u, n)
          case ZigZag(n) => FromZigZag(u, n);
        match i {
          case None => ok := false;
          case Some(k) => v := Int(k);
        }
      }
    }
  }

  method DecodeData(s: IStream, t: LType) returns (ok: bool, v: Value)
    requires s.Valid() && (t.Bytes? || t.String? || t.FixedBytes?)
    modifies s
    ensures s.Valid() && s.End() == old(s.End())
    ensures Decoded(t, old(s.Rest()), Int(0)) == if ok then Got(v, s.Rest()) else Fail
  {
    hide ReadVarint;
    v := Data([]);
    var size: nat, data: seq<byte>;
    ok, size := s.DecodeVarint32();
    if ok {
      if size > SizeMax && !t.String? {
        ok := false;
      } else if t.FixedBytes? && size == 0 {
        v := Data(Zeros(t.length));
      } else if (match t case Bytes(c) => size > c case String(c) => size >= c case FixedBytes(n) => size != n) {
        ok := false;
      } else {
        ok, data := s.Read(size);
        v := Data(data);
      }
    }
  }

  method DecodeValue(s: IStream, t: LType, before: Value) returns (ok: bool, v: Value)
    requires s.Valid() && GoodType(t) && (t.Submessage? ==> Countable(t.fields))
    modifies s
    ensures s.Valid() && s.End() == old(s.End())
    ensures Decoded(t, old(s.Rest()), before) == if ok then Got(v, s.Rest()) else Fail
    decreases t, 1
  {
    if t.Packable() {
      ok, v := DecodeNumber(s, t);
    } else if t.Submessage? {
      ok, v := DecodeSubmessage(s, t.fields, before);
    } else {
      ok, v := DecodeData(s, t);
    }
  }

  /** A submessage in place. Only a struct of the message's own type can be in its place. */
  method DecodeSubmessage(s: IStream, fs: seq<Field>, before: Value) returns (ok: bool, v: Value)
    requires s.Valid() && GoodTable(fs) && Countable(fs)
    modifies s
    ensures s.Valid() && s.End() == old(s.End())
    ensures Decoded(Submessage(fs), old(s.Rest()), before) == if ok then Got(v, s.Rest()) else Fail
    decreases fs, 6
  {
    hide TakeString, DecodedMessage;
    v := before;
    var sub;
    ghost var end := s.End();
    ok, sub := s.MakeStringSubstream();
    if ok {
      var status := before.Struct? && |before.slots| == |fs|;
      if status {
        var dest := new Slot[|fs|](i requires 0 <= i < |fs| => before.slots[i]);
        assert dest[..] == before.slots;
        status := DecodeNoInit(sub, fs, dest);
        v := Struct(dest[..]);
      }
      s.CloseStringSubstream(sub);
      ok := status;
    }
  }

  // ---- Fields ----

  /** A packed array, until the bytes or the room run out. */
  method DecodeItems(sub: IStream, t: LType, before: seq<Value>, max: nat) returns (status: bool, vs: seq<Value>)
    requires sub.Valid() && t.Packable()
    modifies sub
    ensures sub.Valid() && sub.End() == old(sub.End())
    ensures DecodedItems(t, old(sub.Rest()), before, max) == if status && sub.bytesLeft == 0 then Some(vs) else None
  {
    hide DecodedNumber;
    ghost var b := sub.Rest();
    vs, status := before, true;
    while status && sub.bytesLeft > 0 && |vs| < max
      invariant sub.Valid() && sub.End() == old(sub.End())
      invariant status ==> DecodedItems(t, sub.Rest(), vs, max) == DecodedItems(t, b, before, max)
      invariant !status ==> DecodedItems(t, b, before, max) == None
      decreases status, sub.bytesLeft
    {
      var v;
      status, v := DecodeNumber(sub, t);
      if status {
        vs := vs + [v];
      }
    }
  }

  method DecodeField(s: IStream, f: Field, wireType: nat, before: Slot) returns (ok: bool, slot: Slot)
    requires s.Valid() && GoodType(f.ltype) && CountableField(f)
    modifies s
    ensures s.Valid() && s.End() == old(s.End())
    ensures DecodedField(f, wireType, old(s.Rest()), before) == if ok then Got(slot, s.Rest()) else Fail
    decreases f, 2
  {
    hide TakeString, Decoded, DecodedItems;
    slot := before;
    var v;
    match f.htype {
      case Required =>
        ok, v := DecodeValue(s, f.ltype, SlotValue(f, before));
        slot := One(v);
      case Optional(has) =>
        ok, v := DecodeValue(s, f.ltype, SlotValue(f, before));
        slot := if has then Opt(true, v) else One(v);
      case Oneof(_) =>
        ok, v := DecodeValue(s, f.ltype, Default(f.ltype));
        slot := Choice(true, v);
      case Repeated(max) =>
        ok := before.Many?;
        if ok && wireType == WtString && f.ltype.Packable() {
          var sub, vs;
          ok, sub := s.MakeStringSubstream();
          if ok {
            ok, vs := DecodeItems(sub, f.ltype, before.vs, max);
            ok := ok && sub.bytesLeft == 0;
            s.CloseStringSubstream(sub);
            slot := Many(vs, before.spare);
          }
        } else if ok {
          ok := |before.vs| < max;
          if ok {
            ok, v := DecodeValue(s, f.ltype, Default(f.ltype));
            slot := Many(before.vs + [v], before.spare);
          }
        }
    }
  }

  /** A slot takes its place in the struct, over whatever the union held. */
  method Store(fs: seq<Field>, dest: array<Slot>, i: nat, slot: Slot)
    requires dest.Length == |fs| && i < |fs|
    modifies dest
    ensures dest[..] == Put(fs, old(dest[..]), i, slot)
  {
    if fs[i].htype.Oneof? {
      forall j | 0 <= j < dest.Length && fs[j].htype == fs[i].htype {
        dest[j] := Choice(false, Default(fs[j].ltype));
      }
    }
    dest[i] := slot;
  }

  // ---- Messages ----

  /** All fields of a message, read over what the struct holds. */
  method DecodeNoInit(s: IStream, fs: seq<Field>, dest: array<Slot>) returns (ok: bool)
    requires s.Valid() && GoodTable(fs) && Countable(fs) && dest.Length == |fs|
    modifies s, dest
    ensures s.Valid() && s.End() == old(s.End())
    ensures DecodedMessage(fs, old(s.Rest()), old(dest[..])) == if ok then Some(dest[..]) else None
    decreases fs, 5
  {
    hide DecodedFields;
    ghost var seen: set<nat> := {};
    var words := [seq(32, _ => false), seq(32, _ => false)];
    var iter := new PbIter.FieldIter(Descriptors(fs));
    ok, words, seen := DecodeFields(s, fs, dest, iter, words);
    if ok {
      var count := CountRequired(fs, iter);
      CheckIsComplete(fs, seen, words);
      ok := PbIter.AllSeen(words, count);
    }
  }

  /** The number of required fields, from wherever the iterator stands: the index at the last field,
      and one more if that field is required itself. */
  method CountRequired(fs: seq<Field>, iter: PbIter.FieldIter) returns (count: nat)
    requires iter.Valid() && iter.fields == Descriptors(fs)
    modifies iter
    ensures iter.Valid() && count == Index(fs, |fs|)
  {
    count := 0;
    var more := |fs| > 0;
    while more
      invariant iter.Valid() && iter.fields == Descriptors(fs)
      invariant !more ==> count == Index(fs, |fs|)
      invariant |fs| == 0 ==> !more
      decreases more, |fs| - iter.pos
    {
      var last := iter.pos;
      count := iter.requiredIndex;
      more := iter.Next();
      if !more && fs[last].htype.Required? {
        count := count + 1;
      }
    }
  }

  /** One field of the input behind its tag: read or passed over. */
  ghost function FieldTaken(fs: seq<Field>, wireType: nat, tag: nat, b: seq<byte>, m: seq<Slot>, seen: set<nat>)
    : (r: Option<(seq<byte>, seq<Slot>, set<nat>)>)
    requires |m| == |fs|
    ensures r.Some? ==> |r.value.0| <= |b| && |r.value.1| == |fs|
  {
    match FieldOf(fs, tag)
    case None => (match Skipped(wireType, b) case None => None case Some(next) => Some((next, m, seen)))
    case Some(i) =>
      match DecodedField(fs[i], wireType, b, m[i])
      case Fail => None
      case Got(s, next) => Some((next, Put(fs, m, i, s), seen + {i}))
  }

  lemma FieldsFrom(fs: seq<Field>, b: seq<byte>, m: seq<Slot>, seen: set<nat>)
    requires |m| == |fs| && |b| > 0 && ReadTag(b).Tag?
    ensures var t := ReadTag(b);
            DecodedFields(fs, b, m, seen) == match FieldTaken(fs, t.wireType, t.tag, t.rest, m, seen)
                                             case None => None
                                             case Some(r) => DecodedFields(fs, r.0, r.1, r.2)
  {
    hide ReadTag, FieldOf, Skipped, DecodedField, Put;
  }

  method TakeField(s: IStream, fs: seq<Field>, dest: array<Slot>, iter: PbIter.FieldIter,
                   wireType: nat, tag: nat, before: seq<seq<bool>>, ghost was: set<nat>)
    returns (ok: bool, words: seq<seq<bool>>, ghost seen: set<nat>)
    requires s.Valid() && GoodTable(fs) && Countable(fs) && dest.Length == |fs|
    requires iter.Valid() && iter.fields == Descriptors(fs) && PbIter.Holds(before, Flags(fs, was))
    modifies s, dest, iter
    ensures s.Valid() && s.End() == old(s.End()) && iter.Valid()
    ensures FieldTaken(fs, wireType, tag, old(s.Rest()), old(dest[..]), was)
            == if ok then Some((s.Rest(), dest[..], seen)) else None
    ensures PbIter.Holds(words, Flags(fs, seen))
    decreases fs, 3
  {
    hide FieldOf, Skipped, DecodedField, Put, Flags, PbIter.Holds, PbIter.RequiredBefore, Descriptors;
    words, seen := before, was;
    var found := iter.Find(tag);
    if !found {
      NotFoundIsNone(fs, tag);
      ok := s.SkipField(wireType);
    } else {
      var i := iter.pos;
      FoundIsFieldOf(fs, tag, i);
      SeenIsFlagged(fs, seen, words, i);
      if fs[i].htype.Required? && iter.requiredIndex < 64 {
        words := PbIter.SetBit(words, iter.requiredIndex);
      }
      seen := seen + {i};
      var slot;
      ok, slot := DecodeField(s, fs[i], wireType, dest[i]);
      if ok {
        Store(fs, dest, i, slot);
      }
    }
  }

  /** The loop over the fields of the input. */
  method DecodeFields(s: IStream, fs: seq<Field>, dest: array<Slot>, iter: PbIter.FieldIter, none: seq<seq<bool>>)
    returns (ok: bool, words: seq<seq<bool>>, ghost seen: set<nat>)
    requires s.Valid() && GoodTable(fs) && Countable(fs) && dest.Length == |fs|
    requires iter.Valid() && iter.fields == Descriptors(fs) && PbIter.Holds(none, {})
    modifies s, dest, iter
    ensures s.Valid() && s.End() == old(s.End()) && iter.Valid()
    ensures DecodedFields(fs, old(s.Rest()), old(dest[..]), {}) == if ok then Some((dest[..], seen)) else None
    ensures ok ==> PbIter.Holds(words, Flags(fs, seen))
    decreases fs, 4
  {
    hide DecodedFields, FieldTaken, Flags, PbIter.Holds, ReadTag, GoodTable, Countable, Descriptors;
    ghost var b, m := s.Rest(), dest[..];
    words, seen, ok := none, {}, true;
    NoFlags(fs);
    var eof := false;
    while ok && !eof && s.bytesLeft > 0
      invariant s.Valid() && s.End() == old(s.End()) && iter.Valid()
      invariant PbIter.Holds(words, Flags(fs, seen))
      invariant !ok ==> DecodedFields(fs, b, m, {}) == None
      invariant ok && eof ==> DecodedFields(fs, b, m, {}) == Some((dest[..], seen))
      invariant ok && !eof ==> DecodedFields(fs, b, m, {}) == DecodedFields(fs, s.Rest(), dest[..], seen)
      decreases ok, !eof, s.bytesLeft
    {
      var wireType: nat, tag: nat;
      FieldsEnd(fs, s.Rest(), dest[..], seen);
      ghost var here, slots := s.Rest(), dest[..];
      ok, wireType, tag, eof := s.DecodeTag();
      if ok {
        FieldsFrom(fs, here, slots, seen);
        ok, words, seen := TakeField(s, fs, dest, iter, wireType, tag, words, seen);
      } else {
        ok := eof;
      }
    }
    FieldsEnd(fs, s.Rest(), dest[..], seen);
  }

  lemma FieldsEnd(fs: seq<Field>, b: seq<byte>, m: seq<Slot>, seen: set<nat>)
    requires |m| == |fs|
    ensures |b| == 0 || ReadTag(b).Eof? ==> DecodedFields(fs, b, m, seen) == Some((m, seen))
    ensures |b| > 0 && ReadTag(b).Bad? ==> DecodedFields(fs, b, m, seen) == None
  {
    hide ReadTag;
  }

  lemma NoFlags(fs: seq<Field>)
    ensures Flags(fs, {}) == {}
  {
  }

  /** A message read over the defaults. */
  method Decode(s: IStream, fs: seq<Field>, dest: array<Slot>) returns (ok: bool)
    requires s.Valid() && GoodTable(fs) && Countable(fs) && dest.Length == |fs|
    modifies s, dest
    ensures s.Valid() && s.End() == old(s.End())
    ensures DecodedNew(fs, old(s.Rest())) == if ok then Some(dest[..]) else None
  {
    hide DecodedMessage;
    SetDefaults(fs, dest);
    ok := DecodeNoInit(s, fs, dest);
  }

  method SetDefaults(fs: seq<Field>, dest: array<Slot>)
    requires dest.Length == |fs|
    modifies dest
    ensures dest[..] == Defaults(fs, |fs|)
  {
    for i := 0 to |fs|
      invariant dest[..i] == Defaults(fs, i)
    {
      dest[i] := DefaultSlot(fs[i]);
    }
    assert dest[..|fs|] == dest[..];
  }
}
