/** The decoder: an input stream, and messages read from it into a struct field by field. */
module PbDecode {
  import opened Wrappers
  import opened Coding
  import opened PbWire
  import opened PbFormat

  class IStream {
    const source: seq<byte>
    var state: nat
    var bytesLeft: nat

    ghost predicate Valid()
      reads this
    {
      End() <= |source|
    }

    /** Where the stream ends. Reading does not change it. */
    ghost function End(): nat
      reads this
    {
      state + bytesLeft
    }

    /** What may still be read. */
    ghost function Rest(): (r: seq<byte>)
      requires Valid()
      reads this
      ensures |r| == bytesLeft
    {
      source[state..End()]
    }

    constructor (source: seq<byte>)
      ensures Valid() && Rest() == source
    {
      this.source, state, bytesLeft := source, 0, |source|;
    }

    /** A stream over the next bytes of another one. */
    constructor Sub(source: seq<byte>, state: nat, size: nat)
      requires state + size <= |source|
      ensures Valid() && this.source == source && this.state == state && bytesLeft == size
    {
      this.source, this.state, bytesLeft := source, state, size;
    }

    method ReadByte() returns (ok: bool, b: byte)
      requires Valid()
      modifies this
      ensures Valid() && End() == old(End()) && ok == (|old(Rest())| > 0)
      ensures ok ==> b == old(Rest())[0] && Rest() == old(Rest())[1..]
      ensures !ok ==> Rest() == old(Rest())
    {
      b := 0;
      ok := bytesLeft > 0;
      if ok {
        b := source[state];
        state, bytesLeft := state + 1, bytesLeft - 1;
      }
    }

    method Read(count: nat) returns (ok: bool, data: seq<byte>)
      requires Valid()
      modifies this
      ensures Valid() && End() == old(End())
      ensures TakeBytes(old(Rest()), count) == if ok then Got(data, Rest()) else Fail
      ensures ok ==> state == old(state) + count
    {
      data := [];
      ok := count <= bytesLeft;
      if ok {
        Sliced(source, state, bytesLeft, count);
        data := source[state..state + count];
        state, bytesLeft := state + count, bytesLeft - count;
      }
    }

    /** A varint cut to 32 bits. When there is none, at most five bytes are gone. The seven bits of a
        byte go above those read before, so that adding them is what joining the bits does. */
    method DecodeVarint32() returns (ok: bool, dest: nat)
      requires Valid()
      modifies this
      ensures Valid() && End() == old(End())
      ensures VarintTaken(old(Rest()), 5, Two32, ok, dest, Rest())
      ensures !ok ==> (bytesLeft == 0 <==> |old(Rest())| <= 5)
    {
      hide ReadVarint, PartRead, Pow128, VarintTaken;
      ghost var b := Rest();
      ghost var whole: nat := 0;
      var next: byte;
      var more, k := true, 0;
      ok, dest := true, 0;
      Begins(b, 5, Two32);
      while ok && more
        invariant Valid() && End() == old(End()) && k <= 5
        invariant ok && more ==> k <= |b| && Rest() == b[k..] && PartRead(b, k, whole, dest, 5, Two32)
        invariant ok && !more ==> VarintTaken(b, 5, Two32, true, dest, Rest())
        invariant !ok ==> VarintTaken(b, 5, Two32, false, dest, Rest()) && (bytesLeft == 0 <==> |b| <= 5)
        decreases ok && more, 5 - k
      {
        if k == 5 {
          GoesOn(b, k, whole, dest, 5, Two32, Rest());
          ok := false;
        } else {
          ok, next := ReadByte();
          if !ok {
            GoesOn(b, k, whole, dest, 5, Two32, Rest());
          } else {
            NextByte(b, k, whole, dest, 5, Two32);
            whole := whole + Pow128(k) * (next % 128);
            dest := (dest + Pow128(k) * (next % 128)) % Two32;
            more, k := next >= 128, k + 1;
          }
        }
      }
    }

    /** A varint cut to 64 bits. */
    method DecodeVarint() returns (ok: bool, dest: nat)
      requires Valid()
      modifies this
      ensures Valid() && End() == old(End())
      ensures VarintTaken(old(Rest()), 10, Two64, ok, dest, Rest())
    {
      hide ReadVarint, PartRead, Pow128, VarintTaken;
      ghost var b := Rest();
      ghost var whole: nat := 0;
      var next: byte;
      var more, k := true, 0;
      ok, dest := true, 0;
      Begins(b, 10, Two64);
      while ok && more
        invariant Valid() && End() == old(End()) && k <= 10
        invariant ok && more ==> k <= |b| && Rest() == b[k..] && PartRead(b, k, whole, dest, 10, Two64)
        invariant ok && !more ==> VarintTaken(b, 10, Two64, true, dest, Rest())
        invariant !ok ==> VarintTaken(b, 10, Two64, false, dest, Rest())
        decreases ok && more, 10 - k
      {
        if k == 10 {
          GoesOn(b, k, whole, dest, 10, Two64, Rest());
          ok := false;
        } else {
          ok, next := ReadByte();
          if !ok {
            GoesOn(b, k, whole, dest, 10, Two64, Rest());
          } else {
            NextByte(b, k, whole, dest, 10, Two64);
            whole := whole + Pow128(k) * (next % 128);
            dest := (dest + Pow128(k) * (next % 128)) % Two64;
            more, k := next >= 128, k + 1;
          }
        }
      }
    }

    method SkipVarint() returns (ok: bool)
      requires Valid()
      modifies this
      ensures Valid() && End() == old(End())
      ensures SkippedVarint(old(Rest())) == if ok then Some(Rest()) else None
    {
      ghost var b := Rest();
      var next: byte := 128;
      ok := true;
      while ok && next >= 128
        invariant Valid() && End() == old(End())
        invariant !ok ==> SkippedVarint(b) == None
        invariant ok && next >= 128 ==> SkippedVarint(Rest()) == SkippedVarint(b)
        invariant ok && next < 128 ==> SkippedVarint(b) == Some(Rest())
        decreases ok, bytesLeft
      {
        ok, next := ReadByte();
      }
    }

    method SkipString() returns (ok: bool)
      requires Valid()
      modifies this
      ensures Valid() && End() == old(End())
      ensures ok == TakeString(old(Rest())).Got? && (ok ==> TakeString(old(Rest())).rest == Rest())
    {
      hide ReadVarint;
      var length: nat, data;
      ok, length := DecodeVarint32();
      if ok {
        ok, data := Read(length);
      }
    }

    method SkipField(wireType: nat) returns (ok: bool)
      requires Valid()
      modifies this
      ensures Valid() && End() == old(End())
      ensures Skipped(wireType, old(Rest())) == if ok then Some(Rest()) else None
    {
      hide TakeString, SkippedVarint;
      var data;
      if wireType == WtVarint {
        ok := SkipVarint();
      } else if wireType == Wt64 {
        ok, data := Read(8);
      } else if wireType == WtString {
        ok := SkipString();
      } else if wireType == Wt32 {
        ok, data := Read(4);
      } else {
        ok := false;
      }
    }

    method DecodeTag() returns (ok: bool, wireType: nat, tag: nat, eof: bool)
      requires Valid()
      modifies this
      ensures Valid() && End() == old(End())
      ensures ReadTag(old(Rest())) == if ok then Tag(wireType, tag, Rest()) else if eof then Eof else Bad
      ensures ok ==> !eof
    {
      hide ReadVarint;
      wireType, tag, eof := 0, 0, false;
      var temp: nat;
      ok, temp := DecodeVarint32();
      if !ok {
        eof := bytesLeft == 0;
      } else if temp == 0 {
        ok, eof := false, true;
      } else {
        tag, wireType := temp / 8, temp % 8;
      }
    }

    /** A stream over as many bytes as a length says. This one is left with what follows them, but
        stays where they begin until the other one is closed. */
    method MakeStringSubstream() returns (ok: bool, sub: IStream)
      requires Valid()
      modifies this
      ensures ok == TakeString(old(Rest())).Got?
      ensures ok ==> fresh(sub) && sub.Valid() && sub.source == source && sub.Rest() == TakeString(old(Rest())).value
      ensures ok ==>
                sub.End() + bytesLeft == old(End()) && source[sub.End()..old(End())] == TakeString(old(Rest())).rest
      ensures !ok ==> Valid() && End() == old(End())
    {
      hide ReadVarint;
      var size: nat;
      sub := this;
      ok, size := DecodeVarint32();
      if ok {
        ok := size <= bytesLeft;
        if ok {
          Sliced(source, state, bytesLeft, size);
          sub := new IStream.Sub(source, state, size);
          bytesLeft := bytesLeft - size;
        }
      }
    }

    /** Whatever the other stream left unread is passed over. */
    method CloseStringSubstream(sub: IStream)
      requires sub != this && sub.Valid() && sub.source == source && sub.End() + bytesLeft <= |source|
      modifies this, sub
      ensures Valid() && bytesLeft == old(bytesLeft) && state == old(sub.End())
    {
      if sub.bytesLeft > 0 {
        var ok, data := sub.Read(sub.bytesLeft);
      }
      state := sub.state;
    }
  }

  lemma Sliced<T>(s: seq<T>, i: nat, n: nat, k: nat)
    requires k <= n && i + n <= |s|
    ensures s[i..i + n][..k] == s[i..i + k] && s[i..i + n][k..] == s[i + k..i + n]
  {
  }

  // ---- Varints byte by byte ----

  /** What became of the bytes: a varint of at most n bytes, modulo m, was taken from them, or there
      was none. */
  ghost predicate VarintTaken(b: seq<byte>, n: nat, m: nat, ok: bool, dest: nat, rest: seq<byte>)
    requires m > 0
  {
    match ReadVarint(b, n)
    case None => !ok
    case Some(r) => ok && dest == r.0 % m && r.1 <= |b| && rest == b[r.1..]
  }

  /** The first k bytes all go on, and hold this part of the value. */
  ghost predicate PartRead(b: seq<byte>, k: nat, whole: nat, result: nat, n: nat, m: nat)
    requires m > 0
  {
    k <= |b| && k <= n && result == whole % m
    && match ReadVarint(b[k..], n - k)
       case None => ReadVarint(b, n) == None
       case Some(r) => ReadVarint(b, n) == Some((whole + Pow128(k) * r.0, r.1 + k))
  }

  lemma Begins(b: seq<byte>, n: nat, m: nat)
    requires m > 0
    ensures PartRead(b, 0, 0, 0, n, m)
  {
    assert b[0..] == b;
    ModIs(0, m, 0, 0);
  }

  lemma GoesOn(b: seq<byte>, k: nat, whole: nat, result: nat, n: nat, m: nat, rest: seq<byte>)
    requires m > 0 && PartRead(b, k, whole, result, n, m) && (k == n || k == |b|)
    ensures VarintTaken(b, n, m, false, result, rest)
  {
  }

  lemma NextByte(b: seq<byte>, k: nat, whole: nat, result: nat, n: nat, m: nat)
    requires m > 0 && PartRead(b, k, whole, result, n, m) && k < n && k < |b|
    ensures var part := Pow128(k) * (b[k] % 128);
            if b[k] < 128 then VarintTaken(b, n, m, true, (result + part) % m, b[k..][1..])
            else PartRead(b, k + 1, whole + part, (result + part) % m, n, m)
  {
    hide ReadVarint, Pow128;
    var part := Pow128(k) * (b[k] % 128);
    AddMod(whole, part, m);
    NextPart(b, k, whole, result, n, m);
    assert b[k..][1..] == b[k + 1..];
  }

  lemma NextPart(b: seq<byte>, k: nat, whole: nat, result: nat, n: nat, m: nat)
    requires m > 0 && PartRead(b, k, whole, result, n, m) && k < n && k < |b|
    ensures b[k] < 128 ==> ReadVarint(b, n) == Some((whole + Pow128(k) * (b[k] % 128), k + 1))
    ensures b[k] >= 128 ==>
      match ReadVarint(b[k + 1..], n - k - 1)
      case None => ReadVarint(b, n) == None
      case Some(r) => ReadVarint(b, n) == Some((whole + Pow128(k) * (b[k] % 128) + Pow128(k + 1) * r.0, r.1 + k + 1))
  {
    hide Pow128;
    assert b[k..][0] == b[k] && b[k..][1..] == b[k + 1..];
    if b[k] >= 128 && ReadVarint(b[k + 1..], n - k - 1).Some? {
      Carry(k, b[k], ReadVarint(b[k + 1..], n - k - 1).value.0);
    }
  }

  lemma Carry(k: nat, d: byte, v: nat)
    requires d >= 128
    ensures Pow128(k) * (d - 128 + 128 * v) == Pow128(k) * (d % 128) + Pow128(k + 1) * v
  {
    var p := Pow128(k);
    assert Pow128(k + 1) == 128 * p;
    assert p * (128 * v) == (128 * p) * v;
    assert p * ((d - 128) + 128 * v) == p * (d - 128) + p * (128 * v);
  }

  lemma AddMod(a: nat, b: nat, m: nat)
    requires m > 0
    ensures (a % m + b) % m == (a + b) % m
  {
    var q := a / m;
    assert a == q * m + a % m;
    var r, t := (a % m + b) % m, (a % m + b) / m;
    assert a + b == q * m + t * m + r;
    assert q * m + t * m == (q + t) * m;
    ModIs(a + b, m, q + t, r);
  }
}
