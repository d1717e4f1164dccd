/** The encoder: an output stream that writes to a buffer or only counts, and messages written to it
    field by field. */
module PbEncode {
  import opened Wrappers
  import opened Coding
  import opened PbWire

  /** How many bytes a stream has taken, and what is in its buffer. */
  datatype Progress = Progress(count: nat, out: seq<byte>)

  /** What writing these bytes comes to: it succeeds exactly when they fit, and then they follow what
      was there. A stream that only counts has room for everything and keeps nothing. With nothing to
      be written the message itself is at fault. */
  ghost predicate Emits(o: OStream, was: Progress, now: Progress, ok: bool, e: Option<seq<byte>>) {
    match e
    case None => !ok
    case Some(b) =>
      && ok == (o.sizing || was.count + |b| <= o.maxSize)
      && (ok ==> now == Progress(was.count + |b|, if o.sizing then was.out else was.out + b))
  }

  class OStream {
    const sizing: bool
    const buf: array<byte>
    const maxSize: nat
    var state: nat
    var bytesWritten: nat

    /** There is room in the buffer for all that may still be written. */
    ghost predicate Valid()
      reads this
    {
      !sizing ==> bytesWritten <= maxSize && state + (maxSize - bytesWritten) <= buf.Length
    }

    ghost function Now(): (p: Progress)
      requires Valid()
      reads this, buf
      ensures p.count == bytesWritten
    {
      Progress(bytesWritten, if sizing then [] else buf[..state])
    }

    constructor (buf: array<byte>, size: nat)
      requires size <= buf.Length
      ensures Valid() && !sizing && this.buf == buf && maxSize == size && Now() == Progress(0, [])
    {
      sizing, this.buf, maxSize, state, bytesWritten := false, buf, size, 0, 0;
    }

    /** A stream that counts. */
    constructor Sizing()
      ensures Valid() && sizing && Now() == Progress(0, []) && fresh(buf)
    {
      sizing, maxSize, state, bytesWritten := true, 0, 0, 0;
      buf := new byte[0];
    }

    /** A stream for the next bytes of another one's buffer. */
    constructor Within(buf: array<byte>, state: nat, size: nat)
      requires state + size <= buf.Length
      ensures Valid() && !sizing && this.buf == buf && maxSize == size && this.state == state && bytesWritten == 0
    {
      sizing, this.buf, maxSize, this.state, bytesWritten := false, buf, size, state, 0;
    }

    method Write(data: seq<byte>) returns (ok: bool)
      requires Valid()
      modifies this, buf
      ensures Valid() && Emits(this, old(Now()), Now(), ok, Some(data))
    {
      ok := true;
      if !sizing {
        ok := bytesWritten + |data| <= maxSize;
        if ok {
          for i := 0 to |data|
            invariant state == old(state) && bytesWritten == old(bytesWritten)
            invariant buf[..state] == old(buf[..state]) && buf[state..state + i] == data[..i]
          {
            buf[state + i] := data[i];
          }
          state := state + |data|;
        }
      }
      if ok {
        bytesWritten := bytesWritten + |data|;
      }
    }

    /** Counts bytes that were counted before. */
    method Count(size: nat)
      requires Valid() && sizing
      modifies this
      ensures Valid() && Now() == old(Now()).(count := old(bytesWritten) + size)
    {
      bytesWritten := bytesWritten + size;
    }

    method EncodeVarint(value: nat) returns (ok: bool)
      requires Valid() && value < Two64
      modifies this, buf
      ensures Valid() && Emits(this, old(Now()), Now(), ok, Some(Varint(value)))
    {
      hide Emits, Varint, Groups;
      if value <= 0x7F {
        Small(value);
        ok := Write([value]);
      } else {
        var buffer, i, v := new byte[10], 0, value;
        GroupsFit(value, 10);
        Whole(Groups(value));
        NoGroups();
        while v > 0
          invariant i + |Groups(v)| <= 10 && buffer[..i] + Groups(v) == Groups(value)
          modifies buffer
        {
          NextGroup(buffer[..i], v);
          buffer[i] := v % 128 + 128;
          assert buffer[..i + 1] == buffer[..i] + [v % 128 + 128];
          v, i := v / 128, i + 1;
        }
        GroupsEnd(value);
        ghost var g := buffer[..i];
        assert g == Groups(value);
        buffer[i - 1] := buffer[i - 1] - 128;
        assert buffer[..i] == Ended(g);
        ok := Write(buffer[..i]);
      }
    }

    method EncodeSVarint(value: int) returns (ok: bool)
      requires Valid() && 0 - Two63 <= value < Two63
      modifies this, buf
      ensures Valid() && Emits(this, old(Now()), Now(), ok, Some(Varint(ZigZagged(value))))
    {
      hide Emits, Varint;
      var doubled := (2 * value) % Two64;
      Complement(value);
      ok := EncodeVarint(if value < 0 then Two64 - 1 - doubled else doubled);
    }

    method EncodeFixed32(val: nat) returns (ok: bool)
      requires Valid() && val < Two32
      modifies this, buf
      ensures Valid() && Emits(this, old(Now()), Now(), ok, Some(Fixed(4, val)))
    {
      hide Emits;
      var bytes := [Shifted(val, 0) % 256, Shifted(val, 1) % 256, Shifted(val, 2) % 256, Shifted(val, 3) % 256];
      FourBytes(val, 0);
      ok := Write(bytes);
    }

    method EncodeFixed64(val: nat) returns (ok: bool)
      requires Valid() && val < Two64
      modifies this, buf
      ensures Valid() && Emits(this, old(Now()), Now(), ok, Some(Fixed(8, val)))
    {
      hide Emits;
      var bytes := [Shifted(val, 0) % 256, Shifted(val, 1) % 256, Shifted(val, 2) % 256, Shifted(val, 3) % 256,
                    Shifted(val, 4) % 256, Shifted(val, 5) % 256, Shifted(val, 6) % 256, Shifted(val, 7) % 256];
      EightBytes(val);
      FourBytes(val, 4);
      assert bytes == Fixed(8, Shifted(val, 0));
      ok := Write(bytes);
    }

    method EncodeTag(wireType: nat, tag: nat) returns (ok: bool)
      requires Valid() && wireType < 8 && tag < Two32
      modifies this, buf
      ensures Valid() && Emits(this, old(Now()), Now(), ok, Some(TagBytes(wireType, tag)))
    {
      ok := EncodeVarint(8 * tag + wireType);
    }

    method EncodeString(data: seq<byte>) returns (ok: bool)
      requires Valid() && |data| < Two64
      modifies this, buf
      ensures Valid() && Emits(this, old(Now()), Now(), ok, Some(Varint(|data|) + data))
    {
      hide Varint;
      ok := EncodeVarint(|data|);
      if ok {
        Associative(Now().out, Varint(|data|), data);
        ok := Write(data);
      }
    }
  }

  lemma Associative<T>(a: seq<T>, b: seq<T>, c: seq<T>)
    ensures (a + b) + c == a + (b + c)
  {
  }

  lemma Whole<T>(a: seq<T>)
    ensures [] + a == a && a + [] == a
  {
  }

  // ---- Numbers ----

  /** Seven bits to a byte, the high bit set on all of them. */
  function Groups(v: nat): seq<byte> {
    if v == 0 then [] else [v % 128 + 128] + Groups(v / 128)
  }

  lemma {:induction false} GroupsFit(v: nat, n: nat)
    requires v < Two64 && n == 10
    ensures |Groups(v)| <= n
  {
    assert Pow128(10) == 0x40_0000_0000_0000_0000;
    GroupsBelow(v, 10);
  }

  lemma {:induction false} GroupsBelow(v: nat, n: nat)
    requires v < Pow128(n)
    ensures |Groups(v)| <= n
  {
    if v > 0 {
      GroupsBelow(v / 128, n - 1);
    }
  }

  lemma NextGroup(g: seq<byte>, v: nat)
    requires v > 0
    ensures g + Groups(v) == (g + [v % 128 + 128]) + Groups(v / 128) && |Groups(v)| == 1 + |Groups(v / 128)|
  {
  }

  lemma Small(v: nat)
    requires v < 128
    ensures Varint(v) == [v]
  {
  }

  lemma NoGroups()
    ensures Groups(0) == []
  {
  }

  /** The same bytes with the high bit of the last one taken off. */
  function Ended(g: seq<byte>): seq<byte>
    requires |g| > 0 && g[|g| - 1] >= 128
  {
    g[..|g| - 1] + [g[|g| - 1] - 128]
  }

  lemma EndedTail(x: byte, g: seq<byte>)
    requires |g| > 0 && g[|g| - 1] >= 128
    ensures var h := [x] + g; h[|h| - 1] >= 128 && Ended(h) == [x] + Ended(g)
  {
    assert ([x] + g)[..|g|] == [x] + g[..|g| - 1];
    Associative([x], g[..|g| - 1], [g[|g| - 1] - 128]);
  }

  /** A varint is its groups with the last one ended. */
  lemma {:induction false} GroupsEnd(v: nat)
    requires v > 0
    ensures var g := Groups(v); |g| > 0 && g[|g| - 1] >= 128 && Varint(v) == Ended(g)
  {
    hide Groups, Varint, Ended;
    OneGroup(v);
    if v >= 128 {
      GroupsEnd(v / 128);
      EndedTail(v % 128 + 128, Groups(v / 128));
    }
  }

  lemma OneGroup(v: nat)
    requires v > 0
    ensures v < 128 ==> Groups(v) == [v + 128] && Varint(v) == [v] == Ended([v + 128])
    ensures v >= 128 ==>
              Groups(v) == [v % 128 + 128] + Groups(v / 128) && Varint(v) == [v % 128 + 128] + Varint(v / 128)
  {
    if v < 128 {
      assert v % 128 == v && v / 128 == 0;
      assert Groups(0) == [];
      assert [v + 128][..0] == [];
    }
  }

  /** The complement of a doubled negative number is its zigzag form. */
  lemma Complement(v: int)
    requires 0 - Two63 <= v < Two63
    ensures ZigZagged(v) == if v < 0 then Two64 - 1 - (2 * v) % Two64 else (2 * v) % Two64
    ensures ZigZagged(v) < Two64
  {
  }

  /** Shifted right by so many bytes, a byte at a time. */
  function Shifted(v: nat, bytes: nat): nat {
    if bytes == 0 then v else Shifted(v, bytes - 1) / 256
  }

  lemma ByteAt(n: nat, v: nat, k: nat)
    requires n > 0
    ensures Fixed(n, Shifted(v, k)) == [Shifted(v, k) % 256] + Fixed(n - 1, Shifted(v, k + 1))
    ensures Fixed(0, Shifted(v, k + 1)) == []
  {
  }

  lemma FourBytes(v: nat, k: nat)
    ensures Fixed(4, Shifted(v, k))
            == [Shifted(v, k) % 256, Shifted(v, k + 1) % 256, Shifted(v, k + 2) % 256, Shifted(v, k + 3) % 256]
  {
    hide Fixed, Shifted;
    ByteAt(4, v, k);
    ByteAt(3, v, k + 1);
    ByteAt(2, v, k + 2);
    ByteAt(1, v, k + 3);
  }

  lemma EightBytes(v: nat)
    ensures Fixed(8, Shifted(v, 0))
            == [Shifted(v, 0) % 256, Shifted(v, 1) % 256, Shifted(v, 2) % 256, Shifted(v, 3) % 256]
                + Fixed(4, Shifted(v, 4))
  {
    hide Fixed, Shifted;
    ByteAt(8, v, 0);
    ByteAt(7, v, 1);
    ByteAt(6, v, 2);
    ByteAt(5, v, 3);
  }
}
