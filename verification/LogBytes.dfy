/** The log file format byte by byte, for records of any content. */
module LogBytes {
  import opened Coding
  import opened LogFormat

  /** A fragment: four bytes of masked checksum over type and payload, two bytes of length, all least
      significant first, one byte of type, the payload. */
  lemma FragmentBytes(crc: Checksum, kind: nat, data: seq<byte>)
    requires kind <= 4 && |data| < 65536
    ensures var b, m := RenderPiece(crc, 0, Piece(0, kind, data)), Mask(crc([kind as byte] + data));
            && |b| == 7 + |data|
            && b[0] == m % 256 && b[1] == m / 0x100 % 256 && b[2] == m / 0x1_0000 % 256 && b[3] == m / 0x100_0000 % 256
            && b[4] == |data| % 256 && b[5] == |data| / 256 && b[6] == kind && b[7..] == data
  {
    var m := Mask(crc([kind as byte] + data));
    FixedAt(4, m, 0);
    FixedAt(4, m, 1);
    FixedAt(4, m, 2);
    FixedAt(4, m, 3);
    assert Pow256(1) == 0x100 && Pow256(2) == 0x1_0000 && Pow256(3) == 0x100_0000;
    assert Zeros(0) == [];
    assert RenderPiece(crc, 0, Piece(0, kind, data)) == Header(crc, kind, data) + data;
  }

  /** Behind a rest of a block that is passed over comes the same fragment, and the rest is zeros. */
  lemma TrailerBytes(crc: Checksum, p: nat, x: Piece)
    requires p <= x.pos && x.kind <= 4
    ensures var b := RenderPiece(crc, p, x);
            b[x.pos - p..] == RenderPiece(crc, 0, x.(pos := 0)) && forall i | 0 <= i < x.pos - p :: b[i] == 0
  {
    var z, h := Zeros(x.pos - p), Header(crc, x.kind, x.data);
    Associative(z, h, x.data);
    assert (z + (h + x.data))[|z|..] == h + x.data;
    assert Zeros(0) + h + x.data == h + x.data;
  }

  /** Masking turns a checksum right by 15 bits and adds a constant: its 17 high bits come to the bottom. */
  lemma MaskedBits(high: nat, low: nat)
    requires high < 0x2_0000 && low < 0x8000
    ensures Mask(high * 0x8000 + low) == (low * 0x2_0000 + high + 0xa282ead8) % 0x1_0000_0000
  {
    ModIs(high * 0x8000 + low, 0x8000, high, low);
  }

  /** A record that fits what is left of a block is one fragment of type 1; any other begins with one of
      type 2 that fills the block, goes on with fragments of type 3 that fill theirs, and ends with one of
      type 4. Six bytes or less at the end of a block hold no header. */
  lemma {:induction false} FragmentTypes(p: nat, r: seq<byte>, begin: bool, i: nat)
    requires i < |Pieces(p, r, begin)|
    ensures var ps := Pieces(p, r, begin); var x, last := ps[i], i == |ps| - 1;
            && x.kind == (if i == 0 && begin then (if last then 1 else 2) else if last then 4 else 3)
            && (!last ==> x.End() % 32768 == 0) && x.pos % 32768 <= 32761
    ensures i == 0 ==> Pieces(p, r, begin)[i].pos == if p % 32768 > 32761 then p - p % 32768 + 32768 else p
    decreases |r|, if Room(Align(p)) == 0 then 1 else 0
  {
    var q := Align(p);
    if |r| > Room(q) {
      var first := Piece(q, KindOf(begin, false), r[..Room(q)]);
      RoomAfterEmpty(p);
      var rest := Pieces(first.End(), r[Room(q)..], false);
      assert Pieces(p, r, begin) == [first] + rest;
      if i > 0 {
        FragmentTypes(first.End(), r[Room(q)..], false, i - 1);
      }
    }
  }

  /** A small record at the beginning of a file, byte by byte. */
  lemma SmallFile(crc: Checksum, r: seq<byte>)
    requires |r| <= 32761
    ensures var m := Mask(crc([1] + r));
            FileOf(crc, [r]) == [m % 256, m / 0x100 % 256, m / 0x1_0000 % 256, m / 0x100_0000 % 256,
                                 |r| % 256, |r| / 256, 1] + r
  {
    var x, m := Piece(0, 1, r), Mask(crc([1] + r));
    assert [r] == [] + [r] && AllPieces(0, []) == [];
    MorePieces(0, [], r);
    assert AllPieces(0, [r]) == [x];
    FileIs(crc, [r], [x]);
    FirstRendered(crc, 0, [x]);
    FragmentBytes(crc, 1, r);
    var b := RenderPiece(crc, 0, x);
    assert b[..7] == [m % 256, m / 0x100 % 256, m / 0x1_0000 % 256, m / 0x100_0000 % 256, |r| % 256, |r| / 256, 1];
    assert b == b[..7] + b[7..];
  }
}
