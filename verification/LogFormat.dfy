/** The log's physical records: where a writer puts the fragments of each record, and the bytes
    they become. */
module LogFormat {
  import opened Coding

  const BlockSize: nat := 32768
  const HeaderSize: nat := 7

  const ZeroType: nat := 0
  const FullType: nat := 1
  const FirstType: nat := 2
  const MiddleType: nat := 3
  const LastType: nat := 4

  // ---- Checksums ----

  type u32 = x: int | 0 <= x < 0x1_0000_0000

  /** A checksum over a type byte and a payload. */
  type Checksum = seq<byte> -> u32

  const MaskDelta: nat := 0xa282ead8

  /** Rotate right by 15 bits and add a constant. */
  function Mask(crc: u32): u32 {
    (crc / 0x8000 + crc % 0x8000 * 0x2_0000 + MaskDelta) % 0x1_0000_0000
  }

  function Unmask(masked: u32): u32 {
    var rot := (masked + 0x1_0000_0000 - MaskDelta) % 0x1_0000_0000;
    rot / 0x2_0000 + rot % 0x2_0000 * 0x8000
  }

  lemma UnmaskInverts(crc: u32)
    ensures Unmask(Mask(crc)) == crc
  {
    var high, low := crc / 0x8000, crc % 0x8000;
    var rot := high + low * 0x2_0000;
    assert 0 <= rot < 0x1_0000_0000;
    assert (Mask(crc) + 0x1_0000_0000 - MaskDelta) % 0x1_0000_0000 == rot;
    assert rot / 0x2_0000 == low && rot % 0x2_0000 == high;
  }

  // ---- Where fragments go ----

  /** What is left of the block at p. */
  function Leftover(p: nat): nat { BlockSize - p % BlockSize }

  /** Where a header written at p goes: too small a rest of a block is skipped. */
  function Align(p: nat): (q: nat)
    ensures p <= q && Leftover(q) >= HeaderSize
  {
    if Leftover(p) < HeaderSize then p + Leftover(p) else p
  }

  /** A physical record: its header's position, its type and its payload. */
  datatype Piece = Piece(pos: nat, kind: nat, data: seq<byte>) {
    function End(): nat { pos + HeaderSize + |data| }
  }

  function KindOf(begin: bool, end: bool): nat {
    if begin && end then FullType else if begin then FirstType else if end then LastType else MiddleType
  }

  /** How much of a payload fits behind a header at q. */
  function Room(q: nat): nat
    requires Leftover(q) >= HeaderSize
  {
    Leftover(q) - HeaderSize
  }

  /** A header that fills its block leaves room behind the next one. */
  lemma RoomAfterEmpty(p: nat)
    ensures Room(Align(p)) == 0 ==> Room(Align(Align(p) + HeaderSize)) > 0
  {
  }

  /** The fragments of a record written from p on; `begin` says the first of them is still to
      come. */
  function Pieces(p: nat, r: seq<byte>, begin: bool): (ps: seq<Piece>)
    ensures |ps| > 0
    decreases |r|, if Room(Align(p)) == 0 then 1 else 0
  {
    var q := Align(p);
    if |r| <= Room(q) then [Piece(q, KindOf(begin, true), r)]
    else
      var first := Piece(q, KindOf(begin, false), r[..Room(q)]);
      [first] + Pieces(first.End(), r[Room(q)..], false)
  }

  /** Where the writer stands before the i-th piece. */
  function EndBefore(p: nat, ps: seq<Piece>, i: nat): nat
    requires i <= |ps|
  {
    if i == 0 then p else ps[i - 1].End()
  }

  function EndOf(p: nat, ps: seq<Piece>): nat { EndBefore(p, ps, |ps|) }

  function AllPieces(p: nat, rs: seq<seq<byte>>): seq<Piece>
    decreases |rs|
  {
    if |rs| == 0 then []
    else
      var before := AllPieces(p, rs[..|rs| - 1]);
      before + Pieces(EndOf(p, before), rs[|rs| - 1], true)
  }

  /** Where a writer stands after a record of n bytes, of which all or the rest is still to come. */
  function EndAfter(p: nat, n: nat): (q: nat)
    ensures q >= Align(p) + HeaderSize
    decreases n, if Room(Align(p)) == 0 then 1 else 0
  {
    var q := Align(p);
    if n <= Room(q) then q + HeaderSize + n else EndAfter(q + HeaderSize + Room(q), n - Room(q))
  }

  /** Cutting the file at m goes through one of the record's fragments. */
  predicate CutThrough(p: nat, n: nat, m: nat)
    decreases n, if Room(Align(p)) == 0 then 1 else 0
  {
    var q := Align(p);
    if n <= Room(q) then q < m < q + HeaderSize + n
    else q < m < q + HeaderSize + Room(q) || CutThrough(q + HeaderSize + Room(q), n - Room(q), m)
  }

  /** Each piece lies where the writer gets to after the one before, inside one block. */
  ghost predicate Chained(p: nat, ps: seq<Piece>) {
    forall i: nat | i < |ps| :: Placed(p, ps, i)
  }

  ghost predicate Placed(p: nat, ps: seq<Piece>, i: nat)
    requires i < |ps|
  {
    ps[i].pos == Align(EndBefore(p, ps, i)) && |ps[i].data| <= Room(ps[i].pos) && FullType <= ps[i].kind <= LastType
  }

  lemma ChainedAppend(p: nat, a: seq<Piece>, b: seq<Piece>)
    requires Chained(p, a) && Chained(EndOf(p, a), b)
    ensures Chained(p, a + b) && EndOf(p, a + b) == EndOf(EndOf(p, a), b)
  {
    var c := a + b;
    forall i: nat | i < |c| ensures Placed(p, c, i) {
      if i < |a| {
        assert Placed(p, a, i);
      } else {
        assert Placed(EndOf(p, a), b, i - |a|);
      }
    }
  }

  lemma {:induction false} PiecesChained(p: nat, r: seq<byte>, begin: bool)
    ensures Chained(p, Pieces(p, r, begin))
    decreases |r|, if Room(Align(p)) == 0 then 1 else 0
  {
    var q := Align(p);
    if |r| > Room(q) {
      var first := Piece(q, KindOf(begin, false), r[..Room(q)]);
      PiecesChained(first.End(), r[Room(q)..], false);
      ChainedAppend(p, [first], Pieces(first.End(), r[Room(q)..], false));
    }
  }

  lemma {:induction false} AllChained(p: nat, rs: seq<seq<byte>>)
    ensures Chained(p, AllPieces(p, rs))
    decreases |rs|
  {
    if |rs| > 0 {
      var before := AllPieces(p, rs[..|rs| - 1]);
      AllChained(p, rs[..|rs| - 1]);
      PiecesChained(EndOf(p, before), rs[|rs| - 1], true);
      ChainedAppend(p, before, Pieces(EndOf(p, before), rs[|rs| - 1], true));
    }
  }

  // ---- The bytes ----

  lemma Associative<T>(a: seq<T>, b: seq<T>, c: seq<T>)
    ensures (a + b) + c == a + (b + c)
  {
  }

  function Zeros(n: nat): seq<byte> { seq(n, _ => 0) }

  function Header(crc: Checksum, kind: nat, data: seq<byte>): (h: seq<byte>)
    requires kind <= LastType
    ensures |h| == HeaderSize
  {
    Fixed(4, Mask(crc([kind as byte] + data))) + [(|data| % 256) as byte, (|data| / 256 % 256) as byte, kind as byte]
  }

  /** A piece written from p on, a skipped rest of a block filled with zeros. */
  function RenderPiece(crc: Checksum, p: nat, x: Piece): (b: seq<byte>)
    requires p <= x.pos && x.kind <= LastType
    ensures |b| == x.End() - p
  {
    Zeros(x.pos - p) + Header(crc, x.kind, x.data) + x.data
  }

  /** The bytes of the first n pieces written from p on. */
  function Render(crc: Checksum, p: nat, ps: seq<Piece>, n: nat): (b: seq<byte>)
    requires n <= |ps| && Chained(p, ps)
    ensures p + |b| == EndBefore(p, ps, n)
    decreases n
  {
    if n == 0 then []
    else
      assert Placed(p, ps, n - 1);
      Render(crc, p, ps, n - 1) + RenderPiece(crc, EndBefore(p, ps, n - 1), ps[n - 1])
  }

  /** Later pieces do not change what earlier ones became. */
  lemma {:induction false} RenderPrefix(crc: Checksum, p: nat, a: seq<Piece>, b: seq<Piece>, n: nat)
    requires Chained(p, a) && Chained(p, b) && a <= b && n <= |a|
    ensures Render(crc, p, b, n) == Render(crc, p, a, n)
    decreases n
  {
    if n > 0 {
      RenderPrefix(crc, p, a, b, n - 1);
    }
  }

  lemma {:induction false} RenderGrows(crc: Checksum, p: nat, ps: seq<Piece>, m: nat, n: nat)
    requires Chained(p, ps) && m <= n <= |ps|
    ensures Render(crc, p, ps, m) <= Render(crc, p, ps, n)
    decreases n
  {
    if m < n {
      RenderGrows(crc, p, ps, m, n - 1);
    }
  }

  lemma {:induction false} RenderAppend(crc: Checksum, p: nat, a: seq<Piece>, b: seq<Piece>, n: nat)
    requires Chained(p, a) && Chained(EndOf(p, a), b) && Chained(p, a + b) && n <= |b|
    ensures Render(crc, p, a + b, |a| + n) == Render(crc, p, a, |a|) + Render(crc, EndOf(p, a), b, n)
    decreases n
  {
    if n == 0 {
      RenderPrefix(crc, p, a, a + b, |a|);
      NothingAfter(Render(crc, p, a, |a|));
    } else {
      RenderAppend(crc, p, a, b, n - 1);
      LastPiece(crc, p, a, b, n);
    }
  }

  lemma FirstRendered(crc: Checksum, p: nat, ps: seq<Piece>)
    requires Chained(p, ps) && |ps| > 0
    ensures Placed(p, ps, 0) && Render(crc, p, ps, 1) == RenderPiece(crc, p, ps[0])
  {
    assert Placed(p, ps, 0);
    assert Render(crc, p, ps, 0) == [];
  }

  lemma NothingAfter<T>(s: seq<T>)
    ensures s + [] == s
  {
  }

  lemma LastPiece(crc: Checksum, p: nat, a: seq<Piece>, b: seq<Piece>, n: nat)
    requires Chained(p, a) && Chained(EndOf(p, a), b) && Chained(p, a + b) && 0 < n <= |b|
    requires Render(crc, p, a + b, |a| + n - 1) == Render(crc, p, a, |a|) + Render(crc, EndOf(p, a), b, n - 1)
    ensures Render(crc, p, a + b, |a| + n) == Render(crc, p, a, |a|) + Render(crc, EndOf(p, a), b, n)
  {
    var q, x := EndOf(p, a), b[n - 1];
    assert Placed(q, b, n - 1);
    assert (a + b)[|a| + n - 1] == x && EndBefore(p, a + b, |a| + n - 1) == EndBefore(q, b, n - 1);
    Associative(Render(crc, p, a, |a|), Render(crc, q, b, n - 1), RenderPiece(crc, EndBefore(q, b, n - 1), x));
  }

  /** What a record adds to a file of length p. */
  function RecordBytes(crc: Checksum, p: nat, r: seq<byte>): seq<byte> {
    PiecesChained(p, r, true);
    Render(crc, p, Pieces(p, r, true), |Pieces(p, r, true)|)
  }

  /** The file a list of records becomes. */
  function FileOf(crc: Checksum, rs: seq<seq<byte>>): seq<byte> {
    AllChained(0, rs);
    Render(crc, 0, AllPieces(0, rs), |AllPieces(0, rs)|)
  }

  lemma EndOfAppend(p: nat, a: seq<Piece>, b: seq<Piece>)
    ensures EndOf(p, a + b) == EndOf(EndOf(p, a), b)
  {
  }

  lemma {:induction false} AllPiecesAppend(p: nat, a: seq<seq<byte>>, b: seq<seq<byte>>)
    ensures AllPieces(p, a + b) == AllPieces(p, a) + AllPieces(EndOf(p, AllPieces(p, a)), b)
    decreases |b|
  {
    var before := AllPieces(p, a);
    if |b| == 0 {
      assert a + b == a;
    } else {
      var init, last := b[..|b| - 1], b[|b| - 1];
      AllPiecesAppend(p, a, init);
      assert (a + b)[..|a + b| - 1] == a + init;
      EndOfAppend(p, before, AllPieces(EndOf(p, before), init));
      Associative(before, AllPieces(EndOf(p, before), init),
                  Pieces(EndOf(EndOf(p, before), AllPieces(EndOf(p, before), init)), last, true));
    }
  }

  lemma MorePieces(p: nat, rs: seq<seq<byte>>, r: seq<byte>)
    ensures AllPieces(p, rs + [r]) == AllPieces(p, rs) + Pieces(EndOf(p, AllPieces(p, rs)), r, true)
  {
    assert (rs + [r])[..|rs|] == rs;
  }

  lemma FileIs(crc: Checksum, rs: seq<seq<byte>>, ps: seq<Piece>)
    requires ps == AllPieces(0, rs)
    ensures Chained(0, ps) && FileOf(crc, rs) == Render(crc, 0, ps, |ps|) && |FileOf(crc, rs)| == EndOf(0, ps)
  {
    AllChained(0, rs);
  }

  /** One more record: its bytes go behind what is there, also after a restart in the middle. */
  lemma FileGrows(crc: Checksum, rs: seq<seq<byte>>, r: seq<byte>)
    ensures FileOf(crc, rs + [r]) == FileOf(crc, rs) + RecordBytes(crc, |FileOf(crc, rs)|, r)
  {
    var before := AllPieces(0, rs);
    var p := EndOf(0, before);
    var ps := Pieces(p, r, true);
    FileIs(crc, rs, before);
    MorePieces(0, rs, r);
    FileIs(crc, rs + [r], before + ps);
    PiecesChained(p, r, true);
    AppendAll(crc, before, ps);
  }

  lemma AppendAll(crc: Checksum, a: seq<Piece>, b: seq<Piece>)
    requires Chained(0, a) && Chained(0, a + b) && Chained(EndOf(0, a), b)
    ensures Render(crc, 0, a + b, |a + b|) == Render(crc, 0, a, |a|) + Render(crc, EndOf(0, a), b, |b|)
  {
    hide Render, Chained;
    assert |a + b| == |a| + |b|;
    RenderAppend(crc, 0, a, b, |b|);
    assert Render(crc, 0, a + b, |a| + |b|) == Render(crc, 0, a + b, |a + b|);
  }
}
