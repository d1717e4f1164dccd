/** What a reader finds in what a writer wrote: everything after a complete write, everything that
    is whole after a torn one. */
module LogTheorems {
  import opened Wrappers
  import opened Coding
  import opened LogFormat
  import opened LogReader

  // ---- Bytes of a piece in a file ----

  /** As far as the file reaches, a piece's bytes are in place. */
  ghost predicate PieceIn(f: seq<byte>, crc: Checksum, x: Piece) {
    && FullType <= x.kind <= LastType
    && (x.pos + HeaderSize <= |f| ==> f[x.pos..x.pos + HeaderSize] == Header(crc, x.kind, x.data))
    && (x.End() <= |f| ==> f[x.pos + HeaderSize..x.End()] == x.data)
  }

  ghost predicate Written(f: seq<byte>, crc: Checksum, ps: seq<Piece>) {
    forall i: nat | i < |ps| :: PieceIn(f, crc, ps[i])
  }

  /** Cutting a file short leaves in place what is left. */
  lemma CutStillWritten(f: seq<byte>, crc: Checksum, ps: seq<Piece>, m: nat)
    requires Written(f, crc, ps) && m <= |f|
    ensures Written(f[..m], crc, ps)
  {
    forall i: nat | i < |ps| ensures PieceIn(f[..m], crc, ps[i]) {
      var x := ps[i];
      assert PieceIn(f, crc, x);
      if x.pos + HeaderSize <= m {
        assert f[..m][x.pos..x.pos + HeaderSize] == f[x.pos..x.pos + HeaderSize];
      }
      if x.End() <= m {
        assert f[..m][x.pos + HeaderSize..x.End()] == f[x.pos + HeaderSize..x.End()];
      }
    }
  }

  lemma LongerStillHolds(f: seq<byte>, g: seq<byte>, crc: Checksum, x: Piece)
    requires PieceIn(f, crc, x) && x.End() <= |f| && f <= g
    ensures PieceIn(g, crc, x)
  {
    assert g[x.pos..x.pos + HeaderSize] == f[x.pos..x.pos + HeaderSize];
    assert g[x.pos + HeaderSize..x.End()] == f[x.pos + HeaderSize..x.End()];
  }

  lemma JustWritten(f: seq<byte>, crc: Checksum, x: Piece)
    requires |f| <= x.pos && FullType <= x.kind <= LastType
    ensures PieceIn(f + RenderPiece(crc, |f|, x), crc, x)
  {
    var g, z, h := f + RenderPiece(crc, |f|, x), Zeros(x.pos - |f|), Header(crc, x.kind, x.data);
    assert g == f + z + h + x.data;
    assert |f + z| == x.pos;
    assert g[x.pos..x.pos + HeaderSize] == h;
    assert g[x.pos + HeaderSize..x.End()] == x.data;
  }

  lemma {:induction false} RenderBehind(g: seq<byte>, crc: Checksum, ps: seq<Piece>, n: nat)
    requires Chained(|g|, ps) && n <= |ps|
    ensures forall i: nat | i < n :: PieceIn(g + Render(crc, |g|, ps, n), crc, ps[i])
    decreases n
  {
    if n > 0 {
      var f, f', x := g + Render(crc, |g|, ps, n - 1), g + Render(crc, |g|, ps, n), ps[n - 1];
      assert Placed(|g|, ps, n - 1);
      RenderBehind(g, crc, ps, n - 1);
      JustWritten(f, crc, x);
      Associative(g, Render(crc, |g|, ps, n - 1), RenderPiece(crc, |f|, x));
      assert f' == f + RenderPiece(crc, |f|, x);
      forall i: nat | i < n ensures PieceIn(f', crc, ps[i]) {
        if i < n - 1 {
          EndsAscend(|g|, ps, i, n - 2);
          LongerStillHolds(f, f', crc, ps[i]);
        }
      }
    }
  }

  lemma {:induction false} EndsAscend(p: nat, ps: seq<Piece>, i: nat, j: nat)
    requires Chained(p, ps) && i <= j < |ps|
    ensures ps[i].End() <= ps[j].End() && (i < j ==> ps[i].End() <= ps[j].pos)
    decreases j
  {
    if i < j {
      EndsAscend(p, ps, i, j - 1);
      assert Placed(p, ps, j);
    }
  }

  lemma FileHolds(crc: Checksum, rs: seq<seq<byte>>)
    ensures Written(FileOf(crc, rs), crc, AllPieces(0, rs))
  {
    var ps := AllPieces(0, rs);
    AllChained(0, rs);
    RenderBehind([], crc, ps, |ps|);
    assert [] + Render(crc, 0, ps, |ps|) == Render(crc, 0, ps, |ps|);
  }

  // ---- Reading one piece ----

  lemma HeaderReads(f: seq<byte>, crc: Checksum, x: Piece)
    requires PieceIn(f, crc, x) && x.pos + HeaderSize <= |f| && |x.data| < BlockSize
    ensures LengthAt(f, x.pos) == |x.data| && f[x.pos + 6] == x.kind
    ensures x.End() <= |f| ==> ChecksumOk(f, crc, x.pos)
  {
    var b := f[x.pos..x.pos + HeaderSize];
    assert f[x.pos + 4] == b[4] && f[x.pos + 5] == b[5] && f[x.pos + 6] == b[6];
    if x.End() <= |f| {
      ChecksumReads(f, crc, x);
    }
  }

  lemma ChecksumReads(f: seq<byte>, crc: Checksum, x: Piece)
    requires PieceIn(f, crc, x) && x.End() <= |f| && LengthAt(f, x.pos) == |x.data| && f[x.pos + 6] == x.kind
    ensures ChecksumOk(f, crc, x.pos)
  {
    hide Unmask, Mask, FixedValue, Fixed, LengthAt, Header, PieceIn;
    var payload := [x.kind as byte] + x.data;
    BytesOfPiece(f, crc, x);
    FixedReadsBack(4, Mask(crc(payload)));
    assert Pow256(4) == 0x1_0000_0000;
    assert FixedValue(f[x.pos..x.pos + 4]) == Mask(crc(payload));
    UnmaskInverts(crc(payload));
  }

  /** The checksum of a piece in a file, and the bytes it covers. */
  lemma BytesOfPiece(f: seq<byte>, crc: Checksum, x: Piece)
    requires PieceIn(f, crc, x) && x.End() <= |f| && f[x.pos + 6] == x.kind
    ensures var payload := [x.kind as byte] + x.data;
            f[x.pos + 6..x.End()] == payload && f[x.pos..x.pos + 4] == Fixed(4, Mask(crc(payload)))
  {
    hide Mask, Fixed;
    var payload := [x.kind as byte] + x.data;
    assert f[x.pos + 6..x.End()] == [f[x.pos + 6]] + f[x.pos + HeaderSize..x.End()];
    assert f[x.pos..x.pos + 4] == f[x.pos..x.pos + HeaderSize][..4];
    assert Header(crc, x.kind, x.data)[..4] == Fixed(4, Mask(crc(payload)));
  }

  lemma PieceParses(f: seq<byte>, c: Config, x: Piece)
    requires PieceIn(f, c.crc, x) && x.End() <= |f| && Leftover(x.pos) >= HeaderSize && |x.data| <= Room(x.pos)
    ensures PhysicalAt(f, c, x.pos)
            == if x.pos < c.initial then Physical(BadType, x.pos, [], x.End(), None)
               else Physical(x.kind, x.pos, x.data, x.End(), None)
  {
    HeaderReads(f, c.crc, x);
    hide LengthAt, ChecksumOk, Leftover;
  }

  /** Reading where the writer stood finds the piece it wrote. */
  lemma PieceReads(f: seq<byte>, c: Config, p: nat, x: Piece)
    requires PieceIn(f, c.crc, x) && x.End() <= |f| && x.pos == Align(p) && |x.data| <= Room(x.pos)
    ensures PhysicalAt(f, c, p)
            == if x.pos < c.initial then Physical(BadType, x.pos, [], x.End(), None)
               else Physical(x.kind, x.pos, x.data, x.End(), None)
  {
    PieceParses(f, c, x);
    if p < x.pos {
      Trailer(f, c, p);
    }
  }

  /** A piece cut short reads as the end of the log. */
  lemma TornReads(f: seq<byte>, c: Config, p: nat, x: Piece)
    requires PieceIn(f, c.crc, x) && p <= |f| < x.End() && x.pos == Align(p) && |x.data| <= Room(x.pos)
    ensures PhysicalAt(f, c, p).kind == EofType && PhysicalAt(f, c, p).drop == None
  {
    if x.pos + HeaderSize <= |f| {
      HeaderReads(f, c.crc, x);
    }
    if p < x.pos <= |f| {
      Trailer(f, c, p);
    }
  }

  lemma EndReads(f: seq<byte>, c: Config)
    ensures PhysicalAt(f, c, |f|).kind == EofType && PhysicalAt(f, c, |f|).drop == None
  {
  }

  // ---- Reading one record ----

  ghost function First(left: seq<byte>, q: nat, begin: bool): Piece
    requires Leftover(q) >= HeaderSize
  {
    Piece(q, KindOf(begin, |left| <= Room(q)), if |left| <= Room(q) then left else left[..Room(q)])
  }

  /** A record's pieces, one at a time. */
  lemma PiecesUnfold(p: nat, r: seq<byte>, begin: bool)
    ensures var x := First(r, Align(p), begin);
            && Pieces(p, r, begin)[0] == x
            && (|r| <= Room(x.pos) ==> Pieces(p, r, begin) == [x] && EndOf(p, Pieces(p, r, begin)) == x.End())
            && (|r| > Room(x.pos) ==>
                  && Pieces(p, r, begin)[1..] == Pieces(x.End(), r[Room(x.pos)..], false)
                  && EndOf(p, Pieces(p, r, begin)) == EndOf(x.End(), Pieces(x.End(), r[Room(x.pos)..], false))
                  && EndOf(p, Pieces(p, r, begin)) > x.End())
  {
    if |r| > Room(Align(p)) {
      var x := First(r, Align(p), begin);
      PiecesChained(x.End(), r[Room(x.pos)..], false);
      EndAfterStart(x.End(), r[Room(x.pos)..], false);
    }
  }

  lemma {:induction false} EndAfterStart(p: nat, r: seq<byte>, begin: bool)
    ensures EndOf(p, Pieces(p, r, begin)) > p
    decreases |r|, if Room(Align(p)) == 0 then 1 else 0
  {
    var q := Align(p);
    if |r| > Room(q) {
      EndAfterStart(q + HeaderSize + Room(q), r[Room(q)..], false);
    }
  }

  lemma WrittenTail(f: seq<byte>, crc: Checksum, ps: seq<Piece>)
    requires Written(f, crc, ps) && |ps| > 0
    ensures PieceIn(f, crc, ps[0]) && Written(f, crc, ps[1..])
  {
    forall i: nat | i < |ps| - 1 ensures PieceIn(f, crc, ps[1..][i]) {
      assert PieceIn(f, crc, ps[i + 1]);
    }
  }

  /** What can be in progress before the pieces of a record, or of the rest of one. */
  ghost predicate Midway(a: Assembly, begin: bool) {
    if begin then !a.inside && a.scratch == [] else a.inside && !a.resync
  }

  /** What is in progress after a piece of a record. */
  ghost function After(a: Assembly, x: Piece, begin: bool): Assembly {
    if begin then Assembly(false, true, x.data, x.pos) else a.(scratch := a.scratch + x.data)
  }

  ghost function AsRead(x: Piece): Physical { Physical(x.kind, x.pos, x.data, x.End(), None) }

  /** One piece of a record, read in its turn, completes the record or leads on. */
  lemma PieceAssembles(f: seq<byte>, c: Config, p: nat, x: Piece, begin: bool, end: bool, a: Assembly)
    requires PhysicalAt(f, c, p) == AsRead(x) && x.kind == KindOf(begin, end) && Midway(a, begin)
    ensures end ==>
              ReadFrom(f, c, p, a)
                  == Reading(Some(a.scratch + x.data), if begin then x.pos else a.start, x.End(), false, [])
    ensures !end ==> ReadFrom(f, c, p, a) == ReadFrom(f, c, x.End(), After(a, x, begin))
  {
    hide PhysicalAt;
    assert begin ==> a.scratch + x.data == x.data;
    if !end {
      var r := ReadFrom(f, c, x.End(), After(a, x, begin));
      assert Assembled(a, AsRead(x)) == After(a, x, begin);
      assert [] + r.drops == r.drops;
    }
  }

  /** Reading a record that is there gives it back, with nothing reported. */
  lemma {:induction false} RecordReads(f: seq<byte>, c: Config, p: nat, r: seq<byte>, begin: bool, a: Assembly)
    requires Written(f, c.crc, Pieces(p, r, begin)) && EndOf(p, Pieces(p, r, begin)) <= |f|
    requires c.initial <= Align(p) && Midway(a, begin)
    ensures ReadFrom(f, c, p, a)
            == Reading(Some(a.scratch + r), if begin then Align(p) else a.start,
                       EndOf(p, Pieces(p, r, begin)), false, [])
    decreases |r|, if Room(Align(p)) == 0 then 1 else 0
  {
    hide PhysicalAt, ReadFrom, Pieces, Written, Align, Leftover, PieceIn, KindOf;
    var x := First(r, Align(p), begin);
    PiecesUnfold(p, r, begin);
    WrittenTail(f, c.crc, Pieces(p, r, begin));
    PieceReads(f, c, p, x);
    PieceAssembles(f, c, p, x, begin, |r| <= Room(x.pos), a);
    assert begin ==> a.scratch + r == r;
    if |r| > Room(x.pos) {
      assert x.data + r[Room(x.pos)..] == r;
      Associative(a.scratch, x.data, r[Room(x.pos)..]);
      RoomAfterEmpty(p);
      RecordReads(f, c, x.End(), r[Room(x.pos)..], false, After(a, x, begin));
    }
  }

  lemma EofEnds(f: seq<byte>, c: Config, p: nat, a: Assembly)
    requires PhysicalAt(f, c, p).kind == EofType && PhysicalAt(f, c, p).drop == None
    ensures ReadFrom(f, c, p, a).record == None && ReadFrom(f, c, p, a).drops == []
  {
  }

  /** Reading a record cut short ends the log, with nothing reported. */
  lemma {:induction false} RecordTorn(f: seq<byte>, c: Config, p: nat, r: seq<byte>, begin: bool, a: Assembly)
    requires Written(f, c.crc, Pieces(p, r, begin)) && p <= |f| < EndOf(p, Pieces(p, r, begin))
    requires c.initial <= Align(p) && Midway(a, begin)
    ensures ReadFrom(f, c, p, a).record == None && ReadFrom(f, c, p, a).drops == []
    decreases |r|, if Room(Align(p)) == 0 then 1 else 0
  {
    hide PhysicalAt, ReadFrom, Pieces, Written, Align, Leftover, PieceIn, KindOf;
    var x := First(r, Align(p), begin);
    PiecesUnfold(p, r, begin);
    WrittenTail(f, c.crc, Pieces(p, r, begin));
    if |f| < x.End() {
      TornReads(f, c, p, x);
      EofEnds(f, c, p, a);
    } else {
      PieceReads(f, c, p, x);
      PieceAssembles(f, c, p, x, begin, false, a);
      RoomAfterEmpty(p);
      RecordTorn(f, c, x.End(), r[Room(x.pos)..], false, After(a, x, begin));
    }
  }

  // ---- The round trip ----

  lemma {:induction false} AllPiecesFront(p: nat, r: seq<byte>, rs: seq<seq<byte>>)
    ensures var ps := Pieces(p, r, true);
            AllPieces(p, [r] + rs) == ps + AllPieces(EndOf(p, ps), rs)
  {
    var ps := Pieces(p, r, true);
    AllPiecesAppend(p, [r], rs);
    assert [r][..0] == [] && AllPieces(p, [r]) == AllPieces(p, []) + ps == ps;
  }

  /** Each record with the position of its first header. */
  function Located(p: nat, rs: seq<seq<byte>>): seq<(seq<byte>, nat)>
    decreases |rs|
  {
    if |rs| == 0 then [] else [(rs[0], Align(p))] + Located(EndOf(p, Pieces(p, rs[0], true)), rs[1..])
  }

  /** How many records, written from p on, lie wholly below m. */
  function Whole(p: nat, rs: seq<seq<byte>>, m: nat): (n: nat)
    ensures n <= |rs|
    decreases |rs|
  {
    if |rs| == 0 || EndOf(p, Pieces(p, rs[0], true)) > m then 0
    else 1 + Whole(EndOf(p, Pieces(p, rs[0], true)), rs[1..], m)
  }

  /** The records that are whole are read, and nothing is reported, wherever the file ends. */
  lemma {:induction false} ReadsWhole(f: seq<byte>, c: Config, p: nat, rs: seq<seq<byte>>)
    requires Written(f, c.crc, AllPieces(p, rs)) && p <= |f| <= EndOf(p, AllPieces(p, rs)) && c.initial <= Align(p)
    ensures ReadAll(f, c, p, false) == (Located(p, rs[..Whole(p, rs, |f|)]), [])
    decreases |rs|
  {
    hide PhysicalAt, ReadFrom, Written, Pieces, Align, AllPieces, EndOf, ReadAll;
    if |rs| == 0 {
      EmptyEnds(f, c, p);
    } else {
      var ps := Pieces(p, rs[0], true);
      var q := EndOf(p, ps);
      SplitFirst(f, c.crc, p, rs);
      if q <= |f| {
        RecordReads(f, c, p, rs[0], true, Outside);
        assert [] + rs[0] == rs[0];
        ReadsWhole(f, c, q, rs[1..]);
        var n := Whole(q, rs[1..], |f|);
        ReadsOneMore(f, c, p, rs[0], Align(p), q, Located(q, rs[1..][..n]));
        assert rs[..n + 1][1..] == rs[1..][..n] && rs[..n + 1][0] == rs[0];
      } else {
        RecordTorn(f, c, p, rs[0], true, Outside);
        NoMore(f, c, p);
      }
    }
  }

  lemma EmptyEnds(f: seq<byte>, c: Config, p: nat)
    requires p <= |f| <= EndOf(p, AllPieces(p, []))
    ensures ReadAll(f, c, p, false) == ([], [])
  {
    EndReads(f, c);
    EofEnds(f, c, p, Outside);
  }

  lemma SplitFirst(f: seq<byte>, crc: Checksum, p: nat, rs: seq<seq<byte>>)
    requires |rs| > 0 && Written(f, crc, AllPieces(p, rs))
    ensures var ps := Pieces(p, rs[0], true);
            && Written(f, crc, ps) && Written(f, crc, AllPieces(EndOf(p, ps), rs[1..]))
            && EndOf(p, AllPieces(p, rs)) == EndOf(EndOf(p, ps), AllPieces(EndOf(p, ps), rs[1..]))
            && EndOf(p, ps) >= Align(p)
  {
    hide Pieces, AllPieces, Written, EndOf, Align, Leftover;
    var ps := Pieces(p, rs[0], true);
    var rest := AllPieces(EndOf(p, ps), rs[1..]);
    assert [rs[0]] + rs[1..] == rs;
    AllPiecesFront(p, rs[0], rs[1..]);
    WrittenParts(f, crc, ps, rest);
    EndOfAppend(p, ps, rest);
    PiecesUnfold(p, rs[0], true);
  }

  lemma ReadsOneMore(f: seq<byte>, c: Config, p: nat, r: seq<byte>, start: nat, q: nat, rest: seq<(seq<byte>, nat)>)
    requires ReadFrom(f, c, p, Outside) == Reading(Some(r), start, q, false, [])
    requires ReadAll(f, c, q, false) == (rest, [])
    ensures ReadAll(f, c, p, false) == ([(r, start)] + rest, [])
  {
    assert Outside.(resync := false) == Outside;
    assert ReadAll(f, c, p, false).1 == [];
  }

  lemma NoMore(f: seq<byte>, c: Config, p: nat)
    requires ReadFrom(f, c, p, Outside).record.None? && ReadFrom(f, c, p, Outside).drops == []
    ensures ReadAll(f, c, p, false) == ([], [])
  {
    assert Outside.(resync := false) == Outside;
  }

  lemma WrittenParts(f: seq<byte>, crc: Checksum, a: seq<Piece>, b: seq<Piece>)
    requires Written(f, crc, a + b)
    ensures Written(f, crc, a) && Written(f, crc, b)
  {
    forall i: nat | i < |a| ensures PieceIn(f, crc, a[i]) {
      assert PieceIn(f, crc, (a + b)[i]);
    }
    forall i: nat | i < |b| ensures PieceIn(f, crc, b[i]) {
      assert PieceIn(f, crc, (a + b)[|a| + i]);
    }
  }

  lemma {:induction false} WholeSplits(p: nat, rs: seq<seq<byte>>, m: nat)
    requires p <= m
    ensures var n := Whole(p, rs, m);
            && EndOf(p, AllPieces(p, rs[..n])) <= m
            && (n < |rs| ==> m < EndOf(p, AllPieces(p, rs[..n + 1])))
    decreases |rs|
  {
    var n := Whole(p, rs, m);
    if |rs| > 0 {
      var ps := Pieces(p, rs[0], true);
      var q := EndOf(p, ps);
      if q <= m {
        WholeSplits(q, rs[1..], m);
        EndsLater(p, rs, n);
        if n < |rs| {
          EndsLater(p, rs, n + 1);
        }
      } else {
        EndsLater(p, rs, 1);
        assert rs[..0] == [] && rs[1..][..0] == [];
      }
    }
  }

  lemma EndsLater(p: nat, rs: seq<seq<byte>>, n: nat)
    requires 0 < n <= |rs|
    ensures var q := EndOf(p, Pieces(p, rs[0], true));
            EndOf(p, AllPieces(p, rs[..n])) == EndOf(q, AllPieces(q, rs[1..][..n - 1]))
  {
    var ps := Pieces(p, rs[0], true);
    assert rs[..n] == [rs[0]] + rs[1..][..n - 1];
    AllPiecesFront(p, rs[0], rs[1..][..n - 1]);
    EndOfAppend(p, ps, AllPieces(EndOf(p, ps), rs[1..][..n - 1]));
  }

  /** However short a written file is cut, reading it gives the records that are wholly there, with
      their positions, and reports nothing. */
  lemma TornTail(crc: Checksum, checksum: bool, rs: seq<seq<byte>>, m: nat) returns (n: nat)
    requires m <= |FileOf(crc, rs)|
    ensures n <= |rs| && |FileOf(crc, rs[..n])| <= m && (n < |rs| ==> m < |FileOf(crc, rs[..n + 1])|)
    ensures Log(FileOf(crc, rs)[..m], Config(crc, checksum, 0)) == (Located(0, rs[..n]), [])
  {
    var f := FileOf(crc, rs)[..m];
    n := Whole(0, rs, m);
    FileHolds(crc, rs);
    CutStillWritten(FileOf(crc, rs), crc, AllPieces(0, rs), m);
    FileIs(crc, rs, AllPieces(0, rs));
    WholeSplits(0, rs, m);
    FileIs(crc, rs[..n], AllPieces(0, rs[..n]));
    if n < |rs| {
      FileIs(crc, rs[..n + 1], AllPieces(0, rs[..n + 1]));
    }
    ReadsWhole(f, Config(crc, checksum, 0), 0, rs);
  }

  /** A whole file reads back as the records that were written. */
  lemma RoundTrip(crc: Checksum, checksum: bool, rs: seq<seq<byte>>)
    ensures Log(FileOf(crc, rs), Config(crc, checksum, 0)) == (Located(0, rs), [])
  {
    var n := TornTail(crc, checksum, rs, |FileOf(crc, rs)|);
    if n < |rs| {
      FilesGrow(crc, rs, n + 1);
    }
    assert rs[..n] == rs;
    assert FileOf(crc, rs)[..|FileOf(crc, rs)|] == FileOf(crc, rs);
  }

  lemma {:induction false} FilesGrow(crc: Checksum, rs: seq<seq<byte>>, n: nat)
    requires n <= |rs|
    ensures |FileOf(crc, rs[..n])| <= |FileOf(crc, rs)|
    decreases |rs| - n
  {
    if n == |rs| {
      assert rs[..n] == rs;
    } else {
      assert rs[..n + 1] == rs[..n] + [rs[n]];
      FileGrows(crc, rs[..n], rs[n]);
      FilesGrow(crc, rs, n + 1);
    }
  }
}
