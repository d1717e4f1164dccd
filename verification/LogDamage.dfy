/** Reading from the middle of a log, reading a damaged one, and writing on behind a torn one. */
module LogDamage {
  import opened Wrappers
  import opened Coding
  import opened LogFormat
  import opened LogReader
  import opened LogTheorems

  // ---- Starting in the middle ----

  /** The records that begin at `initial` or later. */
  function From(located: seq<(seq<byte>, nat)>, initial: nat): seq<(seq<byte>, nat)> {
    if |located| == 0 then []
    else (if located[0].1 >= initial then [located[0]] else []) + From(located[1..], initial)
  }

  /** Two places to read from that give the same records. */
  ghost predicate SameFrom(f: seq<byte>, c: Config, p: nat, a: Assembly, q: nat, b: Assembly) {
    var r, t := ReadFrom(f, c, p, a), ReadFrom(f, c, q, b);
    r.record == t.record && r.start == t.start && r.next == t.next
  }

  /** A piece of a record whose beginning was not read is passed over. */
  lemma PieceSkipped(f: seq<byte>, c: Config, p: nat, x: Piece, resync: bool) returns (b: bool)
    requires PhysicalAt(f, c, p) == AsRead(x) || PhysicalAt(f, c, p) == Physical(BadType, x.pos, [], x.End(), None)
    requires x.kind == MiddleType || x.kind == LastType
             || (FullType <= x.kind <= FirstType && PhysicalAt(f, c, p).kind == BadType)
    ensures SameFrom(f, c, p, Outside.(resync := resync), x.End(), Outside.(resync := b)) && (!resync ==> !b)
  {
    hide PhysicalAt;
    var y := PhysicalAt(f, c, p);
    var a := Outside.(resync := resync);
    b := Assembled(a, y).resync;
    assert Assembled(a, y) == Outside.(resync := b);
  }

  /** What is left of such a record is passed over. */
  lemma {:induction false} RestSkipped(f: seq<byte>, c: Config, p: nat, r: seq<byte>, resync: bool) returns (b: bool)
    requires Written(f, c.crc, Pieces(p, r, false)) && EndOf(p, Pieces(p, r, false)) <= |f|
    ensures SameFrom(f, c, p, Outside.(resync := resync), EndOf(p, Pieces(p, r, false)), Outside.(resync := b))
    ensures !resync ==> !b
    decreases |r|, if Room(Align(p)) == 0 then 1 else 0
  {
    hide PhysicalAt, ReadFrom, Pieces, Written, Align, Leftover, PieceIn;
    var x := First(r, Align(p), false);
    PiecesUnfold(p, r, false);
    WrittenTail(f, c.crc, Pieces(p, r, false));
    PieceReads(f, c, p, x);
    b := PieceSkipped(f, c, p, x, resync);
    if |r| > Room(x.pos) {
      RoomAfterEmpty(p);
      b := RestSkipped(f, c, x.End(), r[Room(x.pos)..], b);
    }
  }

  lemma SameRecords(f: seq<byte>, c: Config, p: nat, resync: bool, q: nat, b: bool)
    requires SameFrom(f, c, p, Outside.(resync := resync), q, Outside.(resync := b))
    ensures ReadAll(f, c, p, resync).0 == ReadAll(f, c, q, b).0
  {
  }

  /** From the end of a record on, every record that begins late enough is read. */
  lemma {:induction false} FromBoundary(f: seq<byte>, c: Config, p: nat, rs: seq<seq<byte>>, resync: bool)
    requires Written(f, c.crc, AllPieces(p, rs)) && |f| == EndOf(p, AllPieces(p, rs)) && p <= |f|
    ensures ReadAll(f, c, p, resync).0 == From(Located(p, rs), c.initial)
    decreases |rs|
  {
    hide PhysicalAt, ReadFrom, Written, Pieces, Align, AllPieces, EndOf, ReadAll, SameFrom;
    if |rs| == 0 {
      EmptyRest(f, c, p, rs, resync);
    } else {
      var ps := Pieces(p, rs[0], true);
      var q := EndOf(p, ps);
      SplitFirst(f, c.crc, p, rs);
      EndsWithin(q, rs[1..]);
      if Align(p) >= c.initial {
        RecordReads(f, c, p, rs[0], true, Outside.(resync := resync));
        assert [] + rs[0] == rs[0];
        FromBoundary(f, c, q, rs[1..], false);
        FirstOfAll(f, c, p, resync, rs[0], Align(p), q);
      } else {
        var b := EarlySkipped(f, c, p, rs[0], resync);
        SameRecords(f, c, p, resync, q, b);
        FromBoundary(f, c, q, rs[1..], b);
        assert [] + From(Located(q, rs[1..]), c.initial) == From(Located(q, rs[1..]), c.initial);
      }
    }
  }

  lemma EmptyRest(f: seq<byte>, c: Config, p: nat, rs: seq<seq<byte>>, resync: bool)
    requires |rs| == 0 && |f| == EndOf(p, AllPieces(p, rs))
    ensures ReadAll(f, c, p, resync).0 == []
  {
    PastEnd(f, c, p, resync);
  }

  lemma PastEnd(f: seq<byte>, c: Config, p: nat, resync: bool)
    requires |f| <= p
    ensures ReadAll(f, c, p, resync).0 == []
  {
    if p == |f| {
      EndReads(f, c);
    }
    EofEnds(f, c, p, Outside.(resync := resync));
  }

  lemma EndsWithin(p: nat, rs: seq<seq<byte>>)
    ensures p <= EndOf(p, AllPieces(p, rs))
    decreases |rs|
  {
    AllChained(p, rs);
    var ps := AllPieces(p, rs);
    if |ps| > 0 {
      EndsAscend(p, ps, 0, |ps| - 1);
      assert Placed(p, ps, 0);
    }
  }

  lemma FirstOfAll(f: seq<byte>, c: Config, p: nat, resync: bool, r: seq<byte>, start: nat, q: nat)
    requires ReadFrom(f, c, p, Outside.(resync := resync)) == Reading(Some(r), start, q, false, [])
    ensures ReadAll(f, c, p, resync).0 == [(r, start)] + ReadAll(f, c, q, false).0
  {
  }

  /** A record that begins too early is passed over. */
  lemma EarlySkipped(f: seq<byte>, c: Config, p: nat, r: seq<byte>, resync: bool) returns (b: bool)
    requires Written(f, c.crc, Pieces(p, r, true)) && EndOf(p, Pieces(p, r, true)) <= |f| && Align(p) < c.initial
    ensures SameFrom(f, c, p, Outside.(resync := resync), EndOf(p, Pieces(p, r, true)), Outside.(resync := b))
  {
    hide PhysicalAt, ReadFrom, Pieces, Written, Align, Leftover, PieceIn;
    var x := First(r, Align(p), true);
    PiecesUnfold(p, r, true);
    WrittenTail(f, c.crc, Pieces(p, r, true));
    PieceReads(f, c, p, x);
    b := PieceSkipped(f, c, p, x, resync);
    if |r| > Room(x.pos) {
      b := RestSkipped(f, c, x.End(), r[Room(x.pos)..], b);
    }
  }

  lemma BlockStartAligns(p: nat, s: nat)
    requires s % BlockSize == 0 && p <= s
    ensures Align(s) == s && (s <= Align(p) ==> Align(p) == s) && (s > Align(p) ==> Align(p) + Leftover(Align(p)) <= s)
  {
    var q := Align(p);
    var k, j := q / BlockSize, s / BlockSize;
    assert q + Leftover(q) == (k + 1) * BlockSize && s == j * BlockSize;
    if s > q {
      assert j * BlockSize > k * BlockSize;
      assert j >= k + 1;
    }
    if p < s <= q {
      var i := p / BlockSize;
      assert q == (i + 1) * BlockSize && p >= i * BlockSize;
      assert j * BlockSize > i * BlockSize;
    }
  }

  /** A block that begins inside a record begins with one of its later pieces. */
  lemma {:induction false} BlockInside(f: seq<byte>, crc: Checksum, p: nat, r: seq<byte>, begin: bool, s: nat)
    returns (p': nat, r': seq<byte>)
    requires Written(f, crc, Pieces(p, r, begin)) && Align(p) < s < EndOf(p, Pieces(p, r, begin)) && s % BlockSize == 0
    ensures Align(p') == s && Written(f, crc, Pieces(p', r', false))
    ensures EndOf(p', Pieces(p', r', false)) == EndOf(p, Pieces(p, r, begin))
    decreases |r|, if Room(Align(p)) == 0 then 1 else 0
  {
    hide Pieces, Written, Align, PieceIn;
    var x := First(r, Align(p), begin);
    PiecesUnfold(p, r, begin);
    WrittenTail(f, crc, Pieces(p, r, begin));
    BlockStartAligns(p, s);
    RoomAfterEmpty(p);
    p', r' := x.End(), r[Room(x.pos)..];
    if x.End() <= s {
      BlockStartAligns(x.End(), s);
    }
    if Align(x.End()) < s {
      p', r' := BlockInside(f, crc, p', r', false, s);
    }
  }

  /** Reading from where a header would go is reading from there. */
  lemma ReadAtAlign(f: seq<byte>, c: Config, p: nat, a: Assembly)
    requires Align(p) < |f|
    ensures ReadFrom(f, c, p, a) == ReadFrom(f, c, Align(p), a)
  {
    if p < Align(p) {
      Trailer(f, c, p);
    }
  }

  lemma AllAtAlign(f: seq<byte>, c: Config, p: nat, resync: bool)
    requires Align(p) < |f|
    ensures ReadAll(f, c, p, resync) == ReadAll(f, c, Align(p), resync)
  {
    ReadAtAlign(f, c, p, Outside.(resync := resync));
  }

  /** From the start of any block, every record that begins late enough is read, if the records
      lying before the block are too early. */
  lemma {:induction false} FromBlock(f: seq<byte>, c: Config, p: nat, rs: seq<seq<byte>>, s: nat)
    requires Written(f, c.crc, AllPieces(p, rs)) && |f| == EndOf(p, AllPieces(p, rs))
    requires p <= s && s % BlockSize == 0 && s < c.initial + HeaderSize
    ensures ReadAll(f, c, s, true).0 == From(Located(p, rs), c.initial)
    decreases |rs|
  {
    hide PhysicalAt, ReadFrom, Written, Pieces, AllPieces, EndOf, ReadAll, SameFrom, Align, Leftover;
    if |rs| == 0 {
      NothingBehind(f, c, p, rs, s);
    } else {
      var ps := Pieces(p, rs[0], true);
      var q := EndOf(p, ps);
      SplitFirst(f, c.crc, p, rs);
      EndsWithin(q, rs[1..]);
      PiecesUnfold(p, rs[0], true);
      assert [] + From(Located(q, rs[1..]), c.initial) == From(Located(q, rs[1..]), c.initial);
      BlockStartAligns(p, s);
      if q <= s {
        FromBlock(f, c, q, rs[1..], s);
      } else if Align(p) < s {
        var p', r' := BlockInside(f, c.crc, p, rs[0], true, s);
        FromInside(f, c, p', r', s, q, rs[1..]);
      } else {
        AllAtAlign(f, c, p, true);
        FromBoundary(f, c, p, rs, true);
      }
    }
  }

  lemma NothingBehind(f: seq<byte>, c: Config, p: nat, rs: seq<seq<byte>>, s: nat)
    requires |rs| == 0 && |f| == EndOf(p, AllPieces(p, rs)) && p <= s
    ensures ReadAll(f, c, s, true).0 == From(Located(p, rs), c.initial)
  {
    PastEnd(f, c, s, true);
  }

  lemma FromInside(f: seq<byte>, c: Config, p: nat, r: seq<byte>, s: nat, q: nat, rs: seq<seq<byte>>)
    requires Align(p) == s && Written(f, c.crc, Pieces(p, r, false)) && EndOf(p, Pieces(p, r, false)) == q
    requires Written(f, c.crc, AllPieces(q, rs)) && |f| == EndOf(q, AllPieces(q, rs)) && q <= |f|
    ensures ReadAll(f, c, s, true).0 == From(Located(q, rs), c.initial)
  {
    hide PhysicalAt, ReadFrom, Written, Pieces, AllPieces, EndOf, ReadAll, SameFrom;
    PiecesUnfold(p, r, false);
    AllAtAlign(f, c, p, true);
    var b := RestSkipped(f, c, p, r, true);
    SameRecords(f, c, p, true, q, b);
    FromBoundary(f, c, q, rs, b);
  }

  /** A fresh reader told to begin at `initial` returns exactly the records whose first header lies
      there or later, in order, with the positions of those headers. */
  lemma MidFileStart(crc: Checksum, checksum: bool, rs: seq<seq<byte>>, initial: nat)
    ensures Log(FileOf(crc, rs), Config(crc, checksum, initial)).0 == From(Located(0, rs), initial)
  {
    var f, c := FileOf(crc, rs), Config(crc, checksum, initial);
    FileHolds(crc, rs);
    FileIs(crc, rs, AllPieces(0, rs));
    if initial > 0 {
      StartsBlock(initial);
      FromBlock(f, c, 0, rs, FirstBlock(initial));
    } else {
      FromBoundary(f, c, 0, rs, false);
    }
  }

  // ---- Writing on behind a torn record ----

  /** A writer that goes on behind the first six bytes of a torn header loses what it writes: the old
      length covers the new record, which is then taken for the torn one, and nothing is reported. */
  lemma TornReuseLosesRecord(crc: Checksum, checksum: bool, torn: seq<byte>, s: seq<byte>)
    requires |s| + 6 < |torn| <= BlockSize - HeaderSize
    ensures |FileOf(crc, [torn])| >= 6
    ensures var f := FileOf(crc, [torn])[..6];
            Log(f + RecordBytes(crc, 6, s), Config(crc, checksum, 0)) == ([], [])
  {
    var whole, c := FileOf(crc, [torn]), Config(crc, checksum, 0);
    SinglePiece(crc, torn);
    var f := whole[..6] + RecordBytes(crc, 6, s);
    assert Pieces(6, s, true) == [Piece(6, FullType, s)];
    PiecesChained(6, s, true);
    assert |f| == 13 + |s|;
    assert f[4] == whole[4] && f[5] == whole[5];
    assert LengthAt(f, 0) == LengthAt(whole, 0) == |torn|;
    assert PhysicalAt(f, c, 0) == Physical(EofType, 0, [], |f|, None);
    EofEnds(f, c, 0, Outside);
    NoMore(f, c, 0);
  }

  lemma SinglePiece(crc: Checksum, r: seq<byte>)
    requires |r| <= BlockSize - HeaderSize
    ensures |FileOf(crc, [r])| == HeaderSize + |r| && LengthAt(FileOf(crc, [r]), 0) == |r|
  {
    assert [] + [r] == [r];
    MorePieces(0, [], r);
    var x := Piece(0, FullType, r);
    assert AllPieces(0, [r]) == [x];
    FileIs(crc, [r], [x]);
    FileHolds(crc, [r]);
    assert PieceIn(FileOf(crc, [r]), crc, x);
    HeaderReads(FileOf(crc, [r]), crc, x);
  }
}
