/** What a damaged fragment costs: the rest of its block, which is reported, and the records that touch it. */
module LogLoss {
  import opened Wrappers
  import opened Coding
  import opened LogFormat
  import opened LogReader
  import opened LogTheorems
  import opened LogDamage

  /** A reader that begins at the beginning and checks checksums. */
  function Checking(crc: Checksum): Config { Config(crc, true, 0) }

  /** The header at p has a length that leads out of its block, which goes on to the end, or a checksum that
      does not hold; a header of zeros is taken for space set aside and not for damage. */
  predicate Spoilt(f: seq<byte>, crc: Checksum, p: nat) {
    var e := BlockEnd(f, p);
    && p + HeaderSize <= e <= |f|
    && if p + HeaderSize + LengthAt(f, p) > e then FullBlock(f, p)
       else !(f[p + 6] == ZeroType && LengthAt(f, p) == 0) && !ChecksumOk(f, crc, p)
  }

  lemma SpoiltParses(f: seq<byte>, crc: Checksum, p: nat)
    requires Spoilt(f, crc, p)
    ensures var e := BlockEnd(f, p); PhysicalAt(f, Checking(crc), p) == Physical(BadType, p, [], e, Some(e - p))
  {
    hide LengthAt, ChecksumOk;
  }

  // ---- Sizes of fragments ----

  function Total(ps: seq<Piece>, n: nat): nat
    requires n <= |ps|
  {
    if n == 0 then 0 else Total(ps, n - 1) + |ps[n - 1].data|
  }

  lemma {:induction false} TotalFront(ps: seq<Piece>, n: nat)
    requires 0 < n <= |ps|
    ensures Total(ps, n) == |ps[0].data| + Total(ps[1..], n - 1)
    decreases n
  {
    if n > 1 {
      TotalFront(ps, n - 1);
      assert ps[1..][n - 2] == ps[n - 1];
    }
  }

  /** The payloads of the fragments that begin at s or later. */
  function Sizes(ps: seq<Piece>, s: nat): seq<nat> {
    if |ps| == 0 then [] else (if ps[0].pos >= s then [|ps[0].data|] else []) + Sizes(ps[1..], s)
  }

  /** The fragments from s on of the records that began before. */
  function Orphans(p: nat, rs: seq<seq<byte>>, s: nat): seq<nat>
    decreases |rs|
  {
    if |rs| == 0 then []
    else
      var ps := Pieces(p, rs[0], true);
      (if Align(p) < s then Sizes(ps, s) else []) + Orphans(EndOf(p, ps), rs[1..], s)
  }

  // ---- Reading on from the next block ----

  /** Outside a record it does not matter where the last one began. */
  lemma {:induction false} ForgetsStart(f: seq<byte>, c: Config, p: nat, start: nat)
    ensures ReadFrom(f, c, p, Outside.(start := start)) == ReadFrom(f, c, p, Outside)
    decreases |f| - p
  {
    hide PhysicalAt;
    var x := PhysicalAt(f, c, p);
    if x.kind != EofType && x.kind != FullType && x.kind != FirstType {
      ForgetsStart(f, c, x.next, start);
    }
  }

  lemma SameBytes(f: seq<byte>, g: seq<byte>, p: nat, a: nat, b: nat)
    requires |f| == |g| && p <= a <= b <= |f| && f[p..] == g[p..]
    ensures f[a..b] == g[a..b]
  {
    assert forall i | a <= i < b :: f[i] == f[p..][i - p] && g[i] == g[p..][i - p];
  }

  lemma SameByte(f: seq<byte>, g: seq<byte>, p: nat, a: nat)
    requires |f| == |g| && p <= a < |f| && f[p..] == g[p..]
    ensures f[a] == g[a]
  {
    assert f[a] == f[p..][a - p] && g[a] == g[p..][a - p];
  }

  lemma SameParse(f: seq<byte>, g: seq<byte>, c: Config, p: nat, e: nat, full: bool)
    requires |f| == |g| && p + HeaderSize <= e <= |f| && f[p..] == g[p..]
    ensures Parse(f, c, p, e, full) == Parse(g, c, p, e, full)
  {
    SameByte(f, g, p, p + 4);
    SameByte(f, g, p, p + 5);
    SameByte(f, g, p, p + 6);
    var next := p + HeaderSize + LengthAt(f, p);
    if next <= e {
      SameBytes(f, g, p, p, p + 4);
      SameBytes(f, g, p, p + 6, next);
      SameBytes(f, g, p, p + HeaderSize, next);
    }
  }

  /** A reader looks only at what is before it. */
  lemma {:induction false} SamePhysical(f: seq<byte>, g: seq<byte>, c: Config, p: nat)
    requires |f| == |g| && p <= |f| && f[p..] == g[p..]
    ensures PhysicalAt(f, c, p) == PhysicalAt(g, c, p)
    decreases |f| - p
  {
    hide Parse;
    var e := BlockEnd(f, p);
    if p + HeaderSize <= e {
      SameParse(f, g, c, p, e, FullBlock(f, p));
    } else if FullBlock(f, p) {
      SameBytes(f, g, p, e, |f|);
      SamePhysical(f, g, c, e);
    }
  }

  lemma {:induction false} SameReading(f: seq<byte>, g: seq<byte>, c: Config, p: nat, a: Assembly)
    requires |f| == |g| && p <= |f| && f[p..] == g[p..]
    ensures ReadFrom(f, c, p, a) == ReadFrom(g, c, p, a)
    decreases |f| - p
  {
    hide PhysicalAt;
    SamePhysical(f, g, c, p);
    var x := PhysicalAt(f, c, p);
    if x.kind != EofType {
      SameBytes(f, g, p, x.next, |f|);
      assert f[x.next..] == g[x.next..];
      SameReading(f, g, c, x.next, Assembled(a, x));
    }
  }

  lemma {:induction false} SameLog(f: seq<byte>, g: seq<byte>, c: Config, p: nat)
    requires |f| == |g| && p <= |f| && f[p..] == g[p..]
    ensures ReadAll(f, c, p, false) == ReadAll(g, c, p, false)
    decreases |f| - p
  {
    hide ReadFrom;
    SameReading(f, g, c, p, Outside);
    var r := ReadFrom(f, c, p, Outside);
    assert Outside.(resync := false) == Outside;
    if r.record.Some? {
      SameBytes(f, g, p, r.next, |f|);
      assert f[r.next..] == g[r.next..];
      SameLog(f, g, c, r.next);
    }
  }

  // ---- Fragments whose beginning is lost ----

  lemma OrphanRead(f: seq<byte>, crc: Checksum, p: nat, x: Piece)
    requires PieceIn(f, crc, x) && x.End() <= |f| && x.pos == Align(p) && |x.data| <= Room(x.pos)
    requires x.kind == MiddleType || x.kind == LastType
    ensures var c := Checking(crc);
            ReadAll(f, c, p, false)
            == (ReadAll(f, c, x.End(), false).0, [|x.data|] + ReadAll(f, c, x.End(), false).1)
  {
    hide PhysicalAt, Align, Leftover, Room, PieceIn;
    var c := Checking(crc);
    PieceReads(f, c, p, x);
    var y := PhysicalAt(f, c, p);
    assert Outside.(resync := false) == Outside && Assembled(Outside, y) == Outside;
    assert Reports(c, Outside, y) == [|x.data|];
    var r := ReadFrom(f, c, x.End(), Outside);
    assert [] + [|x.data|] == [|x.data|];
    assert ReadFrom(f, c, p, Outside) == r.(drops := [|x.data|] + r.drops);
    ReportsThen(f, c, p, x.End(), [|x.data|]);
  }

  /** The rest of a record is reported fragment by fragment. */
  lemma {:induction false} RestReported(f: seq<byte>, crc: Checksum, p: nat, r: seq<byte>)
    requires Written(f, crc, Pieces(p, r, false)) && EndOf(p, Pieces(p, r, false)) <= |f|
    ensures var c, q := Checking(crc), EndOf(p, Pieces(p, r, false));
            ReadAll(f, c, p, false)
            == (ReadAll(f, c, q, false).0, Sizes(Pieces(p, r, false), 0) + ReadAll(f, c, q, false).1)
    decreases |r|, if Room(Align(p)) == 0 then 1 else 0
  {
    hide PhysicalAt, ReadAll, Pieces, Written, Align, Leftover, PieceIn;
    var x, ps := First(r, Align(p), false), Pieces(p, r, false);
    PiecesUnfold(p, r, false);
    WrittenTail(f, crc, ps);
    OrphanRead(f, crc, p, x);
    assert Sizes(ps, 0) == [|x.data|] + Sizes(ps[1..], 0);
    if |r| > Room(x.pos) {
      RoomAfterEmpty(p);
      RestReported(f, crc, x.End(), r[Room(x.pos)..]);
      Associative([|x.data|], Sizes(ps[1..], 0), ReadAll(f, Checking(crc), EndOf(p, ps), false).1);
    } else {
      assert [|x.data|] + Sizes([], 0) == [|x.data|];
    }
  }

  lemma {:induction false} AllSizes(ps: seq<Piece>, s: nat)
    requires forall i: nat | i < |ps| :: ps[i].pos >= s
    ensures Sizes(ps, s) == Sizes(ps, 0)
    decreases |ps|
  {
    if |ps| > 0 {
      AllSizes(ps[1..], s);
    }
  }

  lemma {:induction false} NoSizes(ps: seq<Piece>, s: nat)
    requires forall i: nat | i < |ps| :: ps[i].pos < s
    ensures Sizes(ps, s) == []
    decreases |ps|
  {
    if |ps| > 0 {
      NoSizes(ps[1..], s);
    }
  }

  /** A block that begins inside a record begins with one of its later fragments. */
  lemma {:induction false} BlockWithin(f: seq<byte>, crc: Checksum, p: nat, r: seq<byte>, begin: bool, s: nat)
    returns (p': nat, r': seq<byte>)
    requires Written(f, crc, Pieces(p, r, begin)) && Align(p) < s < EndOf(p, Pieces(p, r, begin)) && s % BlockSize == 0
    ensures Align(p') == s && Written(f, crc, Pieces(p', r', false))
    ensures EndOf(p', Pieces(p', r', false)) == EndOf(p, Pieces(p, r, begin))
    ensures Sizes(Pieces(p, r, begin), s) == Sizes(Pieces(p', r', false), 0)
    decreases |r|, if Room(Align(p)) == 0 then 1 else 0
  {
    hide Pieces, Written, Align, PieceIn, Sizes;
    var x, ps := First(r, Align(p), begin), Pieces(p, r, begin);
    PiecesUnfold(p, r, begin);
    WrittenTail(f, crc, ps);
    BlockStartAligns(p, s);
    RoomAfterEmpty(p);
    p', r' := x.End(), r[Room(x.pos)..];
    SizesUnfold(ps, s);
    if x.End() <= s {
      BlockStartAligns(x.End(), s);
    }
    if Align(x.End()) < s {
      p', r' := BlockWithin(f, crc, p', r', false, s);
    } else {
      PiecesFrom(p', r');
      AllSizes(Pieces(p', r', false), s);
    }
  }

  lemma SizesUnfold(ps: seq<Piece>, s: nat)
    requires |ps| > 0 && ps[0].pos < s
    ensures Sizes(ps, s) == Sizes(ps[1..], s)
  {
  }

  lemma PiecesFrom(p: nat, r: seq<byte>)
    ensures forall i: nat | i < |Pieces(p, r, false)| :: Pieces(p, r, false)[i].pos >= Align(p)
  {
    PiecesChained(p, r, false);
    PiecesUnfold(p, r, false);
    forall i: nat | i < |Pieces(p, r, false)| ensures Pieces(p, r, false)[i].pos >= Align(p) {
      EndsAscend(p, Pieces(p, r, false), 0, i);
    }
  }

  lemma PiecesBelow(p: nat, r: seq<byte>)
    ensures forall i: nat | i < |Pieces(p, r, true)| :: Pieces(p, r, true)[i].pos < EndOf(p, Pieces(p, r, true))
  {
    var ps := Pieces(p, r, true);
    PiecesChained(p, r, true);
    forall i: nat | i < |ps| ensures ps[i].pos < EndOf(p, ps) {
      EndsAscend(p, ps, i, |ps| - 1);
    }
  }

  // ---- From a block on ----

  lemma {:induction false} AllLater(p: nat, rs: seq<seq<byte>>, s: nat)
    requires s <= Align(p)
    ensures From(Located(p, rs), s) == Located(p, rs) && Orphans(p, rs, s) == []
    decreases |rs|
  {
    if |rs| > 0 {
      var q := EndOf(p, Pieces(p, rs[0], true));
      PiecesUnfold(p, rs[0], true);
      EndAfterStart(p, rs[0], true);
      EndPastStart(p, rs[0]);
      AllLater(q, rs[1..], s);
      assert Located(p, rs) == [(rs[0], Align(p))] + Located(q, rs[1..]);
    }
  }

  lemma EndPastStart(p: nat, r: seq<byte>)
    ensures EndOf(p, Pieces(p, r, true)) > Align(p)
  {
    PiecesBelow(p, r);
    PiecesUnfold(p, r, true);
  }

  lemma {:induction false} WholeIsAll(p: nat, rs: seq<seq<byte>>)
    ensures Whole(p, rs, EndOf(p, AllPieces(p, rs))) == |rs|
    decreases |rs|
  {
    if |rs| > 0 {
      var q := EndOf(p, Pieces(p, rs[0], true));
      EndsLater(p, rs, |rs|);
      assert rs[..|rs|] == rs && rs[1..][..|rs| - 1] == rs[1..];
      EndsWithin(q, rs[1..]);
      WholeIsAll(q, rs[1..]);
    }
  }

  /** Records written to the end of the file are read, all of them. */
  lemma ReadsAll(f: seq<byte>, crc: Checksum, p: nat, rs: seq<seq<byte>>)
    requires Written(f, crc, AllPieces(p, rs)) && p <= |f| == EndOf(p, AllPieces(p, rs))
    ensures ReadAll(f, Checking(crc), p, false) == (Located(p, rs), [])
  {
    ReadsWhole(f, Checking(crc), p, rs);
    WholeIsAll(p, rs);
    assert rs[..|rs|] == rs;
  }

  /** A reader that begins with a block finds the records that begin there or later, and reports the
      fragments of one that began before. */
  lemma {:induction false} FromBlockOn(f: seq<byte>, crc: Checksum, p: nat, rs: seq<seq<byte>>, s: nat)
    requires Written(f, crc, AllPieces(p, rs)) && |f| == EndOf(p, AllPieces(p, rs))
    requires p <= s && (s % BlockSize == 0 || s == |f|)
    ensures ReadAll(f, Checking(crc), s, false) == (From(Located(p, rs), s), Orphans(p, rs, s))
    decreases |rs|
  {
    hide PhysicalAt, ReadFrom, Written, Pieces, AllPieces, EndOf, ReadAll, Align, Leftover;
    if |rs| == 0 {
      NothingFrom(f, crc, p, rs, s);
    } else {
      var ps := Pieces(p, rs[0], true);
      var q := EndOf(p, ps);
      SplitFirst(f, crc, p, rs);
      EndsWithin(q, rs[1..]);
      EndPastStart(p, rs[0]);
      LocatedFirst(p, rs);
      if q <= s {
        PiecesBelow(p, rs[0]);
        NoSizes(ps, s);
        FromBlockOn(f, crc, q, rs[1..], s);
        assert [] + From(Located(q, rs[1..]), s) == From(Located(q, rs[1..]), s);
        assert [] + Orphans(q, rs[1..], s) == Orphans(q, rs[1..], s);
      } else {
        BlockStartAligns(p, s);
        if Align(p) < s {
          FromInsideOn(f, crc, p, rs, s);
        } else {
          AllAtAlign(f, Checking(crc), p, false);
          ReadsAll(f, crc, p, rs);
          AllLater(p, rs, s);
        }
      }
    }
  }

  lemma LocatedFirst(p: nat, rs: seq<seq<byte>>)
    requires |rs| > 0
    ensures var q := EndOf(p, Pieces(p, rs[0], true));
            Located(p, rs)[0] == (rs[0], Align(p)) && Located(p, rs)[1..] == Located(q, rs[1..])
  {
  }

  lemma NothingFrom(f: seq<byte>, crc: Checksum, p: nat, rs: seq<seq<byte>>, s: nat)
    requires |rs| == 0 && |f| == EndOf(p, AllPieces(p, rs)) && p <= s
    ensures ReadAll(f, Checking(crc), s, false) == (From(Located(p, rs), s), Orphans(p, rs, s))
  {
    var c := Checking(crc);
    PastEnd(f, c, s, false);
    if s == |f| {
      EndReads(f, c);
    }
    EofEnds(f, c, s, Outside);
    NoMore(f, c, s);
  }

  lemma FromInsideOn(f: seq<byte>, crc: Checksum, p: nat, rs: seq<seq<byte>>, s: nat)
    requires |rs| > 0 && Written(f, crc, Pieces(p, rs[0], true))
    requires var q := EndOf(p, Pieces(p, rs[0], true));
             && Written(f, crc, AllPieces(q, rs[1..])) && q <= |f| == EndOf(q, AllPieces(q, rs[1..]))
             && Align(p) < s < q && s % BlockSize == 0
    ensures ReadAll(f, Checking(crc), s, false) == (From(Located(p, rs), s), Orphans(p, rs, s))
  {
    hide PhysicalAt, ReadFrom, Written, Pieces, AllPieces, EndOf, ReadAll, Align, Leftover;
    var ps := Pieces(p, rs[0], true);
    var q := EndOf(p, ps);
    LocatedFirst(p, rs);
    var p', r' := BlockWithin(f, crc, p, rs[0], true, s);
    AllAtAlign(f, Checking(crc), p', false);
    RestReported(f, crc, p', r');
    ReadsAll(f, crc, q, rs[1..]);
    AlignLater(q);
    AllLater(q, rs[1..], s);
    assert [] + From(Located(q, rs[1..]), s) == From(Located(q, rs[1..]), s);
  }

  lemma AlignLater(p: nat)
    ensures p <= Align(p)
  {
  }

  // ---- Up to the damage ----

  /** The fragments of a record before the damaged one go into a record that is given up. */
  lemma {:induction false} GivesUp(f: seq<byte>, crc: Checksum, p: nat, r: seq<byte>, begin: bool, j: nat, a: Assembly)
    requires j < |Pieces(p, r, begin)| && Spoilt(f, crc, Pieces(p, r, begin)[j].pos)
    requires forall i: nat | i < j :: PieceIn(f, crc, Pieces(p, r, begin)[i])
    requires Midway(a, begin) && !a.resync && |a.scratch| <= Align(p)
    ensures var x, c := Pieces(p, r, begin)[j], Checking(crc);
            var e := BlockEnd(f, x.pos);
            var t := ReadFrom(f, c, e, Outside);
            && ReadFrom(f, c, p, a)
               == t.(drops := [e - x.pos]
                              + (if begin && j == 0 then [] else [|a.scratch| + Total(Pieces(p, r, begin), j)])
                              + t.drops)
    decreases |r|, if Room(Align(p)) == 0 then 1 else 0
  {
    hide PhysicalAt, ReadFrom, Pieces, Align, Leftover, PieceIn, KindOf, Spoilt, BlockEnd;
    var c, ps, y := Checking(crc), Pieces(p, r, begin), First(r, Align(p), begin);
    PiecesUnfold(p, r, begin);
    if j == 0 {
      assert Total(ps, 0) == 0;
      Damaged(f, crc, p, a);
    } else {
      assert PieceIn(f, crc, ps[0]);
      Advance(f, crc, p, r, begin, j);
      PieceReads(f, c, p, y);
      PieceAssembles(f, c, p, y, begin, false, a);
      RoomAfterEmpty(p);
      TotalFront(ps, j);
      AfterFits(p, a, y, begin);
      GivesUp(f, crc, y.End(), r[Room(y.pos)..], false, j - 1, After(a, y, begin));
    }
  }

  lemma AfterFits(p: nat, a: Assembly, y: Piece, begin: bool)
    requires y.pos == Align(p) && Midway(a, begin) && |a.scratch| <= Align(p)
    ensures Midway(After(a, y, begin), false) && !After(a, y, begin).resync
    ensures |After(a, y, begin).scratch| == |a.scratch| + |y.data| <= Align(y.End())
  {
  }

  lemma Advance(f: seq<byte>, crc: Checksum, p: nat, r: seq<byte>, begin: bool, j: nat)
    requires 0 < j < |Pieces(p, r, begin)| && Spoilt(f, crc, Pieces(p, r, begin)[j].pos)
    requires forall i: nat | i < j :: PieceIn(f, crc, Pieces(p, r, begin)[i])
    ensures var y := First(r, Align(p), begin);
            && |r| > Room(y.pos) && y.End() <= |f| && |y.data| <= Room(y.pos)
            && Pieces(p, r, begin)[1..] == Pieces(y.End(), r[Room(y.pos)..], false)
            && forall i: nat | i < j - 1 :: PieceIn(f, crc, Pieces(y.End(), r[Room(y.pos)..], false)[i])
  {
    hide Pieces, PieceIn;
    var ps := Pieces(p, r, begin);
    PiecesUnfold(p, r, begin);
    PiecesChained(p, r, begin);
    EndsAscend(p, ps, 0, j);
    assert forall i: nat | i < j - 1 :: ps[1..][i] == ps[i + 1];
  }

  /** At the damage the reader reports the rest of the block and what it had of a record. */
  lemma Damaged(f: seq<byte>, crc: Checksum, p: nat, a: Assembly)
    requires Spoilt(f, crc, Align(p)) && !a.resync && |a.scratch| <= Align(p) && (!a.inside ==> a.scratch == [])
    ensures var c, q := Checking(crc), Align(p);
            var e := BlockEnd(f, q);
            var t := ReadFrom(f, c, e, Outside);
            ReadFrom(f, c, p, a)
            == t.(drops := [e - q] + (if a.inside then [|a.scratch|] else []) + t.drops)
  {
    hide Align, Leftover, LengthAt, ChecksumOk;
    var c, q := Checking(crc), Align(p);
    ReadAtAlign(f, c, p, a);
    SpoiltParses(f, crc, q);
    DamagedAt(f, crc, q, a);
  }

  lemma DamagedAt(f: seq<byte>, crc: Checksum, q: nat, a: Assembly)
    requires var e := BlockEnd(f, q);
             e >= q && PhysicalAt(f, Checking(crc), q) == Physical(BadType, q, [], e, Some(e - q))
    requires !a.resync && |a.scratch| <= q && (!a.inside ==> a.scratch == [])
    ensures var c := Checking(crc);
            var e := BlockEnd(f, q);
            var t := ReadFrom(f, c, e, Outside);
            ReadFrom(f, c, q, a)
            == t.(drops := [e - q] + (if a.inside then [|a.scratch|] else []) + t.drops)
  {
    hide PhysicalAt, BlockEnd;
    var c, e := Checking(crc), BlockEnd(f, q);
    var x := PhysicalAt(f, c, q);
    assert Assembled(a, x) == Outside.(start := a.start);
    ForgetsStart(f, c, e, a.start);
    assert Reports(c, a, x) == if a.inside then [|a.scratch|] else [];
  }

  // ---- The whole file ----

  lemma ReadsThen(f: seq<byte>, c: Config, p: nat, r: seq<byte>, start: nat, q: nat)
    requires ReadFrom(f, c, p, Outside) == Reading(Some(r), start, q, false, [])
    ensures ReadAll(f, c, p, false) == ([(r, start)] + ReadAll(f, c, q, false).0, ReadAll(f, c, q, false).1)
  {
    assert Outside.(resync := false) == Outside;
    assert [] + ReadAll(f, c, q, false).1 == ReadAll(f, c, q, false).1;
  }

  lemma ReportsThen(f: seq<byte>, c: Config, p: nat, q: nat, d: seq<nat>)
    requires var t := ReadFrom(f, c, q, Outside); ReadFrom(f, c, p, Outside) == t.(drops := d + t.drops)
    ensures ReadAll(f, c, p, false) == (ReadAll(f, c, q, false).0, d + ReadAll(f, c, q, false).1)
  {
    hide ReadFrom;
    assert Outside.(resync := false) == Outside;
    var t := ReadFrom(f, c, q, Outside);
    if t.record.Some? {
      Associative(d, t.drops, ReadAll(f, c, t.next, false).1);
    }
  }

  /** The fragments of record n of those written from p on. */
  function PiecesOf(p: nat, rs: seq<seq<byte>>, n: nat): (ps: seq<Piece>)
    requires n < |rs|
    ensures |ps| > 0
  {
    Pieces(EndOf(p, AllPieces(p, rs[..n])), rs[n], true)
  }

  lemma PiecesOfNext(p: nat, rs: seq<seq<byte>>, n: nat)
    requires n < |rs|
    ensures n == 0 ==> PiecesOf(p, rs, n) == Pieces(p, rs[0], true)
    ensures n > 0 ==> PiecesOf(p, rs, n) == PiecesOf(EndOf(p, Pieces(p, rs[0], true)), rs[1..], n - 1)
  {
    if n > 0 {
      EndsLater(p, rs, n);
    }
  }

  /** All that was written before the fragment is as written. */
  ghost predicate IntactBefore(f: seq<byte>, crc: Checksum, p: nat, rs: seq<seq<byte>>, n: nat, j: nat)
    requires n < |rs| && j < |PiecesOf(p, rs, n)|
  {
    && Written(f, crc, AllPieces(p, rs[..n])) && EndOf(p, AllPieces(p, rs[..n])) <= |f|
    && forall i: nat | i < j :: PieceIn(f, crc, PiecesOf(p, rs, n)[i])
  }

  lemma IntactNext(f: seq<byte>, crc: Checksum, p: nat, rs: seq<seq<byte>>, n: nat, j: nat)
    requires 0 < n < |rs| && j < |PiecesOf(p, rs, n)| && IntactBefore(f, crc, p, rs, n, j)
    ensures var q := EndOf(p, Pieces(p, rs[0], true));
            && Written(f, crc, Pieces(p, rs[0], true)) && q <= |f|
            && j < |PiecesOf(q, rs[1..], n - 1)| && IntactBefore(f, crc, q, rs[1..], n - 1, j)
  {
    hide AllPieces, Pieces, Written, PieceIn, EndOf, PiecesOf;
    var q := EndOf(p, Pieces(p, rs[0], true));
    PiecesOfNext(p, rs, n);
    SplitFirst(f, crc, p, rs[..n]);
    EndsLater(p, rs, n);
    assert rs[..n][1..] == rs[1..][..n - 1];
    EndsWithin(q, rs[1..][..n - 1]);
  }

  /** Records before the damage are read, and the damage leads to the next block. */
  lemma {:induction false} UpToDamage(f: seq<byte>, crc: Checksum, p: nat, rs: seq<seq<byte>>, n: nat, j: nat)
    requires n < |rs| && p <= |f| && j < |PiecesOf(p, rs, n)| && IntactBefore(f, crc, p, rs, n, j)
    requires Spoilt(f, crc, PiecesOf(p, rs, n)[j].pos)
    ensures var c, ps := Checking(crc), PiecesOf(p, rs, n);
            var e := BlockEnd(f, ps[j].pos);
            && e > ps[j].pos
            && ReadAll(f, c, p, false)
               == (Located(p, rs[..n]) + ReadAll(f, c, e, false).0,
                   [e - ps[j].pos] + (if j == 0 then [] else [Total(ps, j)]) + ReadAll(f, c, e, false).1)
    decreases |rs|
  {
    hide PhysicalAt, ReadFrom, ReadAll, Pieces, AllPieces, Align, Written, PieceIn, EndOf, BlockEnd, Spoilt, PiecesOf;
    var c, ps := Checking(crc), PiecesOf(p, rs, n);
    var e := BlockEnd(f, ps[j].pos);
    PiecesOfNext(p, rs, n);
    BlockEndLater(f, crc, ps[j].pos);
    if n == 0 {
      GivesUp(f, crc, p, rs[0], true, j, Outside);
      ReportsThen(f, c, p, e, [e - ps[j].pos] + if j == 0 then [] else [Total(ps, j)]);
      assert rs[..0] == [];
      assert [] + ReadAll(f, c, e, false).0 == ReadAll(f, c, e, false).0;
    } else {
      var q := EndOf(p, Pieces(p, rs[0], true));
      IntactNext(f, crc, p, rs, n, j);
      RecordReads(f, c, p, rs[0], true, Outside);
      assert [] + rs[0] == rs[0];
      ReadsThen(f, c, p, rs[0], Align(p), q);
      UpToDamage(f, crc, q, rs[1..], n - 1, j);
      assert rs[..n][1..] == rs[1..][..n - 1] && rs[..n][0] == rs[0];
      LocatedFirst(p, rs[..n]);
      Associative([(rs[0], Align(p))], Located(q, rs[1..][..n - 1]), ReadAll(f, c, e, false).0);
    }
  }

  lemma BlockEndLater(f: seq<byte>, crc: Checksum, p: nat)
    requires Spoilt(f, crc, p)
    ensures BlockEnd(f, p) > p && BlockEnd(f, p) <= |f|
  {
    hide LengthAt, ChecksumOk, Leftover;
  }

  lemma StillIn(f: seq<byte>, g: seq<byte>, crc: Checksum, x: Piece, m: nat)
    requires PieceIn(f, crc, x) && x.End() <= m <= |f| && m <= |g| && g[..m] == f[..m]
    ensures PieceIn(g, crc, x)
  {
    assert g[x.pos..x.pos + HeaderSize] == g[..m][x.pos..x.pos + HeaderSize] == f[x.pos..x.pos + HeaderSize];
    assert g[x.pos + HeaderSize..x.End()] == g[..m][x.pos + HeaderSize..x.End()] == f[x.pos + HeaderSize..x.End()];
  }

  /** What lies before a fragment of the file is as written if the bytes before it are. */
  lemma PrefixIntact(crc: Checksum, rs: seq<seq<byte>>, f: seq<byte>, n: nat, j: nat)
    requires n < |rs| && j < |PiecesOf(0, rs, n)| && PiecesOf(0, rs, n)[j].pos <= |f| == |FileOf(crc, rs)|
    requires f[..PiecesOf(0, rs, n)[j].pos] == FileOf(crc, rs)[..PiecesOf(0, rs, n)[j].pos]
    ensures IntactBefore(f, crc, 0, rs, n, j)
  {
    hide AllPieces, Pieces, PieceIn, FileOf;
    var before, own := AllPieces(0, rs[..n]), PiecesOf(0, rs, n);
    var p, m := EndOf(0, before), own[j].pos;
    FileHolds(crc, rs);
    MoreBefore(rs, n);
    AllChained(0, rs[..n]);
    PiecesChained(p, rs[n], true);
    assert Placed(p, own, j);
    StartsLater(p, own, j);
    forall i: nat | i < |before| ensures PieceIn(f, crc, before[i]) {
      EndsAscend(0, before, i, |before| - 1);
      assert PieceIn(FileOf(crc, rs), crc, AllPieces(0, rs)[i]);
      StillIn(FileOf(crc, rs), f, crc, before[i], m);
    }
    forall i: nat | i < j ensures PieceIn(f, crc, own[i]) {
      EndsAscend(p, own, i, j);
      assert PieceIn(FileOf(crc, rs), crc, AllPieces(0, rs)[|before| + i]);
      StillIn(FileOf(crc, rs), f, crc, own[i], m);
    }
  }

  lemma StartsLater(p: nat, ps: seq<Piece>, j: nat)
    requires Chained(p, ps) && j < |ps|
    ensures ps[j].pos >= p
  {
    assert Placed(p, ps, 0);
    EndsAscend(p, ps, 0, j);
  }

  /** The fragments of the records before, and then of record n, begin the fragments of all. */
  lemma {:induction false} MoreBefore(rs: seq<seq<byte>>, n: nat)
    requires n < |rs|
    ensures AllPieces(0, rs[..n]) + PiecesOf(0, rs, n) <= AllPieces(0, rs)
  {
    hide AllPieces, Pieces;
    assert rs[..n + 1] == rs[..n] + [rs[n]];
    MorePieces(0, rs[..n], rs[n]);
    assert rs == rs[..n + 1] + rs[n + 1..];
    AllPiecesAppend(0, rs[..n + 1], rs[n + 1..]);
  }

  /** A written file of which one fragment and perhaps what follows it in its block was changed: the records
      before it are read, and all that begin with the next block or later; what is reported is the rest of the
      block, then what had been read of the damaged record, then each fragment after the block of a record
      that began before. Nothing else is lost and nothing else reported. */
  lemma RestOfBlockIsLost(crc: Checksum, rs: seq<seq<byte>>, f: seq<byte>, n: nat, j: nat)
    requires n < |rs| && j < |PiecesOf(0, rs, n)| && |f| == |FileOf(crc, rs)|
    requires Spoilt(f, crc, PiecesOf(0, rs, n)[j].pos)
    requires var x := PiecesOf(0, rs, n)[j];
             var e := BlockEnd(f, x.pos);
             e <= |f| && x.pos <= |f| && f[..x.pos] == FileOf(crc, rs)[..x.pos] && f[e..] == FileOf(crc, rs)[e..]
    ensures var ps := PiecesOf(0, rs, n);
            var e := BlockEnd(f, ps[j].pos);
            && e > ps[j].pos
            && Log(f, Checking(crc))
               == (Located(0, rs[..n]) + From(Located(0, rs), e),
                   [e - ps[j].pos] + (if j == 0 then [] else [Total(ps, j)]) + Orphans(0, rs, e))
  {
    hide AllPieces, Pieces, FileOf, ReadAll, PiecesOf, Spoilt, Located, Orphans, From;
    var x, g := PiecesOf(0, rs, n)[j], FileOf(crc, rs);
    var e := BlockEnd(f, x.pos);
    PrefixIntact(crc, rs, f, n, j);
    UpToDamage(f, crc, 0, rs, n, j);
    SameLog(f, g, Checking(crc), e);
    FileHolds(crc, rs);
    FileIs(crc, rs, AllPieces(0, rs));
    EndsBlock(f, x.pos);
    FromBlockOn(g, crc, 0, rs, e);
  }

  lemma EndsBlock(f: seq<byte>, p: nat)
    ensures BlockEnd(f, p) % BlockSize == 0 || BlockEnd(f, p) == |f|
  {
    var k := p / BlockSize;
    assert p + Leftover(p) == (k + 1) * BlockSize;
    ModIs((k + 1) * BlockSize, BlockSize, k + 1, 0);
  }
}
