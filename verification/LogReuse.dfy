/** Logs that crashes cut short and later processes wrote on: which of their records a reader finds. */
module LogReuse {
  import opened Wrappers
  import opened Coding
  import opened LogFormat
  import opened LogReader
  import opened LogTheorems
  import opened LogDamage

  // ---- What was written ----

  /** A record some process appended: all of it, or the first `cut` bytes before a crash. */
  datatype Attempt = Attempt(record: seq<byte>, cut: Option<nat>)

  /** Where the file ends after the attempt. */
  function Stop(p: nat, w: Attempt): nat {
    if w.cut.Some? then p + w.cut.value else EndAfter(p, |w.record|)
  }

  function StopOf(p: nat, ws: seq<Attempt>): nat
    decreases |ws|
  {
    if |ws| == 0 then p else StopOf(Stop(p, ws[0]), ws[1..])
  }

  /** Only a record that is incomplete counts as cut. */
  ghost predicate Sensible(p: nat, ws: seq<Attempt>)
    decreases |ws|
  {
    |ws| > 0 ==> (ws[0].cut.Some? ==> Stop(p, ws[0]) < EndAfter(p, |ws[0].record|)) && Sensible(Stop(p, ws[0]), ws[1..])
  }

  /** What these attempts add to a file of length p. */
  function Bytes(crc: Checksum, p: nat, ws: seq<Attempt>): (b: seq<byte>)
    requires Sensible(p, ws)
    ensures p + |b| == StopOf(p, ws)
    decreases |ws|
  {
    if |ws| == 0 then [] else BytesOf(crc, p, ws[0]) + Bytes(crc, Stop(p, ws[0]), ws[1..])
  }

  function BytesOf(crc: Checksum, p: nat, w: Attempt): (b: seq<byte>)
    requires w.cut.Some? ==> Stop(p, w) < EndAfter(p, |w.record|)
    ensures p + |b| == Stop(p, w)
  {
    EndIs(p, w.record, true);
    if w.cut.Some? then RecordBytes(crc, p, w.record)[..w.cut.value] else RecordBytes(crc, p, w.record)
  }

  lemma {:induction false} EndIs(p: nat, r: seq<byte>, begin: bool)
    ensures EndOf(p, Pieces(p, r, begin)) == EndAfter(p, |r|)
    decreases |r|, if Room(Align(p)) == 0 then 1 else 0
  {
    hide Pieces, Align;
    PiecesUnfold(p, r, begin);
    var x := First(r, Align(p), begin);
    if |r| > Room(x.pos) {
      RoomAfterEmpty(p);
      EndIs(x.End(), r[Room(x.pos)..], false);
    }
  }

  // ---- What is found ----

  /** A fragment that is cut hides the records that begin behind it in its block. */
  function HiddenTo(p: nat, h: nat, w: Attempt): nat {
    var m := Stop(p, w);
    if w.cut.Some? && CutThrough(p, |w.record|, m) then m + Leftover(m) else h
  }

  /** The complete records that do not begin below what hides them, with their positions. */
  function Found(p: nat, h: nat, ws: seq<Attempt>): seq<(seq<byte>, nat)>
    decreases |ws|
  {
    if |ws| == 0 then []
    else
      (if ws[0].cut.None? && Align(p) >= h then [(ws[0].record, Align(p))] else [])
      + Found(Stop(p, ws[0]), HiddenTo(p, h, ws[0]), ws[1..])
  }

  /** The header of the fragment that a cut at m goes through. */
  function TornAt(p: nat, n: nat, m: nat): nat
    decreases n, if Room(Align(p)) == 0 then 1 else 0
  {
    var q := Align(p);
    if n <= Room(q) || m < q + HeaderSize + Room(q) then q else TornAt(q + HeaderSize + Room(q), n - Room(q), m)
  }

  /** The checksum does not accept what stands at q. */
  ghost predicate Refused(f: seq<byte>, crc: Checksum, q: nat) {
    q + HeaderSize <= |f| && q + HeaderSize + LengthAt(f, q) <= |f| ==> !ChecksumOk(f, crc, q)
  }

  /** Nor does it at the place of any fragment that was cut. */
  ghost predicate Untaken(f: seq<byte>, crc: Checksum, p: nat, ws: seq<Attempt>)
    decreases |ws|
  {
    |ws| > 0 ==>
      var w, m := ws[0], Stop(p, ws[0]);
      && (w.cut.Some? && CutThrough(p, |w.record|, m) ==> Refused(f, crc, TornAt(p, |w.record|, m)))
      && Untaken(f, crc, m, ws[1..])
  }

  // ---- The bytes are in place ----

  /** The pieces that end at m or before are there. */
  ghost predicate HoldsTo(f: seq<byte>, crc: Checksum, ps: seq<Piece>, m: nat) {
    forall i: nat | i < |ps| :: ps[i].End() <= m ==> PieceIn(f, crc, ps[i])
  }

  ghost predicate Holds(f: seq<byte>, crc: Checksum, p: nat, ws: seq<Attempt>)
    decreases |ws|
  {
    |ws| > 0 ==>
      && HoldsTo(f, crc, Pieces(p, ws[0].record, true), Stop(p, ws[0]))
      && Holds(f, crc, Stop(p, ws[0]), ws[1..])
  }

  lemma SameBytesHold(f: seq<byte>, f': seq<byte>, crc: Checksum, x: Piece)
    requires PieceIn(f, crc, x) && x.End() <= |f| && x.End() <= |f'| && f'[..x.End()] == f[..x.End()]
    ensures PieceIn(f', crc, x)
  {
    var e := x.End();
    assert f'[x.pos..x.pos + HeaderSize] == f'[..e][x.pos..x.pos + HeaderSize] == f[x.pos..x.pos + HeaderSize];
    assert f'[x.pos + HeaderSize..e] == f'[..e][x.pos + HeaderSize..e] == f[x.pos + HeaderSize..e];
  }

  lemma TakeOfSum<T>(g: seq<T>, b: seq<T>, n: nat, rest: seq<T>)
    requires n <= |b|
    ensures (g + b[..n] + rest)[..|g| + n] == (g + b)[..|g| + n]
    ensures (g + b + rest)[..|g| + |b|] == g + b
  {
  }

  lemma RecordHolds(g: seq<byte>, crc: Checksum, r: seq<byte>)
    ensures HoldsTo(g + RecordBytes(crc, |g|, r), crc, Pieces(|g|, r, true), |g + RecordBytes(crc, |g|, r)|)
  {
    PiecesChained(|g|, r, true);
    RenderBehind(g, crc, Pieces(|g|, r, true), |Pieces(|g|, r, true)|);
  }

  lemma RecordLength(crc: Checksum, p: nat, r: seq<byte>)
    ensures p + |RecordBytes(crc, p, r)| == EndAfter(p, |r|)
  {
    EndIs(p, r, true);
    PiecesChained(p, r, true);
  }

  lemma SharedHolds(f: seq<byte>, f': seq<byte>, crc: Checksum, ps: seq<Piece>, m: nat)
    requires HoldsTo(f, crc, ps, |f|) && m <= |f| && m <= |f'| && f'[..m] == f[..m]
    ensures HoldsTo(f', crc, ps, m)
  {
    hide PieceIn;
    forall i: nat | i < |ps| && ps[i].End() <= m ensures PieceIn(f', crc, ps[i]) {
      var e := ps[i].End();
      assert f'[..e] == f'[..m][..e] == f[..m][..e] == f[..e];
      SameBytesHold(f, f', crc, ps[i]);
    }
  }

  lemma AttemptHolds(g: seq<byte>, crc: Checksum, w: Attempt, rest: seq<byte>)
    requires w.cut.Some? ==> Stop(|g|, w) < EndAfter(|g|, |w.record|)
    ensures HoldsTo(g + BytesOf(crc, |g|, w) + rest, crc, Pieces(|g|, w.record, true), Stop(|g|, w))
  {
    hide RecordBytes, Pieces, EndAfter, HoldsTo, EndOf;
    var ps, b := Pieces(|g|, w.record, true), RecordBytes(crc, |g|, w.record);
    RecordLength(crc, |g|, w.record);
    RecordHolds(g, crc, w.record);
    TakeOfSum(g, b, Stop(|g|, w) - |g|, rest);
    SharedHolds(g + b, g + BytesOf(crc, |g|, w) + rest, crc, ps, Stop(|g|, w));
  }

  lemma {:induction false} BytesHold(g: seq<byte>, crc: Checksum, ws: seq<Attempt>)
    requires Sensible(|g|, ws)
    ensures Holds(g + Bytes(crc, |g|, ws), crc, |g|, ws)
    decreases |ws|
  {
    hide Stop, BytesOf, HoldsTo;
    if |ws| > 0 {
      var b := BytesOf(crc, |g|, ws[0]);
      AttemptHolds(g, crc, ws[0], Bytes(crc, |g + b|, ws[1..]));
      Associative(g, b, Bytes(crc, |g + b|, ws[1..]));
      BytesHold(g + b, crc, ws[1..]);
    }
  }

  // ---- Reading past what is incomplete ----

  /** A reader that begins at the beginning and checks checksums. */
  ghost predicate Plain(c: Config) { c.initial == 0 && c.checksum }

  /** What a reader that is not inside a record returns does not depend on what it threw away. */
  lemma {:induction false} ForgetsScratch(f: seq<byte>, c: Config, p: nat, a: Assembly, b: Assembly)
    requires !a.inside && !b.inside && !a.resync && !b.resync
    ensures SameFrom(f, c, p, a, p, b)
    decreases |f| - p
  {
    hide PhysicalAt;
    var x := PhysicalAt(f, c, p);
    if x.kind != EofType && x.kind != FullType && x.kind != FirstType {
      ForgetsScratch(f, c, x.next, Assembled(a, x), Assembled(b, x));
    }
  }

  /** Nothing at p goes on with a record begun before. */
  ghost predicate NoRest(f: seq<byte>, c: Config, p: nat) {
    PhysicalAt(f, c, p).kind != MiddleType && PhysicalAt(f, c, p).kind != LastType
  }

  /** A record that is not gone on with is given up. */
  lemma GivenUp(f: seq<byte>, c: Config, p: nat, a: Assembly)
    requires !a.resync && NoRest(f, c, p)
    ensures SameFrom(f, c, p, a, p, Outside)
  {
    hide PhysicalAt;
    var x := PhysicalAt(f, c, p);
    if x.kind != EofType && x.kind != FullType && x.kind != FirstType {
      ForgetsScratch(f, c, x.next, Assembled(a, x), Assembled(Outside, x));
    }
  }

  /** Places from which a header would go to the same place read alike. */
  lemma SamePlace(f: seq<byte>, c: Config, p: nat, m: nat, a: Assembly)
    requires p <= m <= Align(p) && m <= |f|
    ensures Align(m) == Align(p) && PhysicalAt(f, c, p).kind == PhysicalAt(f, c, m).kind
    ensures SameFrom(f, c, p, a, m, a)
  {
    AlignsAlike(p, m);
    if p < m {
      if FullBlock(f, p) {
        Trailer(f, c, p);
        if m < Align(p) {
          Trailer(f, c, m);
        }
      } else {
        NearEnd(f, c, p);
        NearEnd(f, c, m);
      }
    }
  }

  lemma AlignsAlike(p: nat, m: nat)
    requires p <= m <= Align(p)
    ensures Align(m) == Align(p) && (p < m < Align(p) ==> m + Leftover(m) == Align(p) == p + Leftover(p))
  {
    if p < m {
      var k := p / BlockSize;
      assert p == k * BlockSize + p % BlockSize;
      if m < Align(p) {
        ModIs(m, BlockSize, k, m - k * BlockSize);
      } else {
        ModIs(m, BlockSize, k + 1, 0);
      }
    }
  }

  lemma NearEnd(f: seq<byte>, c: Config, p: nat)
    requires p == |f| || (p <= |f| < p + Leftover(p) && Leftover(p) < HeaderSize)
    ensures PhysicalAt(f, c, p) == Physical(EofType, p, [], |f|, None)
  {
  }

  /** A refused place makes the reader go on with the next block, outside any record. */
  lemma RefusedSkipsBlock(f: seq<byte>, c: Config, p: nat, a: Assembly, m: nat)
    requires Plain(c) && !a.resync && Align(p) < m <= |f| && m < Align(p) + Leftover(Align(p))
    requires Refused(f, c.crc, Align(p))
    ensures SameFrom(f, c, p, a, BlockEnd(f, m), Outside)
  {
    var q := Align(p);
    ReadAtAlign(f, c, p, a);
    BlockOf(f, q, m);
    var x, e := PhysicalAt(f, c, q), BlockEnd(f, m);
    RefusedNext(f, c, q);
    hide PhysicalAt, BlockEnd, FullBlock, Align;
    if x.kind == EofType {
      NearEnd(f, c, |f|);
    } else {
      ForgetsScratch(f, c, e, Assembled(a, x), Outside);
    }
  }

  lemma BlockOf(f: seq<byte>, q: nat, m: nat)
    requires q <= m <= |f| && m < q + Leftover(q)
    ensures BlockEnd(f, m) == BlockEnd(f, q) && m + Leftover(m) == q + Leftover(q)
  {
    var k := q / BlockSize;
    assert q == k * BlockSize + q % BlockSize;
    ModIs(m, BlockSize, k, m - k * BlockSize);
  }

  lemma RefusedNext(f: seq<byte>, c: Config, q: nat)
    requires Plain(c) && q < |f| && Leftover(q) >= HeaderSize && Refused(f, c.crc, q)
    ensures PhysicalAt(f, c, q).next == BlockEnd(f, q)
    ensures PhysicalAt(f, c, q).kind == BadType || (PhysicalAt(f, c, q).kind == EofType && BlockEnd(f, q) == |f|)
  {
  }

  lemma {:induction false} NoCutBefore(p: nat, n: nat, m: nat)
    requires m <= Align(p)
    ensures !CutThrough(p, n, m)
    decreases n, if Room(Align(p)) == 0 then 1 else 0
  {
    var q := Align(p);
    if n > Room(q) {
      RoomAfterEmpty(p);
      NoCutBefore(q + HeaderSize + Room(q), n - Room(q), m);
    }
  }

  lemma HoldsToRest(f: seq<byte>, crc: Checksum, ps: seq<Piece>, m: nat)
    requires HoldsTo(f, crc, ps, m) && |ps| > 0
    ensures ps[0].End() <= m ==> PieceIn(f, crc, ps[0])
    ensures HoldsTo(f, crc, ps[1..], m)
  {
    forall i: nat | i < |ps| - 1 && ps[1..][i].End() <= m ensures PieceIn(f, crc, ps[1..][i]) {
      assert ps[i + 1].End() <= m;
    }
  }

  /** Where a reader stands once it has given up a record that ends at m. */
  ghost function Resumes(f: seq<byte>, p: nat, n: nat, m: nat): nat {
    if CutThrough(p, n, m) then BlockEnd(f, m) else m
  }

  /** The pieces of an incomplete record are read and given up, from its beginning or from inside. */
  lemma {:induction false} IncompletePassed(f: seq<byte>, c: Config, p: nat, r: seq<byte>, begin: bool, a: Assembly,
                                            m: nat)
    requires Plain(c) && p <= m <= |f| && m < EndAfter(p, |r|) && HoldsTo(f, c.crc, Pieces(p, r, begin), m)
    requires if CutThrough(p, |r|, m) then Refused(f, c.crc, TornAt(p, |r|, m)) else NoRest(f, c, m)
    requires !a.resync && (begin ==> !a.inside)
    ensures SameFrom(f, c, p, a, Resumes(f, p, |r|, m), Outside)
    decreases |r|, if Room(Align(p)) == 0 then 1 else 0
  {
    hide PhysicalAt, ReadFrom, Pieces, HoldsTo, PieceIn, Align, Leftover, BlockEnd;
    var x := First(r, Align(p), begin);
    PiecesUnfold(p, r, begin);
    HoldsToRest(f, c.crc, Pieces(p, r, begin), m);
    if m <= x.pos {
      NoCutBefore(p, |r|, m);
      SamePlace(f, c, p, m, a);
      GivenUp(f, c, m, a);
    } else if m < x.End() {
      RefusedSkipsBlock(f, c, p, a, m);
    } else {
      var r' := r[Room(x.pos)..];
      PieceReads(f, c, p, x);
      OnePieceOn(f, c, p, a, x);
      RoomAfterEmpty(p);
      IncompletePassed(f, c, x.End(), r', false, Assembled(a, AsRead(x)), m);
    }
  }

  lemma OnePieceOn(f: seq<byte>, c: Config, p: nat, a: Assembly, x: Piece)
    requires PhysicalAt(f, c, p) == AsRead(x) && (x.kind == FirstType || x.kind == MiddleType) && !a.resync
    ensures SameFrom(f, c, p, a, x.End(), Assembled(a, AsRead(x))) && !Assembled(a, AsRead(x)).resync
  {
    hide PhysicalAt;
  }

  // ---- One attempt ----

  /** Where a reader stands that has dealt with everything below p: at the end of the hidden part. */
  ghost function ReaderAt(f: seq<byte>, p: nat, h: nat): nat { if h <= p then p else if h <= |f| then h else |f| }

  /** The hidden part, if it reaches beyond p, reaches to the end of p's block. */
  ghost predicate Hides(p: nat, h: nat) { h <= p || h == p + Leftover(p) }

  lemma ReaderMoves(f: seq<byte>, c: Config, p: nat, h: nat, a: Assembly)
    requires Hides(p, h) && h <= Align(p) < |f|
    ensures ReadFrom(f, c, ReaderAt(f, p, h), a) == ReadFrom(f, c, p, a)
  {
    ReadAtAlign(f, c, p, a);
  }

  /** Behind what hides its beginning, a record's later pieces lie in blocks of their own. */
  lemma HiddenStart(p: nat, r: seq<byte>, h: nat)
    requires Hides(p, h) && h > Align(p)
    ensures Align(p) == p && p + HeaderSize + Room(p) == h == p + Leftover(p)
    ensures EndAfter(p, |r|) > h ==>
              && |r| > Room(p) && EndAfter(p, |r|) == EndAfter(h, |r| - Room(p)) && Align(h) == h
              && Pieces(p, r, true)[1..] == Pieces(h, r[Room(p)..], false)
  {
    hide Pieces, EndOf, EndAfter, Align, Leftover, KindOf;
    Boundary(p);
    PiecesUnfold(p, r, true);
    EndUnfolds(p, |r|);
  }

  lemma EndUnfolds(p: nat, n: nat)
    ensures var q := Align(p);
            EndAfter(p, n) ==
              if n <= Room(q) then q + HeaderSize + n else EndAfter(q + HeaderSize + Room(q), n - Room(q))
  {
  }

  lemma Boundary(p: nat)
    ensures Align(p + Leftover(p)) == p + Leftover(p)
    ensures Align(p) < p + Leftover(p) ==> Align(p) == p && p + HeaderSize + Room(p) == p + Leftover(p)
    ensures Align(p) >= p + Leftover(p) ==> Align(p) == p + Leftover(p)
  {
    BlockStarts(p);
  }

  lemma BlockStarts(p: nat)
    ensures (p + Leftover(p)) % BlockSize == 0
  {
    var k := p / BlockSize;
    assert p == k * BlockSize + p % BlockSize;
    ModIs(p + Leftover(p), BlockSize, k + 1, 0);
  }

  /** A complete record that is not hidden is read. */
  lemma WholeFound(f: seq<byte>, c: Config, p: nat, h: nat, r: seq<byte>)
    requires Plain(c) && Hides(p, h) && h <= Align(p) && EndAfter(p, |r|) <= |f|
    requires HoldsTo(f, c.crc, Pieces(p, r, true), EndAfter(p, |r|))
    ensures ReadAll(f, c, ReaderAt(f, p, h), false).0 == [(r, Align(p))] + ReadAll(f, c, EndAfter(p, |r|), false).0
  {
    hide PhysicalAt, ReadFrom, Pieces, HoldsTo, PieceIn, ReadAll, ReaderAt, Leftover;
    EndIs(p, r, true);
    AllHeld(f, c.crc, p, r, true);
    ReaderMoves(f, c, p, h, Outside);
    RecordReads(f, c, p, r, true, Outside);
    assert [] + r == r;
    assert Outside.(resync := false) == Outside;
    FirstOfAll(f, c, ReaderAt(f, p, h), false, r, Align(p), EndAfter(p, |r|));
  }

  lemma AllHeld(f: seq<byte>, crc: Checksum, p: nat, r: seq<byte>, begin: bool)
    requires HoldsTo(f, crc, Pieces(p, r, begin), EndOf(p, Pieces(p, r, begin)))
    ensures Written(f, crc, Pieces(p, r, begin))
  {
    var ps := Pieces(p, r, begin);
    PiecesChained(p, r, begin);
    forall i: nat | i < |ps| ensures PieceIn(f, crc, ps[i]) {
      EndsAscend(p, ps, i, |ps| - 1);
    }
  }

  /** A complete record that is hidden is passed over. */
  lemma WholeHidden(f: seq<byte>, c: Config, p: nat, h: nat, r: seq<byte>)
    requires Plain(c) && Hides(p, h) && h > Align(p) && EndAfter(p, |r|) <= |f|
    requires HoldsTo(f, c.crc, Pieces(p, r, true), EndAfter(p, |r|))
    ensures ReadAll(f, c, ReaderAt(f, p, h), false).0 == ReadAll(f, c, ReaderAt(f, EndAfter(p, |r|), h), false).0
  {
    hide PhysicalAt, ReadFrom, Pieces, HoldsTo, PieceIn, ReadAll, EndAfter, Align, Leftover, SameFrom, EndOf, KindOf,
         First, Written, Room;
    var q := EndAfter(p, |r|);
    HiddenStart(p, r, h);
    if q > h {
      var r' := r[Room(p)..];
      PiecesUnfold(p, r, true);
      HoldsToRest(f, c.crc, Pieces(p, r, true), q);
      EndIs(h, r', false);
      AllHeld(f, c.crc, h, r', false);
      var b := RestSkipped(f, c, h, r', false);
      SameRecords(f, c, h, false, q, b);
    }
  }

  /** A record from p on ends at m, and what comes there is nothing of it. */
  ghost predicate Incomplete(f: seq<byte>, c: Config, p: nat, r: seq<byte>, m: nat) {
    && m < EndAfter(p, |r|) && m <= |f| && HoldsTo(f, c.crc, Pieces(p, r, true), m)
    && if CutThrough(p, |r|, m) then Refused(f, c.crc, TornAt(p, |r|, m)) else NoRest(f, c, m)
  }

  lemma CutAtOnce(f: seq<byte>, c: Config, p: nat, h: nat, m: nat)
    requires p <= m <= Align(p) && m <= |f| && Hides(p, h)
    ensures ReadAll(f, c, ReaderAt(f, p, h), false).0 == ReadAll(f, c, ReaderAt(f, m, h), false).0
  {
    SamePlace(f, c, p, m, Outside);
    hide ReadFrom, ReadAll, SameFrom;
    if h <= p {
      SameRecords(f, c, p, false, m, false);
    }
  }

  /** An incomplete record is passed over. */
  lemma CutPassed(f: seq<byte>, c: Config, p: nat, h: nat, w: Attempt)
    requires w.cut.Some? && Incomplete(f, c, p, w.record, Stop(p, w))
    requires Plain(c) && Hides(p, h)
    ensures ReadAll(f, c, ReaderAt(f, p, h), false).0
            == ReadAll(f, c, ReaderAt(f, Stop(p, w), HiddenTo(p, h, w)), false).0
  {
    hide PhysicalAt, ReadFrom, Pieces, HoldsTo, PieceIn, ReadAll, EndAfter, CutThrough, TornAt, Align, Leftover,
         SameFrom, BlockEnd;
    var r, m := w.record, Stop(p, w);
    if m <= Align(p) {
      NoCutBefore(p, |r|, m);
      CutAtOnce(f, c, p, h, m);
    } else if h <= Align(p) {
      IncompletePassed(f, c, p, r, true, Outside, m);
      ReaderMoves(f, c, p, h, Outside);
      StopsAt(f, p, h, w);
      AllFrom(f, c, p, ReaderAt(f, p, h));
      SameRecords(f, c, p, false, Resumes(f, p, |r|, m), false);
    } else {
      HiddenCut(f, c, p, h, w);
    }
  }

  lemma AllFrom(f: seq<byte>, c: Config, p: nat, q: nat)
    requires ReadFrom(f, c, p, Outside) == ReadFrom(f, c, q, Outside)
    ensures ReadAll(f, c, p, false).0 == ReadAll(f, c, q, false).0
  {
    assert Outside.(resync := false) == Outside;
  }

  lemma StopsAt(f: seq<byte>, p: nat, h: nat, w: Attempt)
    requires w.cut.Some? && h <= Stop(p, w) <= |f|
    ensures ReaderAt(f, Stop(p, w), HiddenTo(p, h, w)) == Resumes(f, p, |w.record|, Stop(p, w))
  {
  }

  lemma HiddenCut(f: seq<byte>, c: Config, p: nat, h: nat, w: Attempt)
    requires w.cut.Some? && Incomplete(f, c, p, w.record, Stop(p, w)) && Align(p) < Stop(p, w)
    requires Plain(c) && Hides(p, h) && h > Align(p)
    ensures ReadAll(f, c, ReaderAt(f, p, h), false).0
            == ReadAll(f, c, ReaderAt(f, Stop(p, w), HiddenTo(p, h, w)), false).0
  {
    hide PhysicalAt, ReadFrom, Pieces, HoldsTo, PieceIn, ReadAll, EndAfter, SameFrom;
    var r, m := w.record, Stop(p, w);
    HiddenStart(p, r, h);
    if m <= h {
      CutInFirst(p, r, h, m);
    } else {
      var r' := r[Room(p)..];
      HoldsToRest(f, c.crc, Pieces(p, r, true), m);
      IncompletePassed(f, c, h, r', false, Outside, m);
      StopsAt(f, p, h, w);
      SameRecords(f, c, h, false, Resumes(f, h, |r'|, m), false);
    }
  }

  lemma CutInFirst(p: nat, r: seq<byte>, h: nat, m: nat)
    requires Align(p) == p && p + HeaderSize + Room(p) == h == p + Leftover(p) && p < m <= h
    ensures CutThrough(p, |r|, m) ==> m < h && m + Leftover(m) == h
  {
    if |r| > Room(p) {
      NoCutBefore(h, |r| - Room(p), m);
    }
    if m < h {
      var k := p / BlockSize;
      assert p == k * BlockSize + p % BlockSize;
      ModIs(m, BlockSize, k, m - k * BlockSize);
    }
  }

  // ---- All of them ----

  /** A record begins where one was given up, or nothing is there. */
  lemma {:induction false} StartsAnew(f: seq<byte>, c: Config, p: nat, ws: seq<Attempt>)
    requires Plain(c) && Sensible(p, ws) && Holds(f, c.crc, p, ws) && Untaken(f, c.crc, p, ws) && |f| == StopOf(p, ws)
    ensures NoRest(f, c, p)
    decreases |ws|
  {
    hide PhysicalAt, Pieces, HoldsTo, PieceIn, CutThrough, TornAt;
    if |ws| == 0 {
      NearEnd(f, c, p);
    } else {
      var w, m := ws[0], Stop(p, ws[0]);
      var x := First(w.record, Align(p), true);
      PiecesUnfold(p, w.record, true);
      HoldsToRest(f, c.crc, Pieces(p, w.record, true), m);
      Lengthens(m, ws[1..]);
      if m <= x.pos {
        SamePlace(f, c, p, m, Outside);
        StartsAnew(f, c, m, ws[1..]);
      } else if m < x.End() {
        CutHere(p, w.record, m);
        AtAlign(f, c, p);
        RefusedNext(f, c, Align(p));
      } else {
        PieceReads(f, c, p, x);
      }
    }
  }

  lemma AtAlign(f: seq<byte>, c: Config, p: nat)
    requires Align(p) < |f|
    ensures PhysicalAt(f, c, p) == PhysicalAt(f, c, Align(p))
  {
    if p < Align(p) {
      Trailer(f, c, p);
    }
  }

  lemma CutHere(p: nat, r: seq<byte>, m: nat)
    requires var x := First(r, Align(p), true); x.pos < m < x.End()
    ensures CutThrough(p, |r|, m) && TornAt(p, |r|, m) == Align(p) && m < EndAfter(p, |r|)
  {
  }

  lemma {:induction false} Lengthens(p: nat, ws: seq<Attempt>)
    ensures p <= StopOf(p, ws)
    decreases |ws|
  {
    if |ws| > 0 {
      Lengthens(Stop(p, ws[0]), ws[1..]);
    }
  }

  lemma StaysHidden(p: nat, h: nat, w: Attempt)
    requires Hides(p, h)
    ensures Hides(Stop(p, w), HiddenTo(p, h, w))
  {
    hide EndAfter, CutThrough;
    var m := Stop(p, w);
    if p <= m < h {
      var k := p / BlockSize;
      assert p == k * BlockSize + p % BlockSize;
      ModIs(m, BlockSize, k, m - k * BlockSize);
    }
  }

  lemma {:induction false} FoundFrom(f: seq<byte>, c: Config, p: nat, h: nat, ws: seq<Attempt>)
    requires Plain(c) && Sensible(p, ws) && Holds(f, c.crc, p, ws) && Untaken(f, c.crc, p, ws) && |f| == StopOf(p, ws)
    requires Hides(p, h)
    ensures ReadAll(f, c, ReaderAt(f, p, h), false).0 == Found(p, h, ws)
    decreases |ws|
  {
    hide PhysicalAt, ReadFrom, ReadAll, Pieces, HoldsTo, CutThrough, TornAt, EndAfter, Align, Leftover, Refused,
         NoRest;
    if |ws| == 0 {
      PastEnd(f, c, ReaderAt(f, p, h), false);
    } else {
      var w, m := ws[0], Stop(p, ws[0]);
      Lengthens(m, ws[1..]);
      StaysHidden(p, h, w);
      FoundFrom(f, c, m, HiddenTo(p, h, w), ws[1..]);
      if w.cut.Some? {
        StartsAnew(f, c, m, ws[1..]);
        CutPassed(f, c, p, h, w);
      } else if h <= Align(p) {
        WholeFound(f, c, p, h, w.record);
        BehindEnd(p, w.record, h);
      } else {
        WholeHidden(f, c, p, h, w.record);
      }
    }
  }

  lemma BehindEnd(p: nat, r: seq<byte>, h: nat)
    requires h <= Align(p)
    ensures h <= EndAfter(p, |r|)
  {
  }

  /** A log that was cut and written on any number of times: a reader finds exactly the complete records
      that do not begin in a block behind a fragment that was cut, each where it begins. All it takes is
      that the reader does not mistake what stands at a cut fragment's place for a fragment. */
  lemma HistoryReads(crc: Checksum, ws: seq<Attempt>)
    requires Sensible(0, ws) && Untaken(Bytes(crc, 0, ws), crc, 0, ws)
    ensures Log(Bytes(crc, 0, ws), Config(crc, true, 0)).0 == Found(0, 0, ws)
  {
    var f := Bytes(crc, 0, ws);
    BytesHold([], crc, ws);
    assert [] + f == f;
    FoundFrom(f, Config(crc, true, 0), 0, 0, ws);
  }

  // ---- One attempt more ----

  function HiddenOf(h: nat, p: nat, ws: seq<Attempt>): nat
    decreases |ws|
  {
    if |ws| == 0 then h else HiddenOf(HiddenTo(p, h, ws[0]), Stop(p, ws[0]), ws[1..])
  }

  /** What one attempt, made at p, adds to what is found. */
  function FoundOf(p: nat, h: nat, w: Attempt): seq<(seq<byte>, nat)> {
    if w.cut.None? && Align(p) >= h then [(w.record, Align(p))] else []
  }

  lemma {:induction false} OneMore(p: nat, h: nat, ws: seq<Attempt>, w: Attempt)
    ensures var q := StopOf(p, ws);
            && StopOf(p, ws + [w]) == Stop(q, w)
            && HiddenOf(h, p, ws + [w]) == HiddenTo(q, HiddenOf(h, p, ws), w)
            && Found(p, h, ws + [w]) == Found(p, h, ws) + FoundOf(q, HiddenOf(h, p, ws), w)
            && (Sensible(p, ws + [w]) <==> Sensible(p, ws) && (w.cut.Some? ==> Stop(q, w) < EndAfter(q, |w.record|)))
    decreases |ws|
  {
    hide Stop, HiddenTo, Align, EndAfter;
    if |ws| == 0 {
      assert ws + [w] == [w] && [w][1..] == [];
    } else {
      assert (ws + [w])[1..] == ws[1..] + [w];
      OneMore(Stop(p, ws[0]), HiddenTo(p, h, ws[0]), ws[1..], w);
      Associative(FoundOf(p, h, ws[0]), Found(Stop(p, ws[0]), HiddenTo(p, h, ws[0]), ws[1..]),
                  FoundOf(StopOf(p, ws), HiddenOf(h, p, ws), w));
    }
  }

  lemma {:induction false} OneMoreWritten(crc: Checksum, p: nat, ws: seq<Attempt>, w: Attempt)
    requires Sensible(p, ws) && (w.cut.Some? ==> Stop(StopOf(p, ws), w) < EndAfter(StopOf(p, ws), |w.record|))
    ensures Sensible(p, ws + [w]) && Bytes(crc, p, ws + [w]) == Bytes(crc, p, ws) + BytesOf(crc, StopOf(p, ws), w)
    decreases |ws|
  {
    hide Stop, BytesOf, EndAfter;
    if |ws| == 0 {
      assert ws + [w] == [w] && [w][1..] == [];
      NothingAfter(BytesOf(crc, p, w));
    } else {
      assert (ws + [w])[1..] == ws[1..] + [w];
      OneMoreWritten(crc, Stop(p, ws[0]), ws[1..], w);
      Associative(BytesOf(crc, p, ws[0]), Bytes(crc, Stop(p, ws[0]), ws[1..]), BytesOf(crc, StopOf(p, ws), w));
    }
  }

  lemma {:induction false} OneMoreUntaken(f: seq<byte>, crc: Checksum, p: nat, ws: seq<Attempt>, w: Attempt)
    requires Untaken(f, crc, p, ws) && Untaken(f, crc, StopOf(p, ws), [w])
    ensures Untaken(f, crc, p, ws + [w])
    decreases |ws|
  {
    hide Stop, CutThrough, TornAt, Refused;
    if |ws| == 0 {
      assert ws + [w] == [w];
    } else {
      assert (ws + [w])[1..] == ws[1..] + [w];
      OneMoreUntaken(f, crc, Stop(p, ws[0]), ws[1..], w);
    }
  }

  // ---- Reusing a torn file once ----

  /** The cut goes through the piece. */
  predicate Through(x: Piece, m: nat) { x.pos < m < x.End() }

  function Complete(rs: seq<seq<byte>>): seq<Attempt> { seq(|rs|, i requires 0 <= i < |rs| => Attempt(rs[i], None)) }

  lemma {:induction false} LocatedGrows(p: nat, rs: seq<seq<byte>>, r: seq<byte>)
    ensures Located(p, rs + [r]) == Located(p, rs) + [(r, Align(EndOf(p, AllPieces(p, rs))))]
    decreases |rs|
  {
    hide Pieces, Align;
    if |rs| == 0 {
      assert rs + [r] == [r];
    } else {
      var ps := Pieces(p, rs[0], true);
      assert (rs + [r])[1..] == rs[1..] + [r] && [rs[0]] + rs[1..] == rs;
      LocatedGrows(EndOf(p, ps), rs[1..], r);
      AllPiecesFront(p, rs[0], rs[1..]);
      EndOfAppend(p, ps, AllPieces(EndOf(p, ps), rs[1..]));
      Associative([(rs[0], Align(p))], Located(EndOf(p, ps), rs[1..]), [(r, Align(EndOf(p, AllPieces(p, rs))))]);
    }
  }

  /** Complete records make up the file, and all of them are found. */
  lemma {:induction false} CompleteIs(crc: Checksum, rs: seq<seq<byte>>)
    ensures var ws := Complete(rs);
            && Sensible(0, ws) && Bytes(crc, 0, ws) == FileOf(crc, rs) && StopOf(0, ws) == |FileOf(crc, rs)|
            && Found(0, 0, ws) == Located(0, rs) && HiddenOf(0, 0, ws) == 0
            && forall f :: Untaken(f, crc, 0, ws)
    decreases |rs|
  {
    hide Pieces, AllPieces, Align, EndAfter, FileOf, RecordBytes, EndOf, Bytes;
    if |rs| == 0 {
      NoRecords(crc, rs);
    } else {
      var init, r := rs[..|rs| - 1], rs[|rs| - 1];
      var w := Attempt(r, None);
      assert rs == init + [r] && Complete(rs) == Complete(init) + [w];
      CompleteIs(crc, init);
      FileIs(crc, init, AllPieces(0, init));
      FileGrows(crc, init, r);
      LocatedGrows(0, init, r);
      OneMore(0, 0, Complete(init), w);
      OneMoreWritten(crc, 0, Complete(init), w);
      RecordLength(crc, StopOf(0, Complete(init)), r);
      forall f ensures Untaken(f, crc, 0, Complete(rs)) {
        OneMoreUntaken(f, crc, 0, Complete(init), w);
      }
    }
  }

  lemma NoRecords(crc: Checksum, rs: seq<seq<byte>>)
    requires |rs| == 0
    ensures Bytes(crc, 0, Complete(rs)) == FileOf(crc, rs) == []
  {
  }

  /** The cut through a record's pieces is the one computed from its length. */
  lemma {:induction false} ThroughIs(p: nat, r: seq<byte>, begin: bool, m: nat)
    ensures CutThrough(p, |r|, m) ==> exists i: nat ::
              i < |Pieces(p, r, begin)| && Through(Pieces(p, r, begin)[i], m)
                  && Pieces(p, r, begin)[i].pos == TornAt(p, |r|, m)
    ensures !CutThrough(p, |r|, m) ==> forall i: nat | i < |Pieces(p, r, begin)| :: !Through(Pieces(p, r, begin)[i], m)
    decreases |r|, if Room(Align(p)) == 0 then 1 else 0
  {
    hide Pieces, Align, Leftover;
    var x, ps := First(r, Align(p), begin), Pieces(p, r, begin);
    PiecesUnfold(p, r, begin);
    if Through(x, m) {
      CutHere(p, r, m);
      assert Through(ps[0], m);
    } else if |r| > Room(x.pos) {
      var r' := r[Room(x.pos)..];
      RoomAfterEmpty(p);
      ThroughIs(x.End(), r', false, m);
      CutLater(p, r, m);
      if CutThrough(p, |r|, m) {
        var i: nat :| i < |ps| - 1 && Through(ps[1..][i], m) && ps[1..][i].pos == TornAt(x.End(), |r'|, m);
        assert ps[i + 1] == ps[1..][i];
      } else {
        forall i: nat | i < |ps| ensures !Through(ps[i], m) {
          assert i > 0 ==> ps[i] == ps[1..][i - 1];
        }
      }
    }
  }

  lemma CutLater(p: nat, r: seq<byte>, m: nat)
    requires var x := First(r, Align(p), true); !Through(x, m) && |r| > Room(x.pos)
    ensures var x := First(r, Align(p), true);
            && CutThrough(p, |r|, m) == CutThrough(x.End(), |r| - Room(x.pos), m)
            && (CutThrough(p, |r|, m) ==> TornAt(p, |r|, m) == TornAt(x.End(), |r| - Room(x.pos), m))
  {
    var x := First(r, Align(p), true);
    if m <= x.pos {
      NoCutBefore(x.End(), |r| - Room(x.pos), m);
    }
  }

  lemma {:induction false} FilePrefix(crc: Checksum, rs: seq<seq<byte>>, n: nat)
    requires n <= |rs|
    ensures FileOf(crc, rs[..n]) <= FileOf(crc, rs)
    decreases |rs| - n
  {
    hide FileOf, RecordBytes;
    if n == |rs| {
      assert rs[..n] == rs;
    } else {
      assert rs[..n + 1] == rs[..n] + [rs[n]];
      FileGrows(crc, rs[..n], rs[n]);
      FilePrefix(crc, rs, n + 1);
    }
  }

  lemma PiecesWithin(p: nat, ps: seq<Piece>, i: nat)
    requires Chained(p, ps) && i < |ps|
    ensures p <= ps[i].pos && ps[i].End() <= EndOf(p, ps)
  {
    EndsAscend(p, ps, i, |ps| - 1);
    EndsAscend(p, ps, 0, i);
    assert Placed(p, ps, 0);
  }

  /** A cut inside a record goes through none of the other records' pieces. */
  lemma OnlyThere(rs: seq<seq<byte>>, n: nat, p: nat, m: nat)
    requires n < |rs| && p == EndOf(0, AllPieces(0, rs[..n])) && p <= m < EndAfter(p, |rs[n]|)
    ensures CutThrough(p, |rs[n]|, m) ==> exists i: nat ::
              i < |AllPieces(0, rs)| && Through(AllPieces(0, rs)[i], m)
                  && AllPieces(0, rs)[i].pos == TornAt(p, |rs[n]|, m)
    ensures !CutThrough(p, |rs[n]|, m) ==> forall i: nat | i < |AllPieces(0, rs)| :: !Through(AllPieces(0, rs)[i], m)
  {
    hide Pieces, AllPieces, CutThrough, TornAt, EndAfter, EndOf;
    var all, before, own := AllPieces(0, rs), AllPieces(0, rs[..n]), Pieces(p, rs[n], true);
    var q := EndOf(p, own);
    var rest := AllPieces(q, rs[n + 1..]);
    assert rs == rs[..n] + ([rs[n]] + rs[n + 1..]);
    AllPiecesAppend(0, rs[..n], [rs[n]] + rs[n + 1..]);
    AllPiecesFront(p, rs[n], rs[n + 1..]);
    assert all == before + (own + rest);
    EndIs(p, rs[n], true);
    ThroughIs(p, rs[n], true, m);
    if CutThrough(p, |rs[n]|, m) {
      var i: nat :| i < |own| && Through(own[i], m) && own[i].pos == TornAt(p, |rs[n]|, m);
      assert all[|before| + i] == own[i];
    } else {
      AllChained(0, rs[..n]);
      AllChained(q, rs[n + 1..]);
      forall i: nat | i < |all| ensures !Through(all[i], m) {
        if i < |before| {
          PiecesWithin(0, before, i);
        } else if i < |before| + |own| {
          assert all[i] == own[i - |before|];
        } else {
          PiecesWithin(q, rest, i - |before| - |own|);
          assert all[i] == rest[i - |before| - |own|];
        }
      }
    }
  }

  lemma AllWithin(rs: seq<seq<byte>>, m: nat)
    requires m >= EndOf(0, AllPieces(0, rs))
    ensures forall i: nat | i < |AllPieces(0, rs)| :: !Through(AllPieces(0, rs)[i], m)
  {
    AllChained(0, rs);
    forall i: nat | i < |AllPieces(0, rs)| ensures !Through(AllPieces(0, rs)[i], m) {
      PiecesWithin(0, AllPieces(0, rs), i);
    }
  }

  ghost predicate ThroughNone(rs: seq<seq<byte>>, m: nat) {
    forall i: nat | i < |AllPieces(0, rs)| :: !Through(AllPieces(0, rs)[i], m)
  }

  ghost predicate CutRefused(f: seq<byte>, crc: Checksum, rs: seq<seq<byte>>, m: nat) {
    forall i: nat | i < |AllPieces(0, rs)| && Through(AllPieces(0, rs)[i], m) ::
          Refused(f, crc, AllPieces(0, rs)[i].pos)
  }

  /** The attempts that lead to a file cut at m. */
  ghost predicate LeadsTo(f: seq<byte>, crc: Checksum, rs: seq<seq<byte>>, m: nat, n: nat, ws: seq<Attempt>) {
    && n <= |rs| && m <= |FileOf(crc, rs)| && Sensible(0, ws) && StopOf(0, ws) == m
       && Bytes(crc, 0, ws) == FileOf(crc, rs)[..m]
    && Found(0, 0, ws) == Located(0, rs[..n])
       && HiddenOf(0, 0, ws) == (if ThroughNone(rs, m) then 0 else m + Leftover(m))
    && Untaken(f, crc, 0, ws)
  }

  lemma TornHistory(f: seq<byte>, crc: Checksum, rs: seq<seq<byte>>, m: nat, n: nat) returns (ws: seq<Attempt>)
    requires n <= |rs| && m <= |FileOf(crc, rs)| && |FileOf(crc, rs[..n])| <= m
    requires n < |rs| ==> m < |FileOf(crc, rs[..n + 1])|
    requires CutRefused(f, crc, rs, m)
    ensures LeadsTo(f, crc, rs, m, n, ws)
  {
    hide Pieces, AllPieces, EndOf, FileOf, RecordBytes, CutThrough, TornAt, EndAfter, Align, Leftover, Refused,
         Located, Found, Bytes;
    CompleteIs(crc, rs[..n]);
    FileIs(crc, rs[..n], AllPieces(0, rs[..n]));
    ws := Complete(rs[..n]);
    if n == |rs| {
      assert rs[..n] == rs && FileOf(crc, rs)[..m] == FileOf(crc, rs);
      AllWithin(rs, m);
    } else {
      var p := |FileOf(crc, rs[..n])|;
      var w := Attempt(rs[n], Some(m - p));
      CutBytes(crc, rs, n, m);
      OneMore(0, 0, ws, w);
      OneMoreWritten(crc, 0, ws, w);
      OnlyThere(rs, n, p, m);
      OneMoreUntaken(f, crc, 0, ws, w);
      NothingAfter(Found(0, 0, ws));
      ws := ws + [w];
    }
  }

  lemma CutBytes(crc: Checksum, rs: seq<seq<byte>>, n: nat, m: nat)
    requires n < |rs| && |FileOf(crc, rs[..n])| <= m < |FileOf(crc, rs[..n + 1])|
    ensures var p := |FileOf(crc, rs[..n])|;
            && m < EndAfter(p, |rs[n]|) && m <= |FileOf(crc, rs)|
            && FileOf(crc, rs)[..m] == FileOf(crc, rs[..n]) + BytesOf(crc, p, Attempt(rs[n], Some(m - p)))
  {
    hide FileOf, RecordBytes, EndAfter;
    var p := |FileOf(crc, rs[..n])|;
    assert rs[..n + 1] == rs[..n] + [rs[n]];
    FileGrows(crc, rs[..n], rs[n]);
    RecordLength(crc, p, rs[n]);
    FilePrefix(crc, rs, n + 1);
    var g := FileOf(crc, rs[..n + 1]);
    assert FileOf(crc, rs)[..m] == g[..m] == FileOf(crc, rs[..n]) + RecordBytes(crc, p, rs[n])[..m - p];
  }

  /** A file is cut at m, and a record is appended: a reader finds the records that are whole below m,
      and then the new one, if and only if the cut went through no fragment or what is left of its block
      is too small for a header. */
  lemma ReuseFindsIff(crc: Checksum, rs: seq<seq<byte>>, m: nat, s: seq<byte>) returns (n: nat)
    requires m <= |FileOf(crc, rs)|
    requires CutRefused(FileOf(crc, rs)[..m] + RecordBytes(crc, m, s), crc, rs, m)
    ensures n <= |rs| && |FileOf(crc, rs[..n])| <= m && (n < |rs| ==> m < |FileOf(crc, rs[..n + 1])|)
    ensures Log(FileOf(crc, rs)[..m] + RecordBytes(crc, m, s), Config(crc, true, 0)).0
            == Located(0, rs[..n]) + if ThroughNone(rs, m) || Leftover(m) < HeaderSize then [(s, Align(m))] else []
  {
    hide Pieces, AllPieces, EndOf, FileOf, RecordBytes, CutThrough, TornAt, EndAfter, Refused, Log, Located, Untaken,
         Found, Bytes, ThroughNone;
    var f := FileOf(crc, rs)[..m] + RecordBytes(crc, m, s);
    n := Whole(0, rs, m);
    FileIs(crc, rs, AllPieces(0, rs));
    WholeSplits(0, rs, m);
    FileIs(crc, rs[..n], AllPieces(0, rs[..n]));
    if n < |rs| {
      FileIs(crc, rs[..n + 1], AllPieces(0, rs[..n + 1]));
    }
    var w := Attempt(s, None);
    var ws := TornHistory(f, crc, rs, m, n);
    OneMore(0, 0, ws, w);
    OneMoreWritten(crc, 0, ws, w);
    WholeUntaken(f, crc, m, w);
    OneMoreUntaken(f, crc, 0, ws, w);
    HistoryReads(crc, ws + [w]);
  }

  lemma WholeUntaken(f: seq<byte>, crc: Checksum, p: nat, w: Attempt)
    requires w.cut.None?
    ensures Untaken(f, crc, p, [w])
  {
  }

  lemma PaddedPiece(crc: Checksum, p: nat, x: Piece)
    requires p < x.pos && x.kind <= LastType
    ensures RenderPiece(crc, p, x) == [0] + RenderPiece(crc, p + 1, x)
  {
    hide Header;
    var h := Header(crc, x.kind, x.data);
    assert Zeros(x.pos - p) == [0] + Zeros(x.pos - p - 1);
    Associative([0], Zeros(x.pos - p - 1), h);
    Associative([0], Zeros(x.pos - p - 1) + h, x.data);
  }

  lemma {:induction false} PaddedRender(crc: Checksum, p: nat, ps: seq<Piece>, n: nat)
    requires Chained(p, ps) && Chained(p + 1, ps) && 0 < n <= |ps| && p < ps[0].pos
    ensures Render(crc, p, ps, n) == [0] + Render(crc, p + 1, ps, n)
    decreases n
  {
    hide Header, Align, Leftover;
    var e, x := EndBefore(p, ps, n - 1), ps[n - 1];
    assert Placed(p, ps, n - 1) && Placed(p + 1, ps, n - 1);
    if n == 1 {
      PaddedPiece(crc, p, x);
      FirstRendered(crc, p, ps);
      FirstRendered(crc, p + 1, ps);
    } else {
      PaddedRender(crc, p, ps, n - 1);
      Associative([0], Render(crc, p + 1, ps, n - 1), RenderPiece(crc, e, x));
    }
  }

  /** A record put where no header fits any more begins with the zeros that fill up the block. */
  lemma PaddedRecord(crc: Checksum, s: seq<byte>)
    ensures RecordBytes(crc, BlockSize - 1, s) == [0] + RecordBytes(crc, BlockSize, s)
  {
    assert Align(BlockSize - 1) == BlockSize == Align(BlockSize);
    var ps := Pieces(BlockSize, s, true);
    assert Pieces(BlockSize - 1, s, true) == ps;
    PiecesChained(BlockSize, s, true);
    PiecesChained(BlockSize - 1, s, true);
    assert ps[0].pos == BlockSize;
    PaddedRender(crc, BlockSize - 1, ps, |ps|);
  }

  lemma OnePiece(crc: Checksum, r: seq<byte>)
    requires |r| <= BlockSize - HeaderSize
    ensures AllPieces(0, [r]) == Pieces(0, r, true) == [Piece(0, FullType, r)]
    ensures PieceIn(FileOf(crc, [r]), crc, Piece(0, FullType, r))
  {
    MorePieces(0, [], r);
    assert [] + [r] == [r];
    assert Pieces(0, r, true) == [Piece(0, FullType, r)];
    FileHolds(crc, [r]);
    hide FileOf;
    assert PieceIn(FileOf(crc, [r]), crc, AllPieces(0, [r])[0]);
  }

  lemma LastByte(crc: Checksum, torn: seq<byte>)
    requires |torn| == BlockSize - HeaderSize && torn[|torn| - 1] == 0
    ensures var f := FileOf(crc, [torn]); |f| == BlockSize && f == f[..BlockSize - 1] + [0]
  {
    var f, x := FileOf(crc, [torn]), Piece(0, FullType, torn);
    SinglePiece(crc, torn);
    OnePiece(crc, torn);
    hide FileOf;
    assert f[BlockSize - 1] == f[HeaderSize..x.End()][|torn| - 1];
  }

  lemma TwoLocated(a: seq<byte>, b: seq<byte>)
    requires Pieces(0, a, true) == [Piece(0, FullType, a)] && |a| == BlockSize - HeaderSize
    ensures Located(0, [a, b]) == [(a, 0), (b, BlockSize)]
  {
    hide Pieces;
    assert [a, b][1..] == [b] && [b][1..] == [];
    assert Located(EndOf(BlockSize, Pieces(BlockSize, b, true)), []) == [];
    assert Located(BlockSize, [b]) == [(b, BlockSize)];
  }

  /** The premise matters: where only the zeros that fill up a block are missing from a torn record, the
      next writer's padding completes it, and a record nobody was told of comes back. */
  lemma PaddingCompletes(crc: Checksum, checksum: bool, torn: seq<byte>, s: seq<byte>)
    requires |torn| == BlockSize - HeaderSize && torn[|torn| - 1] == 0
    ensures |FileOf(crc, [torn])| == BlockSize
    ensures Log(FileOf(crc, [torn])[..BlockSize - 1] + RecordBytes(crc, BlockSize - 1, s), Config(crc, checksum, 0)).0
            == [(torn, 0), (s, BlockSize)]
  {
    hide RecordBytes, Log, FileOf;
    var f := FileOf(crc, [torn]);
    LastByte(crc, torn);
    PaddedRecord(crc, s);
    FileGrows(crc, [torn], s);
    Associative(f[..BlockSize - 1], [0], RecordBytes(crc, BlockSize, s));
    assert [torn] + [s] == [torn, s];
    RoundTrip(crc, checksum, [torn, s]);
    OnePiece(crc, torn);
    TwoLocated(torn, s);
  }
}
