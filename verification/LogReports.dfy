/** When a reader that begins in the middle of an undamaged log reports losses all the same. */
module LogReports {
  import opened Coding
  import opened LogFormat
  import opened LogReader
  import opened LogTheorems
  import opened LogDamage

  /** A record with one header in [low, initial) and another at `initial` or later. */
  ghost predicate Crosses(ps: seq<Piece>, low: nat, initial: nat) {
    exists i: nat, j: nat :: i < |ps| && j < |ps| && low <= ps[i].pos < initial <= ps[j].pos
  }

  /** None of the records written from p on is like that. */
  ghost predicate NoneCrosses(p: nat, rs: seq<seq<byte>>, low: nat, initial: nat)
    decreases |rs|
  {
    |rs| > 0 ==> !Crosses(Pieces(p, rs[0], true), low, initial)
                 && NoneCrosses(EndOf(p, Pieces(p, rs[0], true)), rs[1..], low, initial)
  }

  ghost predicate AllBefore(ps: seq<Piece>, initial: nat) { forall i: nat | i < |ps| :: ps[i].pos < initial }

  // ---- One physical record ----

  /** A physical record that completes nothing adds its reports. */
  lemma ReportsOfOne(f: seq<byte>, c: Config, p: nat, resync: bool, b: bool)
    requires var x, a := PhysicalAt(f, c, p), Outside.(resync := resync);
             x.kind != EofType && x.kind != FullType && Assembled(a, x) == Outside.(resync := b)
    ensures var x, a := PhysicalAt(f, c, p), Outside.(resync := resync);
            ReadAll(f, c, p, resync).1 == AsSeq(x.drop) + Reports(c, a, x) + ReadAll(f, c, x.next, b).1
  {
    hide PhysicalAt, Reports;
    var x, a := PhysicalAt(f, c, p), Outside.(resync := resync);
    var now, r := AsSeq(x.drop) + Reports(c, a, x), ReadFrom(f, c, x.next, Outside.(resync := b));
    assert ReadFrom(f, c, p, a) == r.(drops := now + r.drops);
    if r.record.Some? {
      Associative(now, r.drops, ReadAll(f, c, r.next, false).1);
    }
  }

  /** A piece before `initial` is passed over silently, and ends the looking for a first record; a later
      piece of a record whose beginning was not read is reported, unless it is looked for. */
  lemma PieceReports(f: seq<byte>, c: Config, p: nat, x: Piece, resync: bool) returns (d: seq<nat>)
    requires PieceIn(f, c.crc, x) && x.End() <= |f| && x.pos == Align(p) && |x.data| <= Room(x.pos)
    requires x.kind == MiddleType || x.kind == LastType || x.pos < c.initial
    ensures ReadAll(f, c, p, resync).1 == d
            + ReadAll(f, c, x.End(), resync && x.pos >= c.initial && x.kind == MiddleType).1
    ensures d == [] <==> resync || x.pos < c.initial
  {
    hide PhysicalAt, ReadAll, ReadFrom, PieceIn, Align, Leftover;
    PieceReads(f, c, p, x);
    var y, a := PhysicalAt(f, c, p), Outside.(resync := resync);
    d := AsSeq(y.drop) + Reports(c, a, y);
    ReportsOfOne(f, c, p, resync, resync && x.pos >= c.initial && x.kind == MiddleType);
  }

  // ---- One record ----

  lemma BeforeSplits(ps: seq<Piece>, initial: nat)
    requires |ps| > 0
    ensures AllBefore(ps, initial) <==> ps[0].pos < initial && AllBefore(ps[1..], initial)
  {
    if AllBefore(ps, initial) {
      assert forall i: nat | i < |ps| - 1 :: ps[1..][i] == ps[i + 1];
    } else {
      var i: nat :| i < |ps| && ps[i].pos >= initial;
      assert i > 0 ==> ps[1..][i - 1] == ps[i];
    }
  }

  /** What is left of a record is silent if all of it lies before `initial`, or all of it behind and the
      reader still looks for a first record. */
  lemma {:induction false} RestReports(f: seq<byte>, c: Config, p: nat, r: seq<byte>, resync: bool)
    returns (d: seq<nat>)
    requires Written(f, c.crc, Pieces(p, r, false)) && EndOf(p, Pieces(p, r, false)) <= |f|
    ensures ReadAll(f, c, p, resync).1 == d + ReadAll(f, c, EndOf(p, Pieces(p, r, false)), false).1
    ensures d == [] <==> AllBefore(Pieces(p, r, false), c.initial) || (resync && Align(p) >= c.initial)
    decreases |r|, if Room(Align(p)) == 0 then 1 else 0
  {
    hide PhysicalAt, ReadAll, Pieces, Written, Align, Leftover, PieceIn, AllBefore;
    var x, ps := First(r, Align(p), false), Pieces(p, r, false);
    PiecesUnfold(p, r, false);
    WrittenTail(f, c.crc, ps);
    BeforeSplits(ps, c.initial);
    d := PieceReports(f, c, p, x, resync);
    if |r| <= Room(x.pos) {
      NoneBehind(ps, c.initial);
    } else {
      var r', resync' := r[Room(x.pos)..], resync && x.pos >= c.initial;
      RoomAfterEmpty(p);
      AlignsLater(p, x);
      var e := RestReports(f, c, x.End(), r', resync');
      Associative(d, e, ReadAll(f, c, EndOf(p, ps), false).1);
      BehindToo(x.End(), r', c.initial);
      d := d + e;
    }
  }

  lemma NoneBehind(ps: seq<Piece>, initial: nat)
    requires |ps| == 1
    ensures AllBefore(ps[1..], initial)
  {
  }

  lemma AlignsLater(p: nat, x: Piece)
    requires x.pos == Align(p)
    ensures Align(x.End()) > x.pos
  {
  }

  /** Pieces that begin at `initial` or later are not all before it. */
  lemma BehindToo(p: nat, r: seq<byte>, initial: nat)
    ensures Align(p) >= initial ==> !AllBefore(Pieces(p, r, false), initial)
  {
    PiecesUnfold(p, r, false);
  }

  lemma {:induction false} PiecesLater(p: nat, r: seq<byte>, begin: bool, i: nat)
    requires i < |Pieces(p, r, begin)|
    ensures Pieces(p, r, begin)[i].pos >= Align(p)
  {
    PiecesChained(p, r, begin);
    EndsAscend(p, Pieces(p, r, begin), 0, i);
    PiecesUnfold(p, r, begin);
  }

  /** From one of its pieces on, a record crosses if not all the rest is before `initial`. */
  lemma CrossesFrom(ps: seq<Piece>, low: nat, initial: nat, i: nat)
    requires i < |ps| && ps[i].pos >= low && (forall k: nat | k < i :: ps[k].pos < low)
    requires forall k: nat | i <= k < |ps| :: ps[i].pos <= ps[k].pos
    ensures Crosses(ps, low, initial) <==> ps[i].pos < initial && !AllBefore(ps[i..], initial)
  {
    if Crosses(ps, low, initial) {
      var a: nat, b: nat :| a < |ps| && b < |ps| && low <= ps[a].pos < initial <= ps[b].pos;
      assert b >= i;
      assert ps[i..][b - i] == ps[b];
    }
    if ps[i].pos < initial && !AllBefore(ps[i..], initial) {
      var b: nat :| b < |ps| - i && ps[i..][b].pos >= initial;
      assert ps[i..][b] == ps[i + b];
      assert low <= ps[i].pos < initial <= ps[i + b].pos;
    }
  }

  /** A whole record is silent unless it crosses. */
  lemma RecordReports(f: seq<byte>, c: Config, p: nat, r: seq<byte>, resync: bool, low: nat) returns (d: seq<nat>)
    requires Written(f, c.crc, Pieces(p, r, true)) && EndOf(p, Pieces(p, r, true)) <= |f| && low <= Align(p)
    ensures ReadAll(f, c, p, resync).1 == d + ReadAll(f, c, EndOf(p, Pieces(p, r, true)), false).1
    ensures d == [] <==> !Crosses(Pieces(p, r, true), low, c.initial)
  {
    hide PhysicalAt, ReadAll, ReadFrom, Pieces, Written, Align, Leftover, PieceIn, AllBefore, Crosses;
    var x, ps := First(r, Align(p), true), Pieces(p, r, true);
    PiecesUnfold(p, r, true);
    forall k: nat | k < |ps| ensures ps[0].pos <= ps[k].pos {
      PiecesLater(p, r, true, k);
    }
    CrossesFrom(ps, low, c.initial, 0);
    assert ps[0..] == ps;
    if x.pos >= c.initial {
      RecordReads(f, c, p, r, true, Outside.(resync := resync));
      assert [] + r == r;
      d := [];
      NothingReported(f, c, p, resync, r, EndOf(p, ps));
    } else {
      WrittenTail(f, c.crc, ps);
      BeforeSplits(ps, c.initial);
      d := PieceReports(f, c, p, x, resync);
      if |r| <= Room(x.pos) {
        NoneBehind(ps, c.initial);
      } else {
        var e := RestReports(f, c, x.End(), r[Room(x.pos)..], false);
        Associative(d, e, ReadAll(f, c, EndOf(p, ps), false).1);
        d := d + e;
      }
    }
  }

  lemma NothingReported(f: seq<byte>, c: Config, p: nat, resync: bool, r: seq<byte>, q: nat)
    requires var t := ReadFrom(f, c, p, Outside.(resync := resync)); t.record.Some? && t.next == q && t.drops == []
    ensures ReadAll(f, c, p, resync).1 == [] + ReadAll(f, c, q, false).1
  {
  }

  // ---- From a record's end, and from a block's start ----

  lemma EndsSilently(f: seq<byte>, c: Config, p: nat, resync: bool)
    requires |f| <= p
    ensures ReadAll(f, c, p, resync).1 == []
  {
    if p == |f| {
      EndReads(f, c);
    }
    EofEnds(f, c, p, Outside.(resync := resync));
  }

  lemma {:induction false} ReportsFromBoundary(f: seq<byte>, c: Config, p: nat, rs: seq<seq<byte>>, resync: bool,
                                               low: nat)
    requires Written(f, c.crc, AllPieces(p, rs)) && |f| == EndOf(p, AllPieces(p, rs)) && p <= |f| && low <= Align(p)
    ensures ReadAll(f, c, p, resync).1 == [] <==> NoneCrosses(p, rs, low, c.initial)
    decreases |rs|
  {
    hide PhysicalAt, ReadFrom, Written, Pieces, Align, AllPieces, EndOf, ReadAll, Crosses;
    if |rs| == 0 {
      NoPieces(p, rs);
      EndsSilently(f, c, p, resync);
    } else {
      var q := EndOf(p, Pieces(p, rs[0], true));
      SplitFirst(f, c.crc, p, rs);
      EndsWithin(q, rs[1..]);
      var d := RecordReports(f, c, p, rs[0], resync, low);
      ReportsFromBoundary(f, c, q, rs[1..], false, low);
    }
  }

  lemma NoPieces(p: nat, rs: seq<seq<byte>>)
    requires |rs| == 0
    ensures EndOf(p, AllPieces(p, rs)) == p
  {
  }

  /** A block that begins inside a record begins with one of its later pieces, and the others before it
      lie in earlier blocks. */
  lemma {:induction false} BlockCuts(f: seq<byte>, crc: Checksum, p: nat, r: seq<byte>, begin: bool, s: nat)
    returns (p': nat, r': seq<byte>, i: nat)
    requires Written(f, crc, Pieces(p, r, begin)) && Align(p) < s < EndOf(p, Pieces(p, r, begin)) && s % BlockSize == 0
    ensures Align(p') == s && Written(f, crc, Pieces(p', r', false))
    ensures EndOf(p', Pieces(p', r', false)) == EndOf(p, Pieces(p, r, begin))
    ensures i < |Pieces(p, r, begin)| && Pieces(p, r, begin)[i..] == Pieces(p', r', false)
    ensures forall k: nat | k < i :: Pieces(p, r, begin)[k].pos < s
    decreases |r|, if Room(Align(p)) == 0 then 1 else 0
  {
    hide Pieces, Written, Align, PieceIn;
    var x, ps := First(r, Align(p), begin), Pieces(p, r, begin);
    PiecesUnfold(p, r, begin);
    WrittenTail(f, crc, ps);
    BlockStartAligns(p, s);
    RoomAfterEmpty(p);
    p', r', i := x.End(), r[Room(x.pos)..], 1;
    if x.End() <= s {
      BlockStartAligns(x.End(), s);
    }
    if Align(x.End()) < s {
      var rest := ps[1..];
      p', r', i := BlockCuts(f, crc, p', r', false, s);
      assert ps[i + 1..] == rest[i..];
      forall k: nat | k < i + 1 ensures ps[k].pos < s {
        assert k > 0 ==> ps[k] == rest[k - 1];
      }
      i := i + 1;
    } else {
      FirstIsSome(x.End(), r', false);
    }
  }

  lemma FirstIsSome(p: nat, r: seq<byte>, begin: bool)
    ensures |Pieces(p, r, begin)| > 0
  {
  }

  /** A record that ends before `low` does not cross. */
  lemma EarlyDoesNotCross(p: nat, r: seq<byte>, low: nat, initial: nat)
    requires EndOf(p, Pieces(p, r, true)) <= low
    ensures !Crosses(Pieces(p, r, true), low, initial)
  {
    var ps := Pieces(p, r, true);
    PiecesChained(p, r, true);
    forall i: nat | i < |ps| ensures ps[i].pos < low {
      EndsAscend(p, ps, i, |ps| - 1);
    }
  }

  lemma {:induction false} ReportsFromBlock(f: seq<byte>, c: Config, p: nat, rs: seq<seq<byte>>, s: nat)
    requires Written(f, c.crc, AllPieces(p, rs)) && |f| == EndOf(p, AllPieces(p, rs)) && p <= s && s % BlockSize == 0
    ensures ReadAll(f, c, s, true).1 == [] <==> NoneCrosses(p, rs, s, c.initial)
    decreases |rs|
  {
    hide PhysicalAt, ReadFrom, Written, Pieces, AllPieces, EndOf, ReadAll, Align, Leftover, Crosses;
    if |rs| == 0 {
      NoPieces(p, rs);
      EndsSilently(f, c, s, true);
    } else {
      var q := EndOf(p, Pieces(p, rs[0], true));
      SplitFirst(f, c.crc, p, rs);
      EndsWithin(q, rs[1..]);
      PiecesUnfold(p, rs[0], true);
      BlockStartAligns(p, s);
      if q <= s {
        EarlyDoesNotCross(p, rs[0], s, c.initial);
        ReportsFromBlock(f, c, q, rs[1..], s);
      } else if Align(p) < s {
        var d := ReportsFromInside(f, c, p, rs[0], s);
        ReportsFromBoundary(f, c, q, rs[1..], false, s);
      } else {
        AllAtAlign(f, c, p, true);
        ReportsFromBoundary(f, c, p, rs, true, s);
      }
    }
  }

  lemma ReportsFromInside(f: seq<byte>, c: Config, p: nat, r: seq<byte>, s: nat) returns (d: seq<nat>)
    requires Written(f, c.crc, Pieces(p, r, true)) && EndOf(p, Pieces(p, r, true)) <= |f|
    requires Align(p) < s < EndOf(p, Pieces(p, r, true)) && s % BlockSize == 0
    ensures ReadAll(f, c, s, true).1 == d + ReadAll(f, c, EndOf(p, Pieces(p, r, true)), false).1
    ensures d == [] <==> !Crosses(Pieces(p, r, true), s, c.initial)
  {
    hide PhysicalAt, ReadFrom, Written, Pieces, EndOf, ReadAll, Crosses, AllBefore, Leftover;
    var p', r', i := BlockCuts(f, c.crc, p, r, true, s);
    var ps, rest := Pieces(p, r, true), Pieces(p', r', false);
    PiecesUnfold(p', r', false);
    AllAtAlign(f, c, p', true);
    d := RestReports(f, c, p', r', true);
    forall k: nat | i <= k < |ps| ensures ps[i].pos <= ps[k].pos {
      PiecesLater(p', r', false, k - i);
      assert ps[k] == rest[k - i] && ps[i] == rest[0];
    }
    assert ps[i] == rest[0];
    CrossesFrom(ps, s, c.initial, i);
  }

  // ---- The whole log ----

  /** A reader told to begin at `initial` reports losses in an undamaged log if and only if some record
      has one header between the block it begins with and `initial`, and another at `initial` or later. */
  lemma SilentIff(crc: Checksum, checksum: bool, rs: seq<seq<byte>>, initial: nat)
    ensures Log(FileOf(crc, rs), Config(crc, checksum, initial)).1 == [] <==>
              NoneCrosses(0, rs, FirstBlock(initial), initial)
  {
    var f, c := FileOf(crc, rs), Config(crc, checksum, initial);
    hide ReadAll, NoneCrosses, Crosses, FileOf;
    FileHolds(crc, rs);
    FileIs(crc, rs, AllPieces(0, rs));
    if initial > 0 {
      StartsBlock(initial);
      ReportsFromBlock(f, c, 0, rs, FirstBlock(initial));
    } else {
      assert FirstBlock(initial) == 0;
      ReportsFromBoundary(f, c, 0, rs, false, 0);
    }
  }

  /** One record longer than a block: every reader told to begin inside the first block reports a loss. */
  lemma FalseReport(crc: Checksum, checksum: bool, r: seq<byte>, initial: nat)
    requires |r| > BlockSize - HeaderSize && 0 < initial <= BlockSize - 6
    ensures Log(FileOf(crc, [r]), Config(crc, checksum, initial)).1 != []
  {
    hide Log, FileOf;
    SilentIff(crc, checksum, [r], initial);
    var ps := Pieces(0, r, true);
    PiecesUnfold(0, r, true);
    PiecesLater(BlockSize, r[BlockSize - HeaderSize..], false, 0);
    assert ps[1] == ps[1..][0];
    assert 0 <= ps[0].pos < initial <= ps[1].pos;
  }

  // ---- Any bytes ----

  /** A report of n bytes is about bytes of the file behind the first `initial`. */
  ghost predicate Behind(f: seq<byte>, c: Config, drops: seq<nat>) { forall d | d in drops :: d + c.initial <= |f| }

  lemma {:induction false} PhysicalBehind(f: seq<byte>, c: Config, p: nat)
    ensures var x := PhysicalAt(f, c, p);
            x.kind != EofType || x.drop.Some? ==> x.next <= |f| && Behind(f, c, AsSeq(x.drop))
    decreases |f| - p
  {
    hide ChecksumOk, LengthAt;
    var e := BlockEnd(f, p);
    if p + HeaderSize > e && FullBlock(f, p) && p <= |f| {
      PhysicalBehind(f, c, e);
    }
  }

  lemma StepBehind(f: seq<byte>, c: Config, a: Assembly, x: Physical)
    requires x.next <= |f| || x.kind == EofType
    ensures Behind(f, c, Reports(c, a, x))
  {
  }

  lemma {:induction false} ReadingBehind(f: seq<byte>, c: Config, p: nat, a: Assembly)
    ensures Behind(f, c, ReadFrom(f, c, p, a).drops)
    decreases |f| - p
  {
    hide PhysicalAt, Reports, Assembled;
    var x := PhysicalAt(f, c, p);
    PhysicalBehind(f, c, p);
    StepBehind(f, c, a, x);
    if x.kind != EofType {
      ReadingBehind(f, c, x.next, Assembled(a, x));
    }
  }

  lemma {:induction false} AllBehind(f: seq<byte>, c: Config, p: nat, resync: bool)
    ensures Behind(f, c, ReadAll(f, c, p, resync).1)
    decreases |f| - p
  {
    hide ReadFrom;
    ReadingBehind(f, c, p, Outside.(resync := resync));
    var r := ReadFrom(f, c, p, Outside.(resync := resync));
    if r.record.Some? {
      AllBehind(f, c, r.next, false);
    }
  }

  /** Whatever bytes a file holds, no loss is reported of what lies before the initial offset. */
  lemma NoReportOfBefore(f: seq<byte>, c: Config, d: nat)
    requires d in Log(f, c).1
    ensures d + c.initial <= |f|
  {
    AllBehind(f, c, if c.initial > 0 then FirstBlock(c.initial) else 0, c.initial > 0);
  }
}
