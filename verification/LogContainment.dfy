/** Damage to a log's bytes never makes up a record: with checksums on, a reader returns some of the
    records that were written, in order, each as it was. */
module LogContainment {
  import opened Wrappers
  import opened Coding
  import opened LogFormat
  import opened LogReader
  import opened LogTheorems

  // ---- Which pieces are whose ----

  ghost function Before(rs: seq<seq<byte>>, k: nat): seq<Piece>
    requires k <= |rs|
  {
    AllPieces(0, rs[..k])
  }

  /** Where the first k records end, and where the next one's header is. */
  ghost function EndAt(rs: seq<seq<byte>>, k: nat): nat
    requires k <= |rs|
  {
    EndOf(0, Before(rs, k))
  }

  ghost function StartAt(rs: seq<seq<byte>>, k: nat): nat
    requires k < |rs|
  {
    Align(EndAt(rs, k))
  }

  ghost function OwnPieces(rs: seq<seq<byte>>, k: nat): seq<Piece>
    requires k < |rs|
  {
    Pieces(EndAt(rs, k), rs[k], true)
  }

  lemma BeforeGrows(rs: seq<seq<byte>>, k: nat)
    requires k < |rs|
    ensures Before(rs, k + 1) == Before(rs, k) + OwnPieces(rs, k)
    ensures EndAt(rs, k + 1) == EndOf(EndAt(rs, k), OwnPieces(rs, k)) > StartAt(rs, k)
  {
    assert rs[..k + 1] == rs[..k] + [rs[k]];
    MorePieces(0, rs[..k], rs[k]);
    EndOfAppend(0, Before(rs, k), OwnPieces(rs, k));
    PiecesUnfold(EndAt(rs, k), rs[k], true);
  }

  lemma {:induction false} StartsAscend(rs: seq<seq<byte>>, j: nat, k: nat)
    requires j < k < |rs|
    ensures StartAt(rs, j) < EndAt(rs, j + 1) <= StartAt(rs, k)
    decreases k
  {
    hide Align, AllPieces, Pieces, EndOf;
    BeforeGrows(rs, j);
    if j + 1 < k {
      StartsAscend(rs, j, k - 1);
      BeforeGrows(rs, k - 1);
    }
  }

  lemma {:induction false} PrefixOfAll(rs: seq<seq<byte>>, k: nat)
    requires k <= |rs|
    ensures Before(rs, k) <= AllPieces(0, rs)
    decreases |rs| - k
  {
    hide AllPieces, Pieces;
    if k == |rs| {
      assert rs[..k] == rs;
    } else {
      BeforeGrows(rs, k);
      PrefixOfAll(rs, k + 1);
    }
  }

  /** Every piece is one of some record's. */
  lemma {:induction false} Owner(rs: seq<seq<byte>>, i: nat, n: nat) returns (k: nat, j: nat)
    requires n <= |rs| && i < |Before(rs, n)|
    ensures k < n && i == |Before(rs, k)| + j && j < |OwnPieces(rs, k)| && Before(rs, n)[i] == OwnPieces(rs, k)[j]
    decreases n
  {
    if n > 0 {
      BeforeGrows(rs, n - 1);
      if i < |Before(rs, n - 1)| {
        k, j := Owner(rs, i, n - 1);
      } else {
        k, j := n - 1, i - |Before(rs, n - 1)|;
      }
    }
  }

  /** Only a record's first piece is marked as a beginning. */
  lemma {:induction false} Beginnings(p: nat, r: seq<byte>, begin: bool, j: nat)
    requires j < |Pieces(p, r, begin)|
    ensures Pieces(p, r, begin)[j].kind == FullType || Pieces(p, r, begin)[j].kind == FirstType <==> begin && j == 0
    ensures FullType <= Pieces(p, r, begin)[j].kind <= LastType
    decreases |r|, if Room(Align(p)) == 0 then 1 else 0
  {
    PiecesUnfold(p, r, begin);
    if j > 0 {
      var x := First(r, Align(p), begin);
      RoomAfterEmpty(p);
      Beginnings(x.End(), r[Room(x.pos)..], false, j - 1);
    }
  }

  lemma OnePlace(p: nat, ps: seq<Piece>, i: nat, j: nat)
    requires Chained(p, ps) && i < |ps| && j < |ps| && ps[i].pos == ps[j].pos
    ensures i == j
  {
    EndsAscend(p, ps, if i < j then i else j, if i < j then j else i);
  }

  // ---- What a damaged file may still pass off ----

  /** The bytes at a piece's place are the piece. */
  ghost predicate Intact(g: seq<byte>, x: Piece) {
    x.End() <= |g| && LengthAt(g, x.pos) == |x.data| && g[x.pos + 6] == x.kind
        && g[x.pos + HeaderSize..x.End()] == x.data
  }

  /** Wherever the reader gets to from p on, what it accepts is the physical record that was written
      there. */
  ghost predicate Trusted(g: seq<byte>, c: Config, ps: seq<Piece>, p: nat)
    decreases |g| - p
  {
    var x := PhysicalAt(g, c, p);
    && (x.kind != EofType && x.kind != BadType ==> exists i: nat :: i < |ps| && ps[i].pos == x.pos && Intact(g, ps[i]))
    && (x.kind != EofType ==> Trusted(g, c, ps, x.next))
  }

  lemma AcceptsWritten(g: seq<byte>, c: Config, ps: seq<Piece>, p: nat) returns (i: nat)
    requires Trusted(g, c, ps, p) && c.initial == 0
    requires PhysicalAt(g, c, p).kind != EofType && PhysicalAt(g, c, p).kind != BadType
    ensures i < |ps| && ps[i].pos == Align(p) && PhysicalAt(g, c, p) == AsRead(ps[i])
  {
    hide PhysicalAt, Align, LengthAt;
    TakenAsItStands(g, c, p);
    i :| i < |ps| && ps[i].pos == PhysicalAt(g, c, p).pos && Intact(g, ps[i]);
  }

  /** The physical record that the bytes at q spell. */
  ghost function Stands(g: seq<byte>, q: nat): Physical
    requires q + HeaderSize <= |g| && q + HeaderSize + LengthAt(g, q) <= |g|
  {
    var e := q + HeaderSize + LengthAt(g, q);
    Physical(g[q + 6], q, g[q + HeaderSize..e], e, None)
  }

  /** What the reader takes is at the next place for a header, as the bytes there say. */
  lemma TakenAsItStands(g: seq<byte>, c: Config, p: nat)
    requires c.initial == 0 && PhysicalAt(g, c, p).kind != EofType && PhysicalAt(g, c, p).kind != BadType
    ensures var q := Align(p);
            && q + HeaderSize <= |g| && q + HeaderSize + LengthAt(g, q) <= |g|
            && PhysicalAt(g, c, p) == Stands(g, q)
  {
    hide PhysicalAt, Align, LengthAt;
    AtNextHeader(g, c, p);
    TakenThere(g, c, Align(p));
  }

  lemma AtNextHeader(g: seq<byte>, c: Config, p: nat)
    requires PhysicalAt(g, c, p).kind != EofType
    ensures PhysicalAt(g, c, p) == PhysicalAt(g, c, Align(p))
  {
    if p != Align(p) {
      Trailer(g, c, p);
    }
  }

  lemma TakenThere(g: seq<byte>, c: Config, q: nat)
    requires c.initial == 0 && Leftover(q) >= HeaderSize
    requires PhysicalAt(g, c, q).kind != EofType && PhysicalAt(g, c, q).kind != BadType
    ensures q + HeaderSize <= |g| && q + HeaderSize + LengthAt(g, q) <= |g|
    ensures PhysicalAt(g, c, q) == Stands(g, q)
  {
    hide ChecksumOk, LengthAt, Leftover;
  }

  lemma TrustStep(g: seq<byte>, c: Config, ps: seq<Piece>, p: nat)
    requires Trusted(g, c, ps, p) && PhysicalAt(g, c, p).kind != EofType
    ensures Trusted(g, c, ps, PhysicalAt(g, c, p).next)
  {
  }

  lemma {:induction false} TrustCarries(g: seq<byte>, c: Config, ps: seq<Piece>, p: nat, a: Assembly)
    requires Trusted(g, c, ps, p) && ReadFrom(g, c, p, a).record.Some?
    ensures Trusted(g, c, ps, ReadFrom(g, c, p, a).next)
    decreases |g| - p
  {
    hide PhysicalAt, Intact;
    var x := PhysicalAt(g, c, p);
    if x.kind != FullType && !(x.kind == LastType && !PassedOver(a, x.kind) && a.inside) {
      TrustCarries(g, c, ps, x.next, Assembled(a, x));
    }
  }

  // ---- Putting records together ----

  /** From g on come the pieces of r, the rest of a record. */
  ghost predicate Tail(ps: seq<Piece>, g: nat, p: nat, r: seq<byte>) {
    g + |Pieces(p, r, false)| <= |ps| && ps[g..g + |Pieces(p, r, false)|] == Pieces(p, r, false)
  }

  lemma TailStep(ps: seq<Piece>, g: nat, p: nat, r: seq<byte>)
    requires Tail(ps, g, p, r)
    ensures var x := First(r, Align(p), false);
            && g < |ps| && ps[g] == x
            && (|r| <= Room(x.pos) ==> EndOf(p, Pieces(p, r, false)) == x.End())
            && (|r| > Room(x.pos) ==>
                  var r' := r[Room(x.pos)..];
                  Tail(ps, g + 1, x.End(), r')
                      && EndOf(p, Pieces(p, r, false)) == EndOf(x.End(), Pieces(x.End(), r', false)))
  {
    var own := Pieces(p, r, false);
    PiecesUnfold(p, r, false);
    assert ps[g] == own[0];
    assert ps[g + 1..g + |own|] == own[1..];
  }

  /** A record's own pieces lie together. */
  lemma HeadStep(rs: seq<seq<byte>>, k: nat)
    requires k < |rs|
    ensures var ps, g, x := AllPieces(0, rs), |Before(rs, k)|, First(rs[k], StartAt(rs, k), true);
            && g < |ps| && ps[g] == x
            && (|rs[k]| <= Room(x.pos) ==> EndAt(rs, k + 1) == x.End())
            && (|rs[k]| > Room(x.pos) ==>
                  var r := rs[k][Room(x.pos)..];
                  Tail(ps, g + 1, x.End(), r) && EndAt(rs, k + 1) == EndOf(x.End(), Pieces(x.End(), r, false)))
  {
    hide AllPieces, Pieces, EndOf, Align;
    var ps, g, own := AllPieces(0, rs), |Before(rs, k)|, OwnPieces(rs, k);
    BeforeGrows(rs, k);
    PrefixOfAll(rs, k + 1);
    PiecesUnfold(EndAt(rs, k), rs[k], true);
    assert ps[g] == own[0];
    assert ps[g + 1..g + |own|] == own[1..];
  }

  /** A reader inside record k: the pieces from g on are what is left of it. */
  ghost predicate Inside(rs: seq<seq<byte>>, k: nat, g: nat, r: seq<byte>, p: nat, a: Assembly) {
    && k < |rs| && a.scratch + r == rs[k] && a.start == StartAt(rs, k) && a.start < p
    && Tail(AllPieces(0, rs), g, p, r) && EndOf(p, Pieces(p, r, false)) == EndAt(rs, k + 1)
  }

  /** What a reading returned is record k, at its place. */
  ghost predicate IsRecord(rs: seq<seq<byte>>, t: Reading, k: nat) {
    k < |rs| && t.record == Some(rs[k]) && t.start == StartAt(rs, k) && t.next == EndAt(rs, k + 1)
  }

  /** Nothing is returned, or a record that begins at `low` or later. */
  ghost predicate Gives(rs: seq<seq<byte>>, t: Reading, low: nat) {
    t.record.None? || (t.start >= low && exists k: nat :: IsRecord(rs, t, k))
  }

  /** A physical record that completes nothing leads on. */
  lemma LeadsOn(f: seq<byte>, c: Config, p: nat, a: Assembly, rs: seq<seq<byte>>, low: nat)
    requires var x := PhysicalAt(f, c, p);
             && x.kind != EofType && x.kind != FullType && !(x.kind == LastType && a.inside)
             && Gives(rs, ReadFrom(f, c, x.next, Assembled(a, x)), low)
    requires !a.resync
    ensures Gives(rs, ReadFrom(f, c, p, a), low)
  {
    hide PhysicalAt, ReadFrom, Assembled, IsRecord;
    var t, t' := ReadFrom(f, c, p, a), ReadFrom(f, c, PhysicalAt(f, c, p).next, Assembled(a, PhysicalAt(f, c, p)));
    SameLater(f, c, p, a);
    if t.record.Some? {
      var k: nat :| IsRecord(rs, t', k);
      SameRecord(rs, t, t', k);
    }
  }

  lemma SameLater(f: seq<byte>, c: Config, p: nat, a: Assembly)
    requires var x := PhysicalAt(f, c, p); x.kind != EofType && x.kind != FullType && !(x.kind == LastType && a.inside)
    ensures var t, t' := ReadFrom(f, c, p, a),
            ReadFrom(f, c, PhysicalAt(f, c, p).next, Assembled(a, PhysicalAt(f, c, p)));
            t.record == t'.record && t.start == t'.start && t.next == t'.next
  {
    hide PhysicalAt;
  }

  lemma SameRecord(rs: seq<seq<byte>>, t: Reading, t': Reading, k: nat)
    requires IsRecord(rs, t', k) && t.record == t'.record && t.start == t'.start && t.next == t'.next
    ensures IsRecord(rs, t, k)
  {
  }

  /** From any place, between records or inside one, a reader of a damaged file comes to one of the
      records written, or to the end. */
  lemma {:induction false} ReadsWritten(f: seq<byte>, c: Config, rs: seq<seq<byte>>, p: nat, a: Assembly,
                                        k: nat, g: nat, r: seq<byte>)
    requires Trusted(f, c, AllPieces(0, rs), p) && c.initial == 0 && !a.resync
    requires a.inside ==> Inside(rs, k, g, r, p, a)
    ensures Gives(rs, ReadFrom(f, c, p, a), if a.inside then a.start else p)
    decreases |f| - p, 1
  {
    hide PhysicalAt, ReadFrom, Trusted, Pieces, AllPieces, Tail, EndOf, Gives, Align;
    var x := PhysicalAt(f, c, p);
    if x.kind == EofType {
      EndGivesNothing(f, c, rs, p, a);
    } else if x.kind == BadType {
      TrustStep(f, c, AllPieces(0, rs), p);
      ReadsWritten(f, c, rs, x.next, Assembled(a, x), 0, 0, []);
      GivesLower(rs, ReadFrom(f, c, x.next, Assembled(a, x)), x.next, if a.inside then a.start else p);
      LeadsOn(f, c, p, a, rs, if a.inside then a.start else p);
    } else {
      AllChained(0, rs);
      var i := AcceptsWritten(f, c, AllPieces(0, rs), p);
      if a.inside {
        TailStep(AllPieces(0, rs), g, p, r);
        OnePlace(0, AllPieces(0, rs), i, g);
        InsideReads(f, c, rs, p, a, k, g, r);
      } else {
        OutsideReads(f, c, rs, p, a, i);
      }
    }
  }

  lemma EndGivesNothing(f: seq<byte>, c: Config, rs: seq<seq<byte>>, p: nat, a: Assembly)
    requires PhysicalAt(f, c, p).kind == EofType
    ensures Gives(rs, ReadFrom(f, c, p, a), if a.inside then a.start else p)
  {
  }

  lemma GivesLower(rs: seq<seq<byte>>, t: Reading, high: nat, low: nat)
    requires Gives(rs, t, high) && low <= high
    ensures Gives(rs, t, low)
  {
  }

  lemma GivesThis(rs: seq<seq<byte>>, t: Reading, k: nat, low: nat)
    requires IsRecord(rs, t, k) && low <= t.start
    ensures Gives(rs, t, low)
  {
  }

  /** Inside a record: the piece read is the record's next one. */
  lemma {:induction false} InsideReads(f: seq<byte>, c: Config, rs: seq<seq<byte>>, p: nat, a: Assembly, k: nat, g: nat,
                                       r: seq<byte>)
    requires Trusted(f, c, AllPieces(0, rs), p) && c.initial == 0 && !a.resync
    requires a.inside && Inside(rs, k, g, r, p, a)
    requires PhysicalAt(f, c, p) == AsRead(First(r, Align(p), false))
    ensures Gives(rs, ReadFrom(f, c, p, a), a.start)
    decreases |f| - p, 0
  {
    hide PhysicalAt, ReadFrom, Trusted, Pieces, AllPieces, Tail, EndOf, Gives, Align;
    var x := First(r, Align(p), false);
    TailStep(AllPieces(0, rs), g, p, r);
    PieceAssembles(f, c, p, x, false, |r| <= Room(x.pos), a);
    if |r| <= Room(x.pos) {
      GivesThis(rs, ReadFrom(f, c, p, a), k, a.start);
    } else {
      var r', a' := r[Room(x.pos)..], After(a, x, false);
      Associative(a.scratch, x.data, r');
      assert x.data + r' == r;
      TrustStep(f, c, AllPieces(0, rs), p);
      ReadsWritten(f, c, rs, x.End(), a', k, g + 1, r');
    }
  }

  /** Outside: a first piece begins its record, any other is passed over. */
  lemma {:induction false} OutsideReads(f: seq<byte>, c: Config, rs: seq<seq<byte>>, p: nat, a: Assembly, i: nat)
    requires Trusted(f, c, AllPieces(0, rs), p) && c.initial == 0 && !a.resync && !a.inside
    requires i < |AllPieces(0, rs)| && AllPieces(0, rs)[i].pos == Align(p)
    requires PhysicalAt(f, c, p) == AsRead(AllPieces(0, rs)[i])
    ensures Gives(rs, ReadFrom(f, c, p, a), p)
    decreases |f| - p, 0
  {
    hide PhysicalAt, ReadFrom, Trusted, Pieces, AllPieces, Tail, EndOf, Gives, Align;
    assert rs[..|rs|] == rs;
    var x := AllPieces(0, rs)[i];
    var k, j := Owner(rs, i, |rs|);
    Beginnings(EndAt(rs, k), rs[k], true, j);
    TrustStep(f, c, AllPieces(0, rs), p);
    if j == 0 {
      HeadStep(rs, k);
      var b := a.(scratch := []);
      ScratchUnused(f, c, p, a);
      PieceAssembles(f, c, p, x, true, |rs[k]| <= Room(x.pos), b);
      if |rs[k]| <= Room(x.pos) {
        assert [] + rs[k] == rs[k];
        GivesThis(rs, ReadFrom(f, c, p, a), k, p);
      } else {
        var r', a' := rs[k][Room(x.pos)..], After(b, x, true);
        assert x.data + r' == rs[k];
        ReadsWritten(f, c, rs, x.End(), a', k, i + 1, r');
        GivesLower(rs, ReadFrom(f, c, p, a), x.pos, p);
      }
    } else {
      ReadsWritten(f, c, rs, x.End(), Assembled(a, AsRead(x)), 0, 0, []);
      GivesLower(rs, ReadFrom(f, c, x.End(), Assembled(a, AsRead(x))), x.End(), p);
      LeadsOn(f, c, p, a, rs, p);
    }
  }

  lemma ScratchUnused(f: seq<byte>, c: Config, p: nat, a: Assembly)
    requires !a.inside && (PhysicalAt(f, c, p).kind == FullType || PhysicalAt(f, c, p).kind == FirstType)
    ensures ReadFrom(f, c, p, a) == ReadFrom(f, c, p, a.(scratch := []))
  {
  }

  // ---- The whole log ----

  /** `found` is drawn from the records from k on, in order, each with its position. */
  ghost predicate Drawn(found: seq<(seq<byte>, nat)>, rs: seq<seq<byte>>, k: nat)
    decreases |found|
  {
    |found| > 0 ==> exists i: nat ::
          k <= i < |rs| && found[0] == (rs[i], StartAt(rs, i)) && Drawn(found[1..], rs, i + 1)
  }

  lemma {:induction false} AllDrawn(f: seq<byte>, c: Config, rs: seq<seq<byte>>, p: nat, k: nat)
    requires Trusted(f, c, AllPieces(0, rs), p) && c.initial == 0
    requires k > 0 ==> k <= |rs| && StartAt(rs, k - 1) < p
    ensures Drawn(ReadAll(f, c, p, false).0, rs, k)
    decreases |f| - p
  {
    hide PhysicalAt, ReadFrom, Trusted, Pieces, AllPieces, StartAt, EndAt;
    assert Outside.(resync := false) == Outside;
    var t := ReadFrom(f, c, p, Outside);
    ReadsWritten(f, c, rs, p, Outside, 0, 0, []);
    if t.record.Some? {
      var i: nat :| IsRecord(rs, t, i);
      if i < k - 1 {
        StartsAscend(rs, i, k - 1);
      }
      BeforeGrows(rs, i);
      TrustCarries(f, c, AllPieces(0, rs), p, Outside);
      AllDrawn(f, c, rs, t.next, i + 1);
      var found := ReadAll(f, c, p, false).0;
      assert found[1..] == ReadAll(f, c, t.next, false).0;
    }
  }

  /** Whatever bytes stand in place of a written file: a reader whose checksum accepts, where the reader
      looks, only what was written there, returns a subsequence of the written records, none of them put
      together from two. */
  lemma DamageIsContained(crc: Checksum, rs: seq<seq<byte>>, damaged: seq<byte>)
    requires Trusted(damaged, Config(crc, true, 0), AllPieces(0, rs), 0)
    ensures Drawn(Log(damaged, Config(crc, true, 0)).0, rs, 0)
  {
    AllDrawn(damaged, Config(crc, true, 0), rs, 0, 0);
  }
}
