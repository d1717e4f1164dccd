/** The log writer: it cuts records into fragments that do not cross blocks. */
module LogWriter {
  import opened Coding
  import opened LogFormat

  /** A file that only grows. */
  class WritableFile {
    var contents: seq<byte>

    constructor (contents: seq<byte>)
      ensures this.contents == contents
    {
      this.contents := contents;
    }

    method Append(data: seq<byte>)
      modifies this
      ensures contents == old(contents) + data
    {
      contents := contents + data;
    }
  }

  class Writer {
    const dest: WritableFile
    const crc: Checksum
    var blockOffset: nat

    /** The offset within the block follows the file, where a full block may count as either. */
    ghost predicate Valid()
      reads this, dest
    {
      blockOffset <= BlockSize && (|dest.contents| - blockOffset) % BlockSize == 0
    }

    /** Also to go on behind what a file already holds. */
    constructor (dest: WritableFile, crc: Checksum)
      ensures Valid() && this.dest == dest && this.crc == crc
    {
      this.dest, this.crc := dest, crc;
      blockOffset := |dest.contents| % BlockSize;
    }

    method EmitPhysicalRecord(kind: nat, data: seq<byte>)
      requires kind <= LastType && blockOffset + HeaderSize + |data| <= BlockSize && Valid()
      modifies this, dest
      ensures Valid() && dest.contents == old(dest.contents) + Header(crc, kind, data) + data
    {
      var header := Header(crc, kind, data);
      dest.Append(header);
      dest.Append(data);
      blockOffset := blockOffset + HeaderSize + |data|;
    }

    /** One pass of the loop: skip a rest that is too small, then write what fits. */
    method EmitFragment(left: seq<byte>, begin: bool) returns (n: nat, ghost x: Piece)
      requires Valid()
      modifies this, dest
      ensures Valid() && x == FragmentAt(|old(dest.contents)|, left, begin) && n == |x.data|
      ensures dest.contents == old(dest.contents) + RenderPiece(crc, |old(dest.contents)|, x)
    {
      ghost var p, start := |dest.contents|, dest.contents;
      var leftover := BlockSize - blockOffset;
      Switching(p, blockOffset);
      if leftover < HeaderSize {
        if leftover > 0 {
          dest.Append(Zeros(leftover));
        }
        blockOffset := 0;
      }
      assert dest.contents == start + Zeros(Align(p) - p);
      var avail := BlockSize - blockOffset - HeaderSize;
      n := if |left| < avail then |left| else avail;
      var end := |left| == n;
      var kind := KindOf(begin, end);
      EmitPhysicalRecord(kind, left[..n]);
      x := FragmentAt(p, left, begin);
      Associative(start, Zeros(x.pos - p), Header(crc, kind, x.data));
      Associative(start, Zeros(x.pos - p) + Header(crc, kind, x.data), x.data);
    }

    method AddRecord(record: seq<byte>)
      requires Valid()
      modifies this, dest
      ensures Valid()
      ensures dest.contents == old(dest.contents) + RecordBytes(crc, |old(dest.contents)|, record)
    {
      hide Pieces, KindOf;
      var left, begin, more := record, true, true;
      ghost var p0, was := |dest.contents|, dest.contents;
      ghost var before: seq<Piece> := [];
      PiecesChained(p0, record, true);
      while more
        invariant Valid() && Progress(crc, was, record, before, left, begin, more, dest.contents)
        decreases Remaining(more, |left|, |dest.contents|)
      {
        ghost var p := |dest.contents|;
        ghost var now := dest.contents;
        var n, x := EmitFragment(left, begin);
        OnePass(crc, was, record, before, left, begin, now);
        before := before + [x];
        left := left[n..];
        begin := false;
        more := |left| > 0;
      }
    }
  }

  /** What the loop over a record's fragments has done: the file holds `before` behind what was
      there, and those pieces and the ones for what is left are the record's. */
  ghost predicate Progress(crc: Checksum, was: seq<byte>, record: seq<byte>, before: seq<Piece>,
                           left: seq<byte>, begin: bool, more: bool, now: seq<byte>)
  {
    && Chained(|was|, before) && |now| == EndOf(|was|, before)
    && now == was + Render(crc, |was|, before, |before|)
    && Pieces(|was|, record, true) == if more then before + Pieces(|now|, left, begin) else before
  }

  /** An empty fragment is written only where nothing but a header fits, so the next is not empty. */
  ghost function Remaining(more: bool, left: nat, p: nat): nat {
    if !more then 0 else 2 * left + (if Room(Align(p)) == 0 then 2 else 1)
  }

  /** The fragment of `left` that a header behind p can carry. */
  ghost function FragmentAt(p: nat, left: seq<byte>, begin: bool): Piece {
    var avail := Room(Align(p));
    var n := if |left| < avail then |left| else avail;
    Piece(Align(p), KindOf(begin, |left| == n), left[..n])
  }

  /** The next header's place, from the offset the writer keeps. */
  lemma Switching(p: nat, blockOffset: nat)
    requires blockOffset <= BlockSize && (p - blockOffset) % BlockSize == 0
    ensures var rest := BlockSize - blockOffset;
            if rest < HeaderSize then Align(p) == p + rest && Room(Align(p)) == BlockSize - HeaderSize
            else Align(p) == p && Room(p) == rest - HeaderSize
  {
    var k := (p - blockOffset) / BlockSize;
    assert p - blockOffset == k * BlockSize;
    if blockOffset < BlockSize {
      ModIs(p, BlockSize, k, blockOffset);
    } else {
      ModIs(p, BlockSize, k + 1, 0);
    }
  }

  lemma FirstPiece(p: nat, left: seq<byte>, begin: bool)
    ensures var x := FragmentAt(p, left, begin);
            Pieces(p, left, begin) == if |left| == |x.data| then [x] else [x] + Pieces(x.End(), left[|x.data|..], false)
  {
    assert |left| <= Room(Align(p)) ==> left[..|left|] == left;
  }

  lemma PutAfter(crc: Checksum, p0: nat, before: seq<Piece>, x: Piece)
    requires Chained(p0, before) && Placed(EndOf(p0, before), [x], 0)
    ensures Chained(p0, before + [x]) && EndOf(p0, before + [x]) == x.End()
    ensures x.pos >= EndOf(p0, before)
    ensures Render(crc, p0, before + [x], |before| + 1)
            == Render(crc, p0, before, |before|) + RenderPiece(crc, EndOf(p0, before), x)
  {
    hide Render, RenderPiece, Align, Leftover;
    ChainedOne(EndOf(p0, before), x);
    ChainedAppend(p0, before, [x]);
    RenderAppend(crc, p0, before, [x], 1);
    FirstRendered(crc, EndOf(p0, before), [x]);
  }

  lemma ChainedOne(p: nat, x: Piece)
    requires Placed(p, [x], 0)
    ensures Chained(p, [x]) && x.pos >= p
  {
  }

  lemma PassBytes(crc: Checksum, was: seq<byte>, before: seq<Piece>, now: seq<byte>, x: Piece)
    requires Chained(|was|, before) && |now| == EndOf(|was|, before)
    requires now == was + Render(crc, |was|, before, |before|) && Placed(|now|, [x], 0)
    ensures |now| <= x.pos && Chained(|was|, before + [x])
    ensures |now + RenderPiece(crc, |now|, x)| == EndOf(|was|, before + [x])
    ensures now + RenderPiece(crc, |now|, x) == was + Render(crc, |was|, before + [x], |before + [x]|)
  {
    PutAfter(crc, |was|, before, x);
    Associative(was, Render(crc, |was|, before, |before|), RenderPiece(crc, |now|, x));
  }

  lemma PassPieces(before: seq<Piece>, p: nat, left: seq<byte>, begin: bool)
    ensures var x := FragmentAt(p, left, begin);
            var left' := left[|x.data|..];
            before + Pieces(p, left, begin)
            == if |left'| > 0 then (before + [x]) + Pieces(x.End(), left', false) else before + [x]
  {
    var x := FragmentAt(p, left, begin);
    FirstPiece(p, left, begin);
    if |left| > |x.data| {
      Associative(before, [x], Pieces(x.End(), left[|x.data|..], false));
    }
  }

  lemma PassShrinks(p: nat, left: seq<byte>, begin: bool)
    ensures var x := FragmentAt(p, left, begin);
            Remaining(|left| > |x.data|, |left| - |x.data|, x.End()) < Remaining(true, |left|, p)
  {
    RoomAfterEmpty(p);
  }

  /** A pass of the loop makes progress. */
  lemma OnePass(crc: Checksum, was: seq<byte>, record: seq<byte>, before: seq<Piece>, left: seq<byte>, begin: bool,
                now: seq<byte>)
    requires Progress(crc, was, record, before, left, begin, true, now)
    ensures var x := FragmentAt(|now|, left, begin);
            var left', now' := left[|x.data|..], now + RenderPiece(crc, |now|, x);
            && Progress(crc, was, record, before + [x], left', false, |left'| > 0, now')
            && Remaining(|left'| > 0, |left'|, |now'|) < Remaining(true, |left|, |now|)
  {
    var x := FragmentAt(|now|, left, begin);
    PassBytes(crc, was, before, now, x);
    PassPieces(before, |now|, left, begin);
    PassShrinks(|now|, left, begin);
  }
}
