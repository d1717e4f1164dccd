/** The log reader: it parses physical records block by block, resynchronises after damage and
    puts fragments back together. */
module LogReader {
  import opened Wrappers
  import opened Coding
  import opened LogFormat

  /** Codes next to the record types: the end of the log, and something to pass over. */
  const EofType: nat := LastType + 1
  const BadType: nat := LastType + 2

  datatype Config = Config(crc: Checksum, checksum: bool, initial: nat)

  // ---- One physical record ----

  /** The end of what can be read of the block at p. */
  function BlockEnd(f: seq<byte>, p: nat): nat {
    if p + Leftover(p) <= |f| then p + Leftover(p) else |f|
  }

  predicate FullBlock(f: seq<byte>, p: nat) { p + Leftover(p) <= |f| }

  function LengthAt(f: seq<byte>, p: nat): nat
    requires p + HeaderSize <= |f|
  {
    (f[p + 4] as int) + 256 * (f[p + 5] as int)
  }

  predicate ChecksumOk(f: seq<byte>, crc: Checksum, p: nat)
    requires p + HeaderSize <= |f| && p + HeaderSize + LengthAt(f, p) <= |f|
  {
    FixedReadsBackBound(f[p..p + 4]);
    Unmask(FixedValue(f[p..p + 4])) == crc(f[p + 6..p + HeaderSize + LengthAt(f, p)])
  }

  lemma FixedReadsBackBound(b: seq<byte>)
    requires |b| == 4
    ensures FixedValue(b) < 0x1_0000_0000
  {
    FixedOnto(b);
    assert Pow256(4) == 0x1_0000_0000;
  }

  /** What reading at p finds: a type code, the header's position, a payload, where to go on, and
      the bytes reported as dropped, if any. */
  datatype Physical = Physical(kind: nat, pos: nat, data: seq<byte>, next: nat, drop: Option<nat>)

  function Reported(c: Config, at: int, bytes: nat): Option<nat> {
    if at - bytes >= c.initial then Some(bytes) else None
  }

  /** A header starts at p, and the block goes on to e. */
  function Parse(f: seq<byte>, c: Config, p: nat, e: nat, full: bool): (x: Physical)
    requires p + HeaderSize <= e <= |f|
    ensures x.kind != EofType ==> p < x.next <= |f|
    ensures x.kind != EofType && x.kind != BadType ==> x.pos >= c.initial
  {
    var length, kind := LengthAt(f, p), f[p + 6];
    var next := p + HeaderSize + length;
    if next > e then
      if full then Physical(BadType, p, [], e, Reported(c, e, e - p)) else Physical(EofType, p, [], e, None)
    else if kind == ZeroType && length == 0 then Physical(BadType, p, [], e, None)
    else if c.checksum && !ChecksumOk(f, c.crc, p) then Physical(BadType, p, [], e, Reported(c, e, e - p))
    else if p < c.initial then Physical(BadType, p, [], next, None)
    else Physical(kind, p, f[p + HeaderSize..next], next, None)
  }

  /** A rest too small for a header is a trailer when its block is full, and the end otherwise. */
  function PhysicalAt(f: seq<byte>, c: Config, p: nat): (x: Physical)
    ensures x.kind != EofType ==> p < x.next <= |f|
    ensures x.kind != EofType && x.kind != BadType ==> x.pos >= c.initial
    decreases |f| - p
  {
    if p > |f| then Physical(EofType, p, [], p, None)
    else
      var e := BlockEnd(f, p);
      if p + HeaderSize <= e then Parse(f, c, p, e, FullBlock(f, p))
      else if FullBlock(f, p) then PhysicalAt(f, c, e)
      else Physical(EofType, p, [], e, None)
  }

  // ---- One record ----

  /** What a call to ReadRecord comes to: a record and where it started, or the end of the log;
      where the reader stands then, whether it still looks for a first record, and its reports. */
  datatype Reading = Reading(record: Option<seq<byte>>, start: nat, next: nat, resync: bool, drops: seq<nat>)

  function AsSeq(o: Option<nat>): seq<nat> { if o.Some? then [o.value] else [] }

  /** A reader in the middle of a record. */
  datatype Assembly = Assembly(resync: bool, inside: bool, scratch: seq<byte>, start: nat)

  const Outside := Assembly(false, false, [], 0)

  /** A physical record met while looking for a first record to begin with is passed over when it
      can only belong to an earlier one. */
  predicate PassedOver(a: Assembly, kind: nat) { a.resync && (kind == MiddleType || kind == LastType) }

  /** The reports one physical record gives rise to. */
  function Reports(c: Config, a: Assembly, x: Physical): seq<nat> {
    if PassedOver(a, x.kind) || x.kind == EofType then []
    else if x.kind == FullType || x.kind == FirstType then
      if a.inside && a.scratch != [] then AsSeq(Reported(c, x.next, |a.scratch|)) else []
    else if x.kind == MiddleType || x.kind == LastType then
      if a.inside then [] else AsSeq(Reported(c, x.next, |x.data|))
    else if x.kind == BadType then
      if a.inside then AsSeq(Reported(c, x.next, |a.scratch|)) else []
    else AsSeq(Reported(c, x.next, |x.data| + if a.inside then |a.scratch| else 0))
  }

  /** The assembly after a physical record that does not complete a record. */
  function Assembled(a: Assembly, x: Physical): Assembly {
    if PassedOver(a, x.kind) then a.(resync := x.kind == MiddleType)
    else if x.kind == FirstType then Assembly(false, true, x.data, x.pos)
    else if x.kind == MiddleType && a.inside then a.(resync := false, scratch := a.scratch + x.data)
    else if x.kind == MiddleType || x.kind == LastType then a.(resync := false)
    else if x.kind == BadType && !a.inside then a.(resync := false)
    else Assembly(false, false, [], a.start)
  }

  function ReadFrom(f: seq<byte>, c: Config, p: nat, a: Assembly): (r: Reading)
    ensures r.record.Some? ==> p < r.next <= |f| && !r.resync
    ensures r.record.Some? && (a.inside ==> a.start >= c.initial) ==> r.start >= c.initial
    decreases |f| - p
  {
    var x := PhysicalAt(f, c, p);
    var drops := AsSeq(x.drop) + Reports(c, a, x);
    if x.kind == EofType then Reading(None, 0, x.next, false, drops)
    else if x.kind == FullType then
      Reading(Some(x.data), x.pos, x.next, false, drops)
    else if x.kind == LastType && !PassedOver(a, x.kind) && a.inside then
      Reading(Some(a.scratch + x.data), a.start, x.next, false, drops)
    else
      var r := ReadFrom(f, c, x.next, Assembled(a, x));
      r.(drops := drops + r.drops)
  }

  /** All records from p on, each with its offset, and all reports. */
  function ReadAll(f: seq<byte>, c: Config, p: nat, resync: bool): (seq<(seq<byte>, nat)>, seq<nat>)
    decreases |f| - p
  {
    var r := ReadFrom(f, c, p, Outside.(resync := resync));
    if r.record.None? then ([], r.drops)
    else
      var rest := ReadAll(f, c, r.next, false);
      ([(r.record.value, r.start)] + rest.0, r.drops + rest.1)
  }

  /** The block a reader asked to begin at `initial` begins with. */
  function FirstBlock(initial: nat): nat {
    var inBlock := initial % BlockSize;
    if inBlock > BlockSize - 6 then initial - inBlock + BlockSize else initial - inBlock
  }

  /** Everything a fresh reader returns. */
  function Log(f: seq<byte>, c: Config): (seq<(seq<byte>, nat)>, seq<nat>) {
    ReadAll(f, c, if c.initial > 0 then FirstBlock(c.initial) else 0, c.initial > 0)
  }

  // ---- The reader ----

  class SequentialFile {
    const contents: seq<byte>
    var pos: nat

    constructor (contents: seq<byte>)
      ensures this.contents == contents && pos == 0
    {
      this.contents, pos := contents, 0;
    }

    method Read(n: nat) returns (data: seq<byte>)
      modifies this
      ensures data == if old(pos) > |contents| then []
                      else if old(pos) + n <= |contents| then contents[old(pos)..old(pos) + n] else contents[old(pos)..]
      ensures pos == old(pos) + |data|
    {
      data := if pos > |contents| then []
              else if pos + n <= |contents| then contents[pos..pos + n] else contents[pos..];
      pos := pos + |data|;
    }

    method Skip(n: nat)
      modifies this
      ensures pos == old(pos) + n
    {
      pos := pos + n;
    }
  }

  datatype Outcome = More | Complete | Ended

  class Reader {
    const file: SequentialFile
    const config: Config
    var buffer: seq<byte>
    var eof: bool
    var lastRecordOffset: nat
    var endOfBuffer: nat
    var resyncing: bool
    /** What the reporter was told. */
    var dropped: seq<nat>

    ghost function Contents(): seq<byte> { file.contents }

    /** The position of the first byte not yet consumed. */
    ghost function At(): int
      reads this`buffer, this`endOfBuffer
    {
      endOfBuffer - |buffer|
    }

    ghost predicate Valid()
      reads this`buffer, this`eof, this`endOfBuffer, file
    {
      && At() >= 0
      && (eof ==> endOfBuffer >= |Contents()|)
      && (!eof ==> endOfBuffer % BlockSize == 0 && file.pos == endOfBuffer)
      && (|buffer| > 0 ==>
            && endOfBuffer == BlockEnd(Contents(), At()) && buffer == Contents()[At()..endOfBuffer]
            && FullBlock(Contents(), At()) == !eof)
    }

    /** Where the next call begins to read. */
    ghost function Start(): nat
      requires Valid()
      reads this, file
    {
      if lastRecordOffset < config.initial then FirstBlock(config.initial) else At()
    }

    ghost predicate Fresh()
      reads this, file
    {
      file.pos == 0 && buffer == [] && !eof && lastRecordOffset == 0 && endOfBuffer == 0
          && resyncing == (config.initial > 0)
    }

    constructor (file: SequentialFile, config: Config)
      requires file.pos == 0
      ensures Valid() && Fresh() && this.file == file && this.config == config && dropped == []
    {
      this.file, this.config := file, config;
      buffer, eof, lastRecordOffset, endOfBuffer, resyncing, dropped := [], false, 0, 0, config.initial > 0, [];
    }

    method ReportDrop(bytes: nat)
      requires Valid()
      modifies this`dropped
      ensures Valid() && dropped == old(dropped) + AsSeq(Reported(config, At(), bytes))
    {
      if endOfBuffer - |buffer| - bytes >= config.initial {
        dropped := dropped + [bytes];
      }
    }

    /** More of the file, until the buffer holds a header or the file has ended. */
    method Refill() returns (ended: bool)
      requires Valid()
      modifies this`buffer, this`eof, this`endOfBuffer, file
      ensures Valid() && old(At()) <= At()
      ensures ended ==> PhysicalAt(Contents(), config, old(At())).(pos := 0) == Physical(EofType, 0, [], At(), None)
      ensures !ended ==> |buffer| >= HeaderSize
                         && PhysicalAt(Contents(), config, old(At())) == PhysicalAt(Contents(), config, At())
    {
      hide PhysicalAt, BlockEnd, FullBlock;
      ghost var f, p := Contents(), At();
      while |buffer| < HeaderSize
        invariant Valid() && p <= At() && PhysicalAt(f, config, At()) == PhysicalAt(f, config, p)
        decreases !eof, |buffer| < HeaderSize
      {
        if eof {
          AtEnd(f, config, At(), endOfBuffer, |buffer|);
          buffer := [];
          return true;
        }
        ghost var q := endOfBuffer;
        if |buffer| > 0 {
          Trailer(f, config, At());
        }
        buffer := [];
        buffer := file.Read(BlockSize);
        endOfBuffer := endOfBuffer + |buffer|;
        BlockRead(f, q, buffer);
        if |buffer| < BlockSize {
          eof := true;
        }
      }
      ended := false;
    }

    method ReadPhysicalRecord() returns (kind: nat, fragment: seq<byte>)
      requires Valid()
      modifies this`buffer, this`eof, this`endOfBuffer, this`dropped, file
      ensures Valid()
      ensures var x := PhysicalAt(Contents(), config, old(At()));
              && kind == x.kind && fragment == x.data && At() == x.next
              && dropped == old(dropped) + AsSeq(x.drop)
              && (kind != EofType && kind != BadType ==> x.pos == At() - HeaderSize - |fragment|)
    {
      var ended := Refill();
      if ended {
        kind, fragment := EofType, [];
      } else {
        kind, fragment := ParseBuffer();
      }
    }

    /** The physical record at the front of the buffer. */
    method ParseBuffer() returns (kind: nat, fragment: seq<byte>)
      requires Valid() && |buffer| >= HeaderSize
      modifies this`buffer, this`dropped
      ensures Valid()
      ensures var x := Parse(Contents(), config, old(At()), endOfBuffer, !eof);
              && kind == x.kind && fragment == x.data && At() == x.next
              && dropped == old(dropped) + AsSeq(x.drop)
              && (kind != EofType && kind != BadType ==> x.pos == At() - HeaderSize - |fragment|)
    {
      hide LengthAt, ChecksumOk, Reported, AsSeq;
      SameHeader(Contents(), At(), endOfBuffer, buffer, config.crc);
      NothingDropped(dropped);
      hide BlockEnd, FullBlock;
      var length, dropSize := LengthAt(buffer, 0), |buffer|;
      kind, fragment := buffer[6], [];
      if HeaderSize + length > |buffer| {
        buffer := [];
        if eof {
          kind := EofType;
        } else {
          ReportDrop(dropSize);
          kind := BadType;
        }
      } else if kind == ZeroType && length == 0 {
        buffer := [];
        kind := BadType;
      } else if config.checksum && !ChecksumOk(buffer, config.crc, 0) {
        buffer := [];
        ReportDrop(dropSize);
        kind := BadType;
      } else {
        var payload := Consume(length);
        if endOfBuffer - |buffer| - HeaderSize - length < config.initial {
          kind := BadType;
        } else {
          fragment := payload;
        }
      }
    }

    /** A header and a payload of this length leave the buffer. */
    method Consume(length: nat) returns (payload: seq<byte>)
      requires Valid() && HeaderSize + length <= |buffer|
      modifies this`buffer
      ensures Valid() && At() == old(At()) + HeaderSize + length
      ensures payload == old(buffer)[HeaderSize..HeaderSize + length]
    {
      payload := buffer[HeaderSize..HeaderSize + length];
      Consumed(Contents(), At(), endOfBuffer, buffer, HeaderSize + length);
      buffer := buffer[HeaderSize + length..];
    }

    method SkipToInitialBlock()
      requires Valid() && Fresh()
      modifies this`endOfBuffer, file
      ensures Valid() && At() == FirstBlock(config.initial)
    {
      var inBlock := config.initial % BlockSize;
      var start := config.initial - inBlock;
      if inBlock > BlockSize - 6 {
        start := start + BlockSize;
      }
      endOfBuffer := start;
      StartsBlock(config.initial);
      if start > 0 {
        file.Skip(start);
      }
    }

    /** The next record, or none when the log has ended. */
    method ReadRecord() returns (record: Option<seq<byte>>)
      requires Valid() && (Fresh() || (lastRecordOffset >= config.initial && !resyncing))
      modifies this, file
      ensures Valid() && (record.Some? ==> lastRecordOffset >= config.initial && !resyncing)
      ensures var r := ReadFrom(Contents(), config, old(Start()), Outside.(resync := old(resyncing)));
              && record == r.record && At() == r.next && dropped == old(dropped) + r.drops
              && (record.Some? ==> lastRecordOffset == r.start)
    {
      if lastRecordOffset < config.initial {
        SkipToInitialBlock();
      }
      ghost var f, p, was := Contents(), At(), dropped;
      ghost var whole := ReadFrom(f, config, p, Outside.(resync := resyncing));
      var scratch: seq<byte>, inside, start: nat, outcome := [], false, 0, More;
      hide ReadFrom, Valid;
      while outcome == More
        invariant Valid() && At() >= 0
        invariant outcome == More ==>
                    p <= At() && Continues(f, whole, At(), Assembly(resyncing, inside, scratch, start), dropped, was)
        invariant outcome == More && inside ==> start >= config.initial
        invariant outcome == More && !inside ==> scratch == []
        invariant outcome == Ended ==> Finishes(whole, None, whole.start, At(), dropped, was)
        invariant outcome == Complete ==>
                    Finishes(whole, Some(scratch), start, At(), dropped, was) && !resyncing && start >= config.initial
        decreases outcome == More, |f| - At()
      {
        inside, scratch, start, outcome := OnePass(inside, scratch, start, whole, was);
      }
      if outcome == Complete {
        lastRecordOffset := start;
        record := Some(scratch);
      } else {
        record := None;
      }
    }

    /** A fresh reader's records, one after the other to the end. */
    method ReadLog() returns (records: seq<(seq<byte>, nat)>)
      requires Valid() && Fresh() && dropped == []
      modifies this, file
      ensures (records, dropped) == Log(Contents(), config)
    {
      records := [];
      ghost var f, whole := Contents(), Log(Contents(), config);
      var more := true;
      assert [] + whole.0 == whole.0 && [] + whole.1 == whole.1;
      assert Joined([], [], whole) == whole;
      hide Log, ReadAll, ReadFrom, Joined, FirstBlock;
      while more
        invariant Valid() && (more ==> Fresh() || (lastRecordOffset >= config.initial && !resyncing))
        invariant whole == if more then Joined(records, dropped, ReadAll(f, config, Start(), resyncing))
                  else (records, dropped)
        decreases more, |f| - Start()
      {
        ReadOn(f, config, Start(), resyncing, records, dropped);
        var record := ReadRecord();
        if record.Some? {
          records := records + [(record.value, lastRecordOffset)];
        } else {
          more := false;
        }
      }
    }

    /** One physical record: what it adds to the record being put together, and whether that is
        now complete or the log has ended. */
    method OnePass(inside0: bool, scratch0: seq<byte>, start0: nat, ghost whole: Reading, ghost was: seq<nat>)
      returns (inside: bool, scratch: seq<byte>, start: nat, outcome: Outcome)
      requires Valid() && At() >= 0 && (!inside0 ==> scratch0 == [])
      requires Continues(Contents(), whole, At(), Assembly(resyncing, inside0, scratch0, start0), dropped, was)
      requires inside0 ==> start0 >= config.initial
      modifies this`buffer, this`eof, this`endOfBuffer, this`dropped, this`resyncing, file
      ensures Valid() && At() >= 0
      ensures outcome == More ==>
                && old(At()) < At() <= |Contents()| && (!inside ==> scratch == [])
                   && (inside ==> start >= config.initial)
                && Continues(Contents(), whole, At(), Assembly(resyncing, inside, scratch, start), dropped, was)
      ensures outcome == Ended ==> Finishes(whole, None, whole.start, At(), dropped, was)
      ensures outcome == Complete ==>
                Finishes(whole, Some(scratch), start, At(), dropped, was) && !resyncing && start >= config.initial
    {
      hide PhysicalAt, ReadFrom, Reports, Assembled, Continues, Valid, Finishes, AsSeq;
      ghost var q, a := At(), Assembly(resyncing, inside0, scratch0, start0);
      ghost var x := PhysicalAt(Contents(), config, q);
      OneMore(Contents(), whole, q, a, dropped, was);
      if PassedOver(a, x.kind) {
        PassingOver(config, a, x);
      }
      inside, scratch, start, outcome := inside0, scratch0, start0, More;
      var kind, fragment := ReadPhysicalRecord();
      var offset := endOfBuffer - |buffer| - HeaderSize - |fragment|;
      var pass := Resync(kind);
      if pass {
        NothingAfter(dropped);
      } else if kind == EofType {
        outcome := Ended;
      } else {
        var complete: bool;
        inside, scratch, start, complete := Absorb(kind, fragment, offset, inside0, scratch0, start0, a, x);
        outcome := if complete then Complete else More;
      }
      assert outcome == More ==> Assembly(resyncing, inside, scratch, start) == Assembled(a, x);
    }

    /** Whether a physical record is passed over while looking for a first record. */
    method Resync(kind: nat) returns (pass: bool)
      modifies this`resyncing
      ensures pass == (old(resyncing) && (kind == MiddleType || kind == LastType))
      ensures resyncing == (old(resyncing) && kind == MiddleType)
    {
      pass := false;
      if resyncing {
        if kind == MiddleType {
          pass := true;
        } else if kind == LastType {
          resyncing := false;
          pass := true;
        } else {
          resyncing := false;
        }
      }
    }

    /** One physical record joins what is assembled: `complete` says the record is whole. */
    method Absorb(kind: nat, fragment: seq<byte>, offset: int, inside0: bool, scratch0: seq<byte>, start0: nat,
                  ghost a: Assembly, ghost x: Physical)
      returns (inside: bool, scratch: seq<byte>, start: nat, complete: bool)
      requires Valid() && kind != EofType && x.kind == kind && x.data == fragment && x.next == At()
      requires kind != BadType ==> offset == x.pos && x.pos >= config.initial
      requires a.inside == inside0 && a.scratch == scratch0 && a.start == start0 && !PassedOver(a, kind)
      requires !inside0 ==> scratch0 == []
      modifies this`dropped
      ensures Valid() && dropped == old(dropped) + Reports(config, a, x)
      ensures complete <==> kind == FullType || (kind == LastType && a.inside)
      ensures kind == FullType ==> scratch == fragment && start == x.pos
      ensures kind == LastType && a.inside ==> scratch == a.scratch + x.data && start == a.start
      ensures !complete ==> Assembly(false, inside, scratch, start) == Assembled(a, x) && (!inside ==> scratch == [])
      ensures !complete && (a.inside ==> a.start >= config.initial) ==> (inside ==> start >= config.initial)
    {
      inside, scratch, start, complete := inside0, scratch0, start0, false;
      if kind == FullType || kind == FirstType {
        if inside {
          if scratch == [] {
            inside := false;
          } else {
            ReportDrop(|scratch|);
          }
        }
        start, scratch := offset, fragment;
        inside, complete := true, kind == FullType;
      } else if kind == MiddleType || kind == LastType {
        if !inside {
          ReportDrop(|fragment|);
        } else {
          scratch := scratch + fragment;
          complete := kind == LastType;
        }
      } else if kind == BadType {
        if inside {
          ReportDrop(|scratch|);
          inside, scratch := false, [];
        }
      } else {
        ReportDrop(|fragment| + if inside then |scratch| else 0);
        inside, scratch := false, [];
      }
    }

    lemma PassingOver(c: Config, a: Assembly, x: Physical)
      requires PassedOver(a, x.kind)
      ensures Reports(c, a, x) == [] && Assembled(a, x) == a.(resync := x.kind == MiddleType)
    {
    }

    ghost predicate Finishes(whole: Reading, record: Option<seq<byte>>, start: nat, next: int, drops: seq<nat>,
                             was: seq<nat>)
    {
      whole.record == record && whole.start == start && whole.next == next && drops == was + whole.drops
    }

    /** Unfolding the reading by one physical record. */
    lemma OneMore(f: seq<byte>, whole: Reading, p: nat, a: Assembly, drops: seq<nat>, was: seq<nat>)
      requires Continues(f, whole, p, a, drops, was)
      ensures var x := PhysicalAt(f, config, p);
              var drops' := drops + AsSeq(x.drop) + Reports(config, a, x);
              if x.kind == EofType then Finishes(whole, None, whole.start, x.next, drops + AsSeq(x.drop), was)
              else if x.kind == FullType then Finishes(whole, Some(x.data), x.pos, x.next, drops', was)
              else if x.kind == LastType && !PassedOver(a, x.kind) && a.inside then
                Finishes(whole, Some(a.scratch + x.data), a.start, x.next, drops', was)
              else Continues(f, whole, x.next, Assembled(a, x), drops', was)
    {
      var x := PhysicalAt(f, config, p);
      var now, later := AsSeq(x.drop), Reports(config, a, x);
      Associative(drops, now, later);
      if x.kind == EofType {
        assert later == [];
        NothingAfter(now);
      } else {
        Associative(drops, now + later, ReadFrom(f, config, x.next, Assembled(a, x)).drops);
      }
      hide Reports, PhysicalAt, Assembled;
    }

    /** Reading on from here with what is assembled so far ends as the whole call does. */
    ghost predicate Continues(f: seq<byte>, whole: Reading, p: nat, a: Assembly, drops: seq<nat>, was: seq<nat>) {
      var rest := ReadFrom(f, config, p, a);
      && (rest.record, rest.start, rest.next) == (whole.record, whole.start, whole.next)
      && was + whole.drops == drops + rest.drops
    }
  }

  /** Records and reports so far, and those to come. */
  ghost function Joined(records: seq<(seq<byte>, nat)>, drops: seq<nat>, rest: (seq<(seq<byte>, nat)>, seq<nat>)):
    (seq<(seq<byte>, nat)>, seq<nat>)
  {
    (records + rest.0, drops + rest.1)
  }

  lemma ReadOn(f: seq<byte>, c: Config, p: nat, resync: bool, records: seq<(seq<byte>, nat)>, drops: seq<nat>)
    ensures var r := ReadFrom(f, c, p, Outside.(resync := resync));
            Joined(records, drops, ReadAll(f, c, p, resync))
            == if r.record.None? then (records, drops + r.drops)
               else Joined(records + [(r.record.value, r.start)], drops + r.drops, ReadAll(f, c, r.next, false))
  {
    var r := ReadFrom(f, c, p, Outside.(resync := resync));
    if r.record.None? {
      NothingAfter(records);
    } else {
      var rest := ReadAll(f, c, r.next, false);
      Associative(records, [(r.record.value, r.start)], rest.0);
      Associative(drops, r.drops, rest.1);
    }
  }

  lemma StartsBlock(initial: nat)
    ensures FirstBlock(initial) % BlockSize == 0
  {
  }

  /** Parsing the buffer is parsing the file where the buffer came from. */
  lemma SameHeader(f: seq<byte>, q: nat, e: nat, buffer: seq<byte>, crc: Checksum)
    requires q + HeaderSize <= e <= |f| && buffer == f[q..e]
    ensures LengthAt(buffer, 0) == LengthAt(f, q) && buffer[6] == f[q + 6]
    ensures HeaderSize + LengthAt(f, q) <= |buffer| ==>
              && ChecksumOk(buffer, crc, 0) == ChecksumOk(f, crc, q)
              && buffer[HeaderSize..HeaderSize + LengthAt(f, q)] == f[q + HeaderSize..q + HeaderSize + LengthAt(f, q)]
  {
    SliceOfSlice(f, q, e, 0, 4);
    if HeaderSize + LengthAt(f, q) <= |buffer| {
      SliceOfSlice(f, q, e, 6, HeaderSize + LengthAt(f, q));
      SliceOfSlice(f, q, e, HeaderSize, HeaderSize + LengthAt(f, q));
    }
  }

  lemma Trailer(f: seq<byte>, c: Config, p: nat)
    requires BlockEnd(f, p) < p + HeaderSize && FullBlock(f, p)
    ensures PhysicalAt(f, c, p) == PhysicalAt(f, c, BlockEnd(f, p))
  {
  }

  lemma NothingDropped(drops: seq<nat>)
    ensures drops + AsSeq(None) == drops
  {
  }

  /** The last buffer, too short for a header and not a full block's rest, ends the log. */
  lemma AtEnd(f: seq<byte>, c: Config, p: nat, e: nat, rest: nat)
    requires p + rest == e && rest < HeaderSize && e >= |f|
    requires rest > 0 ==> e == BlockEnd(f, p) && !FullBlock(f, p)
    ensures PhysicalAt(f, c, p) == Physical(EofType, p, [], e, None)
  {
  }

  /** What reading a block's worth at a block's start leaves in the buffer. */
  lemma BlockRead(f: seq<byte>, q: nat, data: seq<byte>)
    requires q % BlockSize == 0
    requires data == if q > |f| then [] else if q + BlockSize <= |f| then f[q..q + BlockSize] else f[q..]
    ensures |data| <= BlockSize && (|data| == BlockSize ==> (q + BlockSize) % BlockSize == 0)
    ensures |data| < BlockSize ==> q + |data| >= |f|
    ensures |data| > 0 ==>
              q + |data| == BlockEnd(f, q) && data == f[q..q + |data|] && FullBlock(f, q) == (|data| == BlockSize)
  {
  }

  /** What is left of the buffer after n bytes of it. */
  lemma Consumed(f: seq<byte>, q: nat, e: nat, buffer: seq<byte>, n: nat)
    requires q <= e <= |f| && buffer == f[q..e] && n <= |buffer| && e == BlockEnd(f, q)
    ensures buffer[n..] == f[q + n..e]
    ensures q + n < e ==> BlockEnd(f, q + n) == e && FullBlock(f, q + n) == FullBlock(f, q)
  {
    SliceOfSlice(f, q, e, n, e - q);
    if q + n < e {
      SameBlock(f, q, q + n);
    }
  }

  lemma SliceOfSlice<T>(s: seq<T>, a: nat, b: nat, i: nat, j: nat)
    requires a <= b <= |s| && i <= j <= b - a
    ensures s[a..b][i..j] == s[a + i..a + j]
  {
    var x, y := s[a..b][i..j], s[a + i..a + j];
    assert |x| == |y| && forall k | 0 <= k < |x| :: x[k] == y[k];
  }

  lemma SameBlock(f: seq<byte>, p: nat, q: nat)
    requires p <= q < BlockEnd(f, p)
    ensures BlockEnd(f, q) == BlockEnd(f, p) && FullBlock(f, q) == FullBlock(f, p)
  {
    var k := p / BlockSize;
    assert p == k * BlockSize + p % BlockSize;
    ModIs(q, BlockSize, k, q - k * BlockSize);
  }
}
