/** A point lookup through the memtables and the tables. */
module EngineGet {
  import opened Wrappers
  import opened Entries
  import opened Coding
  import opened DbFormat
  import M = MemTable
  import SkipList

  /** Memtable, then immutable memtable, then tables: the first to answer is the newest. A sequence
      number is either a snapshot's or the latest one; `inTables` is what the version answers. */
  method Get(mem: M.MemTable, imm: M.MemTable?, key: seq<byte>, snapshot: Option<nat>, lastSequence: nat,
             inTables: nat -> Option<Value>, ghost tables: set<Entry>)
    returns (value: Option<Value>)
    requires mem.Valid() && (imm != null ==> imm.Valid() && imm.rank == mem.rank)
    requires lastSequence <= MaxSequence && (snapshot.Some? ==> snapshot.value <= lastSequence) && |key| + 8 < SizeLimit
    requires forall s: nat | s <= lastSequence :: inTables(s) == Read(tables, mem.rank(key), s)
    requires UniqueSeqs(mem.Contents() + (ImmContents(imm) + tables))
    requires Above(mem.Contents(), ImmContents(imm) + tables) && Above(ImmContents(imm), tables)
    ensures value == Read(mem.Contents() + (ImmContents(imm) + tables), mem.rank(key),
                          match snapshot case Some(n) => n case None => lastSequence)
  {
    var s := match snapshot case Some(n) => n case None => lastSequence;
    ReadLayered(mem.Contents(), ImmContents(imm) + tables, mem.rank(key), s);
    ReadLayered(ImmContents(imm), tables, mem.rank(key), s);
    var found;
    found, value := mem.Get(key, s);
    if !found && imm != null {
      found, value := imm.Get(key, s);
    }
    if !found {
      value := inTables(s);
    }
  }

  ghost function ImmContents(imm: M.MemTable?): set<Entry>
    requires imm != null ==> |imm.table.levels| == SkipList.MaxHeight
    reads imm, if imm != null then {imm.table} else {}
  {
    if imm == null then {} else imm.Contents()
  }
}
