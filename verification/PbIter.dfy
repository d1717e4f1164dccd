/** The iterator over a message table: it walks the fields in a circle and keeps track of where each
    one's data lies and how many required fields come before it. */
module PbIter {

  datatype Kind = Required | Optional | Repeated | Oneof
  datatype Allocation = Static | Callback | Pointer

  /** One row of a table. `joined` marks a member of a union that is not its first. */
  datatype Descriptor = Descriptor(tag: nat, kind: Kind, allocation: Allocation, extension: bool, joined: bool,
                                   dataOffset: nat, sizeOffset: int, dataSize: nat, arraySize: nat)

  const PointerSize: nat := 8

  /** How far the data of a field reaches. */
  function Extent(d: Descriptor): nat {
    if d.allocation == Static && d.kind == Repeated then d.dataSize * d.arraySize
    else if d.allocation == Pointer then PointerSize
    else d.dataSize
  }

  /** The k-th field lies where the one before does: both are members of one union. */
  predicate Shares(fs: seq<Descriptor>, k: nat)
    requires 0 < k < |fs|
  {
    fs[k - 1].kind == Oneof && fs[k].kind == Oneof && fs[k].joined
  }

  /** Where the k-th field's data begins, from the start of the struct. */
  function DataAt(fs: seq<Descriptor>, k: nat): int
    requires k < |fs|
  {
    if k == 0 then fs[0].dataOffset
    else if Shares(fs, k) then DataAt(fs, k - 1)
    else DataAt(fs, k - 1) + Extent(fs[k - 1]) + fs[k].dataOffset
  }

  /** Where its count or flag is. */
  function SizeAt(fs: seq<Descriptor>, k: nat): int
    requires k < |fs|
  {
    if k > 0 && Shares(fs, k) then SizeAt(fs, k - 1) else DataAt(fs, k) + fs[k].sizeOffset
  }

  function RequiredBefore(fs: seq<Descriptor>, k: nat): nat
    requires k <= |fs|
  {
    if k == 0 then 0 else RequiredBefore(fs, k - 1) + (if fs[k - 1].kind == Required then 1 else 0)
  }

  /** A field's data reaches no further than to where the next one's begins, arrays with all their items,
      pointers with their eight bytes; only the members of one union share their place. */
  lemma {:induction false} FieldsApart(fs: seq<Descriptor>, i: nat, j: nat)
    requires i < j < |fs| && (fs[i].kind != Oneof || fs[i + 1].kind != Oneof || !fs[i + 1].joined)
    ensures DataAt(fs, j) >= DataAt(fs, i) + match fs[i].allocation
                                            case Pointer => 8
                                            case Callback => fs[i].dataSize
                                            case Static =>
                                              if fs[i].kind == Repeated then fs[i].dataSize * fs[i].arraySize
                                              else fs[i].dataSize
    decreases j
  {
    if i + 1 < j {
      FieldsApart(fs, i, j - 1);
    }
  }

  lemma {:induction false} UnionShares(fs: seq<Descriptor>, i: nat, j: nat)
    requires i <= j < |fs| && (fs[i].kind == Oneof || i == j)
    requires forall k: nat | i < k <= j :: fs[k].kind == Oneof && fs[k].joined
    ensures DataAt(fs, j) == DataAt(fs, i) && SizeAt(fs, j) == SizeAt(fs, i)
    decreases j
  {
    if i < j {
      UnionShares(fs, i, j - 1);
    }
  }

  predicate Matches(d: Descriptor, tag: nat) { d.tag == tag && !d.extension }

  class FieldIter {
    const fields: seq<Descriptor>
    var pos: nat
    var requiredIndex: nat
    var pData: int
    var pSize: int

    /** Everything the iterator knows depends on its position alone. */
    ghost predicate Valid()
      reads this
    {
      if |fields| == 0 then pos == 0 && requiredIndex == 0
      else
        && pos < |fields| && requiredIndex == RequiredBefore(fields, pos)
        && pData == DataAt(fields, pos) && pSize == SizeAt(fields, pos)
    }

    constructor (fields: seq<Descriptor>)
      ensures Valid() && pos == 0 && this.fields == fields
    {
      this.fields, pos, requiredIndex, pData, pSize := fields, 0, 0, 0, 0;
      new;
      var any := Begin();
    }

    method Begin() returns (any: bool)
      modifies this
      ensures Valid() && pos == 0 && any == (|fields| > 0)
    {
      pos, requiredIndex := 0, 0;
      any := |fields| > 0;
      if any {
        pData := fields[0].dataOffset;
        pSize := pData + fields[0].sizeOffset;
      }
    }

    /** On to the next field, or around to the first. */
    method Next() returns (more: bool)
      requires Valid()
      modifies this
      ensures Valid() && more == (old(pos) + 1 < |fields|) && pos == if more then old(pos) + 1 else 0
    {
      if |fields| == 0 {
        return false;
      }
      var prev := fields[pos];
      pos := pos + 1;
      if pos == |fields| {
        var any := Begin();
        return false;
      }
      more := true;
      var size := prev.dataSize;
      if prev.kind == Oneof && fields[pos].kind == Oneof && fields[pos].joined {
        return;
      } else if prev.allocation == Static && prev.kind == Repeated {
        size := size * prev.arraySize;
      } else if prev.allocation == Pointer {
        size := PointerSize;
      }
      if prev.kind == Required {
        requiredIndex := requiredIndex + 1;
      }
      pData := pData + size + fields[pos].dataOffset;
      pSize := pData + fields[pos].sizeOffset;
    }

    /** How many steps forward from `start` lead to j. */
    static function Steps(n: nat, start: nat, j: nat): nat
      requires start < n && j < n
    {
      if j >= start then j - start else j + n - start
    }

    /** The first field with the tag, going around from here; found exactly when there is one. */
    method Find(tag: nat) returns (found: bool)
      requires Valid()
      modifies this
      ensures Valid()
      ensures found <==> exists j: nat :: j < |fields| && Matches(fields[j], tag)
      ensures found ==> Matches(fields[pos], tag)
      ensures found ==> forall j: nat | j < |fields| && Matches(fields[j], tag) ::
                          Steps(|fields|, old(pos), pos) <= Steps(|fields|, old(pos), j)
      ensures !found ==> pos == old(pos)
    {
      if |fields| == 0 {
        return false;
      }
      var start := pos;
      ghost var steps := 0;
      while true
        invariant Valid() && steps < |fields| && steps == Steps(|fields|, start, pos)
        invariant forall j: nat | j < |fields| && Steps(|fields|, start, j) < steps :: !Matches(fields[j], tag)
        decreases |fields| - steps
      {
        if Matches(fields[pos], tag) {
          return true;
        }
        var more := Next();
        if pos == start {
          return false;
        }
        steps := steps + 1;
      }
    }
  }

  // ---- Which required fields were seen ----

  /** The word that is all ones shifted right until k are left. */
  predicate LowBits(w: seq<bool>, k: nat) { |w| == 32 && forall b: nat | b < 32 :: (w[b] <==> b < k) }

  predicate AllBits(w: seq<bool>) { LowBits(w, 32) }

  /** Two words of 32 flags, and the flags that are set. */
  ghost predicate Holds(words: seq<seq<bool>>, bits: set<nat>) {
    |words| == 2 && |words[0]| == |words[1]| == 32 && forall i: nat | i < 64 :: words[i / 32][i % 32] <==> i in bits
  }

  function SetBit(words: seq<seq<bool>>, i: nat): seq<seq<bool>>
    requires |words| == 2 && |words[0]| == |words[1]| == 32 && i < 64
  {
    words[i / 32 := words[i / 32][i % 32 := true]]
  }

  lemma SetBitHolds(words: seq<seq<bool>>, bits: set<nat>, i: nat)
    requires Holds(words, bits) && i < 64
    ensures Holds(SetBit(words, i), bits + {i})
  {
    var r := SetBit(words, i);
    forall j: nat | j < 64 ensures r[j / 32][j % 32] <==> j in bits + {i} {
      assert j / 32 == i / 32 && j % 32 == i % 32 ==> j == i;
    }
  }

  /** The check of whole words and of the remaining bits, for `count` required fields. */
  predicate AllSeen(words: seq<seq<bool>>, count: nat)
    requires |words| == 2 && count < 64
  {
    count > 0 ==> (count >= 32 ==> AllBits(words[0])) && LowBits(words[count / 32], count % 32)
  }

  /** The check passes exactly when every required field was seen, for a count below 64 that is not a
      positive multiple of 32. */
  lemma AllSeenIff(words: seq<seq<bool>>, bits: set<nat>, count: nat)
    requires Holds(words, bits) && count < 64 && forall i | i in bits :: i < count
    requires count == 0 || count % 32 != 0
    ensures AllSeen(words, count) <==> forall i: nat | i < count :: i in bits
  {
    if forall i: nat | i < count :: i in bits {
      forall w: nat, b: nat | w < 2 && b < 32 ensures words[w][b] <==> 32 * w + b < count {
        assert (32 * w + b) / 32 == w && (32 * w + b) % 32 == b;
        assert words[(32 * w + b) / 32][(32 * w + b) % 32] <==> 32 * w + b in bits;
      }
    }
    if AllSeen(words, count) {
      forall i: nat | i < count ensures i in bits {
        assert words[i / 32][i % 32];
      }
    }
  }
}
