/** The user-level iterator: it walks versioned entries in both directions and shows, for each
    user key, only the newest version its snapshot may see, skipping deleted keys. */
module DbIter {
  import opened Wrappers
  import opened Entries
  import opened Compaction

  // ---- The sorted view ----

  ghost predicate Visible(es: seq<Entry>, s: nat, i: nat)
    requires i < |es|
  {
    es[i].Parses() && es[i].sequence <= s
  }

  /** Position i holds the newest visible version of its key, and it is a value. */
  ghost predicate Live(es: seq<Entry>, s: nat, i: nat)
    requires i < |es|
  {
    && Visible(es, s, i) && es[i].tag == ValueTag
    && forall j: nat | j < i && es[j].user == es[i].user :: !Visible(es, s, j)
  }

  /** What the first n entries show: one pair for each live position. */
  ghost function View(es: seq<Entry>, s: nat, n: nat): seq<(UserKey, Value)>
    requires n <= |es|
  {
    if n == 0 then []
    else View(es, s, n - 1) + (if Live(es, s, n - 1) then [(es[n - 1].user, es[n - 1].value)] else [])
  }

  lemma {:induction false} ViewAt(es: seq<Entry>, s: nat, c: nat, n: nat)
    requires c < n <= |es| && Live(es, s, c)
    ensures |View(es, s, c)| < |View(es, s, n)|
    ensures View(es, s, n)[|View(es, s, c)|] == (es[c].user, es[c].value)
  {
    if c + 1 < n {
      ViewAt(es, s, c, n - 1);
    }
  }

  lemma {:induction false} NoLiveBetween(es: seq<Entry>, s: nat, a: nat, b: nat)
    requires a <= b <= |es| && forall c: nat | a <= c < b :: !Live(es, s, c)
    ensures View(es, s, a) == View(es, s, b)
  {
    if a < b {
      NoLiveBetween(es, s, a, b - 1);
    }
  }

  lemma {:induction false} ViewMember(es: seq<Entry>, s: nat, n: nat, key: UserKey, v: Value)
    requires n <= |es|
    ensures (key, v) in View(es, s, n) <==> exists c: nat ::
              c < n && Live(es, s, c) && es[c].user == key && es[c].value == v
  {
    if n > 0 {
      ViewMember(es, s, n - 1, key, v);
      var last := if Live(es, s, n - 1) then [(es[n - 1].user, es[n - 1].value)] else [];
      assert (key, v) in View(es, s, n) <==> (key, v) in View(es, s, n - 1) || (key, v) in last;
    }
  }

  /** The view is strictly ascending in the keys. */
  lemma {:induction false} ViewAscends(es: seq<Entry>, s: nat, n: nat)
    requires Sorted(es) && n <= |es|
    ensures forall i, j | 0 <= i < j < |View(es, s, n)| :: View(es, s, n)[i].0 < View(es, s, n)[j].0
  {
    if n > 0 {
      ViewAscends(es, s, n - 1);
      var before := View(es, s, n - 1);
      forall i | 0 <= i < |before| && Live(es, s, n - 1) ensures before[i].0 < es[n - 1].user {
        ViewMember(es, s, n - 1, before[i].0, before[i].1);
        assert before[i] in before;
        var c: nat :| c < n - 1 && Live(es, s, c) && es[c].user == before[i].0;
        assert Before(es[c], es[n - 1]);
      }
    }
  }

  /** The view holds exactly the keys a read at the snapshot finds, with the values it finds. */
  lemma ViewIsReads(es: seq<Entry>, s: nat, key: UserKey, v: Value)
    requires Sorted(es) && UniqueSeqs(Contents(es))
    ensures (key, v) in View(es, s, |es|) <==> Read(Contents(es), key, s) == Some(v)
  {
    ViewMember(es, s, |es|, key, v);
    if c: nat :| c < |es| && Live(es, s, c) && es[c].user == key && es[c].value == v {
      FirstVisibleIsNewest(es, s, c);
      ReadIs(Contents(es), key, s, es[c]);
    }
    if Sees(Contents(es), key, s) {
      var e := NewestExists(Contents(es), key, s);
      ReadIs(Contents(es), key, s, e);
      var c: nat :| c < |es| && es[c] == e;
      forall j: nat | j < c && es[j].user == key ensures !Visible(es, s, j) {
        assert Before(es[j], es[c]) && es[j] in Contents(es);
      }
    } else {
      ReadNone(Contents(es), key, s);
    }
  }

  lemma FirstVisibleIsNewest(es: seq<Entry>, s: nat, c: nat)
    requires Sorted(es) && c < |es| && Live(es, s, c)
    ensures Newest(Contents(es), es[c].user, s, es[c])
  {
    forall f | f in Contents(es) && f.SeenBy(es[c].user, s) ensures f.sequence <= es[c].sequence {
      var j: nat :| j < |es| && es[j] == f;
      assert j == c || Before(es[j], es[c]) || Before(es[c], es[j]);
    }
  }

  // ---- A plain cursor over a list ----

  datatype Move = Seek(key: UserKey) | SeekToFirst | SeekToLast | Next | Prev

  /** The number of pairs with a smaller key. */
  ghost function Below(v: seq<(UserKey, Value)>, key: UserKey): nat {
    if |v| == 0 then 0
    else Below(v[..|v| - 1], key) + (if v[|v| - 1].0 < key then 1 else 0)
  }

  ghost function Clip(v: seq<(UserKey, Value)>, i: int): Option<nat> {
    if 0 <= i < |v| then Some(i) else None
  }

  ghost function Moved(v: seq<(UserKey, Value)>, c: Option<nat>, m: Move): Option<nat>
    requires m.Next? || m.Prev? ==> c.Some?
  {
    match m
    case Seek(key) => Clip(v, Below(v, key))
    case SeekToFirst => Clip(v, 0)
    case SeekToLast => Clip(v, |v| - 1)
    case Next => Clip(v, c.value + 1)
    case Prev => Clip(v, c.value - 1)
  }

  /** What a move shows: the key and value a reader at the snapshot would find. */
  ghost predicate Shows(es: seq<Entry>, s: nat, c: Option<nat>, key: UserKey) {
    && c.Some? && c.value < |View(es, s, |es|)| && View(es, s, |es|)[c.value].0 == key
    && Read(Contents(es), key, s) == Some(View(es, s, |es|)[c.value].1)
  }

  ghost predicate Found(es: seq<Entry>, s: nat, key: UserKey) { Read(Contents(es), key, s).Some? }

  /** A position in the view holds a key that is found, with what is found; and every key found has one. */
  lemma ShownIsFound(es: seq<Entry>, s: nat, i: nat)
    requires Sorted(es) && UniqueSeqs(Contents(es)) && i < |View(es, s, |es|)|
    ensures Shows(es, s, Some(i), View(es, s, |es|)[i].0) && Found(es, s, View(es, s, |es|)[i].0)
  {
    var v := View(es, s, |es|);
    assert v[i] in v;
    ViewIsReads(es, s, v[i].0, v[i].1);
  }

  lemma FoundIsShown(es: seq<Entry>, s: nat, key: UserKey) returns (i: nat)
    requires Sorted(es) && UniqueSeqs(Contents(es)) && Found(es, s, key)
    ensures i < |View(es, s, |es|)| && View(es, s, |es|)[i].0 == key
  {
    var value := Read(Contents(es), key, s).value;
    ViewIsReads(es, s, key, value);
    i :| 0 <= i < |View(es, s, |es|)| && View(es, s, |es|)[i] == (key, value);
  }

  lemma {:induction false} BelowCounts(v: seq<(UserKey, Value)>, key: UserKey, i: nat)
    requires i < |v| && forall a, b | 0 <= a < b < |v| :: v[a].0 < v[b].0
    ensures i < Below(v, key) <==> v[i].0 < key
    ensures Below(v, key) <= |v|
    decreases |v|
  {
    var w := v[..|v| - 1];
    if i < |w| {
      BelowCounts(w, key, i);
    } else if |w| > 0 {
      BelowCounts(w, key, |w| - 1);
    }
  }

  /** The key is the best of those found in its range, and there is none when nothing in it is found. */
  ghost predicate Lands(es: seq<Entry>, s: nat, c: Option<nat>, inRange: UserKey -> bool, up: bool) {
    match c
    case None => forall key | inRange(key) :: !Found(es, s, key)
    case Some(_) =>
      exists key :: Shows(es, s, c, key) && inRange(key)
                    && forall other | inRange(other) && Found(es, s, other) :: if up then key <= other else other <= key
  }

  lemma LandsAt(es: seq<Entry>, s: nat, i: int, inRange: UserKey -> bool, up: bool)
    requires Sorted(es) && UniqueSeqs(Contents(es))
    requires forall j: nat | j < |View(es, s, |es|)| ::
               inRange(View(es, s, |es|)[j].0) <==> if up then j >= i else j <= i
    requires up ==> i >= 0
    requires !up ==> i < |View(es, s, |es|)|
    ensures Lands(es, s, Clip(View(es, s, |es|), i), inRange, up)
  {
    hide Shows, Found, View;
    var v := View(es, s, |es|);
    ViewAscends(es, s, |es|);
    if 0 <= i < |v| {
      ShownIsFound(es, s, i);
      forall other | inRange(other) && Found(es, s, other) ensures if up then v[i].0 <= other else other <= v[i].0 {
        var j := FoundIsShown(es, s, other);
      }
    } else {
      forall key | inRange(key) ensures !Found(es, s, key) {
        if Found(es, s, key) {
          var j := FoundIsShown(es, s, key);
        }
      }
    }
  }

  /** The moves in terms of reads alone: seeking lands on the least key found from the target on, the ends
      are the least and the greatest key found, and a step goes to the nearest key found on its side. */
  lemma MoveLands(es: seq<Entry>, s: nat, c: Option<nat>, m: Move, from: UserKey)
    requires Sorted(es) && UniqueSeqs(Contents(es))
    requires m.Next? || m.Prev? ==> Shows(es, s, c, from)
    ensures var d := Moved(View(es, s, |es|), c, m);
            match m
            case Seek(key) => Lands(es, s, d, k => k >= key, true)
            case SeekToFirst => Lands(es, s, d, k => true, true)
            case SeekToLast => Lands(es, s, d, k => true, false)
            case Next => Lands(es, s, d, k => k > from, true)
            case Prev => Lands(es, s, d, k => k < from, false)
  {
    hide Lands, View;
    var v := View(es, s, |es|);
    ViewAscends(es, s, |es|);
    match m
    case Seek(key) =>
      forall j: nat | j < |v| ensures v[j].0 >= key <==> j >= Below(v, key) {
        BelowCounts(v, key, j);
      }
      LandsAt(es, s, Below(v, key), k => k >= key, true);
    case SeekToFirst => LandsAt(es, s, 0, k => true, true);
    case SeekToLast => LandsAt(es, s, |v| - 1, k => true, false);
    case Next => LandsAt(es, s, c.value + 1, k => k > from, true);
    case Prev => LandsAt(es, s, c.value - 1, k => k < from, false);
  }

  /** A caller may only step a valid iterator. */
  ghost predicate Legal(v: seq<(UserKey, Value)>, c: Option<nat>, moves: seq<Move>)
    decreases |moves|
  {
    moves == [] || ((moves[0].Next? || moves[0].Prev? ==> c.Some?) && Legal(v, Moved(v, c, moves[0]), moves[1..]))
  }

  ghost function MovedAll(v: seq<(UserKey, Value)>, c: Option<nat>, moves: seq<Move>): Option<nat>
    requires Legal(v, c, moves)
    decreases |moves|
  {
    if moves == [] then c else MovedAll(v, Moved(v, c, moves[0]), moves[1..])
  }

  // ---- The iterator under it ----

  /** An iterator over a sorted list of entries. Once it is off either end it remembers nothing. */
  class EntryIterator {
    const entries: seq<Entry>
    var valid: bool
    var pos: nat

    ghost predicate Valid()
      reads this
    {
      valid ==> pos < |entries|
    }

    constructor (entries: seq<Entry>)
      ensures Valid() && !valid && this.entries == entries
    {
      this.entries, valid, pos := entries, false, 0;
    }

    method Next()
      requires Valid() && valid
      modifies this
      ensures Valid() && valid == (old(pos) + 1 < |entries|) && (valid ==> pos == old(pos) + 1)
    {
      valid, pos := pos + 1 < |entries|, pos + 1;
    }

    method Prev()
      requires Valid() && valid
      modifies this
      ensures Valid() && valid == (old(pos) > 0) && (valid ==> pos == old(pos) - 1)
    {
      if pos == 0 {
        valid := false;
      } else {
        pos := pos - 1;
      }
    }

    method SeekToFirst()
      modifies this
      ensures Valid() && valid == (|entries| > 0) && (valid ==> pos == 0)
    {
      valid, pos := |entries| > 0, 0;
    }

    method SeekToLast()
      modifies this
      ensures Valid() && valid == (|entries| > 0) && (valid ==> pos == |entries| - 1)
    {
      valid, pos := |entries| > 0, if |entries| > 0 then |entries| - 1 else 0;
    }

    /** To the first entry not before the target. */
    method Seek(target: Entry)
      modifies this
      ensures Valid()
      ensures forall j: nat | j < (if valid then pos else |entries|) :: Before(entries[j], target)
      ensures valid ==> !Before(entries[pos], target)
    {
      pos := 0;
      while pos < |entries| && Before(entries[pos], target)
        invariant pos <= |entries| && forall j: nat | j < pos :: Before(entries[j], target)
      {
        pos := pos + 1;
      }
      valid := pos < |entries|;
    }
  }

  // ---- DBIter ----

  datatype Direction = Forward | Reverse

  class DBIter {
    const iter: EntryIterator
    const sequence: nat
    var savedKey: UserKey
    var savedValue: Value
    var direction: Direction
    var valid: bool
    /** The live position the iterator is at. */
    ghost var at: nat

    ghost function Entries(): seq<Entry> { iter.entries }

    ghost predicate LiveAt(i: nat) {
      i < |Entries()| && Live(Entries(), sequence, i)
    }

    ghost predicate SeenAt(i: nat) {
      i < |Entries()| && Visible(Entries(), sequence, i)
    }

    /** No position in [a, b) is visible. */
    ghost predicate NothingSeen(a: nat, b: nat) {
      forall j: nat | a <= j < b :: !SeenAt(j)
    }

    ghost predicate Valid()
      reads this, iter
    {
      && Sorted(Entries()) && iter.Valid()
      && (valid ==> LiveAt(at))
      && (valid && direction.Forward? ==> iter.valid && iter.pos == at)
      && (valid && direction.Reverse? ==>
            && savedKey == Entries()[at].user && savedValue == Entries()[at].value
            && NothingSeen(if iter.valid then iter.pos + 1 else 0, at)
            && (iter.valid ==> iter.pos < at && Entries()[iter.pos].user < savedKey))
    }

    ghost function Shown(): seq<(UserKey, Value)> { View(Entries(), sequence, |Entries()|) }

    /** Where a plain cursor over the view would be. */
    ghost function Cursor(): Option<nat>
      requires valid ==> at < |Entries()|
      reads this
    {
      if valid then Some(|View(Entries(), sequence, at)|) else None
    }

    constructor (iter: EntryIterator, sequence: nat)
      requires Sorted(iter.entries) && iter.Valid()
      ensures Valid() && !valid && this.iter == iter && this.sequence == sequence
    {
      this.iter, this.sequence := iter, sequence;
      savedKey, savedValue, direction, valid, at := 0.0, "", Forward, false, 0;
    }

    method Key() returns (r: UserKey)
      requires Valid() && valid
      ensures Cursor().value < |Shown()| && r == Shown()[Cursor().value].0
    {
      ViewAt(Entries(), sequence, at, |Entries()|);
      r := if direction.Forward? then iter.entries[iter.pos].user else savedKey;
    }

    method CurrentValue() returns (r: Value)
      requires Valid() && valid
      ensures Cursor().value < |Shown()| && r == Shown()[Cursor().value].1
    {
      ViewAt(Entries(), sequence, at, |Entries()|);
      r := if direction.Forward? then iter.entries[iter.pos].value else savedValue;
    }

    /** The live positions from `from` on that lie past a key to skip. */
    ghost predicate Past(i: nat, skipping: bool, skip: UserKey) {
      LiveAt(i) && (skipping ==> Entries()[i].user > skip)
    }

    ghost predicate NonePast(a: nat, b: nat, skipping: bool, skip: UserKey) {
      forall i: nat | a <= i < b :: !Past(i, skipping, skip)
    }

    ghost predicate NoneBelow(from: nat, key: UserKey) {
      forall j: nat | from <= j && SeenAt(j) :: Entries()[j].user >= key
    }

    /** What a forward scan from `from` has found at `k`: everything visible before k is either
        not past the key being skipped or belongs to an earlier key, and the key now skipped is
        the one first asked for or one met on the way. */
    ghost predicate Advanced(from: nat, k: nat, skipping0: bool, skip0: UserKey, skipping: bool, skip: UserKey) {
      && from <= k < |Entries()|
      && NonePast(from, k, skipping0, skip0)
      && (forall j: nat | j < k && SeenAt(j) ::
            (skipping && Entries()[j].user <= skip) || Entries()[j].user < Entries()[k].user)
      && (skipping0 ==> skipping && skip >= skip0)
      && (skipping ==> (skipping0 && skip == skip0) || MetBefore(from, k, skip))
    }

    ghost predicate MetBefore(from: nat, k: nat, skip: UserKey) {
      exists j: nat :: from <= j < k && SeenAt(j) && Entries()[j].user == skip
    }

    /** The key a forward scan skips after the entry at k. */
    ghost function SkipAfter(k: nat, skipping: bool, skip: UserKey): (bool, UserKey)
      requires k < |Entries()|
    {
      if SeenAt(k) && Entries()[k].tag == DeletionTag then (true, Entries()[k].user) else (skipping, skip)
    }

    lemma ScanPasses(from: nat, k: nat, skipping0: bool, skip0: UserKey, skipping: bool, skip: UserKey)
      requires Sorted(Entries()) && Advanced(from, k, skipping0, skip0, skipping, skip)
      requires skipping0 ==> NoneBelow(from, skip0)
      requires SeenAt(k) && Entries()[k].tag == ValueTag ==> skipping && Entries()[k].user <= skip
      ensures NonePast(from, k + 1, skipping0, skip0)
      ensures k + 1 < |Entries()| ==>
                Advanced(from, k + 1, skipping0, skip0, SkipAfter(k, skipping, skip).0, SkipAfter(k, skipping, skip).1)
    {
      assert forall j: nat | j < k :: Before(Entries()[j], Entries()[k]);
      if MetBefore(from, k, skip) {
        var j: nat :| from <= j < k && SeenAt(j) && Entries()[j].user == skip;
        assert SeenAt(k) && Entries()[k].user <= skip ==> !LiveAt(k);
      }
      assert !Past(k, skipping0, skip0);
      if k + 1 < |Entries()| {
        assert Before(Entries()[k], Entries()[k + 1]);
        assert MetBefore(from, k, skip) ==> MetBefore(from, k + 1, skip);
        assert SeenAt(k) ==> MetBefore(from, k + 1, Entries()[k].user);
      }
    }

    /** A visible value that is not being skipped is live. */
    lemma ScanStops(from: nat, k: nat, skipping0: bool, skip0: UserKey, skipping: bool, skip: UserKey)
      requires Advanced(from, k, skipping0, skip0, skipping, skip)
      requires SeenAt(k) && Entries()[k].tag == ValueTag && !(skipping && Entries()[k].user <= skip)
      ensures Past(k, skipping0, skip0)
    {
      forall j: nat | j < k && Entries()[j].user == Entries()[k].user
        ensures !Visible(Entries(), sequence, j)
      {
        assert !SeenAt(j);
      }
    }

    method FindNextUserEntry(skipping0: bool, skip0: UserKey)
      requires Sorted(Entries()) && iter.Valid() && iter.valid && direction.Forward?
      requires Advanced(iter.pos, iter.pos, skipping0, skip0, skipping0, skip0)
      requires skipping0 ==> NoneBelow(iter.pos, skip0)
      modifies this, iter
      ensures Valid() && direction.Forward?
      ensures valid ==> at >= old(iter.pos) && Past(at, skipping0, skip0)
      ensures NonePast(old(iter.pos), if valid then at else |Entries()|, skipping0, skip0)
    {
      var skipping, skip := skipping0, skip0;
      ghost var from := iter.pos;
      while true
        invariant iter.Valid() && iter.valid && direction.Forward?
        invariant Advanced(from, iter.pos, skipping0, skip0, skipping, skip)
        decreases |Entries()| - iter.pos
      {
        var e := iter.entries[iter.pos];
        ghost var was := (skipping, skip);
        if e.Parses() && e.sequence <= sequence {
          if e.tag == DeletionTag {
            skip, skipping := e.user, true;
          } else if skipping && e.user <= skip {
            // hidden by what is being skipped
          } else {
            ScanStops(from, iter.pos, skipping0, skip0, skipping, skip);
            valid, savedKey, at := true, 0.0, iter.pos;
            return;
          }
        }
        ScanPasses(from, iter.pos, skipping0, skip0, was.0, was.1);
        iter.Next();
        if !iter.valid {
          break;
        }
      }
      savedKey, valid := 0.0, false;
    }

    lemma UnseenIsNotLive(a: nat, b: nat)
      requires NothingSeen(a, b)
      ensures forall i: nat | a <= i < b :: !LiveAt(i)
    {
      forall i: nat | a <= i < b ensures !LiveAt(i) {
        assert !SeenAt(i);
      }
    }

    /** What a backward scan from `top` has found at `k`: the nearest visible entry at or after
        k is `seen`, and nothing after that is live. */
    ghost predicate Scanned(k: nat, seen: nat, top: nat, isValue: bool) {
      && k <= seen <= top <= |Entries()| && NothingSeen(k, seen)
      && (seen < top ==> SeenAt(seen) && (isValue <==> Entries()[seen].tag == ValueTag))
      && (seen == top ==> !isValue)
      && forall i: nat | seen < i < top :: !LiveAt(i)
    }

    /** A visible entry just before the scan hides the one found so far, unless its key is
        another one's and what was found is a value. */
    lemma ScanMovesOn(k: nat, seen: nat, top: nat, isValue: bool)
      requires Sorted(Entries()) && Scanned(k + 1, seen, top, isValue) && SeenAt(k)
      requires isValue ==> Entries()[k].user >= Entries()[seen].user
      ensures forall i: nat | k < i < top :: !LiveAt(i)
    {
      UnseenIsNotLive(k + 1, seen);
      if seen < top {
        assert Before(Entries()[k], Entries()[seen]);
        assert !LiveAt(seen);
      }
    }

    /** Where a backward scan stops. */
    lemma ScanEnds(k: nat, seen: nat, top: nat, isValue: bool)
      requires Sorted(Entries()) && Scanned(k, seen, top, isValue)
      requires isValue && k > 0 ==> Entries()[k - 1].user < Entries()[seen].user
      ensures isValue ==> LiveAt(seen)
      ensures !isValue && k == 0 ==> forall i: nat | 0 <= i < top :: !LiveAt(i)
    {
      UnseenIsNotLive(k, seen);
      if isValue {
        assert k > 0 ==> forall j: nat | j < k - 1 :: Before(Entries()[j], Entries()[k - 1]);
        forall j: nat | j < seen && Entries()[j].user == Entries()[seen].user
          ensures !Visible(Entries(), sequence, j)
        {
          if j >= k {
            assert !SeenAt(j);
          }
        }
      } else if k == 0 {
        assert seen < top ==> !LiveAt(seen);
      }
    }

    method FindPrevUserEntry()
      requires Sorted(Entries()) && iter.Valid() && direction.Reverse?
      modifies this, iter
      ensures Valid()
      ensures valid ==> old(iter.valid) && at <= old(iter.pos) && LiveAt(at)
      ensures forall i: nat | (if valid then at + 1 else 0) <= i < (if old(iter.valid) then old(iter.pos) + 1 else 0) ::
                !LiveAt(i)
    {
      var isValue := false;
      ghost var top: nat := if iter.valid then iter.pos + 1 else 0;
      ghost var seen := top;
      if iter.valid {
        while true
          invariant iter.Valid() && iter.valid && direction.Reverse?
          invariant Scanned(iter.pos + 1, seen, top, isValue)
          invariant isValue ==> savedKey == Entries()[seen].user && savedValue == Entries()[seen].value
          decreases iter.pos
        {
          var e := iter.entries[iter.pos];
          if e.Parses() && e.sequence <= sequence {
            if isValue && e.user < savedKey {
              break;
            }
            ScanMovesOn(iter.pos, seen, top, isValue);
            seen := iter.pos;
            isValue := e.tag != DeletionTag;
            if isValue {
              savedKey, savedValue := e.user, e.value;
            } else {
              savedKey, savedValue := 0.0, "";
            }
          }
          assert Scanned(iter.pos, seen, top, isValue);
          iter.Prev();
          if !iter.valid {
            break;
          }
        }
      }
      ScanEnds(if iter.valid then iter.pos + 1 else 0, seen, top, isValue);
      if !isValue {
        valid, savedKey, savedValue, direction := false, 0.0, "", Forward;
      } else {
        valid, at := true, seen;
      }
    }

    // ---- The five moves ----

    /** Going forward from one live position to the next. */
    lemma CursorForward(from: nat)
      requires Valid() && from <= |Entries()|
      requires forall i: nat | from <= i < (if valid then at else |Entries()|) :: !LiveAt(i)
      requires valid ==> from <= at
      ensures Cursor() == Clip(Shown(), |View(Entries(), sequence, from)|)
    {
      var to: nat := if valid then at else |Entries()|;
      forall c: nat | from <= c < to ensures !Live(Entries(), sequence, c) {
        assert !LiveAt(c);
      }
      NoLiveBetween(Entries(), sequence, from, to);
      if valid {
        ViewAt(Entries(), sequence, at, |Entries()|);
      }
    }

    /** Going backward to the last live position below `to`. */
    lemma CursorBackward(to: nat)
      requires Valid() && to <= |Entries()|
      requires forall i: nat | (if valid then at + 1 else 0) <= i < to :: !LiveAt(i)
      requires valid ==> at < to
      ensures Cursor() == Clip(Shown(), |View(Entries(), sequence, to)| - 1)
    {
      var from: nat := if valid then at + 1 else 0;
      forall c: nat | from <= c < to ensures !Live(Entries(), sequence, c) {
        assert !LiveAt(c);
      }
      NoLiveBetween(Entries(), sequence, from, to);
      if valid {
        ViewAt(Entries(), sequence, at, |Entries()|);
        assert View(Entries(), sequence, at + 1)
               == View(Entries(), sequence, at) + [(Entries()[at].user, Entries()[at].value)];
      }
    }

    /** Live positions past the current key are the ones after the current position. */
    lemma PastIsAfter(a: nat)
      requires Sorted(Entries()) && LiveAt(a)
      ensures forall i: nat | i < |Entries()| && LiveAt(i) :: (Entries()[i].user > Entries()[a].user <==> i > a)
    {
      forall i: nat | i < |Entries()| && LiveAt(i) ensures Entries()[i].user > Entries()[a].user <==> i > a {
        assert i == a || Before(Entries()[i], Entries()[a]) || Before(Entries()[a], Entries()[i]);
      }
    }

    /** Stepping on from a live position may start anywhere after the entries of earlier keys. */
    lemma SkippingCurrent(from: nat, a: nat)
      requires Sorted(Entries()) && LiveAt(a) && from <= a && NothingSeen(from, a)
      ensures Advanced(from, from, true, Entries()[a].user, true, Entries()[a].user)
      ensures NoneBelow(from, Entries()[a].user)
    {
      assert forall j: nat | j < a :: Before(Entries()[j], Entries()[a]);
      assert forall j: nat | a < j < |Entries()| :: Before(Entries()[a], Entries()[j]);
    }

    method Next()
      requires Valid() && valid
      modifies this, iter
      ensures Valid() && Cursor() == Moved(Shown(), old(Cursor()), Move.Next)
    {
      ghost var a := at;
      if direction.Reverse? {
        direction := Forward;
        if !iter.valid {
          iter.SeekToFirst();
        } else {
          iter.Next();
        }
        if !iter.valid {
          assert false;
        }
      } else {
        savedKey := iter.entries[iter.pos].user;
      }
      ghost var from := iter.pos;
      SkippingCurrent(from, a);
      FindNextUserEntry(true, savedKey);
      ForwardFrom(a);
    }

    lemma ForwardFrom(a: nat)
      requires Valid() && LiveAt(a)
      requires valid ==> Past(at, true, Entries()[a].user)
      requires NonePast(a, if valid then at else |Entries()|, true, Entries()[a].user)
      ensures Cursor() == Clip(Shown(), |View(Entries(), sequence, a)| + 1)
    {
      hide View;
      PastIsAfter(a);
      NotPastNotLive(a, if valid then at else |Entries()|);
      CursorForward(a + 1);
      ViewStep(a);
    }

    lemma NotPastNotLive(a: nat, to: nat)
      requires Sorted(Entries()) && LiveAt(a) && to <= |Entries()|
      requires NonePast(a, to, true, Entries()[a].user)
      ensures forall i: nat | a + 1 <= i < to :: !LiveAt(i)
    {
      forall i: nat | a + 1 <= i < to ensures !LiveAt(i) {
        assert !Past(i, true, Entries()[a].user);
        PastIsAfter(a);
      }
    }

    lemma ViewStep(a: nat)
      requires LiveAt(a)
      ensures View(Entries(), sequence, a + 1) == View(Entries(), sequence, a)
              + [(Entries()[a].user, Entries()[a].value)]
    {
    }

    method Prev()
      requires Valid() && valid
      modifies this, iter
      ensures Valid() && Cursor() == Moved(Shown(), old(Cursor()), Move.Prev)
    {
      ghost var a := at;
      if direction.Forward? {
        savedKey := iter.entries[iter.pos].user;
        while true
          invariant Sorted(Entries()) && iter.Valid() && iter.valid && iter.pos <= a && direction.Forward?
          invariant LiveAt(a) && savedKey == Entries()[a].user
          invariant forall j: nat | iter.pos <= j < a :: Entries()[j].user == savedKey
          decreases iter.pos
        {
          ghost var k := iter.pos;
          iter.Prev();
          if !iter.valid {
            SameKeyIsNotLive(0, a);
            valid, savedKey, savedValue := false, 0.0, "";
            CursorBackward(a);
            return;
          }
          assert Before(Entries()[k - 1], Entries()[k]);
          if iter.entries[iter.pos].user < savedKey {
            SameKeyIsNotLive(k, a);
            break;
          }
        }
        direction := Reverse;
      } else {
        UnseenIsNotLive(if iter.valid then iter.pos + 1 else 0, a);
      }
      FindPrevUserEntry();
      CursorBackward(a);
    }

    /** Only one version of a key is shown. */
    lemma SameKeyIsNotLive(k: nat, a: nat)
      requires LiveAt(a) && k <= a && forall j: nat | k <= j < a :: Entries()[j].user == Entries()[a].user
      ensures forall i: nat | k <= i < a :: !LiveAt(i)
    {
      forall i: nat | k <= i < a ensures !LiveAt(i) {
        assert !Visible(Entries(), sequence, i);
      }
    }

    method Seek(target: UserKey)
      requires Valid()
      modifies this, iter
      ensures Valid() && Cursor() == Moved(Shown(), old(Cursor()), Move.Seek(target))
    {
      direction, savedValue, savedKey := Forward, "", 0.0;
      iter.Seek(Entry(target, sequence, ValueTag, ""));
      ghost var k := if iter.valid then iter.pos else |Entries()|;
      BelowIsRank(target, k);
      if iter.valid {
        ghost var from := iter.pos;
        SeekPassesOver(target, from);
        FindNextUserEntry(false, 0.0);
        assert forall i: nat | from <= i < (if valid then at else |Entries()|) && !Past(i, false, 0.0) :: !LiveAt(i);
      } else {
        valid := false;
      }
      CursorForward(k);
    }

    method SeekToFirst()
      requires Valid()
      modifies this, iter
      ensures Valid() && Cursor() == Moved(Shown(), old(Cursor()), Move.SeekToFirst)
    {
      direction, savedValue := Forward, "";
      iter.SeekToFirst();
      if iter.valid {
        FindNextUserEntry(false, 0.0);
        assert forall i: nat | 0 <= i < (if valid then at else |Entries()|) && !Past(i, false, 0.0) :: !LiveAt(i);
      } else {
        valid := false;
      }
      CursorForward(0);
    }

    method SeekToLast()
      requires Valid()
      modifies this, iter
      ensures Valid() && Cursor() == Moved(Shown(), old(Cursor()), Move.SeekToLast)
    {
      direction, savedValue := Reverse, "";
      iter.SeekToLast();
      FindPrevUserEntry();
      CursorBackward(|Entries()|);
    }

    /** Whatever a seek passes over, and may be seen, has a smaller key. */
    lemma SeekPassesOver(target: UserKey, k: nat)
      requires Sorted(Entries()) && k < |Entries()|
      requires forall j: nat | j < k :: Before(Entries()[j], Entry(target, sequence, ValueTag, ""))
      requires !Before(Entries()[k], Entry(target, sequence, ValueTag, ""))
      ensures forall j: nat | j < k && SeenAt(j) :: Entries()[j].user < Entries()[k].user
    {
    }

    /** As many pairs are shown below a key as are live before the entry a seek for it reaches. */
    lemma BelowIsRank(target: UserKey, k: nat)
      requires Sorted(Entries()) && k <= |Entries()|
      requires forall j: nat | j < k :: Before(Entries()[j], Entry(target, sequence, ValueTag, ""))
      requires forall j: nat | k <= j < |Entries()| :: !Before(Entries()[j], Entry(target, sequence, ValueTag, ""))
      ensures Below(Shown(), target) == |View(Entries(), sequence, k)|
    {
      forall c: nat | c < |Entries()| && Live(Entries(), sequence, c)
        ensures Entries()[c].user < target <==> c < k
      {
      }
      RankSplits(Entries(), sequence, target, k, |Entries()|);
    }

    /** Any run of legal moves leaves the iterator where the plain cursor is. */
    method Follow(moves: seq<Move>)
      requires Valid() && Legal(Shown(), Cursor(), moves)
      modifies this, iter
      ensures Valid() && Cursor() == MovedAll(Shown(), old(Cursor()), moves)
    {
      var i := 0;
      while i < |moves|
        invariant i <= |moves| && Valid()
        invariant Legal(Shown(), Cursor(), moves[i..])
        invariant MovedAll(Shown(), Cursor(), moves[i..]) == MovedAll(Shown(), old(Cursor()), moves)
      {
        assert moves[i..][1..] == moves[i + 1..];
        match moves[i] {
          case Seek(key) => Seek(key);
          case SeekToFirst => SeekToFirst();
          case SeekToLast => SeekToLast();
          case Next => Next();
          case Prev => Prev();
        }
        i := i + 1;
      }
    }
  }

  lemma {:induction false} RankSplits(es: seq<Entry>, s: nat, target: UserKey, k: nat, n: nat)
    requires n <= |es| && k <= |es|
    requires forall c: nat | c < n && Live(es, s, c) :: (es[c].user < target <==> c < k)
    ensures Below(View(es, s, n), target) == |View(es, s, if k < n then k else n)|
    decreases n
  {
    if n > 0 {
      var v, last := View(es, s, n), View(es, s, n - 1);
      RankSplits(es, s, target, k, n - 1);
      if Live(es, s, n - 1) {
        assert v == last + [(es[n - 1].user, es[n - 1].value)];
        assert v[..|v| - 1] == last && v[|v| - 1].0 == es[n - 1].user;
      } else {
        assert v == last;
      }
    }
  }
}
