/** The table of watch records: last and previous record of a resource, and range reads. */
module WatchTable {
  import opened ByteStrings
  import opened Decimal
  import opened Wrappers
  import opened Partitions
  import opened Store
  import opened WatchKeys
  import opened Tables

  type Db = MockDb<Value>
  type Data = map<string, Value>

  // ----- stores that the writer produces -----

  ghost predicate SoundWatchRow(dur: PartitionDuration, width: nat, s: string, v: Value) {
    && Parse(s).Some?
    && Canonical(dur, width, Parse(s).value)
    && Print(Parse(s).value) == s
    && v.Watch?
    && v.rec.timestamp == Parse(s).value.timestamp.n
  }

  /** Every row of the watch table is a record, stored under the key of its own timestamp. */
  ghost predicate SoundWatch(dur: PartitionDuration, width: nat, data: Data) {
    forall s :: s in data && InTable(WATCH, s) ==> SoundWatchRow(dur, width, s, data[s])
  }

  function TimeOf(s: string): int {
    if Parse(s).Some? && Parse(s).value.timestamp.Nanos? then Parse(s).value.timestamp.n else 0
  }

  datatype Resource = Resource(kind: string, namespace: string, name: string) {
    predicate Clean() {
      CleanResource(kind, namespace, name)
    }

    function Key(partitionId: string, timestamp: Time): WatchKey {
      WatchKey(partitionId, kind, namespace, name, timestamp)
    }

    /** The string under which a record of this resource is stored. */
    function At(dur: PartitionDuration, n: int): string {
      Print(Key(GetPartitionId(dur, n), Nanos(n)))
    }

    predicate Of(k: WatchKey) {
      k.kind == kind && k.namespace == namespace && k.name == name
    }
  }

  /** `s` is the key of a stored record of the resource. */
  ghost predicate IsRecord(data: Data, r: Resource, s: string) {
    s in data && InTable(WATCH, s) && Parse(s).Some? && r.Of(Parse(s).value)
  }

  lemma RecordShape(dur: PartitionDuration, width: nat, data: Data, r: Resource, s: string)
    requires SoundWatch(dur, width, data) && IsRecord(data, r, s)
    ensures s == r.At(dur, TimeOf(s)) && CleanInstant(width, TimeOf(s)) && r.Clean()
    ensures data[s].Watch? && data[s].rec.timestamp == TimeOf(s)
    ensures Canonical(dur, width, r.Key(GetPartitionId(dur, TimeOf(s)), Nanos(TimeOf(s))))
  {
    hide Parse, Print, GetPartitionId, Digits;
    var k := Parse(s).value;
    assert k == r.Key(GetPartitionId(dur, TimeOf(s)), Nanos(TimeOf(s)));
  }

  lemma RowTime(dur: PartitionDuration, width: nat, s: string, v: Value)
    requires SoundWatchRow(dur, width, s, v)
    ensures v.rec.timestamp == TimeOf(s)
  {
  }

  lemma RecordParses(dur: PartitionDuration, width: nat, data: Data, r: Resource, s: string)
    requires SoundWatch(dur, width, data) && IsRecord(data, r, s)
    ensures Parse(s).Some? && Print(Parse(s).value) == s
  {
  }

  lemma CleanInstantStart(dur: PartitionDuration, width: nat, t: int)
    requires CleanInstant(width, t)
    ensures IsStart(dur, StartOf(dur, t)) && StartOf(dur, t) + dur.Seconds() < MAX_ID
  {
    InstantStart(dur, t);
  }

  lemma AtIsRecord(dur: PartitionDuration, width: nat, r: Resource, n: int)
    requires r.Clean() && CleanInstant(width, n)
    ensures Canonical(dur, width, r.Key(GetPartitionId(dur, n), Nanos(n)))
    ensures InTable(WATCH, r.At(dur, n)) && Parse(r.At(dur, n)) == Some(r.Key(GetPartitionId(dur, n), Nanos(n)))
    ensures TimeOf(r.At(dur, n)) == n
  {
    hide Parse, GetPartitionId, Digits, FormatInt;
    CanonicalSlashFree(dur, width, r.Key(GetPartitionId(dur, n), Nanos(n)));
  }

  /** Records of one resource are ordered by time, and a time has at most one record. */
  lemma RecordOrder(dur: PartitionDuration, width: nat, data: Data, r: Resource, s: string, t: string)
    requires SoundWatch(dur, width, data) && IsRecord(data, r, s) && IsRecord(data, r, t)
    ensures Less(s, t) <==> TimeOf(s) < TimeOf(t)
    ensures s == t <==> TimeOf(s) == TimeOf(t)
  {
    hide Parse, Print, GetPartitionId, Digits, Less;
    RecordShape(dur, width, data, r, s);
    RecordShape(dur, width, data, r, t);
    KeyOrderIsTimeOrder(dur, width,
                        r.Key(GetPartitionId(dur, TimeOf(s)), Nanos(TimeOf(s))),
                        r.Key(GetPartitionId(dur, TimeOf(t)), Nanos(TimeOf(t))));
  }

  lemma SoundWatchTable(dur: PartitionDuration, width: nat, data: Data)
    requires SoundWatch(dur, width, data)
    ensures SoundTable(dur, WATCH, data.Keys)
    ensures forall s :: s in data && InTable(WATCH, s) ==> RowStart(dur, WATCH, s) == StartOf(dur, TimeOf(s))
  {
    forall s | s in data && InTable(WATCH, s)
      ensures SoundRow(dur, WATCH, s) && RowStart(dur, WATCH, s) == StartOf(dur, TimeOf(s))
    {
      var k := Parse(s).value;
      SoundRowOfKey(dur, width, s, k);
    }
  }

  lemma SoundRowOfKey(dur: PartitionDuration, width: nat, s: string, k: WatchKey)
    requires Parse(s) == Some(k) && Canonical(dur, width, k)
    ensures SoundRow(dur, WATCH, s) && RowStart(dur, WATCH, s) == StartOf(dur, k.timestamp.n)
  {
    hide ParseInt, FormatId, Digits, ParseKey;
    InstantStart(dur, k.timestamp.n);
    IdFaithful(StartOf(dur, k.timestamp.n));
  }

  // ----- the last record of a resource in one partition -----

  /** `s` is the newest record of the resource in the partition starting at `p` that is not after `m`. */
  ghost predicate IsNewestIn(dur: PartitionDuration, data: Data, r: Resource, p: int, m: int, s: string) {
    && IsRecord(data, r, s) && StartOf(dur, TimeOf(s)) == p && TimeOf(s) <= m
    && forall o :: IsRecord(data, r, o) && StartOf(dur, TimeOf(o)) == p && TimeOf(o) <= m ==> TimeOf(o) <= TimeOf(s)
  }

  ghost predicate NoneIn(dur: PartitionDuration, data: Data, r: Resource, p: int, m: int) {
    forall o :: IsRecord(data, r, o) ==> !(StartOf(dur, TimeOf(o)) == p && TimeOf(o) <= m)
  }

  /** A bound that separates the partition's records at `m` makes the greatest key below it the newest
      record, if the partition has one. */
  lemma GreatestIsNewest(dur: PartitionDuration, width: nat, data: Data, r: Resource, p: int, m: int, bound: string)
    requires SoundWatch(dur, width, data) && r.Clean() && 0 <= p < MAX_ID
    requires Print(r.Key(FormatId(p), Zero)) <= bound
    requires forall s :: IsRecord(data, r, s) && StartOf(dur, TimeOf(s)) == p ==> (Less(s, bound) <==> TimeOf(s) <= m)
    ensures var g := GreatestBelow(data.Keys, bound);
            if g.Some? && Print(r.Key(FormatId(p), Zero)) <= g.value
            then IsNewestIn(dur, data, r, p, m, g.value)
            else NoneIn(dur, data, r, p, m)
  {
    hide Parse, Print, FormatId, Digits, Less;
    var g := GreatestBelow(data.Keys, bound);
    var c := Print(r.Key(FormatId(p), Zero));
    if g.Some? && c <= g.value {
      PrefixedIsRecord(dur, width, data, r, p, g.value);
      forall o | IsRecord(data, r, o) && StartOf(dur, TimeOf(o)) == p && TimeOf(o) <= m
        ensures TimeOf(o) <= TimeOf(g.value)
      {
        RecordOrder(dur, width, data, r, o, g.value);
      }
    } else {
      forall o | IsRecord(data, r, o)
        ensures !(StartOf(dur, TimeOf(o)) == p && TimeOf(o) <= m)
      {
        if StartOf(dur, TimeOf(o)) == p && TimeOf(o) <= m {
          RecordPrefixed(dur, width, data, r, p, o);
          PrefixInterval(c, o, g.value, bound);
        }
      }
    }
  }

  lemma PrefixedIsRecord(dur: PartitionDuration, width: nat, data: Data, r: Resource, p: int, s: string)
    requires SoundWatch(dur, width, data) && r.Clean() && 0 <= p < MAX_ID
    requires s in data && Print(r.Key(FormatId(p), Zero)) <= s
    ensures IsRecord(data, r, s) && StartOf(dur, TimeOf(s)) == p
  {
    hide Parse, FormatId, Digits, FormatInt;
    var c := r.Key(FormatId(p), Zero);
    assert TablePath(WATCH) <= Print(c);
    assert InTable(WATCH, s);
    var k := Parse(s).value;
    CanonicalSlashFree(dur, width, k);
    IdSlashFree(p);
    ComparatorPrefix(c, k);
    InstantStart(dur, k.timestamp.n);
    IdOrder(p, StartOf(dur, k.timestamp.n));
  }

  lemma RecordPrefixed(dur: PartitionDuration, width: nat, data: Data, r: Resource, p: int, s: string)
    requires SoundWatch(dur, width, data) && IsRecord(data, r, s) && StartOf(dur, TimeOf(s)) == p
    ensures Print(r.Key(FormatId(p), Zero)) <= s
  {
    hide Parse, FormatId, Digits, FormatInt, Print;
    RecordShape(dur, width, data, r, s);
    var k := r.Key(GetPartitionId(dur, TimeOf(s)), Nanos(TimeOf(s)));
    var c := r.Key(FormatId(p), Zero);
    CanonicalSlashFree(dur, width, k);
    ComparatorPrefix(c, k);
  }

  /** Seeking past the key of instant `t`, in any partition not after its own, admits the records up to `t`. */
  lemma SeekAdmits(dur: PartitionDuration, width: nat, data: Data, r: Resource, p: int, t: int, s: string)
    requires SoundWatch(dur, width, data) && IsRecord(data, r, s) && StartOf(dur, TimeOf(s)) == p
    requires CleanInstant(width, t)
    ensures Less(s, Print(r.Key(FormatId(p), Nanos(t))) + SENTINEL) <==> TimeOf(s) <= t
    ensures Less(s, Print(r.Key(FormatId(p), Nanos(t)))) <==> TimeOf(s) < t
    ensures s == Print(r.Key(FormatId(p), Nanos(t))) <==> TimeOf(s) == t
  {
    hide Parse, FormatId, Digits, Less, Print;
    RecordShape(dur, width, data, r, s);
    var a, b := r.Key(FormatId(p), Nanos(TimeOf(s))), r.Key(FormatId(p), Nanos(t));
    StemTail(a);
    StemTail(b);
    assert Stem(a) == Stem(b);
    SeekPast(Stem(a), TimeOf(s), t);
    LessCancel(Stem(a), Digits(TimeOf(s)), Digits(t));
    NumeralOrder(Digits(TimeOf(s)), Digits(t));
    if Digits(TimeOf(s)) != Digits(t) {
      assert s[|Stem(a)|..] == Digits(TimeOf(s)) && Print(b)[|Stem(a)|..] == Digits(t);
    }
  }

  // ----- getLastMatchingKeyInPartition -----

  /** The key the reverse walk stops at: one step further if it first meets `oldKey`. */
  ghost function Candidate(ks: set<string>, oldKey: string, seekKey: string): Option<string> {
    var g := GreatestBelow(ks, seekKey + SENTINEL);
    if g == Some(oldKey) then GreatestBelow(ks, oldKey) else g
  }

  /** Updates the partitions of both arguments, as its callers see. */
  method GetLastMatchingKeyInPartition(db: Db, curPartition: string, curKey: WatchTableKey, keyComparator: WatchTableKey)
    returns (found: bool, key: Option<WatchKey>)
    requires curKey != keyComparator
    modifies curKey`partitionId, keyComparator`partitionId
    ensures curKey.Value() == old(curKey.Value()).(partitionId := curPartition)
    ensures keyComparator.Value() == old(keyComparator.Value()).(partitionId := curPartition)
    ensures var c := Candidate(db.data.Keys, Print(old(curKey.Value())), Print(curKey.Value()));
            && (found <==> c.Some? && Print(keyComparator.Value()) <= c.value)
            && key == if found then Parse(c.value) else None
  {
    hide Print, Parse, Less;
    var itr := new MockIterator(db, true);
    var oldKey := Print(curKey.Value());

    curKey.SetPartitionId(curPartition);
    keyComparator.SetPartitionId(curPartition);

    var keySeekStr := Print(curKey.Value()) + SENTINEL;
    itr.Seek(keySeekStr);
    GreatestBelowAt(itr.keys, db.data.Keys, keySeekStr, itr.currentIdx);

    // a result that is the key itself does not count: take the one before
    if itr.Valid() && oldKey == itr.Key() {
      GreatestBelowNext(itr.keys, db.data.Keys, itr.currentIdx);
      itr.Next();
    }

    if itr.ValidForPrefix(Print(keyComparator.Value())) {
      return true, Parse(itr.Key());
    }
    return false, None;
  }

  /** What one call finds in the partition starting at `p`, when the key it is given still carries the
      partition `q` of the call before: the newest record strictly before `t`. */
  lemma CandidateIsPrevious(dur: PartitionDuration, width: nat, data: Data, r: Resource, t: int, p: int, q: int)
    requires SoundWatch(dur, width, data) && r.Clean() && CleanInstant(width, t)
    requires 0 <= p <= q <= StartOf(dur, t) && (p == q ==> q == StartOf(dur, t))
    ensures var c := Candidate(data.Keys, Print(r.Key(FormatId(q), Nanos(t))), Print(r.Key(FormatId(p), Nanos(t))));
            if c.Some? && Print(r.Key(FormatId(p), Zero)) <= c.value
            then IsNewestIn(dur, data, r, p, t - 1, c.value)
            else NoneIn(dur, data, r, p, t - 1)
  {
    hide Parse, Print, FormatId, Digits, Less;
    InstantStart(dur, t);
    var comparator := Print(r.Key(FormatId(p), Zero));
    var seek, oldKey := Print(r.Key(FormatId(p), Nanos(t))), Print(r.Key(FormatId(q), Nanos(t)));
    SeekUnderComparator(r, p, t);
    forall s | IsRecord(data, r, s) && StartOf(dur, TimeOf(s)) == p
      ensures Less(s, seek + SENTINEL) <==> TimeOf(s) <= t
      ensures Less(s, seek) <==> TimeOf(s) <= t - 1
      ensures s == seek <==> TimeOf(s) == t
    {
      SeekAdmits(dur, width, data, r, p, t, s);
    }
    var g := GreatestBelow(data.Keys, seek + SENTINEL);
    GreatestIsNewest(dur, width, data, r, p, t, seek + SENTINEL);
    if p == q {
      GreatestIsNewest(dur, width, data, r, p, t - 1, seek);
    } else {
      LaterKeyIsHigher(r, p, q, t);
      if g == Some(oldKey) {
        LessAsymmetric(oldKey, seek + SENTINEL);
      }
      forall s | IsRecord(data, r, s) && StartOf(dur, TimeOf(s)) == p
        ensures TimeOf(s) <= t - 1
      {
        if TimeOf(s) >= t {
          StartOfMonotone(dur, t, TimeOf(s));
        }
      }
    }
  }

  lemma SeekUnderComparator(r: Resource, p: int, t: int)
    requires r.Clean()
    ensures var c := Print(r.Key(FormatId(p), Zero)); var k := Print(r.Key(FormatId(p), Nanos(t)));
            c <= k && c <= k + SENTINEL
  {
    hide FormatInt, FormatId, Print;
    ComparatorIsStem(r, p, t);
    StemTail(r.Key(FormatId(p), Nanos(t)));
  }

  lemma ComparatorIsStem(r: Resource, p: int, t: int)
    requires r.Clean()
    ensures Print(r.Key(FormatId(p), Zero)) == Stem(r.Key(FormatId(p), Nanos(t)))
  {
    hide FormatInt, FormatId;
    assert r.name + "/" == r.name + "/" + "";
  }

  lemma LaterKeyIsHigher(r: Resource, p: int, q: int, t: int)
    requires 0 <= p < q < MAX_ID
    ensures Less(Print(r.Key(FormatId(p), Nanos(t))) + SENTINEL, Print(r.Key(FormatId(q), Nanos(t))))
  {
    hide FormatInt, FormatId, Less, Print;
    UnderId(r.Key(FormatId(p), Nanos(t)));
    UnderId(r.Key(FormatId(q), Nanos(t)));
    EarlierId(TablePath(WATCH), p, Print(r.Key(FormatId(p), Nanos(t))) + SENTINEL,
              q, Print(r.Key(FormatId(q), Nanos(t))));
  }

  // ----- GetPreviousKey -----

  /** The record of the resource with the greatest timestamp strictly before `t`, over the whole store. */
  ghost predicate IsPrevious(data: Data, r: Resource, t: int, s: string) {
    && IsRecord(data, r, s) && TimeOf(s) < t
    && forall o :: IsRecord(data, r, o) && TimeOf(o) < t ==> TimeOf(o) <= TimeOf(s)
  }

  ghost predicate HasNoPrevious(data: Data, r: Resource, t: int) {
    forall o :: IsRecord(data, r, o) ==> t <= TimeOf(o)
  }

  /** The partitions that the walk visits: ascending, and among them that of every record. */
  ghost predicate Covers(dur: PartitionDuration, data: Data, starts: seq<int>) {
    && (forall j :: 0 <= j < |starts| ==> IsStart(dur, starts[j]))
    && (forall i, j :: 0 <= i < j < |starts| ==> starts[i] < starts[j])
    && (forall s :: s in data && InTable(WATCH, s) ==> StartOf(dur, TimeOf(s)) in starts)
  }

  lemma BoundsCover(dur: PartitionDuration, width: nat, data: Data, lo: int, hi: int)
    requires SoundWatch(dur, width, data) && SoundTable(dur, WATCH, data.Keys) && Bounds(dur, WATCH, data.Keys, lo, hi)
    ensures Covers(dur, data, StartsBetween(dur, lo, hi))
  {
    hide SoundRow, RowStart, Parse, SoundWatchRow, StartOf, InTable, StartsBetween;
    RowStartIsStart(dur, data, lo);
    RowStartIsStart(dur, data, hi);
    StartsAreStarts(dur, lo, hi);
    StartsAscend(dur, lo, hi);
    forall s | s in data && InTable(WATCH, s)
      ensures StartOf(dur, TimeOf(s)) in StartsBetween(dur, lo, hi)
    {
      RowIsListed(dur, width, data, lo, hi, s);
    }
  }

  lemma StartsAreStarts(dur: PartitionDuration, lo: int, hi: int)
    requires IsStart(dur, lo) && IsStart(dur, hi)
    ensures var starts := StartsBetween(dur, lo, hi); forall j :: 0 <= j < |starts| ==> IsStart(dur, starts[j])
  {
    hide StartsBetween;
    forall j | 0 <= j < |StartsBetween(dur, lo, hi)|
      ensures IsStart(dur, StartsBetween(dur, lo, hi)[j])
    {
      StartsBetweenAt(dur, lo, hi, j);
    }
  }

  lemma StartsAscend(dur: PartitionDuration, lo: int, hi: int)
    requires IsStart(dur, lo)
    ensures var starts := StartsBetween(dur, lo, hi); forall i, j :: 0 <= i < j < |starts| ==> starts[i] < starts[j]
  {
    hide StartsBetween;
    forall i, j | 0 <= i < j < |StartsBetween(dur, lo, hi)|
      ensures StartsBetween(dur, lo, hi)[i] < StartsBetween(dur, lo, hi)[j]
    {
      StartsBetweenAt(dur, lo, hi, j);
    }
  }

  lemma RowIsListed(dur: PartitionDuration, width: nat, data: Data, lo: int, hi: int, s: string)
    requires SoundWatch(dur, width, data) && SoundTable(dur, WATCH, data.Keys) && Bounds(dur, WATCH, data.Keys, lo, hi)
    requires IsStart(dur, lo) && s in data && InTable(WATCH, s)
    ensures StartOf(dur, TimeOf(s)) in StartsBetween(dur, lo, hi)
  {
    hide SoundRow, RowStart, Parse, SoundWatchRow, InTable, StartsBetween, SoundWatch;
    SoundWatchTable(dur, width, data);
    StartOfBounds(dur, TimeOf(s));
    StartsBetweenHas(dur, lo, hi, StartOf(dur, TimeOf(s)));
  }

  lemma RowStartIsStart(dur: PartitionDuration, data: Data, p: int)
    requires SoundTable(dur, WATCH, data.Keys)
    requires exists s :: s in data.Keys && InTable(WATCH, s) && RowStart(dur, WATCH, s) == p
    ensures IsStart(dur, p) && p + dur.Seconds() < MAX_ID
  {
  }

  lemma LaterPartitionHasNone(dur: PartitionDuration, data: Data, r: Resource, t: int, p: int)
    requires StartOf(dur, t) < p
    ensures NoneIn(dur, data, r, p, t - 1)
  {
    forall o | IsRecord(data, r, o)
      ensures !(StartOf(dur, TimeOf(o)) == p && TimeOf(o) <= t - 1)
    {
      if TimeOf(o) <= t {
        StartOfMonotone(dur, TimeOf(o), t);
      }
    }
  }

  lemma NewestIsPrevious(dur: PartitionDuration, data: Data, r: Resource, t: int, starts: seq<int>, i: nat, s: string)
    requires Covers(dur, data, starts) && i < |starts|
    requires IsNewestIn(dur, data, r, starts[i], t - 1, s)
    requires forall j :: i < j < |starts| ==> NoneIn(dur, data, r, starts[j], t - 1)
    ensures IsPrevious(data, r, t, s)
  {
    hide StartOf, InTable, Parse;
    forall o | IsRecord(data, r, o) && TimeOf(o) < t
      ensures TimeOf(o) <= TimeOf(s)
    {
      var j :| 0 <= j < |starts| && starts[j] == StartOf(dur, TimeOf(o));
      if j < i && TimeOf(s) <= TimeOf(o) {
        StartOfMonotone(dur, TimeOf(s), TimeOf(o));
      }
    }
  }

  lemma NoneAnywhere(dur: PartitionDuration, data: Data, r: Resource, t: int, starts: seq<int>)
    requires Covers(dur, data, starts)
    requires forall j :: 0 <= j < |starts| ==> NoneIn(dur, data, r, starts[j], t - 1)
    ensures HasNoPrevious(data, r, t)
  {
    hide StartOf, InTable, Parse;
    forall o | IsRecord(data, r, o)
      ensures t <= TimeOf(o)
    {
      var j :| 0 <= j < |starts| && starts[j] == StartOf(dur, TimeOf(o));
    }
  }

  /** The list that the walk goes through, and what its ids denote. */
  method CoveredPartitions(dur: PartitionDuration, ghost width: nat, db: Db) returns (ids: seq<string>, ghost starts: seq<int>)
    requires SoundWatch(dur, width, db.data)
    ensures Covers(dur, db.data, starts) && ids == IdsOf(starts)
  {
    hide Parse, Print, FormatId, SoundTable, SoundWatch, StartsBetween, Bounds, StartOf, InTable, IdsOf, RowStart;
    SoundWatchTable(dur, width, db.data);
    ids := Table(WATCH).GetUniquePartitionList(dur, db);
    starts := [];
    if exists k :: k in db.data && InTable(WATCH, k) {
      ghost var lo, hi :| Bounds(dur, WATCH, db.data.Keys, lo, hi) && ids == IdsOf(StartsBetween(dur, lo, hi));
      starts := StartsBetween(dur, lo, hi);
      BoundsCover(dur, width, db.data, lo, hi);
    }
    assert starts == [] ==> ids == IdsOf([]);
  }

  /** Walks the partitions from the newest down. `key` is a seek key as `GetSeekKey` makes it. */
  method GetPreviousKey(dur: PartitionDuration, ghost width: nat, db: Db, key: WatchTableKey, keyComparator: WatchTableKey,
                        ghost r: Resource, ghost t: int)
    returns (previous: Option<WatchKey>)
    requires SoundWatch(dur, width, db.data) && r.Clean() && CleanInstant(width, t)
    requires key.Value() == r.Key(GetPartitionId(dur, t), Nanos(t))
    requires keyComparator.Value() == r.Key(keyComparator.partitionId, Zero)
    modifies key`partitionId, keyComparator`partitionId
    ensures previous.Some? ==> IsPrevious(db.data, r, t, Print(previous.value)) && Parse(Print(previous.value)) == previous
    ensures previous.None? ==> HasNoPrevious(db.data, r, t)
  {
    hide Parse, Print, FormatId, Less, CleanInstant, SoundWatch, StartOf, IdsOf, InTable;
    hide IsRecord, NoneIn, HasNoPrevious, IsPrevious, Candidate, CleanResource, IsNewestIn;
    var currentPartition := key.partitionId;
    var partitionList, starts := CoveredPartitions(dur, width, db);
    ghost var home, q := StartOf(dur, t), StartOf(dur, t);
    CleanInstantStart(dur, width, t);
    var i := |partitionList| - 1;
    while i >= 0
      invariant -1 <= i < |partitionList|
      invariant key.Value() == r.Key(FormatId(q), Nanos(t)) && 0 <= q <= home
      invariant q == home || (i + 1 < |starts| && q == starts[i + 1])
      invariant keyComparator.Value() == r.Key(keyComparator.partitionId, Zero)
      invariant forall j :: i < j < |starts| ==> NoneIn(dur, db.data, r, starts[j], t - 1)
    {
      var prePart := partitionList[i];
      ghost var p := starts[i];
      IdOrder(home, p);
      LessTotal(prePart, currentPartition);
      if Less(currentPartition, prePart) {
        LaterPartitionHasNone(dur, db.data, r, t, p);
      } else {
        CandidateIsPrevious(dur, width, db.data, r, t, p, q);
        var prevFound, prevKey := GetLastMatchingKeyInPartition(db, prePart, key, keyComparator);
        if prevFound {
          ghost var s := Candidate(db.data.Keys, Print(r.Key(FormatId(q), Nanos(t))), Print(r.Key(FormatId(p), Nanos(t)))).value;
          NewestIsPrevious(dur, db.data, r, t, starts, i, s);
          PreviousParses(dur, width, db.data, r, t, s);
          return prevKey;
        }
        q := p;
      }
      i := i - 1;
    }
    NoneAnywhere(dur, db.data, r, t, starts);
    return None;
  }

  lemma PreviousParses(dur: PartitionDuration, width: nat, data: Data, r: Resource, t: int, s: string)
    requires SoundWatch(dur, width, data) && IsPrevious(data, r, t, s)
    ensures Parse(s).Some? && Print(Parse(s).value) == s
  {
    RecordParses(dur, width, data, r, s);
  }
}
