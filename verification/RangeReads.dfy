/** Reading the rows of a time range: one prefix walk per partition. */
module RangeReads {
  import opened ByteStrings
  import opened Decimal
  import opened Wrappers
  import opened Partitions
  import opened Store
  import opened WatchKeys
  import opened Tables
  import opened WatchTable

  type KeyPredicate = Option<string -> bool>
  type ValPredicate = Option<KubeWatchResult -> bool>
  type Results = map<WatchKey, KubeWatchResult>

  /** A query instant whose partition id has 12 digits. */
  predicate QueryInstant(dur: PartitionDuration, t: int) {
    IsStart(dur, StartOf(dur, t)) && StartOf(dur, t) + dur.Seconds() < MAX_ID
  }

  /** The ids of the partitions that a range meets. */
  function RangeIds(dur: PartitionDuration, startTime: int, endTime: int): seq<string> {
    IdsOf(StartsBetween(dur, StartOf(dur, startTime), StartOf(dur, endTime)))
  }

  method GetPartitionsFromTimeRange(dur: PartitionDuration, startTime: int, endTime: int) returns (ids: seq<string>)
    requires QueryInstant(dur, startTime) && QueryInstant(dur, endTime)
    ensures ids == RangeIds(dur, startTime, endTime)
  {
    ids := EnumerateIds(dur, GetPartitionId(dur, startTime), GetPartitionId(dur, endTime),
                        StartOf(dur, startTime), StartOf(dur, endTime));
  }

  /** The partitions listed for a range are exactly those that hold some instant of it. */
  lemma ListedPartitions(dur: PartitionDuration, startTime: int, endTime: int, p: int)
    requires startTime <= endTime
    ensures p in StartsBetween(dur, StartOf(dur, startTime), StartOf(dur, endTime))
            <==> exists t :: startTime <= t <= endTime && StartOf(dur, t) == p
  {
    hide StartOf, StartsBetween;
    var lo, hi := StartOf(dur, startTime), StartOf(dur, endTime);
    StartOfBounds(dur, startTime);
    StartOfBounds(dur, endTime);
    forall t | startTime <= t <= endTime
      ensures StartOf(dur, t) in StartsBetween(dur, lo, hi)
    {
      StartOfBounds(dur, t);
      StartOfMonotone(dur, startTime, t);
      StartOfMonotone(dur, t, endTime);
      StartsBetweenHas(dur, lo, hi, StartOf(dur, t));
    }
    if p in StartsBetween(dur, lo, hi) {
      var j :| 0 <= j < |StartsBetween(dur, lo, hi)| && StartsBetween(dur, lo, hi)[j] == p;
      StartsBetweenAt(dur, lo, hi, j);
      if p == lo {
        assert StartOf(dur, startTime) == p;
      } else {
        AlignedGap(dur, lo, p);
        StartOfUnique(dur, p * NANOS, p);
        assert startTime <= p * NANOS <= endTime;
      }
    }
  }

  /** The string a partition is searched for: the whole partition, or the prefix moved into it. */
  function SeekString(prefix: Option<WatchKey>, id: string): string {
    match prefix
    case None => TablePath(WATCH) + id + "/"
    case Some(k) => Print(k.(partitionId := id))
  }

  predicate KeyPasses(kp: KeyPredicate, s: string) {
    kp.None? || kp.value(s)
  }

  predicate ValPasses(vp: ValPredicate, v: KubeWatchResult) {
    vp.None? || vp.value(v)
  }

  /** The key parses and the value unmarshals. */
  predicate Readable(s: string, v: Value) {
    Parse(s).Some? && v.Watch?
  }

  ghost predicate Selected(data: Data, kp: KeyPredicate, vp: ValPredicate, s: string) {
    s in data && (kp.Some? ==> kp.value(s)) && Readable(s, data[s]) && (vp.Some? ==> vp.value(data[s].rec))
  }

  /** `res` holds the selected ones of `rows`, and nothing else. */
  ghost predicate Gathered(data: Data, kp: KeyPredicate, vp: ValPredicate, rows: set<string>, res: Results) {
    && (forall s :: s in rows && (kp.Some? ==> kp.value(s)) ==> s in data && Readable(s, data[s]))
    && (forall s :: s in rows && Selected(data, kp, vp, s) ==> Parse(s).value in res)
    && (forall k :: k in res ==> exists s :: s in rows && Selected(data, kp, vp, s) && Parse(s) == Some(k) && res[k] == data[s].rec)
  }

  lemma GatherRow(data: Data, kp: KeyPredicate, vp: ValPredicate, rows: set<string>, res: Results, s: string, res': Results)
    requires Gathered(data, kp, vp, rows, res) && s in data
    requires (kp.Some? ==> kp.value(s)) ==> Readable(s, data[s])
    requires res' == if Selected(data, kp, vp, s) then res[Parse(s).value := data[s].rec] else res
    ensures Gathered(data, kp, vp, rows + {s}, res')
  {
    hide Parse;
    var rows' := rows + {s};
    forall k | k in res'
      ensures exists o :: o in rows' && Selected(data, kp, vp, o) && Parse(o) == Some(k) && res'[k] == data[o].rec
    {
      if Selected(data, kp, vp, s) && k == Parse(s).value {
        assert s in rows';
      } else {
        var o :| o in rows && Selected(data, kp, vp, o) && Parse(o) == Some(k) && res[k] == data[o].rec;
        assert o in rows';
      }
    }
  }

  lemma NothingGathered(data: Data, kp: KeyPredicate, vp: ValPredicate)
    ensures Gathered(data, kp, vp, {}, map[])
  {
  }

  ghost function WithPrefix(ks: set<string>, prefix: string): set<string> {
    set s | s in ks && prefix <= s
  }

  ghost predicate BadRow(data: Data, kp: KeyPredicate, rows: set<string>, s: string) {
    s in rows && s in data && (kp.Some? ==> kp.value(s)) && !Readable(s, data[s])
  }

  /** The keys that a walk from index `a` has passed when it stands at index `b`. */
  ghost function Passed(keys: seq<string>, a: nat, b: nat): set<string>
    requires a <= b <= |keys|
  {
    set s | s in keys[a..b]
  }

  lemma PassOne(keys: seq<string>, a: nat, b: nat, rows: set<string>)
    requires a <= b < |keys|
    ensures rows + Passed(keys, a, b + 1) == rows + Passed(keys, a, b) + {keys[b]}
  {
    assert keys[a..b + 1] == keys[a..b] + [keys[b]];
  }

  lemma PassNone(keys: seq<string>, a: nat, rows: set<string>)
    requires a <= |keys|
    ensures rows + Passed(keys, a, a) == rows
  {
    assert Passed(keys, a, a) == {};
  }

  /** The walk over one partition. */
  method ReadPartition(db: Db, seekStr: string, kp: KeyPredicate, vp: ValPredicate, resources: Results, ghost rows: set<string>)
    returns (ok: bool, res: Results)
    requires Gathered(db.data, kp, vp, rows, resources)
    ensures ok ==> Gathered(db.data, kp, vp, rows + WithPrefix(db.data.Keys, seekStr), res)
    ensures !ok ==> exists s :: BadRow(db.data, kp, WithPrefix(db.data.Keys, seekStr), s)
  {
    hide Parse, Less, Gathered, Passed;
    res := resources;
    var itr := new MockIterator(db, false);
    itr.Seek(seekStr);
    ghost var keys, first := itr.keys, itr.currentIdx;
    PassNone(keys, first, rows);
    while itr.ValidForPrefix(seekStr)
      invariant itr.keys == keys && first <= itr.currentIdx <= |keys|
      invariant forall i :: first <= i < itr.currentIdx ==> seekStr <= keys[i]
      invariant Gathered(db.data, kp, vp, rows + Passed(keys, first, itr.currentIdx), res)
      decreases |keys| - itr.currentIdx
    {
      var s := itr.Key();
      assert s in keys;
      ghost var was := res;
      if KeyPasses(kp, s) {
        if !Readable(s, db.data[s]) {
          assert BadRow(db.data, kp, WithPrefix(db.data.Keys, seekStr), s);
          return false, map[];
        }
        if ValPasses(vp, db.data[s].rec) {
          res := res[Parse(s).value := db.data[s].rec];
        }
      }
      GatherRow(db.data, kp, vp, rows + Passed(keys, first, itr.currentIdx), was, s, res);
      PassOne(keys, first, itr.currentIdx, rows);
      itr.Next();
    }
    WalkIsComplete(keys, db.data.Keys, seekStr, first, itr.currentIdx);
    ok := true;
  }

  /** A forward walk from the prefix that stops at a key without it has met exactly the keys with it. */
  lemma WalkIsComplete(keys: seq<string>, ks: set<string>, prefix: string, first: nat, n: nat)
    requires Lists(keys, ks) && Ascending(keys) && first <= n <= |keys|
    requires forall i :: 0 <= i < first ==> Less(keys[i], prefix)
    requires forall i :: first <= i < |keys| ==> !Less(keys[i], prefix)
    requires forall i :: first <= i < n ==> prefix <= keys[i]
    requires n == |keys| || !(prefix <= keys[n])
    ensures Passed(keys, first, n) == WithPrefix(ks, prefix)
  {
    hide Less;
    forall s | s in ks && prefix <= s
      ensures s in Passed(keys, first, n)
    {
      var i :| 0 <= i < |keys| && keys[i] == s;
      PrefixAtMost(prefix, s);
      if i < first {
        LessAsymmetric(s, prefix);
      } else if n <= i {
        LessTotal(keys[n], prefix);
        PrefixInterval(prefix, prefix, keys[n], s);
      } else {
        assert keys[first..n][i - first] == s;
      }
    }
    forall s | s in Passed(keys, first, n)
      ensures s in WithPrefix(ks, prefix)
    {
      var i :| 0 <= i < n - first && keys[first..n][i] == s;
      assert keys[first + i] == s && s in keys;
    }
  }

  /** The rows under the listed partitions. */
  ghost function RowsOf(ks: set<string>, prefix: Option<WatchKey>, ids: seq<string>): set<string> {
    set s | s in ks && exists j :: 0 <= j < |ids| && SeekString(prefix, ids[j]) <= s
  }

  function ValueOf(k: WatchTableKey?): Option<WatchKey>
    reads k
  {
    if k == null then None else Some(k.Value())
  }

  /** Fails exactly when a row that passes the key predicate cannot be read. Moves the caller's
      prefix from partition to partition. */
  method RangeRead(dur: PartitionDuration, db: Db, keyPrefix: WatchTableKey?, kp: KeyPredicate, vp: ValPredicate,
                   startTime: int, endTime: int)
    returns (r: Option<Results>)
    requires QueryInstant(dur, startTime) && QueryInstant(dur, endTime)
    modifies if keyPrefix == null then {} else {keyPrefix}
    ensures keyPrefix != null ==> keyPrefix.Value() == old(keyPrefix.Value()).(partitionId := keyPrefix.partitionId)
    ensures var rows := RowsOf(db.data.Keys, old(ValueOf(keyPrefix)), RangeIds(dur, startTime, endTime));
            match r
            case Some(res) => Gathered(db.data, kp, vp, rows, res)
            case None => exists s :: BadRow(db.data, kp, rows, s)
  {
    hide Parse, Print, Less, StartsBetween, StartOf, Gathered, IdsOf, QueryInstant;
    ghost var prefix := ValueOf(keyPrefix);
    var resources: Results := map[];
    NothingGathered(db.data, kp, vp);
    var partitionList := GetPartitionsFromTimeRange(dur, startTime, endTime);
    var i := 0;
    assert RowsOf(db.data.Keys, prefix, partitionList[..0]) == {};
    while i < |partitionList|
      invariant i <= |partitionList|
      invariant keyPrefix != null ==> keyPrefix.Value() == prefix.value.(partitionId := keyPrefix.partitionId)
      invariant Gathered(db.data, kp, vp, RowsOf(db.data.Keys, prefix, partitionList[..i]), resources)
    {
      var currentPartition := partitionList[i];
      var seekStr;
      if keyPrefix == null {
        seekStr := TablePath(WATCH) + currentPartition + "/";
      } else {
        keyPrefix.SetPartitionId(currentPartition);
        seekStr := Print(keyPrefix.Value());
      }
      assert seekStr == SeekString(prefix, currentPartition);
      MoreRows(db.data.Keys, prefix, partitionList, i);
      var ok;
      ok, resources := ReadPartition(db, seekStr, kp, vp, resources, RowsOf(db.data.Keys, prefix, partitionList[..i]));
      if !ok {
        ghost var s :| BadRow(db.data, kp, WithPrefix(db.data.Keys, seekStr), s);
        assert BadRow(db.data, kp, RowsOf(db.data.Keys, prefix, partitionList), s);
        return None;
      }
      i := i + 1;
    }
    assert partitionList[..i] == partitionList;
    return Some(resources);
  }

  lemma MoreRows(ks: set<string>, prefix: Option<WatchKey>, ids: seq<string>, i: nat)
    requires i < |ids|
    ensures RowsOf(ks, prefix, ids[..i + 1]) == RowsOf(ks, prefix, ids[..i]) + WithPrefix(ks, SeekString(prefix, ids[i]))
    ensures RowsOf(ks, prefix, ids[..i + 1]) <= RowsOf(ks, prefix, ids)
  {
    hide SeekString;
    var a, b := ids[..i], ids[..i + 1];
    forall s | s in ks
      ensures s in RowsOf(ks, prefix, b) <==> s in RowsOf(ks, prefix, a) || SeekString(prefix, ids[i]) <= s
    {
      if s in RowsOf(ks, prefix, a) {
        var j :| 0 <= j < |a| && SeekString(prefix, a[j]) <= s;
        assert b[j] == a[j];
      }
      if SeekString(prefix, ids[i]) <= s {
        assert b[i] == ids[i];
      }
      if s in RowsOf(ks, prefix, b) {
        var j :| 0 <= j < |b| && SeekString(prefix, b[j]) <= s;
        assert j < i ==> a[j] == b[j];
      }
    }
    forall s | s in RowsOf(ks, prefix, b)
      ensures s in RowsOf(ks, prefix, ids)
    {
      var j :| 0 <= j < |b| && SeekString(prefix, b[j]) <= s;
      assert ids[j] == b[j];
    }
  }

  // ----- on the stores that the writer produces -----

  /** What a prefix selects: everything, or the rows of one kind, namespace and name. */
  predicate Matches(prefix: Option<WatchKey>, k: WatchKey) {
    prefix.Some? ==>
      && prefix.value.kind == k.kind && prefix.value.namespace == k.namespace
      && (if prefix.value.name == "" || prefix.value.name[|prefix.value.name| - 1] == '.'
          then prefix.value.name <= k.name else prefix.value.name == k.name)
  }

  predicate CleanPrefix(prefix: Option<WatchKey>) {
    prefix.Some? ==>
      && SlashFree(prefix.value.kind) && SlashFree(prefix.value.namespace) && SlashFree(prefix.value.name)
      && prefix.value.timestamp.Zero?
  }

  /** A row of the watch table is under a partition's search string exactly when it lies in that partition
      and the prefix selects it. */
  lemma UnderSeekString(dur: PartitionDuration, width: nat, data: Data, prefix: Option<WatchKey>, p: int, s: string)
    requires SoundWatch(dur, width, data) && CleanPrefix(prefix) && 0 <= p < MAX_ID && s in data
    ensures SeekString(prefix, FormatId(p)) <= s
            <==> InTable(WATCH, s) && Matches(prefix, Parse(s).value) && StartOf(dur, TimeOf(s)) == p
  {
    hide Parse, FormatId, FormatInt, Digits;
    var seek := SeekString(prefix, FormatId(p));
    assert TablePath(WATCH) <= seek;
    if InTable(WATCH, s) {
      var k := Parse(s).value;
      CanonicalSlashFree(dur, width, k);
      IdSlashFree(p);
      InstantStart(dur, k.timestamp.n);
      IdOrder(p, StartOf(dur, k.timestamp.n));
      if prefix.Some? {
        ComparatorPrefix(prefix.value.(partitionId := FormatId(p)), k);
      } else {
        var rest := k.kind + "/" + (k.namespace + "/" + (k.name + "/" + FormatInt(k.timestamp.n)));
        FieldPrefix(FormatId(p), "", k.partitionId, rest);
        ConcatCancel(TablePath(WATCH), FormatId(p) + "/" + "", k.partitionId + "/" + rest);
        assert seek == TablePath(WATCH) + (FormatId(p) + "/" + "");
      }
    }
  }

  /** The range read is the filter of the whole store: the rows of the table that the prefix selects,
      whose partition meets the range, and that pass both predicates. */
  ghost predicate IsFilter(dur: PartitionDuration, data: Data, prefix: Option<WatchKey>, kp: KeyPredicate, vp: ValPredicate,
                           startTime: int, endTime: int, res: Results) {
    && (forall k :: k in res ==> Print(k) in data && Parse(Print(k)) == Some(k))
    && forall s :: s in data && InTable(WATCH, s) ==>
         && Parse(s).Some?
         && (Parse(s).value in res <==>
               && Matches(prefix, Parse(s).value)
               && StartOf(dur, startTime) <= StartOf(dur, TimeOf(s)) <= StartOf(dur, endTime)
               && (kp.Some? ==> kp.value(s)) && data[s].Watch? && (vp.Some? ==> vp.value(data[s].rec)))
         && (Parse(s).value in res ==> data[s].Watch? && res[Parse(s).value] == data[s].rec)
  }

  lemma RowsInRange(dur: PartitionDuration, width: nat, data: Data, prefix: Option<WatchKey>, startTime: int, endTime: int, s: string)
    requires SoundWatch(dur, width, data) && CleanPrefix(prefix) && s in data
    requires QueryInstant(dur, startTime) && QueryInstant(dur, endTime)
    ensures s in RowsOf(data.Keys, prefix, RangeIds(dur, startTime, endTime)) <==>
              && InTable(WATCH, s) && Matches(prefix, Parse(s).value)
              && StartOf(dur, startTime) <= StartOf(dur, TimeOf(s)) <= StartOf(dur, endTime)
  {
    hide Parse, FormatId, SeekString, Matches, StartOf, StartsBetween;
    var lo, hi := StartOf(dur, startTime), StartOf(dur, endTime);
    var starts := StartsBetween(dur, lo, hi);
    var ids := IdsOf(starts);
    forall j | 0 <= j < |ids|
      ensures SeekString(prefix, ids[j]) <= s
              <==> InTable(WATCH, s) && Matches(prefix, Parse(s).value) && StartOf(dur, TimeOf(s)) == starts[j]
    {
      StartsBetweenAt(dur, lo, hi, j);
      UnderSeekString(dur, width, data, prefix, starts[j], s);
    }
    StartOfBounds(dur, TimeOf(s));
    StartsBetweenHas(dur, lo, hi, StartOf(dur, TimeOf(s)));
    if StartOf(dur, TimeOf(s)) in starts {
      var j :| 0 <= j < |starts| && starts[j] == StartOf(dur, TimeOf(s));
      assert SeekString(prefix, ids[j]) <= s <==> InTable(WATCH, s) && Matches(prefix, Parse(s).value);
    }
  }

  lemma NoBadRows(dur: PartitionDuration, width: nat, data: Data, prefix: Option<WatchKey>, kp: KeyPredicate,
                  startTime: int, endTime: int, s: string)
    requires SoundWatch(dur, width, data) && CleanPrefix(prefix)
    requires QueryInstant(dur, startTime) && QueryInstant(dur, endTime)
    ensures !BadRow(data, kp, RowsOf(data.Keys, prefix, RangeIds(dur, startTime, endTime)), s)
  {
    hide Parse, Print, StartOf, RangeIds, RowsOf, Canonical, Matches, QueryInstant;
    if s in data {
      RowsInRange(dur, width, data, prefix, startTime, endTime, s);
    }
  }

  lemma GatheredIsFilter(dur: PartitionDuration, width: nat, data: Data, prefix: Option<WatchKey>, kp: KeyPredicate,
                         vp: ValPredicate, startTime: int, endTime: int, res: Results)
    requires SoundWatch(dur, width, data) && CleanPrefix(prefix)
    requires QueryInstant(dur, startTime) && QueryInstant(dur, endTime)
    requires Gathered(data, kp, vp, RowsOf(data.Keys, prefix, RangeIds(dur, startTime, endTime)), res)
    ensures IsFilter(dur, data, prefix, kp, vp, startTime, endTime, res)
  {
    hide Parse, Print, StartOf, RangeIds, RowsOf, Canonical, Matches, QueryInstant;
    var rows := RowsOf(data.Keys, prefix, RangeIds(dur, startTime, endTime));
    forall k | k in res
      ensures Print(k) in data && Parse(Print(k)) == Some(k) && Print(k) in rows
      ensures Selected(data, kp, vp, Print(k)) && res[k] == data[Print(k)].rec
    {
      var o :| o in rows && Selected(data, kp, vp, o) && Parse(o) == Some(k) && res[k] == data[o].rec;
      assert InTable(WATCH, o) by {
        RowsInRange(dur, width, data, prefix, startTime, endTime, o);
      }
    }
    forall s | s in data && InTable(WATCH, s)
      ensures Parse(s).Some? && Print(Parse(s).value) == s
      ensures s in rows <==>
                && Matches(prefix, Parse(s).value)
                && StartOf(dur, startTime) <= StartOf(dur, TimeOf(s)) <= StartOf(dur, endTime)
    {
      RowsInRange(dur, width, data, prefix, startTime, endTime, s);
    }
  }
}
