/** Writing watch records: the last record of a resource in its partition, and the updates of a node
    that are dropped because nothing of interest changed. */
module WatchUpdates {
  import opened ByteStrings
  import opened Decimal
  import opened Wrappers
  import opened Partitions
  import opened Store
  import opened WatchKeys
  import opened Tables
  import opened WatchTable
  import History

  const NODE_KIND: string := "Node"

  /** The payload without resource version and heartbeat times, or None if it is not JSON. */
  type Normaliser = string -> Option<string>

  // ----- getLastWatchKey and getLastKubeWatchResult -----

  method GetLastWatchKey(db: Db, keyPrefix: WatchKey) returns (found: bool, key: string)
    ensures var g := GreatestBelow(db.data.Keys, Print(keyPrefix) + SENTINEL);
            if g.Some? && Print(keyPrefix) <= g.value then found && key == g.value else !found
  {
    hide Print, Less;
    var keyPrefixStr := Print(keyPrefix);
    var itr := new MockIterator(db, true);
    itr.Seek(keyPrefixStr + SENTINEL);
    GreatestBelowAt(itr.keys, db.data.Keys, keyPrefixStr + SENTINEL, itr.currentIdx);
    if itr.ValidForPrefix(keyPrefixStr) {
      return true, itr.Key();
    }
    return false, "";
  }

  /** The newest record of the resource in the partition up to `m`, if it has one there. */
  ghost function NewestIn(dur: PartitionDuration, data: Data, r: Resource, p: int, m: int): (newest: Option<string>)
    ensures newest.Some? ==> IsNewestIn(dur, data, r, p, m, newest.value)
    ensures newest.None? ==> forall s :: !IsNewestIn(dur, data, r, p, m, s)
  {
    if s :| IsNewestIn(dur, data, r, p, m, s) then Some(s) else None
  }

  ghost function LastIn(dur: PartitionDuration, data: Data, r: Resource, p: int): Option<string> {
    NewestIn(dur, data, r, p, MAX_INT64)
  }

  lemma NewestInUnique(dur: PartitionDuration, width: nat, data: Data, r: Resource, p: int, m: int, s: string)
    requires SoundWatch(dur, width, data) && IsNewestIn(dur, data, r, p, m, s)
    ensures NewestIn(dur, data, r, p, m) == Some(s)
  {
    hide Parse, InTable, SoundWatchRow, StartOf;
    var o := NewestIn(dur, data, r, p, m);
    RecordOrder(dur, width, data, r, s, o.value);
  }

  /** All timestamps start with a digit, so they come before the sentinel. */
  lemma LastIsGreatest(dur: PartitionDuration, width: nat, data: Data, r: Resource, p: int)
    requires SoundWatch(dur, width, data) && r.Clean() && 0 <= p < MAX_ID
    ensures var c := Print(r.Key(FormatId(p), Zero));
            var g := GreatestBelow(data.Keys, c + SENTINEL);
            LastIn(dur, data, r, p) == if g.Some? && c <= g.value then g else None
  {
    hide Parse, Print, FormatId, Less, StartOf, SoundWatch, InTable;
    var c := Print(r.Key(FormatId(p), Zero));
    forall s | IsRecord(data, r, s) && StartOf(dur, TimeOf(s)) == p
      ensures Less(s, c + SENTINEL) && TimeOf(s) <= MAX_INT64
    {
      RecordBelowSentinel(dur, width, data, r, p, s);
    }
    GreatestIsNewest(dur, width, data, r, p, MAX_INT64, c + SENTINEL);
    var g := GreatestBelow(data.Keys, c + SENTINEL);
    if g.Some? && c <= g.value {
      NewestInUnique(dur, width, data, r, p, MAX_INT64, g.value);
    }
  }

  lemma RecordBelowSentinel(dur: PartitionDuration, width: nat, data: Data, r: Resource, p: int, s: string)
    requires SoundWatch(dur, width, data) && IsRecord(data, r, s) && StartOf(dur, TimeOf(s)) == p
    ensures Less(s, Print(r.Key(FormatId(p), Zero)) + SENTINEL) && TimeOf(s) <= MAX_INT64
  {
    hide Parse, FormatId, Less, Digits, Print;
    RecordShape(dur, width, data, r, s);
    var k, c := r.Key(FormatId(p), Nanos(TimeOf(s))), r.Key(FormatId(p), Zero);
    ComparatorIsStem(r, p, TimeOf(s));
    StemTail(k);
    assert IsDigit(Digits(TimeOf(s))[0]);
    FirstByteDecides(Digits(TimeOf(s)), SENTINEL);
    LessCancel(Stem(k), Digits(TimeOf(s)), SENTINEL);
  }

  method GetLastKubeWatchResult(dur: PartitionDuration, ghost width: nat, db: Db, ts: int, r: Resource)
    returns (last: Option<KubeWatchResult>)
    requires SoundWatch(dur, width, db.data) && r.Clean() && 0 <= ts <= MAX_INT64
    ensures last == LastRecord(dur, db.data, r, StartOf(dur, ts))
  {
    hide Parse, Print, FormatId, Less, StartOf, SoundWatch, SoundWatchRow;
    InstantStart(dur, ts);
    LastIsGreatest(dur, width, db.data, r, StartOf(dur, ts));
    var prevFound, prevKey := GetLastWatchKey(db, r.Key(GetPartitionId(dur, ts), Zero));
    if !prevFound {
      return None;
    }
    StoredIsWatch(dur, width, db.data, r, prevKey);
    return Some(db.data[prevKey].rec);
  }

  ghost function LastRecord(dur: PartitionDuration, data: Data, r: Resource, p: int): Option<KubeWatchResult> {
    var s := LastIn(dur, data, r, p);
    if s.Some? && data[s.value].Watch? then Some(data[s.value].rec) else None
  }

  lemma StoredIsWatch(dur: PartitionDuration, width: nat, data: Data, r: Resource, s: string)
    requires SoundWatch(dur, width, data) && IsRecord(data, r, s)
    ensures data[s].Watch?
  {
  }

  // ----- updateKubeWatchTable -----

  function NodeHasMajorUpdate(clean: Normaliser, node1: string, node2: string): Option<bool> {
    if clean(node1).None? || clean(node2).None? then None else Some(clean(node1).value != clean(node2).value)
  }

  /** What becomes of an update: stored, dropped, or failed. */
  datatype Outcome = Stored | Dropped | Failed

  ghost function Verdict(dur: PartitionDuration, clean: Normaliser, data: Data, r: Resource, rec: KubeWatchResult, keepMinorNodeUpdates: bool): Outcome {
    if rec.kind != NODE_KIND || keepMinorNodeUpdates then Stored
    else
      match LastRecord(dur, data, r, StartOf(dur, rec.timestamp))
      case None => Stored
      case Some(prev) =>
        match NodeHasMajorUpdate(clean, prev.payload, rec.payload)
        case None => Failed
        case Some(diff) => if diff then Stored else Dropped
  }

  ghost function Updated(dur: PartitionDuration, clean: Normaliser, data: Data, r: Resource, rec: KubeWatchResult, keepMinorNodeUpdates: bool): Data {
    if Verdict(dur, clean, data, r, rec, keepMinorNodeUpdates).Stored?
    then data[r.At(dur, rec.timestamp) := Watch(rec)] else data
  }

  method UpdateKubeWatchTable(dur: PartitionDuration, ghost width: nat, clean: Normaliser, db: Db, rec: KubeWatchResult,
                              namespace: string, name: string, keepMinorNodeUpdates: bool)
    returns (ok: bool)
    requires SoundWatch(dur, width, db.data)
    requires Resource(rec.kind, namespace, name).Clean() && CleanInstant(width, rec.timestamp)
    modifies db
    ensures db.data == Updated(dur, clean, old(db.data), Resource(rec.kind, namespace, name), rec, keepMinorNodeUpdates)
    ensures ok <==> !Verdict(dur, clean, old(db.data), Resource(rec.kind, namespace, name), rec, keepMinorNodeUpdates).Failed?
    ensures var r := Resource(rec.kind, namespace, name);
            var last := LastRecord(dur, old(db.data), r, StartOf(dur, rec.timestamp));
            var compared := rec.kind == "Node" && !keepMinorNodeUpdates && last.Some?;
            && (ok <==> compared ==> clean(last.value.payload).Some? && clean(rec.payload).Some?)
            && db.data == if ok && (compared ==> clean(last.value.payload) != clean(rec.payload))
                          then old(db.data)[r.At(dur, rec.timestamp) := Watch(rec)] else old(db.data)
    ensures SoundWatch(dur, width, db.data)
    ensures SoundTables(dur, old(db.data.Keys)) ==> SoundTables(dur, db.data.Keys)
  {
    hide Parse, Print, FormatId, Less, StartOf, SoundWatchRow, CleanResource, InTable, Digits, SoundTables;
    var r := Resource(rec.kind, namespace, name);
    UpdateKeepsSound(dur, width, db.data, r, rec);
    UpdateKeepsTables(dur, width, db.data, r, rec);
    if rec.kind == NODE_KIND && !keepMinorNodeUpdates {
      var prevValue := GetLastKubeWatchResult(dur, width, db, rec.timestamp, r);
      if prevValue.Some? {
        var diff := NodeHasMajorUpdate(clean, prevValue.value.payload, rec.payload);
        if diff.None? {
          return false;
        }
        if !diff.value {
          return true;
        }
      }
    }
    var key := r.Key(GetPartitionId(dur, rec.timestamp), Nanos(rec.timestamp));
    db.Set(Print(key), Watch(rec));
    return true;
  }

  lemma UpdateKeepsSound(dur: PartitionDuration, width: nat, data: Data, r: Resource, rec: KubeWatchResult)
    requires SoundWatch(dur, width, data) && r.Clean() && CleanInstant(width, rec.timestamp)
    ensures SoundWatch(dur, width, data[r.At(dur, rec.timestamp) := Watch(rec)])
  {
    hide Parse, Print, GetPartitionId, Digits, CleanResource;
    AtIsRecord(dur, width, r, rec.timestamp);
  }

  lemma UpdateKeepsTables(dur: PartitionDuration, width: nat, data: Data, r: Resource, rec: KubeWatchResult)
    requires r.Clean() && CleanInstant(width, rec.timestamp)
    ensures InStore(r.At(dur, rec.timestamp))
    ensures SoundTables(dur, data.Keys) ==> SoundTables(dur, data[r.At(dur, rec.timestamp) := Watch(rec)].Keys)
  {
    hide Parse, Print, GetPartitionId, Digits, CleanResource, SoundTables, SoundRow, IsTable, InTable, InStore;
    var key := r.At(dur, rec.timestamp);
    AtIsRecord(dur, width, r, rec.timestamp);
    SoundRowOfKey(dur, width, key, r.Key(GetPartitionId(dur, rec.timestamp), Nanos(rec.timestamp)));
    WatchIsTable();
    NoTablesSound(dur);
    RowKeepsTables(dur, {}, WATCH, key);
    if SoundTables(dur, data.Keys) {
      RowKeepsTables(dur, data.Keys, WATCH, key);
      assert data[key := Watch(rec)].Keys == data.Keys + {key};
    }
  }

  lemma WatchIsTable()
    ensures IsTable(WATCH)
  {
    assert WATCH == TABLE_NAMES[0];
  }

  lemma NoTablesSound(dur: PartitionDuration)
    ensures SoundTables(dur, {})
  {
  }

  // ----- GetUidForWatchEntry -----

  /** The uid of the newest record of a resource before `now`, None if there is no record. `uidOf` reads the
      uid from the metadata of a payload, and is empty if they do not extract. */
  ghost function UidBefore(data: Data, r: Resource, now: int, uidOf: string -> string): Option<string> {
    if s :| IsPrevious(data, r, now, s) && data[s].Watch? then Some(uidOf(data[s].rec.payload)) else None
  }

  lemma UidIsRead(data: Data, r: Resource, now: int, uidOf: string -> string)
    ensures var uid := UidBefore(data, r, now, uidOf);
            uid.Some? ==> exists payload :: uid.value == uidOf(payload)
  {
    hide InTable, Parse;
    var uid := UidBefore(data, r, now, uidOf);
    if uid.Some? {
      var s :| IsPrevious(data, r, now, s) && data[s].Watch? && uid == Some(uidOf(data[s].rec.payload));
    }
  }

  method GetUidForWatchEntry(dur: PartitionDuration, ghost width: nat, db: Db, kind: string, namespace: string, name: string,
                             now: int, uidOf: string -> string)
    returns (uid: Option<string>)
    requires SoundWatch(dur, width, db.data) && Resource(kind, namespace, name).Clean() && CleanInstant(width, now)
    ensures uid == UidBefore(db.data, Resource(kind, namespace, name), now, uidOf)
  {
    hide Parse, Print, FormatId, Less, StartOf, SoundWatch, SoundWatchRow, IsPrevious, HasNoPrevious, CleanInstant, CleanResource;
    var r := Resource(kind, namespace, name);
    var watchKeyComparator := new WatchTableKey("", kind, namespace, name, Zero);
    var seekKey := History.GetSeekKey(dur, watchKeyComparator, now);
    var previousKey := GetPreviousKey(dur, width, db, seekKey, watchKeyComparator, r, now);
    if previousKey.None? {
      NoneBefore(db.data, r, now);
      return None;
    }
    var previous := Print(previousKey.value);
    History.PreviousIsStored(dur, width, db.data, r, now, previous);
    OneBefore(dur, width, db.data, r, now, previous);
    return Some(uidOf(db.data[previous].rec.payload));
  }

  lemma NoneBefore(data: Data, r: Resource, now: int)
    requires HasNoPrevious(data, r, now)
    ensures forall s :: !IsPrevious(data, r, now, s)
  {
  }

  lemma OneBefore(dur: PartitionDuration, width: nat, data: Data, r: Resource, now: int, s: string)
    requires SoundWatch(dur, width, data) && IsPrevious(data, r, now, s)
    ensures forall o :: IsPrevious(data, r, now, o) ==> o == s
  {
    hide Parse, InTable, SoundWatchRow;
    forall o | IsPrevious(data, r, now, o) ensures o == s {
      RecordOrder(dur, width, data, r, o, s);
    }
  }

  // ----- runs of node updates -----

  /** The cleaned payload of the node at instant `t`, as its records in the partition show it. */
  ghost function CleanAt(dur: PartitionDuration, clean: Normaliser, data: Data, r: Resource, p: int, t: int): Option<string> {
    var s := NewestIn(dur, data, r, p, t);
    if s.Some? && data[s.value].Watch? then clean(data[s.value].rec.payload) else None
  }

  /** No record of the resource in the partition is newer than `n`. */
  ghost predicate NoneAfter(dur: PartitionDuration, data: Data, r: Resource, p: int, n: int) {
    forall s :: IsRecord(data, r, s) && StartOf(dur, TimeOf(s)) == p ==> TimeOf(s) <= n
  }

  /** Storing a record that nothing is newer than changes what is in force from its time on, only. */
  lemma StoreAtEnd(dur: PartitionDuration, width: nat, clean: Normaliser, data: Data, r: Resource, rec: KubeWatchResult, p: int, t: int)
    requires SoundWatch(dur, width, data) && r.Clean() && CleanInstant(width, rec.timestamp)
    requires StartOf(dur, rec.timestamp) == p && NoneAfter(dur, data, r, p, rec.timestamp)
    ensures var data' := data[r.At(dur, rec.timestamp) := Watch(rec)];
            CleanAt(dur, clean, data', r, p, t)
              == if rec.timestamp <= t then clean(rec.payload) else CleanAt(dur, clean, data, r, p, t)
  {
    hide Parse, Print, StartOf, InTable, SoundWatchRow, CleanResource, CleanInstant, FormatId;
    var n := rec.timestamp;
    var key := r.At(dur, n);
    var data' := data[key := Watch(rec)];
    UpdateKeepsSound(dur, width, data, r, rec);
    AtIsRecord(dur, width, r, n);
    SameRecords(dur, width, data, r, rec);
    if n <= t {
      NewestInUnique(dur, width, data', r, p, t, key);
    } else {
      var s := NewestIn(dur, data, r, p, t);
      if s.Some? {
        NewestInUnique(dur, width, data', r, p, t, s.value);
      } else {
        forall o ensures !IsNewestIn(dur, data', r, p, t, o) {
          assert !IsNewestIn(dur, data, r, p, t, o);
        }
      }
    }
  }

  lemma SameRecords(dur: PartitionDuration, width: nat, data: Data, r: Resource, rec: KubeWatchResult)
    requires SoundWatch(dur, width, data) && r.Clean() && CleanInstant(width, rec.timestamp)
    ensures var data' := data[r.At(dur, rec.timestamp) := Watch(rec)];
            && IsRecord(data', r, r.At(dur, rec.timestamp)) && TimeOf(r.At(dur, rec.timestamp)) == rec.timestamp
            && forall s :: s != r.At(dur, rec.timestamp) ==> (IsRecord(data, r, s) <==> IsRecord(data', r, s))
    ensures forall s :: IsRecord(data, r, s) && TimeOf(s) == rec.timestamp ==> s == r.At(dur, rec.timestamp)
  {
    hide Parse, Print, StartOf, InTable, SoundWatchRow, CleanResource, CleanInstant, FormatId, SoundWatch;
    AtIsRecord(dur, width, r, rec.timestamp);
    forall s | IsRecord(data, r, s)
      ensures s == r.At(dur, TimeOf(s))
    {
      RecordShape(dur, width, data, r, s);
    }
  }

  /** The store after a run of updates of one resource. */
  ghost function AfterRun(dur: PartitionDuration, clean: Normaliser, data: Data, r: Resource, recs: seq<KubeWatchResult>, keepMinorNodeUpdates: bool): Data {
    if recs == [] then data
    else
      var before := AfterRun(dur, clean, data, r, recs[..|recs| - 1], keepMinorNodeUpdates);
      Updated(dur, clean, before, r, recs[|recs| - 1], keepMinorNodeUpdates)
  }

  /** Updates of one resource inside one partition, in time order, none older than what is stored. */
  ghost predicate IsRun(dur: PartitionDuration, width: nat, clean: Normaliser, data: Data, r: Resource, p: int, recs: seq<KubeWatchResult>) {
    && SoundWatch(dur, width, data) && r.Clean() && AllClean(dur, clean, data, r, p)
    && (forall i :: 0 <= i < |recs| ==>
          && recs[i].kind == r.kind && CleanInstant(width, recs[i].timestamp) && StartOf(dur, recs[i].timestamp) == p
          && clean(recs[i].payload).Some?
          && NoneAfter(dur, data, r, p, recs[i].timestamp))
    && (forall i, j :: 0 <= i < j < |recs| ==> recs[i].timestamp <= recs[j].timestamp)
  }

  /** The stored payloads of the resource can be cleaned. */
  ghost predicate AllClean(dur: PartitionDuration, clean: Normaliser, data: Data, r: Resource, p: int) {
    forall s :: IsRecord(data, r, s) && StartOf(dur, TimeOf(s)) == p ==> data[s].Watch? && clean(data[s].rec.payload).Some?
  }

  /** What a run leaves behind: a sound store, nothing newer than the last update. */
  ghost predicate RunInvariant(dur: PartitionDuration, width: nat, clean: Normaliser, data: Data, r: Resource, p: int) {
    SoundWatch(dur, width, data) && AllClean(dur, clean, data, r, p)
  }

  lemma UpdateKeepsInvariant(dur: PartitionDuration, width: nat, clean: Normaliser, data: Data, r: Resource, p: int,
                             rec: KubeWatchResult, keep: bool, n: int)
    requires RunInvariant(dur, width, clean, data, r, p) && r.Clean() && CleanInstant(width, rec.timestamp)
    requires clean(rec.payload).Some?
    ensures RunInvariant(dur, width, clean, Updated(dur, clean, data, r, rec, keep), r, p)
    ensures NoneAfter(dur, data, r, p, n) && rec.timestamp <= n ==> NoneAfter(dur, Updated(dur, clean, data, r, rec, keep), r, p, n)
  {
    hide Parse, Print, StartOf, InTable, SoundWatchRow, CleanResource, CleanInstant, FormatId, SoundWatch, Verdict;
    UpdateKeepsSound(dur, width, data, r, rec);
    SameRecords(dur, width, data, r, rec);
  }

  lemma {:induction false} RunKeepsInvariant(dur: PartitionDuration, width: nat, clean: Normaliser, data: Data, r: Resource,
                                             p: int, recs: seq<KubeWatchResult>, keep: bool, n: int)
    requires IsRun(dur, width, clean, data, r, p, recs)
    requires NoneAfter(dur, data, r, p, n) && forall i :: 0 <= i < |recs| ==> recs[i].timestamp <= n
    ensures RunInvariant(dur, width, clean, AfterRun(dur, clean, data, r, recs, keep), r, p)
    ensures NoneAfter(dur, AfterRun(dur, clean, data, r, recs, keep), r, p, n)
  {
    hide CleanInstant, SoundWatch, AllClean, NoneAfter, Updated, StartOf, CleanResource;
    if recs != [] {
      var front := recs[..|recs| - 1];
      RunKeepsInvariant(dur, width, clean, data, r, p, front, keep, n);
      UpdateKeepsInvariant(dur, width, clean, AfterRun(dur, clean, data, r, front, keep), r, p, recs[|recs| - 1], keep, n);
    }
  }

  /** A dropped update would not have changed what is in force. */
  lemma DroppedChangesNothing(dur: PartitionDuration, width: nat, clean: Normaliser, data: Data, r: Resource, p: int,
                              rec: KubeWatchResult, t: int)
    requires RunInvariant(dur, width, clean, data, r, p) && r.Clean() && CleanInstant(width, rec.timestamp)
    requires StartOf(dur, rec.timestamp) == p && NoneAfter(dur, data, r, p, rec.timestamp) && rec.timestamp <= t
    requires Verdict(dur, clean, data, r, rec, false).Dropped?
    ensures CleanAt(dur, clean, data, r, p, t) == clean(rec.payload)
  {
    hide Parse, Print, InTable, SoundWatchRow, CleanResource, StartOf;
    var s := LastIn(dur, data, r, p).value;
    assert IsNewestIn(dur, data, r, p, t, s) by {
      assert TimeOf(s) <= rec.timestamp;
    }
    NewestInUnique(dur, width, data, r, p, t, s);
  }

  lemma VerdictNeverFails(dur: PartitionDuration, width: nat, clean: Normaliser, data: Data, r: Resource, p: int,
                          rec: KubeWatchResult, keep: bool)
    requires RunInvariant(dur, width, clean, data, r, p) && clean(rec.payload).Some? && StartOf(dur, rec.timestamp) == p
    ensures !Verdict(dur, clean, data, r, rec, keep).Failed?
    ensures keep ==> Verdict(dur, clean, data, r, rec, keep).Stored?
  {
    hide Parse, Print, InTable, SoundWatchRow, StartOf;
  }

  /** Node dedupe preserves meaning: over any run, dropping minor updates and storing every update
      leave the same cleaned payload in force at every instant. */
  lemma {:induction false} DedupePreservesMeaning(dur: PartitionDuration, width: nat, clean: Normaliser, data: Data, r: Resource,
                                                  p: int, recs: seq<KubeWatchResult>, t: int)
    requires IsRun(dur, width, clean, data, r, p, recs)
    ensures CleanAt(dur, clean, AfterRun(dur, clean, data, r, recs, false), r, p, t)
         == CleanAt(dur, clean, AfterRun(dur, clean, data, r, recs, true), r, p, t)
  {
    hide CleanInstant, SoundWatch, AllClean, NoneAfter, StartOf, CleanResource, CleanAt, Verdict;
    if recs != [] {
      var front, rec := recs[..|recs| - 1], recs[|recs| - 1];
      var a, b := AfterRun(dur, clean, data, r, front, false), AfterRun(dur, clean, data, r, front, true);
      DedupePreservesMeaning(dur, width, clean, data, r, p, front, t);
      RunKeepsInvariant(dur, width, clean, data, r, p, front, false, rec.timestamp);
      RunKeepsInvariant(dur, width, clean, data, r, p, front, true, rec.timestamp);
      StoreAtEnd(dur, width, clean, a, r, rec, p, t);
      StoreAtEnd(dur, width, clean, b, r, rec, p, t);
      VerdictNeverFails(dur, width, clean, a, r, p, rec, false);
      VerdictNeverFails(dur, width, clean, b, r, p, rec, true);
      if Verdict(dur, clean, a, r, rec, false).Dropped? && rec.timestamp <= t {
        DroppedChangesNothing(dur, width, clean, a, r, p, rec, t);
      }
    }
  }

  /** `s` and `o` are neighbours among the node's records in the partition. */
  ghost predicate Neighbours(dur: PartitionDuration, data: Data, r: Resource, p: int, s: string, o: string) {
    && IsRecord(data, r, s) && StartOf(dur, TimeOf(s)) == p
    && IsRecord(data, r, o) && StartOf(dur, TimeOf(o)) == p
    && TimeOf(s) < TimeOf(o)
    && forall m :: IsRecord(data, r, m) && StartOf(dur, TimeOf(m)) == p ==> !(TimeOf(s) < TimeOf(m) < TimeOf(o))
  }

  ghost predicate NeighboursDiffer(dur: PartitionDuration, clean: Normaliser, data: Data, r: Resource, p: int) {
    forall s, o :: Neighbours(dur, data, r, p, s, o) ==>
      data[s].Watch? && data[o].Watch? && clean(data[s].rec.payload) != clean(data[o].rec.payload)
  }

  lemma UpdateKeepsNeighbours(dur: PartitionDuration, width: nat, clean: Normaliser, data: Data, r: Resource, p: int, rec: KubeWatchResult)
    requires RunInvariant(dur, width, clean, data, r, p) && r.Clean() && CleanInstant(width, rec.timestamp)
    requires rec.kind == NODE_KIND && StartOf(dur, rec.timestamp) == p && clean(rec.payload).Some?
    requires NoneAfter(dur, data, r, p, rec.timestamp - 1) && NeighboursDiffer(dur, clean, data, r, p)
    ensures NeighboursDiffer(dur, clean, Updated(dur, clean, data, r, rec, false), r, p)
  {
    hide Parse, Print, InTable, SoundWatch, SoundWatchRow, CleanResource, CleanInstant, StartOf, FormatId;
    var key := r.At(dur, rec.timestamp);
    var data' := Updated(dur, clean, data, r, rec, false);
    SameRecords(dur, width, data, r, rec);
    forall s, o | Neighbours(dur, data', r, p, s, o)
      ensures data'[s].Watch? && data'[o].Watch? && clean(data'[s].rec.payload) != clean(data'[o].rec.payload)
    {
      if data' == data || (s != key && o != key) {
        assert Neighbours(dur, data, r, p, s, o);
      } else if o == key {
        BeforeIsLast(dur, width, data, r, p, rec, s);
      }
    }
  }

  /** The neighbour before a record added at the end is what the dedupe compared with. */
  lemma BeforeIsLast(dur: PartitionDuration, width: nat, data: Data, r: Resource, p: int, rec: KubeWatchResult, s: string)
    requires SoundWatch(dur, width, data) && r.Clean() && CleanInstant(width, rec.timestamp)
    requires NoneAfter(dur, data, r, p, rec.timestamp - 1)
    requires Neighbours(dur, data[r.At(dur, rec.timestamp) := Watch(rec)], r, p, s, r.At(dur, rec.timestamp))
    ensures LastIn(dur, data, r, p) == Some(s) && data[s].Watch?
  {
    hide Parse, Print, InTable, SoundWatchRow, CleanResource, StartOf, FormatId, SoundWatch;
    var data' := data[r.At(dur, rec.timestamp) := Watch(rec)];
    SameRecords(dur, width, data, r, rec);
    forall m | IsRecord(data, r, m) && StartOf(dur, TimeOf(m)) == p
      ensures TimeOf(m) <= TimeOf(s)
    {
      assert IsRecord(data', r, m);
    }
    assert IsNewestIn(dur, data, r, p, MAX_INT64, s);
    NewestInUnique(dur, width, data, r, p, MAX_INT64, s);
    StoredIsWatch(dur, width, data, r, s);
  }

  /** Over a run of node updates at different times, no two neighbouring records agree after cleaning. */
  lemma {:induction false} DedupeLeavesNoRepeats(dur: PartitionDuration, width: nat, clean: Normaliser, data: Data, r: Resource,
                                                 p: int, recs: seq<KubeWatchResult>)
    requires IsRun(dur, width, clean, data, r, p, recs) && r.kind == NODE_KIND && NeighboursDiffer(dur, clean, data, r, p)
    requires forall i, j :: 0 <= i < j < |recs| ==> recs[i].timestamp < recs[j].timestamp
    requires recs != [] ==> NoneAfter(dur, data, r, p, recs[0].timestamp - 1)
    ensures NeighboursDiffer(dur, clean, AfterRun(dur, clean, data, r, recs, false), r, p)
  {
    hide CleanInstant, SoundWatch, AllClean, StartOf, CleanResource, NeighboursDiffer, Updated, Parse, InTable;
    if recs != [] {
      var front, rec := recs[..|recs| - 1], recs[|recs| - 1];
      DedupeLeavesNoRepeats(dur, width, clean, data, r, p, front);
      RunKeepsInvariant(dur, width, clean, data, r, p, front, false, rec.timestamp - 1);
      UpdateKeepsNeighbours(dur, width, clean, AfterRun(dur, clean, data, r, front, false), r, p, rec);
    }
  }
}
