/** From the channel to the query: what processing leaves in the store of each record, and so what the history of a
    resource shows of the records that came in. */
module ReceivedHistory {
  import opened Decimal
  import opened Wrappers
  import opened Partitions
  import opened WatchKeys
  import opened Tables
  import opened WatchTable
  import opened WatchUpdates
  import opened EventSpread
  import opened EventCounts
  import opened EventRuns
  import opened Ingestion
  import History

  // ----- one record -----

  lemma UpdateUnrelated(a: Data, b: Data, key: string, v: Value, r: Resource)
    requires Unrelated(a, b, r)
    ensures Unrelated(a[key := v], b[key := v], r)
  {
    hide InTable;
    var a', b' := a[key := v], b[key := v];
    forall s
      ensures (IsRecord(a', r, s) <==> IsRecord(b', r, s)) && (IsRecord(a', r, s) ==> a'[s] == b'[s])
    {
      if s != key {
        assert IsRecord(a, r, s) <==> IsRecord(a', r, s);
        assert IsRecord(b, r, s) <==> IsRecord(b', r, s);
      }
    }
  }

  lemma CountingIsUnrelated(cfg: Config, data: Data, inc: Incoming, r: Resource)
    requires Sound(cfg, data)
    ensures Unrelated(data, AfterCounting(cfg, data, inc), r)
  {
    hide InvolvedOf, AfterEvent, SoundWatch, SoundStore, NoNilRecords, IsRecord, Contribution;
    var o := InvolvedOf(cfg, data, inc);
    if o.Some? && o.value.uid != "" {
      CountingKeepsSound(cfg.dur, cfg.width, cfg.nanInt, cfg.extract, data, inc.Of(), inc.rec, o.value);
    }
  }

  /** Whether it is a node's update that only matters if something of interest changed. */
  predicate MayBeMinor(cfg: Config, kind: string) {
    kind == "Node" && !cfg.keepMinorNodeUpdates
  }

  /** Of the records of resources, processing changes the one of the incoming record only: it becomes what the update
      of the watch table makes of it, judged by what was stored before. */
  lemma RecordIsUpdated(cfg: Config, data: Data, inc: Incoming, r: Resource)
    requires Sound(cfg, data) && Delivered(cfg, inc)
    ensures Unrelated(AfterWatch(cfg, data, inc), AfterRecord(cfg, data, inc), r)
  {
    hide Sound, Delivered, AfterCounting, AfterActivity, AfterSummary, IsRecord, AfterWatch, Involved.Clean, Cell;
    var a := AfterCounting(cfg, data, inc);
    CountingIsUnrelated(cfg, data, inc, r);
    CountingIsUnrelated(cfg, data, inc, inc.Of());
    CountingKeepsAll(cfg, data, inc);
    var b := AfterActivity(cfg, a, inc);
    OtherUpdatesElsewhere(cfg, a, inc, r, inc.involved, "");
    OtherUpdatesElsewhere(cfg, a, inc, inc.Of(), inc.involved, "");
    OtherUpdatesKeepSound(cfg, a, inc);
    SameUpdate(cfg, data, b, inc, r);
    var c := AfterWatch(cfg, b, inc);
    WatchKeepsAll(cfg, b, inc);
    OtherUpdatesElsewhere(cfg, c, inc, r, inc.involved, "");
  }

  /** What becomes of a record depends on the records of its resource only. */
  lemma SameUpdate(cfg: Config, a: Data, b: Data, inc: Incoming, r: Resource)
    requires Sound(cfg, a) && Sound(cfg, b) && Unrelated(a, b, inc.Of()) && Unrelated(a, b, r)
    ensures Unrelated(AfterWatch(cfg, a, inc), AfterWatch(cfg, b, inc), r)
  {
    hide SoundWatch, SoundStore, NoNilRecords, IsRecord, LastRecord, Resource.At, Unrelated, StartOf;
    UnrelatedLast(cfg.dur, cfg.width, a, b, inc.Of(), StartOf(cfg.dur, inc.rec.timestamp));
    UpdateUnrelated(a, b, inc.Of().At(cfg.dur, inc.rec.timestamp), Watch(inc.rec), r);
  }

  /** A resource's record leaves a row of activity and one of its summary in the partition of its time, if there was
      one or it is written; what was stored before decides. */
  lemma OwnRowsAreWritten(cfg: Config, data: Data, inc: Incoming)
    requires Sound(cfg, data) && Delivered(cfg, inc) && inc.rec.kind != EVENT_KIND
    ensures var after := AfterRecord(cfg, data, inc);
            && (ActivityKey(cfg.dur, inc) in after <==> ActivityKey(cfg.dur, inc) in data || WritesActivity(cfg, data, inc))
            && (SummaryKey(cfg.dur, inc) in after <==> SummaryKey(cfg.dur, inc) in data || WritesSummary(cfg, data, inc))
  {
    hide Sound, Delivered, ActivityKey, SummaryKey, LastRecord, AfterCounting, Resource.At, Verdict, WritesActivity;
    OthersAreNotCounted(cfg, data, inc);
    OwnKeysDiffer(cfg, inc);
  }

  lemma OwnKeysDiffer(cfg: Config, inc: Incoming)
    requires Delivered(cfg, inc)
    ensures var key := inc.Of().At(cfg.dur, inc.rec.timestamp);
            ActivityKey(cfg.dur, inc) != SummaryKey(cfg.dur, inc) && ActivityKey(cfg.dur, inc) != key && SummaryKey(cfg.dur, inc) != key
  {
    hide ActivityKey, SummaryKey, StartOf, Identifiable, CleanInstant, CleanResource, Dated, Resource.At, Split, Join, GetPartitionId;
    OwnKeyParts(cfg, inc);
    AtIsRecord(cfg.dur, cfg.width, inc.Of(), inc.rec.timestamp);
    WatchParts(inc.Of().At(cfg.dur, inc.rec.timestamp));
    assert Split(ActivityKey(cfg.dur, inc))[1] != Split(SummaryKey(cfg.dur, inc))[1];
  }

  lemma WatchParts(s: string)
    requires Parse(s).Some?
    ensures |Split(s)| == 7 && Split(s)[1] == WATCH
  {
    hide Split;
  }

  // ----- all records -----

  /** Of the records received of a resource up to time `t`, the latest; of several of that time, the one that came
      last. */
  function LatestReceived(received: seq<Incoming>, r: Resource, t: int): Option<KubeWatchResult> {
    if received == [] then None
    else
      var last := |received| - 1;
      var before := LatestReceived(received[..last], r, t);
      var rec := received[last].rec;
      if received[last].Of() == r && rec.timestamp <= t && (before.None? || before.value.timestamp <= rec.timestamp) then Some(rec) else before
  }

  /** The store holds the record as the latest of the resource up to time `t`, or no record up to then. */
  ghost predicate HoldsRecord(data: Data, r: Resource, t: int, latest: Option<KubeWatchResult>) {
    match latest
    case None => HasNoPrevious(data, r, t + 1)
    case Some(rec) => exists s :: IsPrevious(data, r, t + 1, s) && data[s] == Watch(rec)
  }

  lemma UnrelatedHolds(a: Data, b: Data, r: Resource, t: int, latest: Option<KubeWatchResult>)
    requires Unrelated(a, b, r) && HoldsRecord(a, r, t, latest)
    ensures HoldsRecord(b, r, t, latest)
  {
    hide InTable, Parse;
    if latest.Some? {
      var s :| IsPrevious(a, r, t + 1, s) && a[s] == Watch(latest.value);
      assert IsPrevious(b, r, t + 1, s);
    }
  }

  lemma StoringHolds(cfg: Config, data: Data, r: Resource, t: int, before: Option<KubeWatchResult>, rec: KubeWatchResult)
    requires SoundWatch(cfg.dur, cfg.width, data) && r.Clean() && CleanInstant(cfg.width, rec.timestamp) && HoldsRecord(data, r, t, before)
    ensures HoldsRecord(data[r.At(cfg.dur, rec.timestamp) := Watch(rec)], r, t,
                  if rec.timestamp <= t && (before.None? || before.value.timestamp <= rec.timestamp) then Some(rec) else before)
  {
    hide InTable, Parse, StartOf, CleanResource, CleanInstant, SoundWatch, Resource.At;
    var key := r.At(cfg.dur, rec.timestamp);
    var data' := data[key := Watch(rec)];
    SameRecords(cfg.dur, cfg.width, data, r, rec);
    if before.Some? {
      var s :| IsPrevious(data, r, t + 1, s) && data[s] == Watch(before.value);
      TimeOfRecord(cfg, data, r, s);
      if rec.timestamp <= t && before.value.timestamp <= rec.timestamp {
        assert IsPrevious(data', r, t + 1, key);
      } else {
        assert IsPrevious(data', r, t + 1, s) && data'[s] == data[s];
      }
    } else if rec.timestamp <= t {
      assert IsPrevious(data', r, t + 1, key);
    }
  }

  lemma TimeOfRecord(cfg: Config, data: Data, r: Resource, s: string)
    requires SoundWatch(cfg.dur, cfg.width, data) && IsRecord(data, r, s)
    ensures data[s].Watch? && data[s].rec.timestamp == TimeOf(s)
  {
    hide SoundWatch;
    RecordShape(cfg.dur, cfg.width, data, r, s);
  }

  lemma OtherResourceHolds(cfg: Config, data: Data, inc: Incoming, r: Resource, t: int, latest: Option<KubeWatchResult>)
    requires Sound(cfg, data) && Delivered(cfg, inc) && inc.Of() != r && HoldsRecord(data, r, t, latest)
    ensures HoldsRecord(AfterRecord(cfg, data, inc), r, t, latest)
  {
    hide Sound, Delivered, AfterCounting, AfterActivity, AfterWatch, AfterSummary, IsRecord, HoldsRecord, Cell;
    var a := AfterCounting(cfg, data, inc);
    CountingIsUnrelated(cfg, data, inc, r);
    CountingKeepsAll(cfg, data, inc);
    var b := AfterActivity(cfg, a, inc);
    OtherUpdatesElsewhere(cfg, a, inc, r, inc.involved, "");
    OtherUpdatesKeepSound(cfg, a, inc);
    var c := AfterWatch(cfg, b, inc);
    WatchElsewhere(cfg, b, inc, r, inc.involved, "");
    WatchKeepsAll(cfg, b, inc);
    OtherUpdatesElsewhere(cfg, c, inc, r, inc.involved, "");
    UnrelatedHolds(data, AfterRecord(cfg, data, inc), r, t, latest);
  }

  /** Whatever comes out of the channel, in whatever order: of a resource, the store holds at each instant the latest
      record received up to that time. Minor updates of nodes are dropped, unless all are kept. */
  lemma {:induction false} StoreHoldsLatest(cfg: Config, data: Data, received: seq<Incoming>, r: Resource, t: int)
    requires Sound(cfg, data) && (forall i :: 0 <= i < |received| ==> Delivered(cfg, received[i])) && !MayBeMinor(cfg, r.kind)
    requires forall s :: !IsRecord(data, r, s)
    ensures HoldsRecord(AfterRecords(cfg, data, received), r, t, LatestReceived(received, r, t))
  {
    hide Sound, Delivered, AfterRecord, IsRecord, HoldsRecord;
    if received == [] {
      NothingHeld(data, r, t);
    } else {
      var front, inc := received[..|received| - 1], received[|received| - 1];
      var before := AfterRecords(cfg, data, front);
      StoreHoldsLatest(cfg, data, front, r, t);
      RecordsKeepSound(cfg, data, front);
      if inc.Of() == r {
        OwnRecordHolds(cfg, before, inc, t, LatestReceived(front, r, t));
      } else {
        OtherResourceHolds(cfg, before, inc, r, t, LatestReceived(front, r, t));
      }
    }
  }

  lemma NothingHeld(data: Data, r: Resource, t: int)
    requires forall s :: !IsRecord(data, r, s)
    ensures HoldsRecord(data, r, t, None)
  {
  }

  lemma OwnRecordHolds(cfg: Config, data: Data, inc: Incoming, t: int, before: Option<KubeWatchResult>)
    requires Sound(cfg, data) && Delivered(cfg, inc) && !MayBeMinor(cfg, inc.rec.kind) && HoldsRecord(data, inc.Of(), t, before)
    ensures HoldsRecord(AfterRecord(cfg, data, inc), inc.Of(), t,
                  if inc.rec.timestamp <= t && (before.None? || before.value.timestamp <= inc.rec.timestamp) then Some(inc.rec) else before)
  {
    hide AfterRecord, IsRecord, HoldsRecord, SoundWatch, SoundStore, NoNilRecords, CleanInstant, CleanResource, Identifiable, Dated, Resource.At;
    hide LastRecord;
    var latest := if inc.rec.timestamp <= t && (before.None? || before.value.timestamp <= inc.rec.timestamp) then Some(inc.rec) else before;
    StoringHolds(cfg, data, inc.Of(), t, before, inc.rec);
    RecordIsUpdated(cfg, data, inc, inc.Of());
    UnrelatedHolds(AfterWatch(cfg, data, inc), AfterRecord(cfg, data, inc), inc.Of(), t, latest);
  }

  /** So the history that a query shows of a resource is that of the records received: at each instant the payload of
      the latest one up to then, and "" before the first. */
  lemma HistoryIsWhatCameIn(cfg: Config, received: seq<Incoming>, r: Resource, t: int, shown: string)
    requires (forall i :: 0 <= i < |received| ==> Delivered(cfg, received[i])) && !MayBeMinor(cfg, r.kind)
    ensures History.InForce(AfterRecords(cfg, map[], received), r, t, shown) <==>
              shown == match LatestReceived(received, r, t) case Some(rec) => rec.payload case None => ""
  {
    hide Delivered, IsPrevious, HasNoPrevious, AfterRecords, SoundWatch, NoNilRecords;
    var data := AfterRecords(cfg, map[], received);
    NoTablesSound(cfg.dur);
    EmptyIsSound(cfg);
    RecordsKeepSound(cfg, map[], received);
    StoreHoldsLatest(cfg, map[], received, r, t);
    var latest := match LatestReceived(received, r, t) case Some(rec) => rec.payload case None => "";
    assert History.InForce(data, r, t, latest);
    if History.InForce(data, r, t, shown) {
      History.InForceUnique(cfg.dur, cfg.width, data, r, t, shown, latest);
    }
  }

  // ----- nodes whose minor updates are dropped -----

  /** The records of the resource are not newer than `n`, and can be cleaned. */
  ghost predicate Cleanable(cfg: Config, data: Data, r: Resource, n: int) {
    forall s :: IsRecord(data, r, s) ==> TimeOf(s) <= n && data[s].Watch? && cfg.clean(data[s].rec.payload).Some?
  }

  /** As `HoldsRecord`, but the stored record need only agree with the received one after cleaning. */
  ghost predicate HoldsCleaned(cfg: Config, data: Data, r: Resource, t: int, latest: Option<KubeWatchResult>) {
    match latest
    case None => HasNoPrevious(data, r, t + 1)
    case Some(rec) =>
      exists s :: IsPrevious(data, r, t + 1, s) && data[s].Watch? && cfg.clean(data[s].rec.payload) == cfg.clean(rec.payload)
  }

  lemma UnrelatedHoldsCleaned(cfg: Config, a: Data, b: Data, r: Resource, t: int, latest: Option<KubeWatchResult>, n: int)
    requires Unrelated(a, b, r)
    ensures HoldsCleaned(cfg, a, r, t, latest) ==> HoldsCleaned(cfg, b, r, t, latest)
    ensures Cleanable(cfg, a, r, n) ==> Cleanable(cfg, b, r, n)
  {
    hide InTable, Parse;
    if latest.Some? && HoldsCleaned(cfg, a, r, t, latest) {
      var s :| IsPrevious(a, r, t + 1, s) && a[s].Watch? && cfg.clean(a[s].rec.payload) == cfg.clean(latest.value.payload);
      assert IsPrevious(b, r, t + 1, s);
    }
  }

  /** The last record of the partition in which a record arrives is the latest of all, if none is newer. */
  lemma LastIsLatest(cfg: Config, data: Data, r: Resource, rec: KubeWatchResult, t: int) returns (s: string)
    requires LastRecord(cfg.dur, data, r, StartOf(cfg.dur, rec.timestamp)).Some? && rec.timestamp <= t
    requires Cleanable(cfg, data, r, rec.timestamp) && rec.timestamp <= MAX_INT64
    ensures IsPrevious(data, r, t + 1, s) && data[s] == Watch(LastRecord(cfg.dur, data, r, StartOf(cfg.dur, rec.timestamp)).value)
  {
    hide InTable, Parse, StartOf;
    s := LastIn(cfg.dur, data, r, StartOf(cfg.dur, rec.timestamp)).value;
    forall o | IsRecord(data, r, o)
      ensures TimeOf(o) <= TimeOf(s)
    {
      StartOfMonotone(cfg.dur, TimeOf(o), rec.timestamp);
      if TimeOf(s) <= TimeOf(o) {
        StartOfMonotone(cfg.dur, TimeOf(s), TimeOf(o));
      }
    }
  }

  lemma UpdateHoldsCleaned(cfg: Config, data: Data, r: Resource, t: int, before: Option<KubeWatchResult>, rec: KubeWatchResult)
    requires SoundWatch(cfg.dur, cfg.width, data) && r.Clean() && CleanInstant(cfg.width, rec.timestamp)
    requires HoldsCleaned(cfg, data, r, t, before) && Cleanable(cfg, data, r, rec.timestamp) && cfg.clean(rec.payload).Some?
    ensures HoldsCleaned(cfg, Updated(cfg.dur, cfg.clean, data, r, rec, cfg.keepMinorNodeUpdates), r, t,
                         if rec.timestamp <= t then Some(rec) else before)
    ensures Cleanable(cfg, Updated(cfg.dur, cfg.clean, data, r, rec, cfg.keepMinorNodeUpdates), r, rec.timestamp)
  {
    hide InTable, Parse, StartOf, CleanResource, CleanInstant, SoundWatch, Resource.At, LastRecord;
    var key := r.At(cfg.dur, rec.timestamp);
    var data' := data[key := Watch(rec)];
    SameRecords(cfg.dur, cfg.width, data, r, rec);
    CleanInstantIsNat(cfg.width, rec.timestamp);
    LastIsRecord(cfg, data, r, rec.timestamp);
    if Verdict(cfg.dur, cfg.clean, data, r, rec, cfg.keepMinorNodeUpdates).Stored? {
      if rec.timestamp <= t {
        assert IsPrevious(data', r, t + 1, key);
      } else if before.Some? {
        var s :| IsPrevious(data, r, t + 1, s) && data[s].Watch? && cfg.clean(data[s].rec.payload) == cfg.clean(before.value.payload);
        assert IsPrevious(data', r, t + 1, s) && data'[s] == data[s];
      }
    } else if rec.timestamp <= t {
      var s := LastIsLatest(cfg, data, r, rec, t);
    }
  }

  lemma LastIsRecord(cfg: Config, data: Data, r: Resource, n: int)
    requires Cleanable(cfg, data, r, n)
    ensures var last := LastRecord(cfg.dur, data, r, StartOf(cfg.dur, n)); last.Some? ==> cfg.clean(last.value.payload).Some?
  {
    hide InTable, Parse, StartOf;
  }

  /** The records of the resource come in time order, and can be cleaned. */
  ghost predicate InOrder(cfg: Config, received: seq<Incoming>, r: Resource) {
    && (forall i :: 0 <= i < |received| && received[i].Of() == r ==> cfg.clean(received[i].rec.payload).Some?)
    && forall i, j :: 0 <= i < j < |received| && received[i].Of() == r && received[j].Of() == r ==>
         received[i].rec.timestamp <= received[j].rec.timestamp
  }

  lemma {:induction false} LatestIsReceived(received: seq<Incoming>, r: Resource, t: int, n: int)
    requires forall i :: 0 <= i < |received| && received[i].Of() == r ==> received[i].rec.timestamp <= n
    ensures LatestReceived(received, r, t).Some? ==> LatestReceived(received, r, t).value.timestamp <= n
  {
    if received != [] {
      LatestIsReceived(received[..|received| - 1], r, t, n);
    }
  }

  /** Of a node whose minor updates are dropped, whatever else comes out of the channel and however many partitions its
      records are spread over, the store holds at each instant what the latest record received says after cleaning. */
  lemma {:induction false} StoreHoldsCleaned(cfg: Config, data: Data, received: seq<Incoming>, r: Resource, t: int, n: int)
    requires Sound(cfg, data) && (forall i :: 0 <= i < |received| ==> Delivered(cfg, received[i])) && InOrder(cfg, received, r)
    requires (forall s :: !IsRecord(data, r, s)) && forall i :: 0 <= i < |received| && received[i].Of() == r ==> received[i].rec.timestamp <= n
    ensures HoldsCleaned(cfg, AfterRecords(cfg, data, received), r, t, LatestReceived(received, r, t))
    ensures Cleanable(cfg, AfterRecords(cfg, data, received), r, n)
  {
    hide Sound, Delivered, AfterRecord, IsRecord, HoldsCleaned, Cleanable;
    if received == [] {
      NothingHeldCleaned(cfg, data, r, t, n);
    } else {
      var front, inc := received[..|received| - 1], received[|received| - 1];
      var before := AfterRecords(cfg, data, front);
      var m := if inc.Of() == r then inc.rec.timestamp else n;
      StoreHoldsCleaned(cfg, data, front, r, t, m);
      LatestIsReceived(front, r, t, m);
      RecordsKeepSound(cfg, data, front);
      RecordIsUpdated(cfg, before, inc, r);
      NextHoldsCleaned(cfg, before, inc, r, t, LatestReceived(front, r, t), n);
    }
  }

  lemma NothingHeldCleaned(cfg: Config, data: Data, r: Resource, t: int, n: int)
    requires forall s :: !IsRecord(data, r, s)
    ensures HoldsCleaned(cfg, data, r, t, None) && Cleanable(cfg, data, r, n)
  {
  }

  lemma NextHoldsCleaned(cfg: Config, data: Data, inc: Incoming, r: Resource, t: int, before: Option<KubeWatchResult>, n: int)
    requires Sound(cfg, data) && Delivered(cfg, inc) && HoldsCleaned(cfg, data, r, t, before)
    requires Cleanable(cfg, data, r, if inc.Of() == r then inc.rec.timestamp else n)
    requires inc.Of() == r ==> inc.rec.timestamp <= n && cfg.clean(inc.rec.payload).Some?
    requires Unrelated(AfterWatch(cfg, data, inc), AfterRecord(cfg, data, inc), r)
    ensures HoldsCleaned(cfg, AfterRecord(cfg, data, inc), r, t, if inc.Of() == r && inc.rec.timestamp <= t then Some(inc.rec) else before)
    ensures Cleanable(cfg, AfterRecord(cfg, data, inc), r, n)
  {
    hide AfterRecord, IsRecord, HoldsCleaned, SoundWatch, SoundStore, NoNilRecords, CleanInstant, CleanResource, Identifiable, Dated;
    hide Updated, Alike, Unrelated, Cleanable;
    var now := if inc.Of() == r && inc.rec.timestamp <= t then Some(inc.rec) else before;
    var updated := AfterWatch(cfg, data, inc);
    if inc.Of() == r {
      UpdateHoldsCleaned(cfg, data, r, t, before, inc.rec);
      NotNewer(cfg, updated, r, inc.rec.timestamp, n);
    } else {
      WatchElsewhere(cfg, data, inc, r, inc.involved, "");
      AlikeIsUnrelated(cfg, data, updated, r, inc.involved);
      UnrelatedHoldsCleaned(cfg, data, updated, r, t, before, n);
    }
    UnrelatedHoldsCleaned(cfg, updated, AfterRecord(cfg, data, inc), r, t, now, n);
  }

  lemma AlikeIsUnrelated(cfg: Config, a: Data, b: Data, r: Resource, o: Involved)
    requires Alike(cfg, a, b, r, o, "")
    ensures Unrelated(a, b, r)
  {
  }

  lemma NotNewer(cfg: Config, data: Data, r: Resource, m: int, n: int)
    requires Cleanable(cfg, data, r, m) && m <= n
    ensures Cleanable(cfg, data, r, n)
  {
  }

  /** So the history of a node whose minor updates are dropped is, after cleaning, that of the records received. */
  lemma NodeHistoryIsWhatCameIn(cfg: Config, received: seq<Incoming>, r: Resource, t: int, shown: string)
    requires (forall i :: 0 <= i < |received| ==> Delivered(cfg, received[i])) && InOrder(cfg, received, r)
    requires History.InForce(AfterRecords(cfg, map[], received), r, t, shown)
    ensures match LatestReceived(received, r, t) case Some(rec) => cfg.clean(shown) == cfg.clean(rec.payload) case None => shown == ""
  {
    hide Delivered, HasNoPrevious, AfterRecords, SoundWatch, NoNilRecords, Cleanable, InOrder, InTable, Parse, Resource.Of;
    var data := AfterRecords(cfg, map[], received);
    var n := LastTime(received);
    EmptyIsSound(cfg);
    RecordsKeepSound(cfg, map[], received);
    StoreHoldsCleaned(cfg, map[], received, r, t, n);
    var latest := LatestReceived(received, r, t);
    if latest.Some? {
      var s :| IsPrevious(data, r, t + 1, s) && data[s].Watch? && cfg.clean(data[s].rec.payload) == cfg.clean(latest.value.payload);
      History.InForceUnique(cfg.dur, cfg.width, data, r, t, shown, data[s].rec.payload);
    } else {
      History.InForceUnique(cfg.dur, cfg.width, data, r, t, shown, "");
    }
  }

  function LastTime(received: seq<Incoming>): (n: int)
    ensures forall i :: 0 <= i < |received| ==> received[i].rec.timestamp <= n
  {
    if received == [] then 0
    else
      var n := LastTime(received[..|received| - 1]);
      assert forall i :: 0 <= i < |received| - 1 ==> received[i].rec.timestamp == received[..|received| - 1][i].rec.timestamp;
      Later(n, received[|received| - 1].rec.timestamp)
  }

  lemma EmptyIsSound(cfg: Config)
    ensures Sound(cfg, map[])
  {
    NoTablesSound(cfg.dur);
  }
}
