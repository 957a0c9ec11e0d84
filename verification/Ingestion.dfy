/** The loop that processes incoming records, and what it keeps of the store: every store that processing
    and cleanup can reach from the empty one is sound. */
module Ingestion {
  import opened ByteStrings
  import opened Decimal
  import opened Wrappers
  import opened Partitions
  import opened WatchKeys
  import opened Tables
  import opened WatchTable
  import opened WatchUpdates
  import opened EventSpread
  import opened EventCounts
  import opened EventRuns
  import opened PartitionCounts
  import opened GarbageCollection
  import opened Cleanup
  import History

  const ACTIVITY_TABLE: string := "watchactivity"
  const SUMMARY_TABLE: string := "ressum"

  /** What `ExtractMetadata` reads from a payload, as far as it matters here; the creation time may not parse. */
  datatype Metadata = Metadata(uid: string, resourceVersion: string, created: Option<int>)

  /** A record from the channel, with what its payload extracts to, and the time at which it is processed. */
  datatype Incoming = Incoming(rec: KubeWatchResult, namespace: string, name: string, metadata: Metadata, involved: Involved, now: int) {
    function Of(): Resource {
      Resource(rec.kind, namespace, name)
    }
  }

  datatype Config = Config(dur: PartitionDuration, width: nat, nanInt: int, keepMinorNodeUpdates: bool,
                           extract: Extractor, clean: Normaliser, meta: string -> Option<Metadata>) {
    /** Errors are ignored here, so that the uid is empty. */
    function UidOf(): string -> string {
      payload => if meta(payload).Some? then meta(payload).value.uid else ""
    }
  }

  /** Records as Kubernetes delivers them. Only events are about an object; the payloads of others extract to
      one without any parts. */
  ghost predicate Delivered(cfg: Config, inc: Incoming) {
    && inc.Of().Clean() && CleanInstant(cfg.width, inc.rec.timestamp) && SlashFree(inc.metadata.uid)
    && (inc.rec.kind == EVENT_KIND ==>
          && inc.involved.SlashFreeParts() && Identifiable(cfg.width, inc.involved, inc.now, cfg.UidOf())
          && (cfg.extract(inc.rec.payload).Some? ==> Dated(cfg.extract(inc.rec.payload).value)))
  }

  /** An ordinary record. */
  lemma PodIsDelivered(cfg: Config, payload: string, uid: string, timestamp: int, now: int)
    requires CleanInstant(cfg.width, timestamp) && SlashFree(uid)
    ensures Delivered(cfg, Incoming(KubeWatchResult(timestamp, "Pod", payload), "default", "web", Metadata(uid, "1", None),
                                    Involved("", "", "", ""), now))
  {
    hide CleanInstant;
    PodIsClean();
  }

  lemma PodIsClean()
    ensures Resource("Pod", "default", "web").Clean() && CleanInstant(1, 0)
  {
  }

  /** What every write keeps: rows in the four tables, in partitions; records of the watch table under the key
      of their timestamp; event records without missing parts. */
  ghost predicate Sound(cfg: Config, data: Data) {
    SoundWatch(cfg.dur, cfg.width, data) && SoundStore(cfg.dur, data.Keys) && NoNilRecords(data)
  }

  // ----- watch activity and resource summaries -----

  function ActivityKey(dur: PartitionDuration, inc: Incoming): string {
    TablePath(ACTIVITY_TABLE) + Fields(GetPartitionId(dur, inc.rec.timestamp), inc.rec.kind, inc.namespace, inc.name, inc.metadata.uid)
  }

  /** Only needed with a uid; a key without one does not parse and is not written. */
  function SummaryKey(dur: PartitionDuration, inc: Incoming): string {
    TablePath(SUMMARY_TABLE) + Fields(GetPartitionId(dur, inc.rec.timestamp), inc.rec.kind, inc.namespace, inc.name, inc.metadata.uid)
  }

  /** Not written for events, nor when the metadata of the last record do not extract. */
  ghost predicate WritesActivity(cfg: Config, data: Data, inc: Incoming) {
    var prev := LastRecord(cfg.dur, data, inc.Of(), StartOf(cfg.dur, inc.rec.timestamp));
    inc.rec.kind != EVENT_KIND && (prev.Some? ==> cfg.meta(prev.value.payload).Some?)
  }

  method UpdateWatchActivityTable(cfg: Config, db: Db, inc: Incoming) returns (ok: bool)
    requires Sound(cfg, db.data) && Delivered(cfg, inc)
    modifies db
    ensures db.data == AfterActivity(cfg, old(db.data), inc)
    ensures ok <==> inc.rec.kind == EVENT_KIND || WritesActivity(cfg, old(db.data), inc)
  {
    hide SoundWatch, SoundStore, NoNilRecords, StartOf, CleanResource, LastRecord, ActivityKey;
    if inc.rec.kind == EVENT_KIND {
      return true;
    }
    var prevWatch := GetLastKubeWatchResult(cfg.dur, cfg.width, db, inc.rec.timestamp, inc.Of());
    if prevWatch.Some? && cfg.meta(prevWatch.value.payload).None? {
      return false;
    }
    db.Set(ActivityKey(cfg.dur, inc), Other);
    return true;
  }

  ghost function AfterActivity(cfg: Config, data: Data, inc: Incoming): Data {
    if WritesActivity(cfg, data, inc) then data[ActivityKey(cfg.dur, inc) := Other] else data
  }

  /** Not written for events or without a uid; a new summary needs a creation time. */
  predicate WritesSummary(cfg: Config, data: Data, inc: Incoming) {
    inc.rec.kind != EVENT_KIND && inc.metadata.uid != "" && (SummaryKey(cfg.dur, inc) in data || inc.metadata.created.Some?)
  }

  method UpdateResourceSummaryTable(cfg: Config, db: Db, inc: Incoming) returns (ok: bool)
    modifies db
    ensures db.data == AfterSummary(cfg, old(db.data), inc)
    ensures ok <==> inc.rec.kind == EVENT_KIND || WritesSummary(cfg, old(db.data), inc)
  {
    hide SummaryKey;
    if inc.rec.kind == EVENT_KIND {
      return true;
    }
    if inc.metadata.uid == "" {
      return false;
    }
    if SummaryKey(cfg.dur, inc) !in db.data && inc.metadata.created.None? {
      return false;
    }
    db.Set(SummaryKey(cfg.dur, inc), Other);
    return true;
  }

  ghost function AfterSummary(cfg: Config, data: Data, inc: Incoming): Data {
    if WritesSummary(cfg, data, inc) then data[SummaryKey(cfg.dur, inc) := Other] else data
  }

  /** Both tables have one row for each partition, object and uid. */
  lemma OwnKeysOfOne(cfg: Config, a: Incoming, b: Incoming)
    requires Delivered(cfg, a) && Delivered(cfg, b)
    ensures var same := StartOf(cfg.dur, a.rec.timestamp) == StartOf(cfg.dur, b.rec.timestamp) && a.Of() == b.Of() && a.metadata.uid == b.metadata.uid;
            && (SummaryKey(cfg.dur, a) == SummaryKey(cfg.dur, b) <==> same)
            && (ActivityKey(cfg.dur, a) == ActivityKey(cfg.dur, b) <==> same)
  {
    hide FormatId, Split, StartOf, Identifiable, Dated, SummaryKey, ActivityKey, CleanInstant;
    OwnKeyParts(cfg, a);
    OwnKeyParts(cfg, b);
    CleanInstantStart(cfg.dur, cfg.width, a.rec.timestamp);
    CleanInstantStart(cfg.dur, cfg.width, b.rec.timestamp);
    IdOrder(StartOf(cfg.dur, a.rec.timestamp), StartOf(cfg.dur, b.rec.timestamp));
    SameParts(cfg, a, b);
  }

  /** The seven parts of the keys of the two tables. */
  function Parts(cfg: Config, table: string, inc: Incoming): seq<string> {
    ["", table, GetPartitionId(cfg.dur, inc.rec.timestamp), inc.rec.kind, inc.namespace, inc.name, inc.metadata.uid]
  }

  lemma OwnKeyParts(cfg: Config, inc: Incoming)
    requires Delivered(cfg, inc)
    ensures Split(SummaryKey(cfg.dur, inc)) == Parts(cfg, SUMMARY_TABLE, inc) && Join(Parts(cfg, SUMMARY_TABLE, inc)) == SummaryKey(cfg.dur, inc)
    ensures Split(ActivityKey(cfg.dur, inc)) == Parts(cfg, ACTIVITY_TABLE, inc) && Join(Parts(cfg, ACTIVITY_TABLE, inc)) == ActivityKey(cfg.dur, inc)
  {
    hide FormatId, Split, Join, StartOf, Identifiable, Dated;
    OwnTables();
    TableSlashFree(SUMMARY_TABLE);
    TableSlashFree(ACTIVITY_TABLE);
    IdIsSlashFree(cfg.dur, inc.rec.timestamp);
    SplitSix(SUMMARY_TABLE, GetPartitionId(cfg.dur, inc.rec.timestamp), inc.rec.kind, inc.namespace, inc.name, inc.metadata.uid);
    SplitSix(ACTIVITY_TABLE, GetPartitionId(cfg.dur, inc.rec.timestamp), inc.rec.kind, inc.namespace, inc.name, inc.metadata.uid);
  }

  lemma SameParts(cfg: Config, a: Incoming, b: Incoming)
    ensures forall table :: Parts(cfg, table, a) == Parts(cfg, table, b) <==>
              GetPartitionId(cfg.dur, a.rec.timestamp) == GetPartitionId(cfg.dur, b.rec.timestamp) && a.Of() == b.Of() && a.metadata.uid == b.metadata.uid
  {
    hide GetPartitionId;
    forall table
      ensures Parts(cfg, table, a) == Parts(cfg, table, b) <==>
                GetPartitionId(cfg.dur, a.rec.timestamp) == GetPartitionId(cfg.dur, b.rec.timestamp) && a.Of() == b.Of() && a.metadata.uid == b.metadata.uid
    {
      var p, q := Parts(cfg, table, a), Parts(cfg, table, b);
      assert p == q ==> p[2] == q[2] && p[3] == q[3] && p[4] == q[4] && p[5] == q[5] && p[6] == q[6];
    }
  }

  /** A missing uid is the one in the metadata of the object's newest record before the time of processing, or empty
      if these do not extract. */
  lemma UidComesFromMetadata(cfg: Config, data: Data, inc: Incoming, s: string)
    requires SoundWatch(cfg.dur, cfg.width, data) && inc.involved.uid == ""
    requires IsPrevious(data, Resource(inc.involved.kind, inc.involved.namespace, inc.involved.name), inc.now, s)
    ensures data[s].Watch? && InvolvedOf(cfg, data, inc)
         == Some(inc.involved.(uid := match cfg.meta(data[s].rec.payload) case Some(m) => m.uid case None => ""))
  {
    hide SoundWatchRow, IsPrevious;
    var r := Resource(inc.involved.kind, inc.involved.namespace, inc.involved.name);
    OneBefore(cfg.dur, cfg.width, data, r, inc.now, s);
    History.PreviousIsStored(cfg.dur, cfg.width, data, r, inc.now, s);
  }

  // ----- what each update keeps -----

  lemma KeySound(dur: PartitionDuration, table: string, t: int, kind: string, namespace: string, name: string, uid: string)
    requires IsTable(table) && table != WATCH && 0 <= t && StartOf(dur, t) + dur.Seconds() < MAX_ID
    requires SlashFree(kind) && SlashFree(namespace) && SlashFree(name) && SlashFree(uid)
    ensures SoundRow(dur, table, TablePath(table) + Fields(GetPartitionId(dur, t), kind, namespace, name, uid))
  {
    hide FormatId, Split, StartOf, SlashFree, Fields, IsTable;
    TableSlashFree(table);
    IdIsSlashFree(dur, t);
    SplitSix(table, GetPartitionId(dur, t), kind, namespace, name, uid);
    StartOfBounds(dur, t);
    IdFaithful(StartOf(dur, t));
  }

  /** A row of one of the other two tables disturbs nothing. */
  lemma OtherRowKeepsSound(cfg: Config, data: Data, inc: Incoming, table: string, key: string)
    requires Sound(cfg, data) && IsTable(table) && table != WATCH && table != EVENT_TABLE && SoundRow(cfg.dur, table, key)
    ensures Sound(cfg, data[key := Other])
    ensures !InTable(WATCH, key) && !InTable(EVENT_TABLE, key)
  {
    hide SoundRow, InTable, IsTable, SoundWatchRow, HasNoNil, InStore, SoundTables;
    RowUnderId(cfg.dur, table, key);
    WatchIsTable();
    EventTableIsTable();
    if InTable(WATCH, key) {
      OneTable(WATCH, table, key);
    }
    if InTable(EVENT_TABLE, key) {
      OneTable(EVENT_TABLE, table, key);
    }
    RowKeepsTables(cfg.dur, data.Keys, table, key);
    assert data[key := Other].Keys == data.Keys + {key};
  }

  lemma OwnTables()
    ensures IsTable(ACTIVITY_TABLE) && IsTable(SUMMARY_TABLE)
  {
    assert ACTIVITY_TABLE == TABLE_NAMES[3] && SUMMARY_TABLE == TABLE_NAMES[1];
  }

  lemma OwnKeysSound(cfg: Config, inc: Incoming)
    requires Delivered(cfg, inc)
    ensures SoundRow(cfg.dur, ACTIVITY_TABLE, ActivityKey(cfg.dur, inc))
    ensures SoundRow(cfg.dur, SUMMARY_TABLE, SummaryKey(cfg.dur, inc))
  {
    hide SoundRow, IsTable, StartOf, FormatId;
    OwnTables();
    CleanInstantStart(cfg.dur, cfg.width, inc.rec.timestamp);
    KeySound(cfg.dur, ACTIVITY_TABLE, inc.rec.timestamp, inc.rec.kind, inc.namespace, inc.name, inc.metadata.uid);
    KeySound(cfg.dur, SUMMARY_TABLE, inc.rec.timestamp, inc.rec.kind, inc.namespace, inc.name, inc.metadata.uid);
  }

  lemma OtherUpdatesKeepSound(cfg: Config, data: Data, inc: Incoming)
    requires Sound(cfg, data) && Delivered(cfg, inc)
    ensures Sound(cfg, AfterActivity(cfg, data, inc)) && Sound(cfg, AfterSummary(cfg, data, inc))
  {
    hide Sound, SoundRow, IsTable, ActivityKey, SummaryKey, Delivered, WritesActivity;
    OwnTables();
    OwnKeysSound(cfg, inc);
    OtherRowKeepsSound(cfg, data, inc, ACTIVITY_TABLE, ActivityKey(cfg.dur, inc));
    OtherRowKeepsSound(cfg, data, inc, SUMMARY_TABLE, SummaryKey(cfg.dur, inc));
  }

  /** The object of an event, with its uid. */
  ghost function InvolvedOf(cfg: Config, data: Data, inc: Incoming): Option<Involved> {
    Identified(data, inc.involved, inc.now, cfg.UidOf())
  }

  ghost function AfterCounting(cfg: Config, data: Data, inc: Incoming): Data {
    AfterUpdate(cfg.dur, cfg.nanInt, cfg.extract, data, inc.Of(), inc.rec, InvolvedOf(cfg, data, inc))
  }

  lemma InvolvedIsClean(cfg: Config, data: Data, inc: Incoming)
    requires Delivered(cfg, inc) && inc.rec.kind == EVENT_KIND
    ensures var o := InvolvedOf(cfg, data, inc); o.Some? && o.value.uid != "" ==> o.value.Clean()
  {
    hide CleanInstant, CleanResource, Dated, UidBefore;
    var o := InvolvedOf(cfg, data, inc);
    if o.Some? && o.value.uid != "" {
      UidIsRead(data, Resource(inc.involved.kind, inc.involved.namespace, inc.involved.name), inc.now, cfg.UidOf());
      PartsSlashFree(cfg.width, inc.involved, inc.now, cfg.UidOf(), o.value);
    }
  }

  /** Records of other kinds are not counted. */
  lemma OthersAreNotCounted(cfg: Config, data: Data, inc: Incoming)
    requires inc.rec.kind != EVENT_KIND
    ensures AfterCounting(cfg, data, inc) == data
  {
    hide Contribution, AfterEvent, Identified;
    NothingCounted(cfg.dur, cfg.nanInt, cfg.extract, data, inc.Of(), inc.rec);
  }

  lemma CountingKeepsAll(cfg: Config, data: Data, inc: Incoming)
    requires Sound(cfg, data) && Delivered(cfg, inc)
    ensures Sound(cfg, AfterCounting(cfg, data, inc))
  {
    hide InvolvedOf, AfterEvent, SoundWatch, SoundTables, NoNilRecords, InStore, CleanInstant, CleanResource, Dated, Identifiable;
    hide Involved.SlashFreeParts;
    var o := InvolvedOf(cfg, data, inc);
    if inc.rec.kind != EVENT_KIND {
      OthersAreNotCounted(cfg, data, inc);
    } else if o.Some? && o.value.uid != "" {
      InvolvedIsClean(cfg, data, inc);
      CountingKeepsSound(cfg.dur, cfg.width, cfg.nanInt, cfg.extract, data, inc.Of(), inc.rec, o.value);
      CountingKeepsTables(cfg.dur, cfg.nanInt, cfg.extract, data, inc.Of(), inc.rec, o.value);
      CountingKeepsNoNil(cfg.dur, cfg.nanInt, cfg.extract, data, inc.Of(), inc.rec, o.value);
    }
  }

  lemma CountingKeepsNoNil(dur: PartitionDuration, nanInt: int, extract: Extractor, data: Data, r: Resource, rec: KubeWatchResult, o: Involved)
    requires NoNilRecords(data)
    ensures NoNilRecords(AfterEvent(dur, nanInt, extract, data, r, rec, o))
  {
    hide Contribution, NoNilRecords, AfterStoring;
    var c := Contribution(dur, nanInt, extract, data, r, rec);
    if c.Some? {
      ContributionExtracts(dur, nanInt, extract, data, r, rec);
      var info := extract(rec.payload).value;
      StoringKeepsNoNil(dur, data, o, ReasonKey(info.reason, info.severity), SpreadMap(c.value));
    }
  }

  ghost function AfterWatch(cfg: Config, data: Data, inc: Incoming): Data {
    Updated(cfg.dur, cfg.clean, data, inc.Of(), inc.rec, cfg.keepMinorNodeUpdates)
  }

  lemma WatchKeepsAll(cfg: Config, data: Data, inc: Incoming)
    requires Sound(cfg, data) && Delivered(cfg, inc)
    ensures Sound(cfg, AfterWatch(cfg, data, inc))
  {
    hide Verdict, SoundWatch, SoundTables, NoNilRecords, InStore, CleanInstant, CleanResource, Dated, Identifiable, Resource.At;
    UpdateKeepsSound(cfg.dur, cfg.width, data, inc.Of(), inc.rec);
    UpdateKeepsTables(cfg.dur, cfg.width, data, inc.Of(), inc.rec);
    StoringWatchKeepsNoNil(cfg.dur, data, inc.Of(), inc.rec);
  }

  // ----- one turn of the loop -----

  /** Each step works on what the one before it left, whether that succeeded or not. */
  ghost function AfterRecord(cfg: Config, data: Data, inc: Incoming): Data {
    AfterSummary(cfg, AfterWatch(cfg, AfterActivity(cfg, AfterCounting(cfg, data, inc), inc), inc), inc)
  }

  method ProcessRecord(cfg: Config, db: Db, inc: Incoming)
    requires Sound(cfg, db.data) && Delivered(cfg, inc)
    modifies db
    ensures db.data == AfterRecord(cfg, old(db.data), inc) && Sound(cfg, db.data)
  {
    hide AfterSummary, AfterActivity, AfterUpdate, Updated, SoundWatch, SoundTables, NoNilRecords, InStore, Identified, Succeeds;
    ghost var data := db.data;
    CountingKeepsAll(cfg, db.data, inc);
    var counted := UpdateEventCountTable(cfg.dur, cfg.width, cfg.nanInt, cfg.extract, cfg.UidOf(), inc.now, db, inc.rec,
                                         inc.namespace, inc.name, inc.involved);
    OtherUpdatesKeepSound(cfg, db.data, inc);
    var active := UpdateWatchActivityTable(cfg, db, inc);
    WatchKeepsAll(cfg, db.data, inc);
    var stored := UpdateKubeWatchTable(cfg.dur, cfg.width, cfg.clean, db, inc.rec, inc.namespace, inc.name, cfg.keepMinorNodeUpdates);
    OtherUpdatesKeepSound(cfg, db.data, inc);
    var summarised := UpdateResourceSummaryTable(cfg, db, inc);
  }

  /** For an event this is counting and then storing it; without a uid it is only stored. */
  lemma EventIsProcessed(cfg: Config, data: Data, inc: Incoming)
    requires inc.rec.kind == EVENT_KIND
    ensures var o := InvolvedOf(cfg, data, inc);
            AfterRecord(cfg, data, inc)
            == if o.Some? && o.value.uid != ""
               then AfterProcessing(cfg.dur, cfg.nanInt, cfg.extract, data, inc.Of(), inc.rec, o.value)
               else data[inc.Of().At(cfg.dur, inc.rec.timestamp) := Watch(inc.rec)]
  {
    hide AfterEvent, Resource.At, LastRecord, InvolvedOf;
  }

  // ----- what a record does not touch -----

  /** Two stores hold the same records of a resource, and the same counts of an object for a reason. */
  ghost predicate Alike(cfg: Config, a: Data, b: Data, r: Resource, o: Involved, rk: string) {
    Unrelated(a, b, r) && forall m :: Cell(cfg.dur, a, o, rk, m) == Cell(cfg.dur, b, o, rk, m)
  }

  /** The record is an event that adds to the counts of the object for the reason. */
  ghost predicate CountsFor(cfg: Config, data: Data, inc: Incoming, o: Involved, rk: string) {
    && inc.rec.kind == EVENT_KIND && InvolvedOf(cfg, data, inc) == Some(o)
    && Contribution(cfg.dur, cfg.nanInt, cfg.extract, data, inc.Of(), inc.rec).Some?
    && cfg.extract(inc.rec.payload).Some?
    && var info := cfg.extract(inc.rec.payload).value; ReasonKey(info.reason, info.severity) == rk
  }

  lemma CountingElsewhere(cfg: Config, data: Data, inc: Incoming, r: Resource, o: Involved, rk: string)
    requires Sound(cfg, data) && Delivered(cfg, inc) && o.Clean() && !CountsFor(cfg, data, inc, o, rk)
    ensures Alike(cfg, data, AfterCounting(cfg, data, inc), r, o, rk)
  {
    hide InvolvedOf, AfterEvent, SoundWatch, SoundStore, NoNilRecords, Delivered, Cell, IsRecord, Involved.Clean, Contribution;
    var i := InvolvedOf(cfg, data, inc);
    if inc.rec.kind != EVENT_KIND {
      OthersAreNotCounted(cfg, data, inc);
    } else if i.Some? && i.value.uid != "" {
      InvolvedIsClean(cfg, data, inc);
      CountingKeepsSound(cfg.dur, cfg.width, cfg.nanInt, cfg.extract, data, inc.Of(), inc.rec, i.value);
      forall m
        ensures Cell(cfg.dur, data, o, rk, m)
             == Cell(cfg.dur, AfterEvent(cfg.dur, cfg.nanInt, cfg.extract, data, inc.Of(), inc.rec, i.value), o, rk, m)
      {
        OtherCell(cfg.dur, cfg.nanInt, cfg.extract, data, inc.Of(), inc.rec, i.value, o, rk, m);
      }
    }
  }

  lemma OtherCell(dur: PartitionDuration, nanInt: int, extract: Extractor, data: Data, r: Resource, rec: KubeWatchResult,
                  o: Involved, o': Involved, rk: string, m: int)
    requires o.Clean() && o'.Clean()
    requires o == o' && Contribution(dur, nanInt, extract, data, r, rec).Some? && extract(rec.payload).Some? ==>
               var info := extract(rec.payload).value; ReasonKey(info.reason, info.severity) != rk
    ensures Cell(dur, AfterEvent(dur, nanInt, extract, data, r, rec, o), o', rk, m) == Cell(dur, data, o', rk, m)
  {
    hide Contribution, AfterStoring, Cell, SpreadMap, Involved.Clean, ReasonKey;
    var c := Contribution(dur, nanInt, extract, data, r, rec);
    if c.Some? {
      ContributionExtracts(dur, nanInt, extract, data, r, rec);
      var info := extract(rec.payload).value;
      CellAfterStoring(dur, data, o, ReasonKey(info.reason, info.severity), SpreadMap(c.value), o', rk, m);
    }
  }

  lemma OtherRowElsewhere(cfg: Config, data: Data, key: string, r: Resource, o: Involved, rk: string)
    requires !InTable(WATCH, key) && !InTable(EVENT_TABLE, key)
    ensures Alike(cfg, data, data[key := Other], r, o, rk)
  {
    hide InTable, Parse, EventKey, CountIn;
    forall m ensures Cell(cfg.dur, data, o, rk, m) == Cell(cfg.dur, data[key := Other], o, rk, m) {
      EventKeyInTable(cfg.dur, o, m);
    }
  }

  lemma OtherUpdatesElsewhere(cfg: Config, data: Data, inc: Incoming, r: Resource, o: Involved, rk: string)
    requires Sound(cfg, data) && Delivered(cfg, inc)
    ensures Alike(cfg, data, AfterActivity(cfg, data, inc), r, o, rk) && Alike(cfg, data, AfterSummary(cfg, data, inc), r, o, rk)
  {
    hide Sound, SoundRow, IsTable, ActivityKey, SummaryKey, Delivered, WritesActivity, InTable, Cell, IsRecord;
    OwnTables();
    OwnKeysSound(cfg, inc);
    OtherRowKeepsSound(cfg, data, inc, ACTIVITY_TABLE, ActivityKey(cfg.dur, inc));
    OtherRowKeepsSound(cfg, data, inc, SUMMARY_TABLE, SummaryKey(cfg.dur, inc));
    OtherRowElsewhere(cfg, data, ActivityKey(cfg.dur, inc), r, o, rk);
    OtherRowElsewhere(cfg, data, SummaryKey(cfg.dur, inc), r, o, rk);
  }

  lemma WatchElsewhere(cfg: Config, data: Data, inc: Incoming, r: Resource, o: Involved, rk: string)
    requires Delivered(cfg, inc) && inc.Of() != r
    ensures Alike(cfg, data, AfterWatch(cfg, data, inc), r, o, rk)
  {
    hide Verdict, InTable, Parse, Cell, CleanResource, CleanInstant, Identifiable, Dated, GetPartitionId, Print;
    var key := inc.Of().At(cfg.dur, inc.rec.timestamp);
    AtIsRecord(cfg.dur, cfg.width, inc.Of(), inc.rec.timestamp);
    assert !IsRecord(data, r, key) && !IsRecord(data[key := Watch(inc.rec)], r, key);
    forall m ensures Cell(cfg.dur, data, o, rk, m) == Cell(cfg.dur, data[key := Watch(inc.rec)], o, rk, m) {
      CellKeepsWatch(cfg.dur, data, inc.Of(), inc.rec, o, rk, m);
    }
  }

  lemma AlikeTwice(cfg: Config, a: Data, b: Data, c: Data, r: Resource, o: Involved, rk: string)
    requires Alike(cfg, a, b, r, o, rk) && Alike(cfg, b, c, r, o, rk)
    ensures Alike(cfg, a, c, r, o, rk)
  {
    hide IsRecord, Cell;
    forall m ensures Cell(cfg.dur, a, o, rk, m) == Cell(cfg.dur, c, o, rk, m) {
      assert Cell(cfg.dur, a, o, rk, m) == Cell(cfg.dur, b, o, rk, m);
    }
  }

  /** Processing a record of something else, that does not count for the object and reason, leaves the records
      of a resource and these counts as they are: this is the other business that a run of events allows for. */
  lemma OthersDoNotDisturb(cfg: Config, data: Data, inc: Incoming, r: Resource, o: Involved, rk: string)
    requires Sound(cfg, data) && Delivered(cfg, inc) && inc.Of() != r && o.Clean() && !CountsFor(cfg, data, inc, o, rk)
    ensures Alike(cfg, data, AfterRecord(cfg, data, inc), r, o, rk)
  {
    hide Sound, Delivered, AfterCounting, AfterActivity, AfterWatch, AfterSummary, CountsFor, Alike, Involved.Clean;
    var a := AfterCounting(cfg, data, inc);
    CountingElsewhere(cfg, data, inc, r, o, rk);
    CountingKeepsAll(cfg, data, inc);
    var b := AfterActivity(cfg, a, inc);
    OtherUpdatesElsewhere(cfg, a, inc, r, o, rk);
    OtherUpdatesKeepSound(cfg, a, inc);
    AlikeTwice(cfg, data, a, b, r, o, rk);
    var c := AfterWatch(cfg, b, inc);
    WatchElsewhere(cfg, b, inc, r, o, rk);
    WatchKeepsAll(cfg, b, inc);
    AlikeTwice(cfg, data, b, c, r, o, rk);
    OtherUpdatesElsewhere(cfg, c, inc, r, o, rk);
    AlikeTwice(cfg, data, c, AfterSummary(cfg, c, inc), r, o, rk);
  }

  // ----- the loop -----

  ghost function AfterRecords(cfg: Config, data: Data, received: seq<Incoming>): Data {
    if received == [] then data
    else AfterRecord(cfg, AfterRecords(cfg, data, received[..|received| - 1]), received[|received| - 1])
  }

  /** Processes what comes out of the channel until it is closed. */
  method Start(cfg: Config, db: Db, kubeWatchChan: seq<Incoming>)
    requires Sound(cfg, db.data) && forall i :: 0 <= i < |kubeWatchChan| ==> Delivered(cfg, kubeWatchChan[i])
    modifies db
    ensures db.data == AfterRecords(cfg, old(db.data), kubeWatchChan) && Sound(cfg, db.data)
  {
    hide Sound, Delivered, AfterRecord;
    var received := 0;
    assert kubeWatchChan[..0] == [];
    while received < |kubeWatchChan|
      invariant received <= |kubeWatchChan| && Sound(cfg, db.data)
      invariant db.data == AfterRecords(cfg, old(db.data), kubeWatchChan[..received])
    {
      assert kubeWatchChan[..received + 1][..received] == kubeWatchChan[..received];
      ProcessRecord(cfg, db, kubeWatchChan[received]);
      received := received + 1;
    }
    assert kubeWatchChan[..received] == kubeWatchChan;
  }

  lemma {:induction false} RecordsKeepSound(cfg: Config, data: Data, received: seq<Incoming>)
    requires Sound(cfg, data) && forall i :: 0 <= i < |received| ==> Delivered(cfg, received[i])
    ensures Sound(cfg, AfterRecords(cfg, data, received))
  {
    hide Sound, Delivered, AfterRecord;
    if received != [] {
      RecordsKeepSound(cfg, data, received[..|received| - 1]);
      RecordKeepsSound(cfg, AfterRecords(cfg, data, received[..|received| - 1]), received[|received| - 1]);
    }
  }

  lemma RecordKeepsSound(cfg: Config, data: Data, inc: Incoming)
    requires Sound(cfg, data) && Delivered(cfg, inc)
    ensures Sound(cfg, AfterRecord(cfg, data, inc))
  {
    hide Sound, Delivered, AfterCounting, AfterActivity, AfterWatch, AfterSummary;
    var counted := AfterCounting(cfg, data, inc);
    CountingKeepsAll(cfg, data, inc);
    OtherUpdatesKeepSound(cfg, counted, inc);
    WatchKeepsAll(cfg, AfterActivity(cfg, counted, inc), inc);
    OtherUpdatesKeepSound(cfg, AfterWatch(cfg, AfterActivity(cfg, counted, inc), inc), inc);
  }

  // ----- the counts of one event, among everything else that comes out of the channel -----

  /** A record of something else, that does not count for the object and reason. */
  ghost predicate Elsewhere(cfg: Config, data: Data, inc: Incoming, r: Resource, o: Involved, rk: string) {
    inc.Of() != r && !CountsFor(cfg, data, inc, o, rk)
  }

  /** The store as the `i`-th record finds it. */
  ghost function Before(cfg: Config, data: Data, received: seq<Incoming>, i: nat): Data
    requires i <= |received|
  {
    AfterRecords(cfg, data, received[..i])
  }

  /** What comes out of the channel on a sound store: at the places `at` the records of event `r` in one
      partition, about object `o`; at the others nothing that counts for that object and the event's reason. */
  datatype Series = Series(cfg: Config, data: Data, received: seq<Incoming>, at: seq<nat>, r: Resource, p: int, o: Involved) {

    ghost predicate Placed() {
      at != [] && (forall j :: 0 <= j < |at| ==> at[j] < |received|) && (forall i, j :: 0 <= i < j < |at| ==> at[i] < at[j])
    }

    ghost function AsRun(): Run
      requires Placed()
    {
      Run(cfg.dur, cfg.width, cfg.nanInt, cfg.extract, r, p, o,
          seq(|at|, j requires 0 <= j < |at| => received[at[j]].rec),
          seq(|at|, j requires 0 <= j < |at| => Before(cfg, data, received, at[j])))
    }

    ghost function ReasonKeyOf(): string
      requires Placed()
    {
      if AsRun().extract(AsRun().recs[0].payload).Some? then AsRun().ReasonKeyOf() else ""
    }

    ghost function Final(): Data {
      AfterRecords(cfg, data, received)
    }

    ghost predicate Picks()
      requires Placed()
    {
      forall i :: 0 <= i < |received| ==>
        var inc := received[i];
        if i in at then inc.Of() == r && inc.rec.kind == EVENT_KIND && InvolvedOf(cfg, Before(cfg, data, received, i), inc) == Some(o)
        else Elsewhere(cfg, Before(cfg, data, received, i), inc, r, o, ReasonKeyOf())
    }

    ghost predicate Starts() {
      Sound(cfg, data) && o.Clean() && forall i :: 0 <= i < |received| ==> Delivered(cfg, received[i])
    }

    ghost predicate Valid(lo: int, n: nat) {
      && Starts() && Placed() && Picks() && AsRun().Series() && AsRun().Fits(lo, n)
      && forall s :: IsRecord(data, r, s) ==> StartOf(cfg.dur, TimeOf(s)) != p
    }
  }

  /** Between two records of the event nothing happens to it. */
  lemma {:induction false} QuietBetween(s: Series, a: nat, b: nat)
    requires s.Starts() && s.Placed() && a <= b <= |s.received|
    requires forall i :: a <= i < b ==> Elsewhere(s.cfg, Before(s.cfg, s.data, s.received, i), s.received[i], s.r, s.o, s.ReasonKeyOf())
    ensures Alike(s.cfg, Before(s.cfg, s.data, s.received, a), Before(s.cfg, s.data, s.received, b), s.r, s.o, s.ReasonKeyOf())
    decreases b
  {
    hide Sound, Delivered, AfterRecord, Alike, Involved.Clean, CountsFor, Series.ReasonKeyOf;
    var rk := s.ReasonKeyOf();
    if a == b {
      AlikeItself(s.cfg, Before(s.cfg, s.data, s.received, a), s.r, s.o, rk);
    } else {
      QuietBetween(s, a, b - 1);
      var before := Before(s.cfg, s.data, s.received, b - 1);
      RecordsKeepSound(s.cfg, s.data, s.received[..b - 1]);
      OthersDoNotDisturb(s.cfg, before, s.received[b - 1], s.r, s.o, rk);
      assert s.received[..b][..b - 1] == s.received[..b - 1];
      AlikeTwice(s.cfg, Before(s.cfg, s.data, s.received, a), before, AfterRecord(s.cfg, before, s.received[b - 1]), s.r, s.o, rk);
    }
  }

  lemma AlikeItself(cfg: Config, data: Data, r: Resource, o: Involved, rk: string)
    ensures Alike(cfg, data, data, r, o, rk)
  {
  }

  /** Processing the records of the event is what its run describes. */
  lemma PickedIsProcessed(s: Series, j: nat)
    requires s.Starts() && s.Placed() && s.Picks() && j < |s.at|
    ensures s.AsRun().After(j) == Before(s.cfg, s.data, s.received, s.at[j] + 1)
  {
    hide AfterRecord, AfterProcessing, Sound, Delivered, InvolvedOf, Elsewhere, Series.ReasonKeyOf;
    var k := s.at[j];
    assert k in s.at;
    assert s.received[..k + 1][..k] == s.received[..k];
    EventIsProcessed(s.cfg, Before(s.cfg, s.data, s.received, k), s.received[k]);
  }

  /** Before the first record of the event, between two of them, and after the last one. */
  lemma NoneBetween(s: Series, j: nat, i: nat)
    requires s.Placed() && s.Picks() && j <= |s.at| && i < |s.received|
    requires (j > 0 ==> s.at[j - 1] < i) && (j < |s.at| ==> i < s.at[j])
    ensures Elsewhere(s.cfg, Before(s.cfg, s.data, s.received, i), s.received[i], s.r, s.o, s.ReasonKeyOf())
  {
    hide Elsewhere, Before, Series.ReasonKeyOf;
    forall m | 0 <= m < |s.at| ensures s.at[m] != i {
      assert m < j - 1 ==> s.at[m] < s.at[j - 1];
      assert j < m ==> s.at[j] < s.at[m];
    }
    assert i !in s.at;
  }

  lemma AtFirst(s: Series)
    requires s.Starts() && s.Placed() && s.Picks()
    ensures Alike(s.cfg, s.data, s.AsRun().befores[0], s.r, s.o, s.ReasonKeyOf())
  {
    hide Sound, Delivered, AfterRecord, Involved.Clean, Elsewhere, Alike, Series.ReasonKeyOf, Series.Picks;
    forall i | 0 <= i < s.at[0] ensures Elsewhere(s.cfg, Before(s.cfg, s.data, s.received, i), s.received[i], s.r, s.o, s.ReasonKeyOf()) {
      NoneBetween(s, 0, i);
    }
    QuietBetween(s, 0, s.at[0]);
    assert s.received[..0] == [];
  }

  lemma AtNext(s: Series, j: nat)
    requires s.Starts() && s.Placed() && s.Picks() && 0 < j < |s.at|
    ensures Alike(s.cfg, s.AsRun().After(j - 1), s.AsRun().befores[j], s.r, s.o, s.ReasonKeyOf())
  {
    hide Sound, Delivered, Before, AfterProcessing, Elsewhere, Alike, Involved.Clean, Series.ReasonKeyOf, Series.Picks;
    PickedIsProcessed(s, j - 1);
    forall i | s.at[j - 1] < i < s.at[j] ensures Elsewhere(s.cfg, Before(s.cfg, s.data, s.received, i), s.received[i], s.r, s.o, s.ReasonKeyOf()) {
      NoneBetween(s, j, i);
    }
    QuietBetween(s, s.at[j - 1] + 1, s.at[j]);
  }

  lemma AtLast(s: Series)
    requires s.Starts() && s.Placed() && s.Picks()
    ensures Alike(s.cfg, s.AsRun().After(|s.at| - 1), s.Final(), s.r, s.o, s.ReasonKeyOf())
  {
    hide Sound, Delivered, AfterRecords, AfterProcessing, Elsewhere, Alike, Involved.Clean, Series.ReasonKeyOf, Series.Picks;
    var last := |s.at| - 1;
    PickedIsProcessed(s, last);
    forall i | s.at[last] < i < |s.received| ensures Elsewhere(s.cfg, Before(s.cfg, s.data, s.received, i), s.received[i], s.r, s.o, s.ReasonKeyOf()) {
      NoneBetween(s, |s.at|, i);
    }
    QuietBetween(s, s.at[last] + 1, |s.received|);
    assert s.received[..|s.received|] == s.received;
  }

  lemma LoopIsUndisturbed(s: Series, lo: int, n: nat)
    requires s.Valid(lo, n)
    ensures s.AsRun().Undisturbed()
  {
    hide Sound, Delivered, AfterRecords, Involved.Clean, Run.Series, Run.Fits, SoundWatch, NoNilRecords, IsRecord, Cell, StartOf, Series.Picks;
    var run := s.AsRun();
    RunIsExtracting(run);
    AtFirst(s);
    forall j | 0 <= j < |s.at|
      ensures SoundWatch(s.cfg.dur, s.cfg.width, run.befores[j]) && NoNilRecords(run.befores[j])
      ensures j > 0 ==> Alike(s.cfg, run.After(j - 1), run.befores[j], s.r, s.o, run.ReasonKeyOf())
    {
      RecordsKeepSound(s.cfg, s.data, s.received[..s.at[j]]);
      SoundParts(s.cfg, run.befores[j]);
      if j > 0 {
        AtNext(s, j);
      }
    }
  }

  lemma SoundParts(cfg: Config, data: Data)
    requires Sound(cfg, data)
    ensures SoundWatch(cfg.dur, cfg.width, data) && NoNilRecords(data)
  {
  }

  /** Whatever else comes out of the channel, other events about the object included as long as their reason is
      another: when all is processed, what has been added for the object and reason is the sum of what the
      records of the event contribute. That is what they report, if the new range of each is longer than an
      instant and lies inside the partitions there are; on amd64 exactly then. They report the last counts of
      their segments, and what the counts fell by within one. */
  lemma LoopConserves(s: Series, lo: int, n: nat)
    requires s.Valid(lo, n)
    ensures var run, last := s.AsRun(), |s.at|;
            var added := SumMinutes(m => Cell(s.cfg.dur, s.Final(), s.o, s.ReasonKeyOf(), m), lo, n)
                         - SumMinutes(m => Cell(s.cfg.dur, s.data, s.o, s.ReasonKeyOf(), m), lo, n);
            && added == run.Total(last)
            && ((forall i :: 0 <= i < last ==> run.Whole(i)) ==> added == run.Owed(last))
            && (s.cfg.nanInt == MIN_INT64 ==> (added == run.Owed(last) <==> forall i :: 0 <= i < last ==> run.Whole(i)))
            && run.Owed(last) == run.Closed(last) + run.Info(last - 1).count + run.Fallen(last)
            && ((forall i :: 0 <= i < last ==> run.GoesOn(i)) ==> run.Fallen(last) == 0)
  {
    hide Sound, Delivered, AfterRecords, Involved.Clean, Run.Fits, Run.Undisturbed, Cell, SumMinutes, Run.Total, Run.Whole;
    hide Contribution, Run.Contributed, IsRecord, Series.Picks, AfterProcessing, StartOf, Before, Run.Series;
    hide Run.Owed, Run.Closed, Run.Fallen, Run.GoesOn;
    var run := s.AsRun();
    LoopIsUndisturbed(s, lo, n);
    RunIsExtracting(run);
    AtFirst(s);
    AtLast(s);
    RunAddsUp(run, lo, n);
    RunConserves(run, lo, n);
    var rk := run.ReasonKeyOf();
    SameSum(m => run.CellOf(run.befores[0], m), m => Cell(s.cfg.dur, s.data, s.o, rk, m), lo, n);
    SameSum(m => run.CellOf(run.After(|s.at| - 1), m), m => Cell(s.cfg.dur, s.Final(), s.o, rk, m), lo, n);
  }

  /** The event goes on in another partition. There the previous copy is not found, so that the first record
      contributes its whole range and count once more, clipped. If everything counts in full, what has been added
      is what the records there report only if nothing was counted in the partition before; if the first record
      is clipped, exactly if the clip takes off what was. */
  lemma LoopAcrossPartitions(s: Series, next: Series, lo: int, n: nat)
    requires s.Valid(lo, n) && next.Valid(lo, n) && next.data == s.Final()
    requires next.cfg.dur == s.cfg.dur && next.o == s.o && next.ReasonKeyOf() == s.ReasonKeyOf()
    ensures var run := next.AsRun(); var whole := run.Info(0);
            Contribution(run.dur, run.nanInt, run.extract, run.befores[0], run.r, run.recs[0])
            == Clipped(run.nanInt, Counted(whole.first, whole.last, whole.count), run.WindowAt(0))
    ensures var before, run := s.AsRun().Total(|s.at|), next.AsRun();
            var added := SumMinutes(m => Cell(s.cfg.dur, next.Final(), s.o, s.ReasonKeyOf(), m), lo, n)
                         - SumMinutes(m => Cell(s.cfg.dur, s.data, s.o, s.ReasonKeyOf(), m), lo, n);
            && added == before + run.Total(|next.at|)
            && ((forall i :: 0 <= i < |next.at| ==> run.Whole(i)) ==>
                  (added == run.Owed(|next.at|) <==> before == 0))
            && ((forall i :: 0 < i < |next.at| ==> run.Whole(i)) ==>
                  (added == run.Owed(|next.at|) <==> before == run.Info(0).count - run.Stored(0).count))
  {
    hide Sound, Delivered, AfterRecords, Involved.Clean, Run.Undisturbed, Cell, SumMinutes, Run.Total, Run.Whole, Run.Stored;
    hide Contribution, Clipped, IsRecord, Series.Picks, AfterProcessing, StartOf, Before, Run.Series, Run.Owed;
    LoopConserves(s, lo, n);
    LoopConserves(next, lo, n);
    LoopIsUndisturbed(next, lo, n);
    RunIsExtracting(next.AsRun());
    RunAddsUp(next.AsRun(), lo, n);
    CountFits(next.AsRun(), lo, n);
    FirstIsNew(next.AsRun());
    RestIsWhole(next.AsRun(), |next.at|);
  }

  // ----- processing and cleanup -----

  /** What happens to the store: a record is processed, or a cleanup removes some partitions. */
  datatype Action = Process(inc: Incoming) | RemovePartitions(ids: seq<string>)

  ghost predicate Possible(cfg: Config, a: Action) {
    a.Process? ==> Delivered(cfg, a.inc)
  }

  ghost function AfterActions(cfg: Config, actions: seq<Action>): Data {
    if actions == [] then map[]
    else
      var before := AfterActions(cfg, actions[..|actions| - 1]);
      match actions[|actions| - 1]
      case Process(inc) => AfterRecord(cfg, before, inc)
      case RemovePartitions(ids) => Survivors(before, ids)
  }

  lemma CleanupKeepsSound(cfg: Config, data: Data, ids: seq<string>)
    requires Sound(cfg, data)
    ensures Sound(cfg, Survivors(data, ids))
  {
    hide SoundStore, SoundWatchRow, HasNoNil, InTable;
    SurvivorsStaySound(cfg.dur, data, ids);
  }

  /** Every store that any run reaches from the empty one is sound: what the queries, the counting and the
      cleanup ask of the store always holds. */
  lemma {:induction false} AlwaysSound(cfg: Config, actions: seq<Action>)
    requires forall i :: 0 <= i < |actions| ==> Possible(cfg, actions[i])
    ensures Sound(cfg, AfterActions(cfg, actions))
  {
    hide Delivered, AfterRecord, Survivors;
    if actions == [] {
      NoTablesSound(cfg.dur);
    } else {
      var front, last := actions[..|actions| - 1], actions[|actions| - 1];
      hide Sound;
      AlwaysSound(cfg, front);
      assert Possible(cfg, last);
      match last
      case Process(inc) => RecordKeepsSound(cfg, AfterActions(cfg, front), inc);
      case RemovePartitions(ids) => CleanupKeepsSound(cfg, AfterActions(cfg, front), ids);
    }
  }

  // ----- cleanups that fail -----

  lemma SummaryParts(cfg: Config, inc: Incoming)
    requires Delivered(cfg, inc)
    ensures TableOfKey(SummaryKey(cfg.dur, inc)) == SUMMARY_TABLE
  {
    hide FormatId, Split, StartOf, Identifiable, Dated, SummaryKey, ActivityKey;
    OwnKeyParts(cfg, inc);
  }

  lemma RecordParts(cfg: Config, inc: Incoming)
    requires Delivered(cfg, inc)
    ensures var key := inc.Of().At(cfg.dur, inc.rec.timestamp);
            PartitionOf(key) == GetPartitionId(cfg.dur, inc.rec.timestamp) && TableOfKey(key) == WATCH
  {
    hide FormatId, StartOf, Identifiable, Dated, Print, ParseKey;
    AtIsRecord(cfg.dur, cfg.width, inc.Of(), inc.rec.timestamp);
  }

  /** Once a resource with a uid and a creation time has been processed, its partition can no longer be deleted
      key by key: the summary written for it blocks its record. */
  lemma ProcessedIsBlocked(cfg: Config, data: Data, inc: Incoming)
    requires Sound(cfg, data) && Delivered(cfg, inc) && inc.rec.kind != EVENT_KIND
    requires inc.rec.kind != NODE_KIND || cfg.keepMinorNodeUpdates
    requires inc.metadata.uid != "" && inc.metadata.created.Some?
    ensures !Unblocked(AfterRecord(cfg, data, inc), GetPartitionId(cfg.dur, inc.rec.timestamp))
  {
    hide Sound, Delivered, AfterCounting, AfterActivity, SummaryKey, Resource.At, Unblocked, PartitionOf, TableOfKey, GetPartitionId;
    RecordKeepsSound(cfg, data, inc);
    SoundIsStore(cfg, AfterRecord(cfg, data, inc));
    SummaryParts(cfg, inc);
    RecordParts(cfg, inc);
    WatchRowsAreBlocked(cfg.dur, AfterRecord(cfg, data, inc), inc.Of().At(cfg.dur, inc.rec.timestamp), SummaryKey(cfg.dur, inc));
  }

  lemma SoundIsStore(cfg: Config, data: Data)
    requires Sound(cfg, data)
    ensures SoundStore(cfg.dur, data.Keys)
  {
  }

  lemma OneKeyRunsOff(dur: PartitionDuration, ks: set<string>, c: Census, limits: Limits)
    requires ks != {} && IsCensus(dur, ks, c) && limits.timeLimit < dur.Seconds() * NANOS && !limits.SizeConditionMet()
    ensures |c.sorted| > 0 && RunsOffTheEnd(dur, c, limits)
  {
    hide FormatId, StartOfKey, Limits.SizeConditionMet, Limits.Suffices;
    NotOver(limits);
    var k :| k in ks;
    assert StartOfKey(k) in c.starts;
  }

  /** With a time limit of zero and disk space to spare, the cleanup of a store with a single record reads
      past the end of its list. */
  lemma CleanupCanRunOff(dur: PartitionDuration, c: Census)
    ensures var r := Resource("Pod", "default", "web");
            var data: Data := map[r.At(dur, 0) := Watch(KubeWatchResult(0, "Pod", ""))];
            && SoundStore(dur, data.Keys)
            && (IsCensus(dur, data.Keys, c) ==> |c.sorted| > 0 && RunsOffTheEnd(dur, c, Limits(0, 1, 0, 1.0)))
  {
    hide SoundTables, InStore, IsCensus, RunsOffTheEnd, Resource.At;
    var r, rec := Resource("Pod", "default", "web"), KubeWatchResult(0, "Pod", "");
    PodIsClean();
    NoTablesSound(dur);
    var none: Data := map[];
    assert none.Keys == {};
    UpdateKeepsTables(dur, 1, none, r, rec);
    var data: Data := map[r.At(dur, 0) := Watch(rec)];
    assert data == none[r.At(dur, 0) := Watch(rec)];
    assert r.At(dur, 0) in data.Keys;
    if IsCensus(dur, data.Keys, c) {
      OneKeyRunsOff(dur, data.Keys, c, Limits(0, 1, 0, 1.0));
    }
  }
}
