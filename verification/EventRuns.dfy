/** Processing event records: count what is new, then store the record. Over a run of one event the
    counts add up to its last count. */
module EventRuns {
  import opened ByteStrings
  import opened Decimal
  import opened Wrappers
  import opened Partitions
  import opened WatchKeys
  import opened Tables
  import opened WatchTable
  import opened WatchUpdates
  import opened EventSpread
  import opened EventCounts

  const EVENT_KIND: string := "Event"

  /** What `ExtractEventInfo` makes of a payload; None if it is not JSON. */
  type Extractor = string -> Option<EventInfo>

  // ----- updateEventCountTable -----

  ghost function StoreWindow(dur: PartitionDuration, data: Data): Option<Window> {
    if lo, hi :| StoreBounds(data.Keys, lo, hi) then Some(PartitionWindow(dur, lo, hi)) else None
  }

  function PartitionWindow(dur: PartitionDuration, lo: int, hi: int): Window {
    Available((lo + dur.Seconds()) * NANOS, hi * NANOS, (hi + dur.Seconds()) * NANOS)
  }

  lemma StoreWindowIs(dur: PartitionDuration, data: Data, lo: int, hi: int)
    requires StoreBounds(data.Keys, lo, hi)
    ensures StoreWindow(dur, data) == Some(PartitionWindow(dur, lo, hi))
  {
    hide StoreBounds;
    var lo', hi' :| StoreBounds(data.Keys, lo', hi') && StoreWindow(dur, data) == Some(PartitionWindow(dur, lo', hi'));
    StoreBoundsUnique(data.Keys, lo, hi, lo', hi');
  }

  /** Events are counted from the second partition with a row to the last one; if there is one only, in that one. */
  lemma WindowIsPartitions(dur: PartitionDuration, lo: int, hi: int, t: int)
    requires IsStart(dur, lo) && IsStart(dur, hi) && lo <= hi
    ensures var w := PartitionWindow(dur, lo, hi);
            w.begin <= t < w.end <==> if lo == hi then StartOf(dur, t) == lo else lo < StartOf(dur, t) <= hi
  {
    hide StartOf;
    var p := StartOf(dur, t);
    StartOfBounds(dur, t);
    if lo < p { AlignedGap(dur, lo, p); }
    if p < lo { AlignedGap(dur, p, lo); }
    if hi < p { AlignedGap(dur, hi, p); }
    if p < hi { AlignedGap(dur, p, hi); }
    if lo < hi { AlignedGap(dur, lo, hi); }
  }

  lemma WindowIffRows(dur: PartitionDuration, data: Data)
    ensures StoreWindow(dur, data).Some? <==> exists k :: k in data && InStore(k)
  {
    hide InStore, StoreBounds;
    BoundsIffRows(data.Keys);
  }

  /** The range and count that an event record adds: nothing when it is not an event, does not extract,
      or when the store holds no partition yet. */
  ghost function Contribution(dur: PartitionDuration, nanInt: int, extract: Extractor, data: Data, r: Resource, rec: KubeWatchResult): Option<Counted> {
    var prev := LastRecord(dur, data, r, StartOf(dur, rec.timestamp));
    var new' := extract(rec.payload);
    if rec.kind != EVENT_KIND || new'.None? || (prev.Some? && extract(prev.value.payload).None?) then None
    else
      var diff := ComputeEventsDiff(if prev.Some? then extract(prev.value.payload) else None, new'.value);
      var window := StoreWindow(dur, data);
      if diff.count == 0 || window.None? then None else Some(Adjust(nanInt, diff, window.value))
  }

  /** The event that went before, if its record extracts. */
  ghost function PreviousInfo(dur: PartitionDuration, extract: Extractor, data: Data, r: Resource, rec: KubeWatchResult): Option<EventInfo> {
    var prev := LastRecord(dur, data, r, StartOf(dur, rec.timestamp));
    if prev.Some? then extract(prev.value.payload) else None
  }

  /** The record and the one before it extract: no error is reported. */
  ghost predicate Extracts(dur: PartitionDuration, extract: Extractor, data: Data, r: Resource, rec: KubeWatchResult) {
    && extract(rec.payload).Some?
    && (LastRecord(dur, data, r, StartOf(dur, rec.timestamp)).Some? ==> PreviousInfo(dur, extract, data, r, rec).Some?)
  }

  /** An event that brings something new is dropped, although no error is reported, exactly when the store
      holds no row yet. */
  lemma DroppedIffEmpty(dur: PartitionDuration, nanInt: int, extract: Extractor, data: Data, r: Resource, rec: KubeWatchResult)
    requires rec.kind == EVENT_KIND && Extracts(dur, extract, data, r, rec)
    requires ComputeEventsDiff(PreviousInfo(dur, extract, data, r, rec), extract(rec.payload).value).count != 0
    ensures Contribution(dur, nanInt, extract, data, r, rec).None? <==> forall k :: k in data ==> !InStore(k)
  {
    hide InStore, StoreWindow, LastRecord, ComputeEventsDiff, Adjust, StartOf;
    WindowIffRows(dur, data);
  }

  /** So the very first event is stored and never counted. */
  lemma FirstEventIsDropped(dur: PartitionDuration, nanInt: int, extract: Extractor, r: Resource, rec: KubeWatchResult, o: Involved)
    requires rec.kind == EVENT_KIND && extract(rec.payload).Some? && extract(rec.payload).value.count > 0
    ensures Extracts(dur, extract, map[], r, rec)
    ensures AfterProcessing(dur, nanInt, extract, map[], r, rec, o) == map[r.At(dur, rec.timestamp) := Watch(rec)]
  {
    hide StoreWindow, Adjust, StartOf, Resource.At, AfterStoring;
    assert LastRecord(dur, map[], r, StartOf(dur, rec.timestamp)) == None;
    DroppedIffEmpty(dur, nanInt, extract, map[], r, rec);
  }

  ghost function AfterEvent(dur: PartitionDuration, nanInt: int, extract: Extractor, data: Data, r: Resource, rec: KubeWatchResult, o: Involved): Data {
    var c := Contribution(dur, nanInt, extract, data, r, rec);
    if c.None? then data
    else
      var info := extract(rec.payload).value;
      AfterStoring(dur, data, o, ReasonKey(info.reason, info.severity), SpreadMap(c.value))
  }

  /** The object an event is about, with a missing uid looked up; None if there is no record of it. */
  ghost function Identified(data: Data, o: Involved, now: int, uidOf: string -> string): Option<Involved> {
    if o.uid != "" then Some(o)
    else
      var uid := UidBefore(data, Resource(o.kind, o.namespace, o.name), now, uidOf);
      if uid.None? then None else Some(o.(uid := uid.value))
  }

  /** Without a uid nothing is counted. */
  ghost function AfterUpdate(dur: PartitionDuration, nanInt: int, extract: Extractor, data: Data, r: Resource, rec: KubeWatchResult,
                             o: Option<Involved>): Data {
    if o.None? || o.value.uid == "" then data else AfterEvent(dur, nanInt, extract, data, r, rec, o.value)
  }

  /** No error is reported: the payloads extract, and if there is something to store, the uid is known. */
  ghost predicate Succeeds(dur: PartitionDuration, nanInt: int, extract: Extractor, data: Data, r: Resource, rec: KubeWatchResult,
                           o: Option<Involved>) {
    rec.kind != EVENT_KIND ||
    (&& Extracts(dur, extract, data, r, rec)
     && var c := Contribution(dur, nanInt, extract, data, r, rec);
        c.Some? ==> o.Some? && (o.value.uid != "" || SpreadMap(c.value) == map[]))
  }

  method UpdateEventCountTable(dur: PartitionDuration, ghost width: nat, nanInt: int, extract: Extractor, uidOf: string -> string,
                               now: int, db: Db, rec: KubeWatchResult, namespace: string, name: string, o: Involved)
    returns (ok: bool)
    requires SoundWatch(dur, width, db.data) && SoundTables(dur, db.data.Keys) && NoNilRecords(db.data)
    requires Resource(rec.kind, namespace, name).Clean() && CleanInstant(width, rec.timestamp)
    requires rec.kind == EVENT_KIND ==>
               && o.SlashFreeParts() && Identifiable(width, o, now, uidOf)
               && (extract(rec.payload).Some? ==> Dated(extract(rec.payload).value))
    modifies db
    ensures var r := Resource(rec.kind, namespace, name);
            var involved := Identified(old(db.data), o, now, uidOf);
            && db.data == AfterUpdate(dur, nanInt, extract, old(db.data), r, rec, involved)
            && (ok <==> Succeeds(dur, nanInt, extract, old(db.data), r, rec, involved))
    ensures SoundWatch(dur, width, db.data) && SoundTables(dur, db.data.Keys) && NoNilRecords(db.data)
  {
    hide FormatId, StoreBounds, InStore, NoNilRecords, AfterStoring, StartOf, LastRecord, Adjust, ComputeEventsDiff, UidBefore;
    hide CleanResource, CleanInstant, SoundWatch, SoundTables, SpreadMap, Involved.Clean, Involved.SlashFreeParts, AfterEvent, Dated;
    ghost var r := Resource(rec.kind, namespace, name);
    ghost var data := db.data;
    NothingCounted(dur, nanInt, extract, data, r, rec);
    if rec.kind != EVENT_KIND {
      return true;
    }
    var counted := NewCount(dur, width, nanInt, extract, db, rec, namespace, name);
    if counted.None? {
      return false;
    }
    if counted.value.None? {
      return true;
    }
    var eventCountByMinute := SpreadOutEvents(counted.value.value);
    var involved := o;
    if o.uid == "" {
      var uid := GetUidForWatchEntry(dur, width, db, o.kind, o.namespace, o.name, now, uidOf);
      if uid.None? {
        return false;
      }
      UidIsRead(data, Resource(o.kind, o.namespace, o.name), now, uidOf);
      involved := o.(uid := uid.value);
    }
    PartsSlashFree(width, o, now, uidOf, involved);
    CountingKeepsSound(dur, width, nanInt, extract, data, r, rec, involved);
    if involved.uid != "" {
      CountingKeepsTables(dur, nanInt, extract, data, r, rec, involved);
    }
    var info := extract(rec.payload).value;
    ok := StoreMinutes(dur, db, eventCountByMinute, involved, info.reason, info.severity);
    AfterEventIs(dur, nanInt, extract, data, r, rec, involved);
  }

  /** A missing uid can be looked up. */
  ghost predicate Identifiable(width: nat, o: Involved, now: int, uidOf: string -> string) {
    o.uid == "" ==>
      && Resource(o.kind, o.namespace, o.name).Clean() && CleanInstant(width, now)
      && forall payload :: SlashFree(uidOf(payload))
  }

  lemma PartsSlashFree(width: nat, o: Involved, now: int, uidOf: string -> string, involved: Involved)
    requires o.SlashFreeParts() && Identifiable(width, o, now, uidOf)
    requires involved == o || (o.uid == "" && exists payload :: involved == o.(uid := uidOf(payload)))
    ensures involved.SlashFreeParts() && (involved.uid != "" ==> involved.Clean())
  {
  }

  /** The part that comes before the uid is looked up: None if a payload does not extract, Some(None) if there
      is nothing to count. */
  method NewCount(dur: PartitionDuration, ghost width: nat, nanInt: int, extract: Extractor, db: Db, rec: KubeWatchResult,
                  namespace: string, name: string)
    returns (counted: Option<Option<Counted>>)
    requires SoundWatch(dur, width, db.data) && SoundTables(dur, db.data.Keys) && rec.kind == EVENT_KIND
    requires Resource(rec.kind, namespace, name).Clean() && CleanInstant(width, rec.timestamp)
    ensures var r := Resource(rec.kind, namespace, name);
            counted == if Extracts(dur, extract, db.data, r, rec) then Some(Contribution(dur, nanInt, extract, db.data, r, rec)) else None
  {
    hide FormatId, StoreBounds, InStore, StartOf, LastRecord, Adjust, ComputeEventsDiff;
    hide CleanResource, CleanInstant, SoundWatch, SoundTables;
    var r := Resource(rec.kind, namespace, name);
    CleanInstantIsNat(width, rec.timestamp);
    var prevWatch := GetLastKubeWatchResult(dur, width, db, rec.timestamp, r);
    var prevEventInfo := None;
    if prevWatch.Some? {
      prevEventInfo := extract(prevWatch.value.payload);
      if prevEventInfo.None? {
        return None;
      }
    }
    var newEventInfo := extract(rec.payload);
    if newEventInfo.None? {
      return None;
    }

    var diff := ComputeEventsDiff(prevEventInfo, newEventInfo.value);
    if diff.count == 0 {
      return Some(None);
    }

    var found, minPartition, maxPartition := GetMinAndMaxPartition(dur, db);
    if !found {
      WindowIffRows(dur, db.data);
      return Some(None);
    }
    ghost var lo, hi :| StoreBounds(db.data.Keys, lo, hi) && IsStart(dur, lo) && IsStart(dur, hi) && hi + dur.Seconds() < MAX_ID
                        && minPartition == FormatId(lo) && maxPartition == FormatId(hi);
    StoreWindowIs(dur, db.data, lo, hi);
    RangeOfId(dur, lo);
    RangeOfId(dur, hi);
    var minRange := GetTimeRangeForPartition(dur, minPartition).value;
    var maxRange := GetTimeRangeForPartition(dur, maxPartition).value;
    return Some(Some(Adjust(nanInt, diff, Available(minRange.1, maxRange.0, maxRange.1))));
  }

  lemma NothingCounted(dur: PartitionDuration, nanInt: int, extract: Extractor, data: Data, r: Resource, rec: KubeWatchResult)
    ensures rec.kind != EVENT_KIND || !Extracts(dur, extract, data, r, rec) ==> Contribution(dur, nanInt, extract, data, r, rec) == None
    ensures Contribution(dur, nanInt, extract, data, r, rec).None? ==>
              forall o :: AfterEvent(dur, nanInt, extract, data, r, rec, o) == data
    ensures Contribution(dur, nanInt, extract, data, r, rec).Some? ==> extract(rec.payload).Some?
  {
  }

  lemma AfterEventIs(dur: PartitionDuration, nanInt: int, extract: Extractor, data: Data, r: Resource, rec: KubeWatchResult, o: Involved)
    requires Contribution(dur, nanInt, extract, data, r, rec).Some? && extract(rec.payload).Some?
    ensures var info := extract(rec.payload).value;
            AfterEvent(dur, nanInt, extract, data, r, rec, o)
              == AfterStoring(dur, data, o, ReasonKey(info.reason, info.severity),
                              SpreadMap(Contribution(dur, nanInt, extract, data, r, rec).value))
  {
    hide Contribution;
  }

  /** Counts go only to partitions whose ids have 12 digits. */
  lemma CountedMinutesFit(dur: PartitionDuration, nanInt: int, extract: Extractor, data: Data, r: Resource, rec: KubeWatchResult,
                          c: Counted, m: int)
    requires SoundTables(dur, data.Keys) && Contribution(dur, nanInt, extract, data, r, rec) == Some(c) && SpreadHas(c, m)
    requires extract(rec.payload).Some? && Dated(extract(rec.payload).value)
    ensures MinuteFits(dur, m)
  {
    hide LastRecord, Adjust, ComputeEventsDiff, SpreadHas, StoreBounds, InStore, SoundTables, IsStart;
    var prev := PreviousInfo(dur, extract, data, r, rec);
    var diff := ComputeEventsDiff(prev, extract(rec.payload).value);
    var lo, hi :| StoreBounds(data.Keys, lo, hi) && StoreWindow(dur, data) == Some(PartitionWindow(dur, lo, hi));
    BoundsAreSound(dur, data.Keys, lo, hi);
    WindowOfStarts(dur, lo, hi);
    ClippedStaysInside(nanInt, diff, PartitionWindow(dur, lo, hi), m);
    DiffIsDated(prev, extract(rec.payload).value);
    StartOfBounds(dur, m * MINUTE);
  }

  lemma BoundsAreSound(dur: PartitionDuration, ks: set<string>, lo: int, hi: int)
    requires SoundTables(dur, ks) && StoreBounds(ks, lo, hi)
    ensures IsStart(dur, lo) && IsStart(dur, hi) && lo <= hi
  {
    hide SoundTables, InStore, StartOfKey, IsStart;
    var a :| a in ks && InStore(a) && StartOfKey(a) == lo;
    var b :| b in ks && InStore(b) && StartOfKey(b) == hi;
    StoredStart(dur, ks, a);
    StoredStart(dur, ks, b);
  }

  lemma WindowOfStarts(dur: PartitionDuration, lo: int, hi: int)
    requires IsStart(dur, lo) && IsStart(dur, hi) && lo <= hi
    ensures var w := PartitionWindow(dur, lo, hi);
            0 <= w.begin < w.end && w.begin % MINUTE == 0 && w.end % MINUTE == 0
  {
    WholeMinutes(dur, lo);
    WholeMinutes(dur, hi);
    if lo < hi {
      AlignedGap(dur, lo, hi);
    }
  }

  lemma WholeMinutes(dur: PartitionDuration, p: int)
    requires Aligned(dur, p)
    ensures p * NANOS % MINUTE == 0 && (p + dur.Seconds()) * NANOS % MINUTE == 0
  {
    hide Aligned;
    AlignedNext(dur, p);
    AlignedToMinute(dur, p);
    AlignedToMinute(dur, p + dur.Seconds());
    MinuteMultiple(p / 60);
    MinuteMultiple((p + dur.Seconds()) / 60);
  }

  lemma AlignedToMinute(dur: PartitionDuration, p: int)
    requires Aligned(dur, p)
    ensures p == p / 60 * 60
  {
  }

  lemma MinuteMultiple(q: int)
    ensures q * 60 * NANOS % MINUTE == 0
  {
    assert q * 60 * NANOS == q * MINUTE;
  }

  /** Counting adds rows of the event table only, in partitions that exist. */
  lemma CountingKeepsTables(dur: PartitionDuration, nanInt: int, extract: Extractor, data: Data, r: Resource, rec: KubeWatchResult, o: Involved)
    requires SoundTables(dur, data.Keys) && o.Clean() && (extract(rec.payload).Some? ==> Dated(extract(rec.payload).value))
    ensures SoundTables(dur, AfterEvent(dur, nanInt, extract, data, r, rec, o).Keys)
    ensures forall k :: k in AfterEvent(dur, nanInt, extract, data, r, rec, o) ==> k in data || InStore(k)
  {
    hide Contribution, AfterStoring, SpreadMap, Involved.Clean, SoundTables, InStore, Dated, MinuteFits, SpreadHas;
    var c := Contribution(dur, nanInt, extract, data, r, rec);
    if c.Some? {
      ContributionExtracts(dur, nanInt, extract, data, r, rec);
      var info := extract(rec.payload).value;
      SpreadMapIsSpread(c.value);
      forall m | m in SpreadMap(c.value) ensures MinuteFits(dur, m) {
        CountedMinutesFit(dur, nanInt, extract, data, r, rec, c.value, m);
      }
      StoringKeepsTables(dur, data, o, ReasonKey(info.reason, info.severity), SpreadMap(c.value));
    }
  }

  lemma CleanInstantIsNat(width: nat, t: int)
    requires CleanInstant(width, t)
    ensures 0 <= t <= MAX_INT64
  {
  }

  lemma RangeOfId(dur: PartitionDuration, p: int)
    requires IsStart(dur, p)
    ensures GetTimeRangeForPartition(dur, FormatId(p)) == Some((p * NANOS, (p + dur.Seconds()) * NANOS))
  {
    hide FormatId, ParseInt;
    IdFaithful(p);
  }

  // ----- the order of the updates -----

  /** One event record, as the loop of `Start` processes it: its counts first, so that the previous copy of
      the event is still the last one stored; then the record itself. */
  ghost function AfterProcessing(dur: PartitionDuration, nanInt: int, extract: Extractor, data: Data, r: Resource, rec: KubeWatchResult, o: Involved): Data {
    AfterEvent(dur, nanInt, extract, data, r, rec, o)[r.At(dur, rec.timestamp) := Watch(rec)]
  }

  lemma TablesApart(k: string)
    requires InTable(WATCH, k)
    ensures !InTable(EVENT_TABLE, k)
  {
    assert k[1] == 'w';
  }

  lemma ContributionExtracts(dur: PartitionDuration, nanInt: int, extract: Extractor, data: Data, r: Resource, rec: KubeWatchResult)
    requires Contribution(dur, nanInt, extract, data, r, rec).Some?
    ensures extract(rec.payload).Some?
  {
  }

  /** Counting leaves the watch table alone. */
  lemma CountingKeepsWatch(dur: PartitionDuration, nanInt: int, extract: Extractor, data: Data, r: Resource, rec: KubeWatchResult,
                           o: Involved, s: string)
    requires InTable(WATCH, s)
    ensures var after := AfterEvent(dur, nanInt, extract, data, r, rec, o);
            (s in after <==> s in data) && (s in data ==> after[s] == data[s])
  {
    hide Contribution, AfterStoring, InTable, SpreadMap;
    TablesApart(s);
    var c := Contribution(dur, nanInt, extract, data, r, rec);
    if c.Some? {
      ContributionExtracts(dur, nanInt, extract, data, r, rec);
      var info := extract(rec.payload).value;
      StoringKeepsOthers(dur, data, o, ReasonKey(info.reason, info.severity), SpreadMap(c.value), s);
    }
  }

  lemma CountingKeepsSound(dur: PartitionDuration, width: nat, nanInt: int, extract: Extractor, data: Data, r: Resource,
                           rec: KubeWatchResult, o: Involved)
    requires SoundWatch(dur, width, data)
    ensures SoundWatch(dur, width, AfterEvent(dur, nanInt, extract, data, r, rec, o))
    ensures forall q :: Unrelated(data, AfterEvent(dur, nanInt, extract, data, r, rec, o), q)
  {
    hide AfterEvent, SoundWatchRow, InTable, Parse;
    var after := AfterEvent(dur, nanInt, extract, data, r, rec, o);
    forall s | InTable(WATCH, s)
      ensures s in after <==> s in data
      ensures s in data ==> after[s] == data[s]
    {
      CountingKeepsWatch(dur, nanInt, extract, data, r, rec, o, s);
    }
  }

  lemma StoringWatchKeepsNoNil(dur: PartitionDuration, data: Data, r: Resource, rec: KubeWatchResult)
    requires NoNilRecords(data)
    ensures NoNilRecords(data[r.At(dur, rec.timestamp) := Watch(rec)])
  {
    hide InTable, Print;
    AtInWatch(r.Key(GetPartitionId(dur, rec.timestamp), Nanos(rec.timestamp)));
  }

  lemma AtInWatch(k: WatchKey)
    ensures InTable(WATCH, Print(k)) && !InTable(EVENT_TABLE, Print(k))
  {
    hide FormatInt;
    TablesApart(Print(k));
  }

  // ----- runs of one event -----

  /** Successive records of one event in one partition, and the store as each of them finds it. */
  datatype Run = Run(dur: PartitionDuration, width: nat, nanInt: int, extract: Extractor,
                     r: Resource, p: int, o: Involved, recs: seq<KubeWatchResult>, befores: seq<Data>) {

    function Info(i: nat): EventInfo
      requires i < |recs| && extract(recs[i].payload).Some?
    {
      extract(recs[i].payload).value
    }

    /** The payloads of all records extract. */
    ghost predicate Extracting() {
      |recs| > 0 && |befores| == |recs| && forall i :: 0 <= i < |recs| ==> extract(recs[i].payload).Some?
    }

    /** Same reason and severity, each record ends after it starts. Anything else may vary: a record may start
        after the end of the one before, repeat it, fall behind it, or overlap it in part; its count may fall. */
    ghost predicate Series() {
      && Extracting() && r.kind == "Event" && r.Clean() && o.Clean()
      && (forall i :: 0 <= i < |recs| ==>
            && recs[i].kind == "Event" && CleanInstant(width, recs[i].timestamp) && StartOf(dur, recs[i].timestamp) == p
            && Info(i).reason == Info(0).reason && Info(i).severity == Info(0).severity
            && Info(i).first <= Info(i).last && 0 <= Info(i).count)
      && (forall i :: 0 < i < |recs| ==> recs[i - 1].timestamp <= recs[i].timestamp)
    }

    ghost function After(i: nat): Data
      requires i < |recs| && i < |befores|
    {
      AfterProcessing(dur, nanInt, extract, befores[i], r, recs[i], o)
    }

    ghost function ReasonKeyOf(): string
      requires |recs| > 0 && extract(recs[0].payload).Some?
    {
      ReasonKey(Info(0).reason, Info(0).severity)
    }

    /** What happens to the store between two records of the event is other business: it changes neither
        the records of the event nor the counts of its object. */
    ghost predicate Undisturbed()
      requires Series()
    {
      && (forall i :: 0 <= i < |befores| ==> SoundWatch(dur, width, befores[i]) && NoNilRecords(befores[i]))
      && (forall s :: IsRecord(befores[0], r, s) ==> StartOf(dur, TimeOf(s)) != p)
      && (forall i :: 0 < i < |recs| ==> Unrelated(After(i - 1), befores[i], r)
                                         && forall m :: CellOf(befores[i], m) == CellOf(After(i - 1), m))
    }

    ghost function CellOf(data: Data, m: int): int
      requires |recs| > 0 && extract(recs[0].payload).Some?
    {
      Cell(dur, data, o, ReasonKeyOf(), m)
    }

    /** Record `i` starts after the end of the one before, or is the first. */
    ghost predicate Starts(i: nat)
      requires i < |recs| && Extracting()
    {
      i == 0 || Info(i - 1).last < Info(i).first
    }

    /** How many of the events in record `i` the one before has reported: none if it starts later; all if it ends
        no later; otherwise as many as that one has, of which only the overlapping share if the two start at
        different times. */
    ghost function Repeated(i: nat): int
      requires i < |recs| && Extracting()
    {
      if Starts(i) then 0
      else if Info(i).last <= Info(i - 1).last then Info(i).count
      else if Info(i).first == Info(i - 1).first then Earlier(Info(i).count, Info(i - 1).count)
      else if Info(i - 1).last <= Info(i - 1).first then Info(i).count
      else Earlier(Info(i).count,
                   Info(i - 1).count * (Info(i - 1).last - Info(i).first) / (Info(i - 1).last - Info(i - 1).first))
    }

    /** The range that record `i` is new in, and the events that are new. */
    ghost function Diff(i: nat): Counted
      requires i < |recs| && Extracting()
    {
      Counted(if Starts(i) then Info(i).first else Earlier(Info(i - 1).last, Info(i).last), Info(i).last,
              Info(i).count - Repeated(i))
    }

    /** What the first `i` records report together, each event once. */
    ghost function Owed(i: nat): int
      requires i <= |recs| && Extracting()
    {
      if i == 0 then 0 else Owed(i - 1) + Info(i - 1).count - Repeated(i - 1)
    }

    /** The last counts of the segments that are over before record `i - 1`. */
    ghost function Closed(i: nat): int
      requires i <= |recs| && Extracting()
    {
      if i <= 1 then 0 else Closed(i - 1) + if Starts(i - 1) then Info(i - 2).count else 0
    }

    /** What records of the same segment left out of the counts before them. */
    ghost function Fallen(i: nat): int
      requires i <= |recs| && Extracting()
    {
      if i <= 1 then 0 else Fallen(i - 1) + if Starts(i - 1) then 0 else Info(i - 2).count - Repeated(i - 1)
    }

    /** Record `i` starts, or goes on from the one before: same start, no fewer events, and no others unless it
        ends later. */
    ghost predicate GoesOn(i: nat)
      requires i < |recs| && Extracting()
    {
      Starts(i) || (&& Info(i).first == Info(i - 1).first && Info(i - 1).count <= Info(i).count
                    && (Info(i).last <= Info(i - 1).last ==> Info(i).count == Info(i - 1).count))
    }

    /** The partitions available to record `i`. */
    ghost function WindowAt(i: nat): Option<Window>
      requires i < |befores|
    {
      StoreWindow(dur, befores[i])
    }

    /** What record `i` contributes: its new range and count, clipped. */
    ghost function Contributed(i: nat): Option<Counted>
      requires i < |recs| && Extracting()
    {
      Clipped(nanInt, Diff(i), WindowAt(i))
    }

    /** The same as the table stores it. */
    ghost function Stored(i: nat): Counted
      requires i < |recs| && Extracting()
    {
      InTable32(Diff(i).first, Contributed(i))
    }

    /** What the first `i` records have added together. */
    ghost function Total(i: nat): int
      requires i <= |recs| && Extracting()
    {
      if i == 0 then 0 else Total(i - 1) + Stored(i - 1).count
    }

    /** The most that the first `i` records can have added to one cell, and the least: what is stored of an
        instant may be negative. */
    ghost function Peak(i: nat): int
      requires i <= |recs| && Extracting()
    {
      if i == 0 then 0 else Peak(i - 1) + Later(Stored(i - 1).count, 0)
    }

    ghost function Trough(i: nat): int
      requires i <= |recs| && Extracting()
    {
      if i == 0 then 0 else Trough(i - 1) + Earlier(Stored(i - 1).count, 0)
    }

    /** The new range of record `i` counts in full: it is longer than an instant and lies inside the partitions
        available; or it counts nothing. */
    ghost predicate Whole(i: nat)
      requires i < |recs| && Extracting()
    {
      Diff(i).count == 0 ||
      (WindowAt(i).Some? && WindowAt(i).value.begin <= Diff(i).first < Diff(i).last <= WindowAt(i).value.end)
    }

    /** 32 bits suffice, and `lo`, `n` is a stretch of minutes around the whole series. */
    ghost predicate Fits(lo: int, n: nat)
      requires Series()
    {
      && (forall m :: MIN_INT32 <= CellOf(befores[0], m) + Trough(|recs|) && CellOf(befores[0], m) + Peak(|recs|) <= MAX_INT32)
      && Narrow() && forall i :: 0 <= i < |recs| ==> lo <= RoundMinute(Info(i).first) && RoundMinute(Info(i).last) < lo + n
    }

    ghost predicate Narrow()
      requires Extracting()
    {
      forall i :: 0 <= i < |recs| ==> Info(i).count <= MAX_INT32
    }
  }

  // ----- one contribution -----

  function Clipped(nanInt: int, d: Counted, w: Option<Window>): Option<Counted> {
    if d.count == 0 || w.None? then None else Some(Adjust(nanInt, d, w.value))
  }

  /** The count in 32 bits; nothing at all is put at the start of the range. */
  function InTable32(first: int, c: Option<Counted>): Counted {
    if c.None? || c.value.count == 0 then Counted(first, first, 0) else c.value.(count := ToInt32(c.value.count))
  }

  /** What is stored of a range: a part of it, with a part of its count. */
  lemma StoredIsPart(nanInt: int, d: Counted, w: Option<Window>)
    requires d.first <= d.last && 0 <= d.count <= MAX_INT32 && (w.Some? ==> w.value.begin < w.value.end)
    ensures var s := InTable32(d.first, Clipped(nanInt, d, w));
            && d.first <= s.first <= s.last <= d.last && MIN_INT32 <= s.count <= MAX_INT32
            && (s.count < 0 ==> s.first == s.last)
            && (d.count == 0 || d.first < d.last ==> 0 <= s.count <= d.count)
  {
    if d.count != 0 && w.Some? && d.first < d.last {
      AdjustClips(nanInt, d, w.value);
    }
  }

  /** All of a count is stored exactly when its range lies inside the window, if it is longer than an instant.
      Of an instant, the 32 bits of `int(NaN)` are stored, or nothing. */
  lemma StoredIsWhole(nanInt: int, d: Counted, w: Option<Window>)
    requires d.first <= d.last && 0 <= d.count <= MAX_INT32 && (w.Some? ==> w.value.begin < w.value.end)
    ensures var s := InTable32(d.first, Clipped(nanInt, d, w));
            && (d.first < d.last ==>
                  (s.count == d.count <==> d.count == 0 || (w.Some? && w.value.begin <= d.first && d.last <= w.value.end)))
            && (d.count != 0 && d.first == d.last ==> s.count == 0 || s.count == ToInt32(nanInt))
  {
    hide Adjust;
    if d.count != 0 && w.Some? {
      if d.first == d.last {
        InstantCount(nanInt, d, w.value);
      } else {
        AdjustClips(nanInt, d, w.value);
        if !(w.value.begin <= d.first && d.last <= w.value.end) {
          PartIsLess(nanInt, d, w.value);
        }
      }
    }
  }

  lemma InstantCount(nanInt: int, d: Counted, w: Window)
    requires d.first == d.last
    ensures Adjust(nanInt, d, w).count == 0 || Adjust(nanInt, d, w).count == nanInt
  {
  }

  /** What one contribution adds to a cell is a share of the count as stored. */
  lemma ShareIsStored(nanInt: int, d: Counted, w: Option<Window>, m: int)
    requires d.first <= d.last && 0 <= d.count <= MAX_INT32 && (w.Some? ==> w.value.begin < w.value.end)
    ensures var c := Clipped(nanInt, d, w);
            var s := InTable32(d.first, c);
            && Share(c, m) == SpreadAt(s, m)
            && (if s.count < 0 then s.count <= SpreadAt(s, m) <= 0 else 0 <= SpreadAt(s, m) <= s.count)
  {
    hide Adjust, SpreadAt;
    var c := Clipped(nanInt, d, w);
    var s := InTable32(d.first, c);
    StoredIsPart(nanInt, d, w);
    if c.None? || c.value.count == 0 {
      SpreadAtBounds(s, m);
      if c.Some? {
        SpreadAtBounds(c.value, m);
      }
    } else if d.first < d.last {
      ClippedCount(nanInt, d, w.value);
      SpreadAtBounds(s, m);
    } else {
      ClippedInstant(nanInt, d, w.value);
      InstantShare(c.value, m);
      InstantShare(s, m);
    }
  }

  lemma ClippedCount(nanInt: int, d: Counted, w: Window)
    requires d.first < d.last && 0 <= d.count <= MAX_INT32 && w.begin < w.end
    ensures 0 <= Adjust(nanInt, d, w).count <= MAX_INT32 && ToInt32(Adjust(nanInt, d, w).count) == Adjust(nanInt, d, w).count
  {
    hide Adjust;
    AdjustClips(nanInt, d, w);
  }

  lemma ClippedInstant(nanInt: int, d: Counted, w: Window)
    requires d.first == d.last
    ensures var a := Adjust(nanInt, d, w); a.count == 0 || a.first == a.last == d.first
  {
  }

  lemma InstantShare(c: Counted, m: int)
    requires c.first == c.last
    ensures SpreadAt(c, m) == if m == RoundMinute(c.first) then c.count else 0
  {
  }

  lemma WindowIsProper(dur: PartitionDuration, data: Data)
    ensures StoreWindow(dur, data).Some? ==> StoreWindow(dur, data).value.begin < StoreWindow(dur, data).value.end
  {
    hide InStore, StartOfKey;
    if StoreWindow(dur, data).Some? {
      var lo, hi :| StoreBounds(data.Keys, lo, hi) && StoreWindow(dur, data) == Some(PartitionWindow(dur, lo, hi));
      assert lo <= hi;
    }
  }

  /** Both stores hold the same records of the resource. */
  ghost predicate Unrelated(a: Data, b: Data, r: Resource) {
    forall s :: (IsRecord(a, r, s) <==> IsRecord(b, r, s)) && (IsRecord(a, r, s) ==> a[s] == b[s])
  }

  lemma UnrelatedLast(dur: PartitionDuration, width: nat, a: Data, b: Data, r: Resource, p: int)
    requires SoundWatch(dur, width, a) && SoundWatch(dur, width, b) && Unrelated(a, b, r)
    ensures LastRecord(dur, a, r, p) == LastRecord(dur, b, r, p)
  {
    hide InTable, Parse, StartOf, SoundWatchRow;
    var s, t := LastIn(dur, a, r, p), LastIn(dur, b, r, p);
    if s.Some? {
      assert IsNewestIn(dur, b, r, p, MAX_INT64, s.value);
      NewestInUnique(dur, width, b, r, p, MAX_INT64, s.value);
    }
    if t.Some? {
      assert IsNewestIn(dur, a, r, p, MAX_INT64, t.value);
      NewestInUnique(dur, width, a, r, p, MAX_INT64, t.value);
    }
  }

  /** A record stored at the end is the last one. */
  lemma StoredIsLast(dur: PartitionDuration, width: nat, data: Data, r: Resource, p: int, rec: KubeWatchResult)
    requires SoundWatch(dur, width, data) && r.Clean() && CleanInstant(width, rec.timestamp) && StartOf(dur, rec.timestamp) == p
    requires NoneAfter(dur, data, r, p, rec.timestamp)
    ensures var data' := data[r.At(dur, rec.timestamp) := Watch(rec)];
            SoundWatch(dur, width, data') && LastRecord(dur, data', r, p) == Some(rec) && NoneAfter(dur, data', r, p, rec.timestamp)
  {
    hide Parse, Print, StartOf, InTable, SoundWatchRow, CleanResource, FormatId, Digits;
    var data' := data[r.At(dur, rec.timestamp) := Watch(rec)];
    UpdateKeepsSound(dur, width, data, r, rec);
    SameRecords(dur, width, data, r, rec);
    assert IsNewestIn(dur, data', r, p, MAX_INT64, r.At(dur, rec.timestamp));
    NewestInUnique(dur, width, data', r, p, MAX_INT64, r.At(dur, rec.timestamp));
  }

  /** The order of the two updates matters: had the record been stored first, it would be its own previous
      copy, and nothing would be counted. */
  lemma StoringFirstCountsNothing(dur: PartitionDuration, width: nat, nanInt: int, extract: Extractor, data: Data, r: Resource,
                                  p: int, rec: KubeWatchResult)
    requires SoundWatch(dur, width, data) && r.Clean() && CleanInstant(width, rec.timestamp) && StartOf(dur, rec.timestamp) == p
    requires NoneAfter(dur, data, r, p, rec.timestamp)
    requires extract(rec.payload).Some? && extract(rec.payload).value.first <= extract(rec.payload).value.last
    ensures Contribution(dur, nanInt, extract, data[r.At(dur, rec.timestamp) := Watch(rec)], r, rec) == None
  {
    hide LastRecord, StoreWindow, StartOf, SoundWatch, NoneAfter, CleanInstant, CleanResource;
    StoredIsLast(dur, width, data, r, p, rec);
  }

  /** What one contribution adds to a cell. */
  function Share(c: Option<Counted>, m: int): int {
    if c.None? then 0 else ToInt32(SpreadAt(c.value, m))
  }

  /** Counting adds the new range to the cells; storing the record does not touch them. */
  lemma CellAfterProcessing(run: Run, i: nat, c: Option<Counted>, m: int)
    requires run.Series() && i < |run.recs|
    requires Contribution(run.dur, run.nanInt, run.extract, run.befores[i], run.r, run.recs[i]) == c
    requires MIN_INT32 <= run.CellOf(run.befores[i], m) + Share(c, m) <= MAX_INT32
    ensures run.CellOf(run.After(i), m) == run.CellOf(run.befores[i], m) + Share(c, m)
  {
    hide Contribution, SpreadAt, SpreadHas, Cell, AfterEvent, Involved.Clean, Resource.Clean, CleanInstant, StartOf, Share;
    var data, rec := run.befores[i], run.recs[i];
    CellAfterEvent(run.dur, run.nanInt, run.extract, data, run.r, rec, run.o, c, m);
    var counted := AfterEvent(run.dur, run.nanInt, run.extract, data, run.r, rec, run.o);
    CellKeepsWatch(run.dur, counted, run.r, rec, run.o, run.ReasonKeyOf(), m);
  }

  lemma CellKeepsWatch(dur: PartitionDuration, data: Data, r: Resource, rec: KubeWatchResult, o: Involved, rk: string, m: int)
    ensures Cell(dur, data[r.At(dur, rec.timestamp) := Watch(rec)], o, rk, m) == Cell(dur, data, o, rk, m)
  {
    hide EventKey, Print, InTable;
    AtInWatch(r.Key(GetPartitionId(dur, rec.timestamp), Nanos(rec.timestamp)));
    EventKeyInTable(dur, o, m);
  }

  lemma CellAfterEvent(dur: PartitionDuration, nanInt: int, extract: Extractor, data: Data, r: Resource, rec: KubeWatchResult,
                       o: Involved, c: Option<Counted>, m: int)
    requires extract(rec.payload).Some? && o.Clean()
    requires Contribution(dur, nanInt, extract, data, r, rec) == c
    requires var info := extract(rec.payload).value;
             MIN_INT32 <= Cell(dur, data, o, ReasonKey(info.reason, info.severity), m) + Share(c, m) <= MAX_INT32
    ensures var info := extract(rec.payload).value;
            var rk := ReasonKey(info.reason, info.severity);
            Cell(dur, AfterEvent(dur, nanInt, extract, data, r, rec, o), o, rk, m) == Cell(dur, data, o, rk, m) + Share(c, m)
  {
    hide Contribution, SpreadMap, SpreadAt, SpreadHas, EventKey, Involved.Clean, AfterStoring, Cell;
    var info := extract(rec.payload).value;
    var rk := ReasonKey(info.reason, info.severity);
    if c.Some? {
      SpreadMapIsSpread(c.value);
      OutsideIsZero(c.value, m);
      CellAfterStoring(dur, data, o, rk, SpreadMap(c.value), o, rk, m);
    }
  }

  lemma OutsideIsZero(c: Counted, m: int)
    ensures !SpreadHas(c, m) ==> SpreadAt(c, m) == 0
  {
    hide RoundMinute, Bucket;
  }

  lemma SpreadAtBounds(c: Counted, m: int)
    requires 0 <= c.count
    ensures 0 <= SpreadAt(c, m) <= c.count
  {
    hide RoundMinute;
    var a, b := RoundMinute(c.first), RoundMinute(c.last);
    if a != b && a <= m < a + NumMinutes(a, b) {
      BucketBounds(c.count, NumMinutes(a, b), m - a);
    }
  }

  lemma BucketBounds(value: nat, buckets: nat, pos: nat)
    requires pos < buckets
    ensures 0 <= Bucket(value, buckets, pos) <= value
  {
    hide GoDiv, GoMod;
    var q, r := GoDiv(value, buckets), GoMod(value, buckets);
    GoModRange(value, buckets);
    QuotientParts(value, buckets);
    Times(q, buckets);
  }

  lemma QuotientParts(value: int, buckets: nat)
    requires buckets > 0
    ensures value == GoDiv(value, buckets) * buckets + GoMod(value, buckets)
  {
    hide GoDiv;
  }

  lemma Times(q: nat, b: nat)
    requires b > 0
    ensures q <= q * b
  {
  }

  ghost predicate WithinReach(run: Run, data: Data, i: nat)
    requires run.Extracting() && i <= |run.recs|
  {
    forall m :: run.CellOf(run.befores[0], m) + run.Trough(i) <= run.CellOf(data, m) <= run.CellOf(run.befores[0], m) + run.Peak(i)
  }

  /** Where the run stands after record `i`. */
  ghost predicate Standing(run: Run, i: nat, lo: int, n: nat)
    requires run.Series() && i < |run.recs|
  {
    && SoundWatch(run.dur, run.width, run.After(i))
    && LastRecord(run.dur, run.After(i), run.r, run.p) == Some(run.recs[i])
    && NoneAfter(run.dur, run.After(i), run.r, run.p, run.recs[i].timestamp)
    && WithinReach(run, run.After(i), i + 1)
    && SumMinutes(m => run.CellOf(run.After(i), m), lo, n)
         == SumMinutes(m => run.CellOf(run.befores[0], m), lo, n) + run.Total(i + 1)
  }

  lemma DiffIsProper(run: Run, i: nat)
    requires run.Series() && i < |run.recs|
    ensures run.Diff(i).first <= run.Diff(i).last && 0 <= run.Diff(i).count <= run.Info(i).count
    ensures run.Info(i).first <= run.Diff(i).first || (i > 0 && run.Info(i - 1).first <= run.Diff(i).first)
    ensures run.Diff(i).last == run.Info(i).last
  {
    hide StartOf, CleanInstant, Resource.Clean, Involved.Clean;
    if i > 0 && run.Info(i - 1).first < run.Info(i - 1).last && run.Info(i).first <= run.Info(i - 1).last {
      ShareIsNat(run.Info(i - 1).count, run.Info(i - 1).last - run.Info(i).first, run.Info(i - 1).last - run.Info(i - 1).first);
    }
  }

  lemma ShareIsNat(count: nat, part: nat, whole: nat)
    requires 0 < whole
    ensures 0 <= count * part / whole
  {
    assert 0 <= count * part;
  }

  /** What record `i` contributes, given that the one before it is the last one stored. */
  lemma ContributionIsDiff(run: Run, i: nat)
    requires run.Series() && i < |run.recs|
    requires LastRecord(run.dur, run.befores[i], run.r, run.p) == if i == 0 then None else Some(run.recs[i - 1])
    ensures Contribution(run.dur, run.nanInt, run.extract, run.befores[i], run.r, run.recs[i]) == run.Contributed(i)
  {
    hide LastRecord, StoreWindow, Adjust, StartOf, CleanInstant, Resource.Clean, Involved.Clean, ComputeEventsDiff;
    DiffIsWhatIsNew(run, i);
    var prev := if i == 0 then None else run.extract(run.recs[i - 1].payload);
    var c := ComputeEventsDiff(prev, run.Info(i));
    assert c == run.Diff(i) || (c.count == 0 && run.Diff(i).count == 0);
  }

  /** In each of its branches, what is computed from the record before is what that one has not reported. */
  lemma DiffIsWhatIsNew(run: Run, i: nat)
    requires run.Series() && i < |run.recs|
    ensures var c := ComputeEventsDiff(if i == 0 then None else Some(run.Info(i - 1)), run.Info(i));
            c == run.Diff(i) || (c.count == 0 && run.Diff(i).count == 0)
  {
    hide StartOf, CleanInstant, Resource.Clean, Involved.Clean, Scaled;
    if !run.Starts(i) && run.Info(i - 1).first < run.Info(i - 1).last < run.Info(i).last && run.Info(i).first != run.Info(i - 1).first {
      OverlapIsDiscounted(run.Info(i - 1), run.Info(i));
    }
  }

  lemma StoredHolds(run: Run, lo: int, n: nat, i: nat)
    requires run.Series() && run.Fits(lo, n) && i < |run.recs|
    ensures Holds(run.Stored(i), lo, n)
    ensures run.Stored(i).count >= 0 || RoundMinute(run.Stored(i).first) == RoundMinute(run.Stored(i).last)
  {
    hide StartOf, CleanInstant, Resource.Clean, Involved.Clean, Cell, StoreWindow, Clipped, InTable32, RoundMinute;
    hide Run.Diff, Run.Trough, Run.Peak;
    DiffIsProper(run, i);
    WindowIsProper(run.dur, run.befores[i]);
    StoredIsPart(run.nanInt, run.Diff(i), run.WindowAt(i));
    var s := run.Stored(i);
    var begin := if run.Info(i).first <= s.first then run.Info(i).first else run.Info(i - 1).first;
    RoundMinuteMonotone(begin, s.first);
    RoundMinuteMonotone(s.first, s.last);
    RoundMinuteMonotone(s.last, run.Info(i).last);
  }

  lemma RoundMinuteMonotone(s: int, t: int)
    requires s <= t
    ensures RoundMinute(s) <= RoundMinute(t)
  {
  }

  lemma AddedUp(run: Run, lo: int, n: nat, i: nat)
    requires run.Series() && i < |run.recs| && Holds(run.Stored(i), lo, n)
    requires run.Stored(i).count >= 0 || RoundMinute(run.Stored(i).first) == RoundMinute(run.Stored(i).last)
    requires forall m :: run.CellOf(run.After(i), m) == run.CellOf(run.befores[i], m) + SpreadAt(run.Stored(i), m)
    ensures SumMinutes(m => run.CellOf(run.After(i), m), lo, n)
         == SumMinutes(m => run.CellOf(run.befores[i], m), lo, n) + run.Stored(i).count
  {
    hide StartOf, CleanInstant, Resource.Clean, Involved.Clean, Cell, SpreadAt, Holds, AfterProcessing, RoundMinute, Run.Stored;
    SumOfSum(m => run.CellOf(run.befores[i], m), m => SpreadAt(run.Stored(i), m), m => run.CellOf(run.After(i), m), lo, n);
    SpreadConserves(run.Stored(i), lo, n);
  }

  lemma SameSum(f: int -> int, g: int -> int, lo: int, n: nat)
    requires forall m :: f(m) == g(m)
    ensures SumMinutes(f, lo, n) == SumMinutes(g, lo, n)
  {
    SumOfZeros(m => 0, lo, n);
    SumOfSum(g, m => 0, f, lo, n);
  }

  /** Where the run stands before record `i`. */
  ghost predicate Entering(run: Run, i: nat, lo: int, n: nat)
    requires run.Series() && i < |run.recs|
  {
    && SoundWatch(run.dur, run.width, run.befores[i])
    && LastRecord(run.dur, run.befores[i], run.r, run.p) == (if i == 0 then None else Some(run.recs[i - 1]))
    && NoneAfter(run.dur, run.befores[i], run.r, run.p, run.recs[i].timestamp)
    && WithinReach(run, run.befores[i], i)
    && SumMinutes(m => run.CellOf(run.befores[i], m), lo, n)
         == SumMinutes(m => run.CellOf(run.befores[0], m), lo, n) + run.Total(i)
  }

  lemma {:induction false} ReachGrows(run: Run, i: nat, j: nat)
    requires run.Extracting() && i <= j <= |run.recs|
    ensures run.Peak(i) <= run.Peak(j) && run.Trough(j) <= run.Trough(i)
    decreases j
  {
    hide Run.Stored;
    if i < j {
      ReachGrows(run, i, j - 1);
    }
  }

  lemma CellGrows(run: Run, lo: int, n: nat, i: nat, m: int)
    requires run.Series() && run.Fits(lo, n) && i < |run.recs| && Entering(run, i, lo, n)
    ensures run.CellOf(run.After(i), m) == run.CellOf(run.befores[i], m) + SpreadAt(run.Stored(i), m)
    ensures run.CellOf(run.befores[0], m) + run.Trough(i + 1) <= run.CellOf(run.After(i), m)
         <= run.CellOf(run.befores[0], m) + run.Peak(i + 1)
  {
    hide LastRecord, Run.Diff, Run.Total, Cell, SpreadAt, Contribution, SoundWatch, Clipped, InTable32, StoreWindow;
    hide NoneAfter, AfterEvent, SumMinutes, StartOf, CleanInstant, Share, RoundMinute, AfterProcessing;
    ContributionIsDiff(run, i);
    DiffIsProper(run, i);
    WindowIsProper(run.dur, run.befores[i]);
    ReachGrows(run, i + 1, |run.recs|);
    ShareIsStored(run.nanInt, run.Diff(i), run.WindowAt(i), m);
    assert run.CellOf(run.befores[0], m) + run.Trough(i) <= run.CellOf(run.befores[i], m) <= run.CellOf(run.befores[0], m) + run.Peak(i);
    CellAfterProcessing(run, i, run.Contributed(i), m);
  }

  lemma CellsGrow(run: Run, lo: int, n: nat, i: nat)
    requires run.Series() && run.Fits(lo, n) && i < |run.recs| && Entering(run, i, lo, n)
    ensures forall m :: run.CellOf(run.After(i), m) == run.CellOf(run.befores[i], m) + SpreadAt(run.Stored(i), m)
    ensures WithinReach(run, run.After(i), i + 1)
  {
    hide Run.Series, Run.Fits, Entering, SpreadAt, Run.Stored, Run.Peak, Run.Trough, AfterProcessing, Cell;
    RunIsExtracting(run);
    forall m
      ensures run.CellOf(run.After(i), m) == run.CellOf(run.befores[i], m) + SpreadAt(run.Stored(i), m)
      ensures run.CellOf(run.befores[0], m) + run.Trough(i + 1) <= run.CellOf(run.After(i), m)
           <= run.CellOf(run.befores[0], m) + run.Peak(i + 1)
    {
      CellGrows(run, lo, n, i, m);
    }
  }

  lemma NextStands(run: Run, lo: int, n: nat, i: nat)
    requires run.Series() && run.Undisturbed() && run.Fits(lo, n) && i < |run.recs|
    requires Entering(run, i, lo, n)
    ensures Standing(run, i, lo, n)
  {
    hide LastRecord, Run.Series, Run.Diff, Run.Stored, Run.Peak, Run.Total, Run.Undisturbed, Cell, SpreadAt;
    hide SoundWatch, NoneAfter, SumMinutes, AfterProcessing, WithinReach;
    RunIsExtracting(run);
    CellsGrow(run, lo, n, i);
    TotalNext(run, i);
    StoredHolds(run, lo, n, i);
    AddedUp(run, lo, n, i);
    LastAfterProcessing(run, i);
  }

  lemma TotalNext(run: Run, i: nat)
    requires run.Extracting() && i < |run.recs|
    ensures run.Total(i + 1) == run.Total(i) + run.Stored(i).count
  {
  }

  lemma LastAfterProcessing(run: Run, i: nat)
    requires run.Series() && i < |run.recs| && SoundWatch(run.dur, run.width, run.befores[i])
    requires NoneAfter(run.dur, run.befores[i], run.r, run.p, run.recs[i].timestamp)
    ensures SoundWatch(run.dur, run.width, run.After(i))
    ensures LastRecord(run.dur, run.After(i), run.r, run.p) == Some(run.recs[i])
    ensures NoneAfter(run.dur, run.After(i), run.r, run.p, run.recs[i].timestamp)
  {
    hide LastRecord, StartOf, CleanInstant, Resource.Clean, Involved.Clean, AfterEvent, SoundWatch, InTable, Parse;
    CountingKeepsSound(run.dur, run.width, run.nanInt, run.extract, run.befores[i], run.r, run.recs[i], run.o);
    var counted := AfterEvent(run.dur, run.nanInt, run.extract, run.befores[i], run.r, run.recs[i], run.o);
    assert Unrelated(run.befores[i], counted, run.r);
    assert NoneAfter(run.dur, counted, run.r, run.p, run.recs[i].timestamp);
    StoredIsLast(run.dur, run.width, counted, run.r, run.p, run.recs[i]);
  }

  lemma StandingEnters(run: Run, lo: int, n: nat, i: nat)
    requires run.Series() && run.Undisturbed() && 0 < i < |run.recs| && Standing(run, i - 1, lo, n)
    ensures Entering(run, i, lo, n)
  {
    hide LastRecord, Cell, SoundWatch, AfterProcessing, InTable, Parse, NoNilRecords, SumMinutes, CleanInstant, StartOf;
    UnrelatedLast(run.dur, run.width, run.After(i - 1), run.befores[i], run.r, run.p);
    SameSum(m => run.CellOf(run.befores[i], m), m => run.CellOf(run.After(i - 1), m), lo, n);
    assert WithinReach(run, run.After(i - 1), i);
  }

  lemma FirstEnters(run: Run, lo: int, n: nat)
    requires run.Series() && run.Undisturbed() && run.Fits(lo, n)
    ensures Entering(run, 0, lo, n)
  {
    hide LastRecord, Cell, SoundWatch, AfterProcessing, InTable, Parse, NoNilRecords, SumMinutes, CleanInstant, StartOf;
    NoneYet(run.dur, run.befores[0], run.r, run.p);
  }

  lemma {:induction false} RunStands(run: Run, lo: int, n: nat, i: nat)
    requires run.Series() && run.Undisturbed() && run.Fits(lo, n) && i < |run.recs|
    ensures Standing(run, i, lo, n)
    decreases i
  {
    hide Run.Series, Run.Diff, Run.Undisturbed, Run.Fits, Standing, Entering;
    if i == 0 {
      FirstEnters(run, lo, n);
    } else {
      RunStands(run, lo, n, i - 1);
      StandingEnters(run, lo, n, i);
    }
    NextStands(run, lo, n, i);
  }

  lemma NoneYet(dur: PartitionDuration, data: Data, r: Resource, p: int)
    requires forall s :: IsRecord(data, r, s) ==> StartOf(dur, TimeOf(s)) != p
    ensures LastRecord(dur, data, r, p) == None
  {
  }

  lemma RunContributes(run: Run, lo: int, n: nat, i: nat)
    requires run.Series() && run.Undisturbed() && run.Fits(lo, n) && i < |run.recs|
    ensures Contribution(run.dur, run.nanInt, run.extract, run.befores[i], run.r, run.recs[i]) == run.Contributed(i)
  {
    hide Contribution, Run.Contributed, Run.Undisturbed, Run.Fits, Cell, SumMinutes, SoundWatch, NoneAfter;
    if i == 0 {
      FirstEnters(run, lo, n);
    } else {
      RunStands(run, lo, n, i - 1);
      StandingEnters(run, lo, n, i);
    }
    ContributionIsDiff(run, i);
  }

  /** However the records of one event are spaced, and whatever else is stored between them, each record
      contributes exactly what is new in it, clipped to the partitions there are, and what is added for the
      object is the sum of these contributions. */
  lemma RunAddsUp(run: Run, lo: int, n: nat)
    requires run.Series() && run.Undisturbed() && run.Fits(lo, n)
    ensures forall i :: 0 <= i < |run.recs| ==>
              Contribution(run.dur, run.nanInt, run.extract, run.befores[i], run.r, run.recs[i]) == run.Contributed(i)
    ensures SumMinutes(m => run.CellOf(run.After(|run.recs| - 1), m), lo, n)
         == SumMinutes(m => run.CellOf(run.befores[0], m), lo, n) + run.Total(|run.recs|)
  {
    hide Contribution, Run.Contributed, Run.Undisturbed, Run.Fits, Cell, SumMinutes, Run.Total, Run.Peak;
    forall i | 0 <= i < |run.recs|
      ensures Contribution(run.dur, run.nanInt, run.extract, run.befores[i], run.r, run.recs[i]) == run.Contributed(i)
    {
      RunContributes(run, lo, n, i);
    }
    RunStands(run, lo, n, |run.recs| - 1);
  }

  /** What is stored of one record, and what is new in it. */
  lemma StoredIffWhole(run: Run, i: nat)
    requires run.Series() && run.Narrow() && i < |run.recs|
    ensures run.Whole(i) ==> run.Stored(i).count == run.Diff(i).count
    ensures run.nanInt == MIN_INT64 ==>
              run.Stored(i).count <= run.Diff(i).count && (run.Stored(i).count == run.Diff(i).count <==> run.Whole(i))
  {
    hide StartOf, CleanInstant, Resource.Clean, Involved.Clean, StoreWindow, Clipped, InTable32, Run.Diff;
    DiffIsProper(run, i);
    WindowIsProper(run.dur, run.befores[i]);
    StoredIsPart(run.nanInt, run.Diff(i), run.WindowAt(i));
    StoredIsWhole(run.nanInt, run.Diff(i), run.WindowAt(i));
    assert ToInt32(MIN_INT64) == 0;
  }

  lemma OwedNext(run: Run, i: nat)
    requires run.Extracting() && i < |run.recs|
    ensures run.Owed(0) == 0 && run.Owed(i + 1) == run.Owed(i) + run.Diff(i).count
  {
  }

  /** If each record counts in full, together they count what they report; with the `int(NaN)` of amd64, -2^63,
      only then, and less otherwise. */
  lemma {:induction false} TotalIffWhole(run: Run, i: nat)
    requires run.Series() && run.Narrow() && i <= |run.recs|
    ensures (forall j :: 0 <= j < i ==> run.Whole(j)) ==> run.Total(i) == run.Owed(i)
    ensures run.nanInt == MIN_INT64 ==>
              run.Total(i) <= run.Owed(i) && (run.Total(i) == run.Owed(i) <==> forall j :: 0 <= j < i ==> run.Whole(j))
    decreases i
  {
    hide Run.Series, Run.Stored, Run.Whole, Run.Diff, Run.Owed;
    RunIsExtracting(run);
    if i == 0 {
      OwedNext(run, 0);
    } else {
      TotalIffWhole(run, i - 1);
      StoredIffWhole(run, i - 1);
      OwedNext(run, i - 1);
      assert (forall j :: 0 <= j < i ==> run.Whole(j)) <==> run.Whole(i - 1) && forall j :: 0 <= j < i - 1 ==> run.Whole(j);
    }
  }

  lemma RunIsExtracting(run: Run)
    requires run.Series()
    ensures run.Extracting()
  {
  }

  /** What the records report is the sum of the last counts of the segments, each of which ends where a record
      starts after the one before, and of what the counts fell by within segments. If each record starts or goes
      on from the one before, that is nothing. */
  lemma {:induction false} OwedBySegments(run: Run, i: nat)
    requires run.Series() && 0 < i <= |run.recs|
    ensures run.Owed(i) == run.Closed(i) + run.Info(i - 1).count + run.Fallen(i)
    ensures (forall j :: 0 <= j < i ==> run.GoesOn(j)) ==> run.Fallen(i) == 0
    decreases i
  {
    hide Run.Series, Run.GoesOn, Run.Repeated, Run.Starts;
    RunIsExtracting(run);
    OwedNext(run, i - 1);
    if i == 1 {
      FirstIsNew(run);
    } else {
      OwedBySegments(run, i - 1);
      GoingOnRepeatsAll(run, i - 1);
    }
  }

  lemma GoingOnRepeatsAll(run: Run, i: nat)
    requires run.Series() && 0 < i < |run.recs|
    ensures run.Starts(i) ==> run.Repeated(i) == 0
    ensures run.GoesOn(i) && !run.Starts(i) ==> run.Repeated(i) == run.Info(i - 1).count
  {
    hide StartOf, CleanInstant, Resource.Clean, Involved.Clean;
  }

  /** Run conservation: what is added for the object sums to what the records report, if the new range of
      every record is longer than an instant and lies inside the partitions there are (or counts nothing); on
      amd64 exactly then. For records that go on from one another or start again, that is the sum of the last
      counts of the segments. */
  lemma RunConserves(run: Run, lo: int, n: nat)
    requires run.Series() && run.Undisturbed() && run.Fits(lo, n)
    ensures var last := |run.recs|;
            var added := SumMinutes(m => run.CellOf(run.After(last - 1), m), lo, n) - SumMinutes(m => run.CellOf(run.befores[0], m), lo, n);
            && ((forall i :: 0 <= i < last ==> run.Whole(i)) ==> added == run.Owed(last))
            && (run.nanInt == MIN_INT64 ==> (added == run.Owed(last) <==> forall i :: 0 <= i < last ==> run.Whole(i)))
            && run.Owed(last) == run.Closed(last) + run.Info(last - 1).count + run.Fallen(last)
            && ((forall i :: 0 <= i < last ==> run.GoesOn(i)) ==> run.Fallen(last) == 0)
  {
    hide Contribution, Run.Contributed, Run.Undisturbed, Cell, SumMinutes, Run.Total, Run.Whole, Run.Peak, Run.Trough;
    hide Run.Owed, Run.Closed, Run.Fallen, Run.GoesOn, Run.Series;
    RunIsExtracting(run);
    RunAddsUp(run, lo, n);
    TotalIffWhole(run, |run.recs|);
    OwedBySegments(run, |run.recs|);
  }

  lemma CountFits(run: Run, lo: int, n: nat)
    requires run.Series() && run.Fits(lo, n)
    ensures run.Narrow()
  {
  }

  /** When only the first record may be clipped. */
  lemma {:induction false} RestIsWhole(run: Run, i: nat)
    requires run.Series() && run.Narrow() && 0 < i <= |run.recs|
    ensures (forall j :: 0 < j < i ==> run.Whole(j)) ==> run.Total(i) == run.Stored(0).count + run.Owed(i) - run.Info(0).count
    decreases i
  {
    hide Run.Series, Run.Stored, Run.Whole, Run.Diff, Run.Owed;
    RunIsExtracting(run);
    OwedNext(run, i - 1);
    TotalNext(run, i - 1);
    if i == 1 {
      FirstIsNew(run);
    } else {
      RestIsWhole(run, i - 1);
      StoredIffWhole(run, i - 1);
    }
  }

  lemma FirstIsNew(run: Run)
    requires run.Extracting()
    ensures run.Total(0) == 0 && run.Diff(0) == Counted(run.Info(0).first, run.Info(0).last, run.Info(0).count)
  {
  }
}
