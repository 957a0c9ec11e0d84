/** The event count table: adding the counts of an event to the minutes of the object it is about. */
module EventCounts {
  import opened ByteStrings
  import opened Decimal
  import opened Partitions
  import opened WatchKeys
  import opened Tables
  import opened WatchTable
  import opened EventSpread

  const EVENT_TABLE: string := "eventcount"

  const MAX_INT32: int := 0x7fff_ffff
  const MIN_INT32: int := -0x8000_0000

  function ToInt32(x: int): int {
    (x + 0x8000_0000) % 0x1_0000_0000 - 0x8000_0000
  }

  /** The object an event is about. */
  datatype Involved = Involved(kind: string, namespace: string, name: string, uid: string) {
    predicate SlashFreeParts() {
      SlashFree(kind) && SlashFree(namespace) && SlashFree(name) && SlashFree(uid)
    }

    predicate Clean() {
      SlashFreeParts() && uid != ""
    }
  }

  /** The row of an object in the partition of a minute. Without a uid the last part is missing, which
      no lookup accepts. */
  function EventKey(dur: PartitionDuration, o: Involved, minute: int): string {
    var id := GetPartitionId(dur, minute * MINUTE);
    if o.uid == "" then TablePath(EVENT_TABLE) + (id + "/" + (o.kind + "/" + (o.namespace + "/" + o.name)))
    else TablePath(EVENT_TABLE) + Fields(id, o.kind, o.namespace, o.name, o.uid)
  }

  function ReasonKey(reason: string, severity: string): string {
    reason + ":" + severity
  }

  predicate ColonFree(s: string) {
    forall i :: 0 <= i < |s| ==> s[i] != ':'
  }

  /** The key starts with the reason and ends with the severity; so without colons in severities, no two pairs
      share a key. */
  lemma ReasonKeysOfOne(reason: string, severity: string, reason': string, severity': string)
    requires ColonFree(severity) && ColonFree(severity')
    ensures ReasonKey(reason, severity) == ReasonKey(reason', severity') <==> reason == reason' && severity == severity'
    ensures reason + ":" <= ReasonKey(reason, severity) && |ReasonKey(reason, severity)| == |reason| + 1 + |severity|
  {
    var a, b := ReasonKey(reason, severity), ReasonKey(reason', severity');
    LastColon(reason, severity);
    LastColon(reason', severity');
    if a == b {
      assert |reason| == |reason'|;
      assert reason == a[..|reason|] && reason' == b[..|reason'|];
      assert severity == a[|reason| + 1..] && severity' == b[|reason'| + 1..];
    }
  }

  lemma LastColon(reason: string, severity: string)
    requires ColonFree(severity)
    ensures var key := ReasonKey(reason, severity);
            |reason| < |key| && key[|reason|] == ':' && forall i :: |reason| < i < |key| ==> key[i] != ':'
  {
    var key := ReasonKey(reason, severity);
    forall i | |reason| < i < |key| ensures key[i] != ':' {
      assert key[i] == severity[i - |reason| - 1];
    }
  }

  /** Adding wraps around: the result is in range, and off by a multiple of 2^32. */
  lemma ToInt32Wraps(x: int)
    ensures MIN_INT32 <= ToInt32(x) <= MAX_INT32 && (x - ToInt32(x)) % 0x1_0000_0000 == 0
    ensures MIN_INT32 <= x <= MAX_INT32 ==> ToInt32(x) == x
  {
  }

  // ----- the table as a whole -----

  function CountIn(mins: Minutes, minute: int, rk: string): int {
    if minute in mins && rk in mins[minute] then mins[minute][rk] else 0
  }

  /** The record with `count` added to one minute, in 32 bits. */
  function Bump(mins: Minutes, minute: int, rk: string, count: int): map<string, int> {
    var inner: map<string, int> := if minute in mins then mins[minute] else map[];
    inner[rk := ToInt32(CountIn(mins, minute, rk) + ToInt32(count))]
  }

  function MinutesOf(data: Data, key: string): Minutes {
    if key in data && data[key].Events? then data[key].minutes else map[]
  }

  ghost function Added(dur: PartitionDuration, o: Involved, rk: string, mins: Minutes, key: string, counts: map<int, int>): Minutes {
    mins + map m | m in counts && EventKey(dur, o, m) == key :: Bump(mins, m, rk, counts[m])
  }

  ghost predicate Touched(dur: PartitionDuration, o: Involved, counts: map<int, int>, key: string) {
    exists m :: m in counts && EventKey(dur, o, m) == key
  }

  /** The store with all counts added: a function of the map, whatever order its minutes are visited in. */
  ghost function AfterStoring(dur: PartitionDuration, data: Data, o: Involved, rk: string, counts: map<int, int>): Data {
    data + map key | key in (set m | m in counts :: EventKey(dur, o, m)) ::
             Events(Added(dur, o, rk, MinutesOf(data, key), key, counts))
  }

  /** A record as this code writes it: it has a minute, and each of its minutes a reason. Without them the
      maps would read back as nil. */
  ghost predicate HasNoNil(mins: Minutes) {
    mins != map[] && forall m :: m in mins ==> mins[m] != map[]
  }

  ghost predicate NoNilRecords(data: Data) {
    forall k :: k in data && InTable(EVENT_TABLE, k) ==> data[k].Events? && HasNoNil(data[k].minutes)
  }

  lemma EventKeyInTable(dur: PartitionDuration, o: Involved, minute: int)
    ensures InTable(EVENT_TABLE, EventKey(dur, o, minute))
  {
    hide GetPartitionId;
  }

  lemma EventKeyValid(dur: PartitionDuration, o: Involved, minute: int)
    requires o.Clean()
    ensures RowPartition(EVENT_TABLE, EventKey(dur, o, minute)).Some?
    ensures Split(EventKey(dur, o, minute)) == ["", EVENT_TABLE, GetPartitionId(dur, minute * MINUTE), o.kind, o.namespace, o.name, o.uid]
  {
    hide GetPartitionId, Split;
    IdIsSlashFree(dur, minute * MINUTE);
    assert SlashFree(EVENT_TABLE);
    SplitSix(EVENT_TABLE, GetPartitionId(dur, minute * MINUTE), o.kind, o.namespace, o.name, o.uid);
  }

  /** Minutes whose partition ids have 12 digits. */
  predicate MinuteFits(dur: PartitionDuration, minute: int) {
    0 <= minute * MINUTE && StartOf(dur, minute * MINUTE) + dur.Seconds() < MAX_ID
  }

  lemma EventKeySound(dur: PartitionDuration, o: Involved, minute: int)
    requires o.Clean() && MinuteFits(dur, minute)
    ensures SoundRow(dur, EVENT_TABLE, EventKey(dur, o, minute))
  {
    hide FormatId, ParseInt, Split, EventKey;
    EventKeyValid(dur, o, minute);
    StartOfBounds(dur, minute * MINUTE);
    IdFaithful(StartOf(dur, minute * MINUTE));
  }

  lemma NoUidNoRow(dur: PartitionDuration, o: Involved, minute: int)
    requires o.SlashFreeParts() && o.uid == ""
    ensures RowPartition(EVENT_TABLE, EventKey(dur, o, minute)).None?
  {
    hide GetPartitionId, Split, SlashFree;
    var id := GetPartitionId(dur, minute * MINUTE);
    IdIsSlashFree(dur, minute * MINUTE);
    assert SlashFree(EVENT_TABLE) && SlashFree("") by {
      ShortSlashFree();
    }
    SplitWhole(o.name);
    SplitField(o.namespace, o.name);
    SplitField(o.kind, o.namespace + "/" + o.name);
    SplitField(id, o.kind + "/" + (o.namespace + "/" + o.name));
    var rest := id + "/" + (o.kind + "/" + (o.namespace + "/" + o.name));
    SplitField(EVENT_TABLE, rest);
    SplitField("", EVENT_TABLE + "/" + rest);
    assert EventKey(dur, o, minute) == "" + "/" + (EVENT_TABLE + "/" + rest);
    assert |Split(EventKey(dur, o, minute))| == 6;
  }

  lemma ShortSlashFree()
    ensures SlashFree(EVENT_TABLE) && SlashFree("")
  {
  }

  lemma IdIsSlashFree(dur: PartitionDuration, t: int)
    ensures SlashFree(GetPartitionId(dur, t))
  {
    hide ToUint64, Digits, StartOf;
    NumeralAsciiSlashFree(GetPartitionId(dur, t));
  }

  /** Different objects never share a row. */
  lemma EventKeysOfOne(dur: PartitionDuration, o: Involved, m: int, o': Involved, m': int)
    requires o.Clean() && o'.Clean() && EventKey(dur, o, m) == EventKey(dur, o', m')
    ensures o == o'
  {
    hide GetPartitionId, EventKey, Split;
    EventKeyValid(dur, o, m);
    EventKeyValid(dur, o', m');
    var s := Split(EventKey(dur, o, m));
    assert s[3] == o.kind == o'.kind && s[4] == o.namespace == o'.namespace;
    assert s[5] == o.name == o'.name && s[6] == o.uid == o'.uid;
  }

  // ----- storeMinutes -----

  lemma RowAfterStoring(dur: PartitionDuration, data: Data, o: Involved, rk: string, counts: map<int, int>, k: string)
    ensures var after := AfterStoring(dur, data, o, rk, counts);
            && (k in after <==> k in data || Touched(dur, o, counts, k))
            && (k in after ==> after[k] == if Touched(dur, o, counts, k) then Events(Added(dur, o, rk, MinutesOf(data, k), k, counts))
                                           else data[k])
  {
    hide EventKey, Added, MinutesOf;
  }

  lemma StoreOne(dur: PartitionDuration, data: Data, o: Involved, rk: string, counts: map<int, int>, m: int, count: int)
    requires m !in counts
    ensures var before := AfterStoring(dur, data, o, rk, counts);
            var key := EventKey(dur, o, m);
            var mins := MinutesOf(before, key);
            AfterStoring(dur, data, o, rk, counts[m := count]) == before[key := Events(mins[m := Bump(mins, m, rk, count)])]
  {
    hide EventKey, Bump, MinutesOf, AfterStoring, Added;
    var before := AfterStoring(dur, data, o, rk, counts);
    var counts' := counts[m := count];
    var after := AfterStoring(dur, data, o, rk, counts');
    var key := EventKey(dur, o, m);
    var mins, was := MinutesOf(before, key), MinutesOf(data, key);
    AddOne(dur, o, rk, was, key, counts, m, count);
    MinutesAfterStoring(dur, data, o, rk, counts, key);
    assert m in counts';
    RowAfterStoring(dur, data, o, rk, counts', key);
    forall k | k != key
      ensures k in after <==> k in before
      ensures k in after ==> after[k] == before[k]
    {
      RowAfterStoring(dur, data, o, rk, counts, k);
      RowAfterStoring(dur, data, o, rk, counts', k);
      AddElsewhere(dur, o, rk, MinutesOf(data, k), k, counts, m, count);
      assert Touched(dur, o, counts', k) <==> Touched(dur, o, counts, k);
    }
    assert after == before[key := Events(mins[m := Bump(mins, m, rk, count)])];
  }

  lemma MinutesAfterStoring(dur: PartitionDuration, data: Data, o: Involved, rk: string, counts: map<int, int>, key: string)
    ensures MinutesOf(AfterStoring(dur, data, o, rk, counts), key) == Added(dur, o, rk, MinutesOf(data, key), key, counts)
  {
    hide EventKey, Bump;
    if !Touched(dur, o, counts, key) {
      assert Added(dur, o, rk, MinutesOf(data, key), key, counts) == MinutesOf(data, key);
    }
  }

  lemma AddedAt(dur: PartitionDuration, o: Involved, rk: string, mins: Minutes, key: string, counts: map<int, int>, k: int)
    ensures var after := Added(dur, o, rk, mins, key, counts);
            var here := k in counts && EventKey(dur, o, k) == key;
            && (k in after <==> k in mins || here)
            && (k in after ==> after[k] == if here then Bump(mins, k, rk, counts[k]) else mins[k])
  {
    hide EventKey, Bump;
  }

  lemma AddOne(dur: PartitionDuration, o: Involved, rk: string, mins: Minutes, key: string, counts: map<int, int>, m: int, count: int)
    requires m !in counts && EventKey(dur, o, m) == key
    ensures var before := Added(dur, o, rk, mins, key, counts);
            Added(dur, o, rk, mins, key, counts[m := count]) == before[m := Bump(before, m, rk, count)]
  {
    hide EventKey, Bump, Added;
    var before, after := Added(dur, o, rk, mins, key, counts), Added(dur, o, rk, mins, key, counts[m := count]);
    forall k ensures k in after <==> k == m || k in before
             ensures k in after ==> after[k] == if k == m then Bump(mins, m, rk, count) else before[k] {
      AddedAt(dur, o, rk, mins, key, counts, k);
      AddedAt(dur, o, rk, mins, key, counts[m := count], k);
    }
    assert after == before[m := Bump(mins, m, rk, count)];
    AddedAt(dur, o, rk, mins, key, counts, m);
    SameBump(mins, before, m, rk, count);
  }

  lemma SameBump(a: Minutes, b: Minutes, m: int, rk: string, count: int)
    requires (m in a <==> m in b) && (m in a ==> a[m] == b[m])
    ensures Bump(a, m, rk, count) == Bump(b, m, rk, count)
  {
    hide ToInt32;
  }

  lemma AddElsewhere(dur: PartitionDuration, o: Involved, rk: string, mins: Minutes, key: string, counts: map<int, int>, m: int, count: int)
    requires m !in counts && EventKey(dur, o, m) != key
    ensures Added(dur, o, rk, mins, key, counts[m := count]) == Added(dur, o, rk, mins, key, counts)
  {
    hide EventKey, Bump;
  }

  lemma StoreNothing(dur: PartitionDuration, data: Data, o: Involved, rk: string)
    ensures AfterStoring(dur, data, o, rk, map[]) == data
  {
  }

  lemma AddingKeepsReasons(dur: PartitionDuration, o: Involved, rk: string, mins: Minutes, key: string, counts: map<int, int>)
    requires forall m :: m in mins ==> mins[m] != map[]
    ensures var mins' := Added(dur, o, rk, mins, key, counts);
            (forall m :: m in mins' ==> mins'[m] != map[]) && (Touched(dur, o, counts, key) ==> mins' != map[])
  {
    hide EventKey, Bump;
    forall m ensures m in counts ==> Bump(mins, m, rk, counts[m]) != map[] {
      if m in counts {
        BumpHasReason(mins, m, rk, counts[m]);
      }
    }
    if m :| m in counts && EventKey(dur, o, m) == key {
      assert m in Added(dur, o, rk, mins, key, counts);
    }
  }

  lemma BumpHasReason(mins: Minutes, minute: int, rk: string, count: int)
    ensures rk in Bump(mins, minute, rk, count) && Bump(mins, minute, rk, count) != map[]
  {
  }

  lemma StoringKeepsNoNil(dur: PartitionDuration, data: Data, o: Involved, rk: string, counts: map<int, int>)
    requires NoNilRecords(data)
    ensures NoNilRecords(AfterStoring(dur, data, o, rk, counts))
  {
    hide EventKey, Bump, AfterStoring, Added;
    var after := AfterStoring(dur, data, o, rk, counts);
    forall k | k in after && InTable(EVENT_TABLE, k)
      ensures after[k].Events? && HasNoNil(after[k].minutes)
    {
      RowAfterStoring(dur, data, o, rk, counts, k);
      if Touched(dur, o, counts, k) {
        AddingKeepsReasons(dur, o, rk, MinutesOf(data, k), k, counts);
      }
    }
  }

  /** The rows written are rows of the table, in partitions of the minutes. */
  lemma StoringKeepsTables(dur: PartitionDuration, data: Data, o: Involved, rk: string, counts: map<int, int>)
    requires SoundTables(dur, data.Keys) && o.Clean() && forall m :: m in counts ==> MinuteFits(dur, m)
    ensures SoundTables(dur, AfterStoring(dur, data, o, rk, counts).Keys)
    ensures forall k :: k in AfterStoring(dur, data, o, rk, counts) ==> k in data || InStore(k)
  {
    hide EventKey, Involved.Clean, AfterStoring, SoundRow, InTable, IsTable, MinuteFits, Added, InStore;
    var after := AfterStoring(dur, data, o, rk, counts);
    assert IsTable(EVENT_TABLE) by {
      EventTableIsTable();
    }
    forall k | k in after && k !in data
      ensures SoundRow(dur, EVENT_TABLE, k) && InStore(k)
    {
      RowAfterStoring(dur, data, o, rk, counts, k);
      var m :| m in counts && EventKey(dur, o, m) == k;
      EventKeySound(dur, o, m);
      RowKeepsTables(dur, data.Keys, EVENT_TABLE, k);
    }
    forall t | IsTable(t) ensures SoundTable(dur, t, after.Keys) {
      assert SoundTable(dur, t, data.Keys);
      forall k | k in after && InTable(t, k) ensures SoundRow(dur, t, k) {
        if k !in data {
          RowUnderId(dur, EVENT_TABLE, k);
          OneTable(t, EVENT_TABLE, k);
        }
      }
    }
  }

  lemma EventTableIsTable()
    ensures IsTable(EVENT_TABLE)
  {
    assert EVENT_TABLE == TABLE_NAMES[2];
  }

  ghost function Restrict(counts: map<int, int>, done: set<(int, int)>): map<int, int> {
    map m | m in counts && (m, counts[m]) in done :: counts[m]
  }

  /** Reads, adds to and writes back the record of one minute. Stops on a key that does not parse, without an
      error on a record without minutes, and with a panic on a minute without reasons. */
  method AddToMinute(dur: PartitionDuration, db: Db, o: Involved, rk: string, minute: int, count: int) returns (ok: bool)
    modifies db
    ensures ok ==> var key := EventKey(dur, o, minute); var mins := MinutesOf(old(db.data), key);
                   db.data == old(db.data)[key := Events(mins[minute := Bump(mins, minute, rk, count)])]
    ensures !ok ==> db.data == old(db.data)
    ensures NoNilRecords(old(db.data)) && o.Clean() ==> ok
    ensures o.SlashFreeParts() && o.uid == "" ==> !ok
  {
    hide EventKey, RowPartition;
    if o.SlashFreeParts() && o.uid == "" {
      NoUidNoRow(dur, o, minute);
    }
    var key := EventKey(dur, o, minute);
    EventKeyInTable(dur, o, minute);
    if o.Clean() {
      EventKeyValid(dur, o, minute);
    }
    if RowPartition(EVENT_TABLE, key).None? {
      return false;
    }
    if key in db.data && (!db.data[key].Events? || db.data[key].minutes == map[]) {
      return false;
    }
    var mins := MinutesOf(db.data, key);
    if minute in mins && mins[minute] == map[] {
      return false;
    }
    db.Set(key, Events(mins[minute := Bump(mins, minute, rk, count)]));
    return true;
  }

  method GroupByPartition(dur: PartitionDuration, minToCount: map<int, int>) returns (byPartition: map<string, map<int, int>>)
    ensures forall m :: m in minToCount ==> GetPartitionId(dur, m * MINUTE) in byPartition
    ensures forall id :: id in byPartition ==> byPartition[id] == MinutesIn(dur, minToCount, id, {})
  {
    hide GetPartitionId;
    byPartition := map[];
    var rest := minToCount.Items;
    while rest != {}
      invariant rest <= minToCount.Items
      invariant forall m :: m in minToCount && (m, minToCount[m]) !in rest ==> GetPartitionId(dur, m * MINUTE) in byPartition
      invariant forall id :: id in byPartition ==> byPartition[id] == MinutesIn(dur, minToCount, id, rest)
      decreases |rest|
    {
      var item :| item in rest;
      var (m, count) := item;
      var id := GetPartitionId(dur, m * MINUTE);
      if id !in byPartition {
        byPartition := byPartition[id := map[]];
      }
      byPartition := byPartition[id := byPartition[id][m := count]];
      rest := rest - {item};
    }
  }

  /** The minutes of one partition, except those in `rest`. */
  ghost function MinutesIn(dur: PartitionDuration, minToCount: map<int, int>, id: string, rest: set<(int, int)>): map<int, int> {
    map m | m in minToCount && (m, minToCount[m]) !in rest && GetPartitionId(dur, m * MINUTE) == id :: minToCount[m]
  }

  lemma RestrictEnds(counts: map<int, int>)
    ensures Restrict(counts, {}) == map[] && Restrict(counts, counts.Items) == counts
  {
  }

  lemma StoreNext(dur: PartitionDuration, data: Data, o: Involved, rk: string, counts: map<int, int>, done: set<(int, int)>, m: int)
    requires m in counts && (m, counts[m]) !in done
    ensures var before := AfterStoring(dur, data, o, rk, Restrict(counts, done));
            var key := EventKey(dur, o, m);
            var mins := MinutesOf(before, key);
            AfterStoring(dur, data, o, rk, Restrict(counts, done + {(m, counts[m])}))
              == before[key := Events(mins[m := Bump(mins, m, rk, counts[m])])]
    ensures NoNilRecords(data) ==> NoNilRecords(AfterStoring(dur, data, o, rk, Restrict(counts, done + {(m, counts[m])})))
  {
    hide EventKey, AfterStoring, MinutesOf, Bump, NoNilRecords;
    StoreOne(dur, data, o, rk, Restrict(counts, done), m, counts[m]);
    assert Restrict(counts, done)[m := counts[m]] == Restrict(counts, done + {(m, counts[m])});
    if NoNilRecords(data) {
      StoringKeepsNoNil(dur, data, o, rk, Restrict(counts, done + {(m, counts[m])}));
    }
  }

  /** The store `now` is `data` with the counts of the minutes `done` added. */
  ghost predicate Stored(dur: PartitionDuration, data: Data, o: Involved, rk: string, counts: map<int, int>, done: set<(int, int)>, now: Data) {
    NoNilRecords(now) && now == AfterStoring(dur, data, o, rk, Restrict(counts, done))
  }

  lemma StoredEnds(dur: PartitionDuration, data: Data, o: Involved, rk: string, counts: map<int, int>)
    ensures NoNilRecords(data) ==> Stored(dur, data, o, rk, counts, {}, data)
    ensures forall now :: Stored(dur, data, o, rk, counts, counts.Items, now) ==>
              NoNilRecords(now) && now == AfterStoring(dur, data, o, rk, counts)
  {
    hide AfterStoring, NoNilRecords, EventKey;
    StoreNothing(dur, data, o, rk);
    RestrictEnds(counts);
  }

  lemma NoNilSoFar(dur: PartitionDuration, data: Data, o: Involved, rk: string, counts: map<int, int>, done: set<(int, int)>, now: Data)
    ensures Stored(dur, data, o, rk, counts, done, now) ==> NoNilRecords(now)
  {
  }

  lemma StoredNext(dur: PartitionDuration, data: Data, o: Involved, rk: string, counts: map<int, int>, done: set<(int, int)>,
                   item: (int, int), now: Data, next: Data)
    requires NoNilRecords(data) && Stored(dur, data, o, rk, counts, done, now) && item in counts.Items && item !in done
    requires var key := EventKey(dur, o, item.0); var mins := MinutesOf(now, key);
             next == now[key := Events(mins[item.0 := Bump(mins, item.0, rk, item.1)])]
    ensures Stored(dur, data, o, rk, counts, done + {item}, next)
  {
    hide AfterStoring, NoNilRecords, EventKey, MinutesOf, Bump, Restrict;
    StoreNext(dur, data, o, rk, counts, done, item.0);
    assert item == (item.0, counts[item.0]);
  }

  lemma OneMoreDone(done: set<(int, int)>, all: set<(int, int)>, rest: set<(int, int)>, item: (int, int))
    ensures item in all ==> done + (all - rest) + {item} == done + (all - (rest - {item}))
    ensures rest == {} ==> done + (all - rest) == done + all
    ensures rest == all ==> done + (all - rest) == done
  {
  }

  /** The minutes of one partition, in arbitrary order. */
  method StorePartition(dur: PartitionDuration, db: Db, o: Involved, rk: string, part: map<int, int>,
                        ghost data: Data, ghost counts: map<int, int>, ghost done: set<(int, int)>)
    returns (ok: bool)
    requires part.Items <= counts.Items && part.Items !! done
    modifies db
    ensures NoNilRecords(data) && o.Clean() && Stored(dur, data, o, rk, counts, done, old(db.data)) ==>
              ok && Stored(dur, data, o, rk, counts, done + part.Items, db.data)
    ensures o.SlashFreeParts() && o.uid == "" ==> db.data == old(db.data) && (ok <==> part == map[])
  {
    hide EventKey, NoNilRecords, Bump, Involved.Clean, Involved.SlashFreeParts, Stored, MinutesOf;
    ghost var fine := NoNilRecords(data) && o.Clean() && Stored(dur, data, o, rk, counts, done, db.data);
    var items := part.Items;
    OneMoreDone(done, part.Items, items, (0, 0));
    while items != {}
      invariant items <= part.Items
      invariant fine ==> Stored(dur, data, o, rk, counts, done + (part.Items - items), db.data)
      invariant o.SlashFreeParts() && o.uid == "" ==> db.data == old(db.data) && items == part.Items
      decreases |items|
    {
      var item :| item in items;
      ghost var now := db.data;
      OneMoreDone(done, part.Items, items, item);
      NoNilSoFar(dur, data, o, rk, counts, done + (part.Items - items), now);
      var added := AddToMinute(dur, db, o, rk, item.0, item.1);
      if !added {
        return false;
      }
      if fine {
        StoredNext(dur, data, o, rk, counts, done + (part.Items - items), item, now, db.data);
      }
      items := items - {item};
    }
    OneMoreDone(done, part.Items, items, (0, 0));
    return true;
  }

  /** The minutes of the partitions that are not in `ids`. */
  ghost function ItemsOutside(dur: PartitionDuration, counts: map<int, int>, ids: set<string>): set<(int, int)> {
    set i | i in counts.Items && GetPartitionId(dur, i.0 * MINUTE) !in ids
  }

  lemma ItemsOutsideEnds(dur: PartitionDuration, counts: map<int, int>, ids: set<string>)
    requires forall m :: m in counts ==> GetPartitionId(dur, m * MINUTE) in ids
    ensures ItemsOutside(dur, counts, ids) == {} && ItemsOutside(dur, counts, {}) == counts.Items
  {
    hide GetPartitionId;
  }

  lemma ItemsOutsideNext(dur: PartitionDuration, counts: map<int, int>, ids: set<string>, id: string)
    requires id in ids
    ensures var part := MinutesIn(dur, counts, id, {});
            && part.Items <= counts.Items && part.Items !! ItemsOutside(dur, counts, ids)
            && ItemsOutside(dur, counts, ids - {id}) == ItemsOutside(dur, counts, ids) + part.Items
  {
    hide GetPartitionId;
  }

  lemma SomeMinute(dur: PartitionDuration, counts: map<int, int>, id: string)
    ensures MinutesIn(dur, counts, id, {}) != map[] ==> counts != map[]
  {
    hide GetPartitionId;
  }

  lemma NoPartNoMinute(dur: PartitionDuration, counts: map<int, int>, byPartition: map<string, map<int, int>>)
    requires forall m :: m in counts ==> GetPartitionId(dur, m * MINUTE) in byPartition
    requires forall id :: id in byPartition ==> byPartition[id] == MinutesIn(dur, counts, id, {})
    ensures (forall id :: id in byPartition ==> byPartition[id] == map[]) ==> counts == map[]
  {
    hide GetPartitionId;
    if counts != map[] {
      assert counts.Items != {};
      var item :| item in counts.Items;
      assert item.0 in byPartition[GetPartitionId(dur, item.0 * MINUTE)];
    }
  }

  /** Groups the minutes by partition, then visits the partitions in arbitrary order. Without a uid no row
      can be written: nothing is stored, and an error reported if there was anything to store. */
  method StoreMinutes(dur: PartitionDuration, db: Db, minToCount: map<int, int>, o: Involved, reason: string, severity: string)
    returns (ok: bool)
    modifies db
    ensures NoNilRecords(old(db.data)) && o.Clean() ==>
              && ok && NoNilRecords(db.data)
              && db.data == AfterStoring(dur, old(db.data), o, ReasonKey(reason, severity), minToCount)
    ensures o.SlashFreeParts() && o.uid == "" ==> db.data == old(db.data) && (ok <==> minToCount == map[])
  {
    hide EventKey, GetPartitionId, AfterStoring, NoNilRecords, Involved.Clean, Involved.SlashFreeParts, Stored, ReasonKey;
    hide ItemsOutside, MinutesIn;
    var rk := ReasonKey(reason, severity);
    var byPartition := GroupByPartition(dur, minToCount);
    ghost var data := db.data;
    ghost var fine := NoNilRecords(data) && o.Clean();
    StoredEnds(dur, data, o, rk, minToCount);
    var ids := byPartition.Keys;
    ItemsOutsideEnds(dur, minToCount, ids);
    while ids != {}
      invariant ids <= byPartition.Keys
      invariant fine ==> Stored(dur, data, o, rk, minToCount, ItemsOutside(dur, minToCount, ids), db.data)
      invariant o.SlashFreeParts() && o.uid == "" ==>
                  db.data == old(db.data) && forall id :: id in byPartition && id !in ids ==> byPartition[id] == map[]
      decreases |ids|
    {
      var id :| id in ids;
      ItemsOutsideNext(dur, minToCount, ids, id);
      var stored := StorePartition(dur, db, o, rk, byPartition[id], data, minToCount, ItemsOutside(dur, minToCount, ids));
      if !stored {
        SomeMinute(dur, minToCount, id);
        return false;
      }
      ids := ids - {id};
    }
    NoPartNoMinute(dur, minToCount, byPartition);
    return true;
  }

  // ----- what a cell of the table holds -----

  /** The count of an object, a minute and a `reason:severity`. */
  ghost function Cell(dur: PartitionDuration, data: Data, o: Involved, rk: string, minute: int): int {
    CountIn(MinutesOf(data, EventKey(dur, o, minute)), minute, rk)
  }

  /** Storing adds each minute's count to its cell, in 32 bits, and leaves every other cell alone. */
  lemma CellAfterStoring(dur: PartitionDuration, data: Data, o: Involved, rk: string, counts: map<int, int>,
                         o': Involved, rk': string, minute: int)
    requires o.Clean() && o'.Clean()
    ensures Cell(dur, AfterStoring(dur, data, o, rk, counts), o', rk', minute)
            == if o' == o && rk' == rk && minute in counts
               then ToInt32(Cell(dur, data, o, rk, minute) + ToInt32(counts[minute]))
               else Cell(dur, data, o', rk', minute)
  {
    hide EventKey, ToInt32, MinutesOf, AfterStoring, Involved.Clean;
    var key := EventKey(dur, o', minute);
    var mins := MinutesOf(data, key);
    MinutesAfterStoring(dur, data, o, rk, counts, key);
    if o' != o {
      forall m ensures EventKey(dur, o, m) != key {
        if EventKey(dur, o, m) == key {
          EventKeysOfOne(dur, o, m, o', minute);
        }
      }
    }
    CountAfterAdding(dur, o, rk, mins, key, counts, rk', minute);
  }

  lemma CountAfterAdding(dur: PartitionDuration, o: Involved, rk: string, mins: Minutes, key: string, counts: map<int, int>,
                         rk': string, minute: int)
    ensures CountIn(Added(dur, o, rk, mins, key, counts), minute, rk')
            == if minute in counts && EventKey(dur, o, minute) == key && rk' == rk
               then ToInt32(CountIn(mins, minute, rk) + ToInt32(counts[minute])) else CountIn(mins, minute, rk')
  {
    hide EventKey, ToInt32;
  }

  /** Nothing outside the event count table changes. */
  lemma StoringKeepsOthers(dur: PartitionDuration, data: Data, o: Involved, rk: string, counts: map<int, int>, k: string)
    requires !InTable(EVENT_TABLE, k)
    ensures k in AfterStoring(dur, data, o, rk, counts) <==> k in data
    ensures k in data ==> AfterStoring(dur, data, o, rk, counts)[k] == data[k]
  {
    hide EventKey;
    forall m ensures EventKey(dur, o, m) != k {
      EventKeyInTable(dur, o, m);
    }
  }
}
