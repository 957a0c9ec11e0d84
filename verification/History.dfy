/** The payload history of one resource over a time range. */
module History {
  import opened Decimal
  import opened Wrappers
  import opened Partitions
  import opened WatchKeys
  import opened Tables
  import opened WatchTable
  import opened RangeReads

  datatype PayloadOutput = PayloadOutput(payloadKey: string, payloadTime: int, payload: string)

  ghost predicate TimeOrdered(list: seq<PayloadOutput>) {
    forall i, j :: 0 <= i < j < |list| ==> list[i].payloadTime <= list[j].payloadTime
  }

  /** What a reader of the list takes to be the payload at instant `t`; nothing yet counts as "". */
  function PayloadAt(list: seq<PayloadOutput>, t: int): string {
    if list == [] then ""
    else if list[|list| - 1].payloadTime <= t then list[|list| - 1].payload
    else PayloadAt(list[..|list| - 1], t)
  }

  // ----- removeDupePayloads -----

  function InsertByTime(p: PayloadOutput, list: seq<PayloadOutput>): (r: seq<PayloadOutput>)
    requires TimeOrdered(list)
    ensures TimeOrdered(r) && multiset(r) == multiset(list) + multiset{p}
    ensures forall e :: e in r <==> e == p || e in list
  {
    if list == [] || p.payloadTime <= list[0].payloadTime then
      [p] + list
    else
      var rest := InsertByTime(p, list[1..]);
      assert list == [list[0]] + list[1..];
      assert forall e :: e in rest ==> list[0].payloadTime <= e.payloadTime;
      ConsOrdered(list[0], rest);
      [list[0]] + rest
  }

  lemma ConsOrdered(p: PayloadOutput, list: seq<PayloadOutput>)
    requires TimeOrdered(list) && forall e :: e in list ==> p.payloadTime <= e.payloadTime
    ensures TimeOrdered([p] + list)
  {
  }

  /** Sorting by payload time. */
  function SortByTime(list: seq<PayloadOutput>): (r: seq<PayloadOutput>)
    ensures TimeOrdered(r) && multiset(r) == multiset(list)
    ensures forall e :: e in r <==> e in list
  {
    if list == [] then []
    else
      assert list == [list[0]] + list[1..];
      InsertByTime(list[0], SortByTime(list[1..]))
  }

  /** `sort.Slice` by payload time. It is not stable: a caller knows no more than that the result is ordered
      and has the same entries. */
  method SortSlice(payloads: seq<PayloadOutput>) returns (sorted: seq<PayloadOutput>)
    ensures IsSorting(payloads, sorted)
  {
    sorted := SortByTime(payloads);
  }

  ghost predicate IsSorting(payloads: seq<PayloadOutput>, sorted: seq<PayloadOutput>) {
    TimeOrdered(sorted) && multiset(sorted) == multiset(payloads)
  }

  lemma SameEntries(payloads: seq<PayloadOutput>, sorted: seq<PayloadOutput>)
    requires IsSorting(payloads, sorted)
    ensures forall e :: e in sorted <==> e in payloads
  {
    assert forall e :: e in sorted <==> e in multiset(sorted);
  }

  lemma PayloadAtSnoc(list: seq<PayloadOutput>, v: PayloadOutput, t: int)
    ensures PayloadAt(list + [v], t) == if v.payloadTime <= t then v.payload else PayloadAt(list, t)
  {
    assert (list + [v])[..|list|] == list;
  }

  function LastPayload(list: seq<PayloadOutput>): string {
    if list == [] then "" else list[|list| - 1].payload
  }

  /** No two neighbours agree, and the first entry differs from the empty start. */
  ghost predicate NoDupes(list: seq<PayloadOutput>) {
    && (list != [] ==> list[0].payload != "")
    && forall i, j :: 0 <= i < j < |list| && j == i + 1 ==> list[i].payload != list[j].payload
  }

  /** What the loop of `removeDupePayloads` has established after the entries `seen`. */
  ghost predicate Deduped(seen: seq<PayloadOutput>, ret: seq<PayloadOutput>) {
    && (forall t :: PayloadAt(ret, t) == PayloadAt(seen, t))
    && (forall e :: e in ret ==> e in seen)
    && TimeOrdered(ret) && NoDupes(ret) && LastPayload(ret) == LastPayload(seen)
  }

  lemma DedupeStep(seen: seq<PayloadOutput>, ret: seq<PayloadOutput>, v: PayloadOutput)
    requires Deduped(seen, ret) && TimeOrdered(seen + [v])
    ensures Deduped(seen + [v], if v.payload != LastPayload(seen) then ret + [v] else ret)
  {
    hide PayloadAt, TimeOrdered, NoDupes;
    var ret' := if v.payload != LastPayload(seen) then ret + [v] else ret;
    OrderedAtEnd(seen, v);
    forall t
      ensures PayloadAt(ret', t) == PayloadAt(seen + [v], t)
    {
      PayloadAtSnoc(seen, v, t);
      PayloadAtSnoc(ret, v, t);
      if v.payloadTime <= t {
        PayloadAtEnd(ret, t);
      }
    }
    SnocOrdered(ret, v);
    if v.payload != LastPayload(seen) {
      SnocNoDupes(ret, v);
    }
  }

  lemma OrderedAtEnd(seen: seq<PayloadOutput>, v: PayloadOutput)
    requires TimeOrdered(seen + [v])
    ensures forall e :: e in seen ==> e.payloadTime <= v.payloadTime
  {
    forall i | 0 <= i < |seen| ensures seen[i].payloadTime <= v.payloadTime {
      assert (seen + [v])[i] == seen[i] && (seen + [v])[|seen|] == v;
    }
  }

  lemma SnocNoDupes(list: seq<PayloadOutput>, v: PayloadOutput)
    requires NoDupes(list) && v.payload != LastPayload(list)
    ensures NoDupes(list + [v])
  {
    var list' := list + [v];
    forall i, j | 0 <= i < j < |list'| && j == i + 1
      ensures list'[i].payload != list'[j].payload
    {
      assert list'[i] == list[i] && list'[j] == if j < |list| then list[j] else v;
    }
  }

  lemma SnocOrdered(list: seq<PayloadOutput>, v: PayloadOutput)
    requires TimeOrdered(list) && forall e :: e in list ==> e.payloadTime <= v.payloadTime
    ensures TimeOrdered(list + [v])
  {
  }

  lemma PayloadAtEnd(list: seq<PayloadOutput>, t: int)
    requires forall e :: e in list ==> e.payloadTime <= t
    ensures PayloadAt(list, t) == LastPayload(list)
  {
  }

  /** Keeps the first of each run of equal payloads: what is in force at any instant stays the same,
      and no two neighbours (nor the empty start) agree. */
  method RemoveDupePayloads(payloads: seq<PayloadOutput>) returns (ret: seq<PayloadOutput>, ghost sorted: seq<PayloadOutput>)
    ensures IsSorting(payloads, sorted) && forall t :: PayloadAt(ret, t) == PayloadAt(sorted, t)
    ensures TimeOrdered(ret) && NoDupes(ret) && forall e :: e in ret ==> e in payloads
  {
    hide PayloadAt;
    var list := SortSlice(payloads);
    SameEntries(payloads, list);
    ret := [];
    var lastPayload := "";
    var i := 0;
    while i < |list|
      invariant i <= |list|
      invariant Deduped(list[..i], ret) && lastPayload == LastPayload(list[..i])
    {
      var val := list[i];
      assert list[..i + 1] == list[..i] + [val];
      DedupeStep(list[..i], ret, val);
      if val.payload != lastPayload {
        ret := ret + [val];
      }
      lastPayload := val.payload;
      i := i + 1;
    }
    assert list[..i] == list;
    sorted := list;
  }

  /** `e` is the entry of the list that is in force at `t`. */
  ghost predicate InForceIn(list: seq<PayloadOutput>, t: int, e: PayloadOutput) {
    && e in list && e.payloadTime <= t && PayloadAt(list, t) == e.payload
    && forall o :: o in list && o.payloadTime <= t ==> o.payloadTime <= e.payloadTime
  }

  lemma {:induction false} PayloadAtIsLatest(list: seq<PayloadOutput>, t: int)
    requires TimeOrdered(list)
    ensures (exists e :: InForceIn(list, t, e)) || (PayloadAt(list, t) == "" && forall o :: o in list ==> t < o.payloadTime)
  {
    if list != [] {
      var front, last := list[..|list| - 1], list[|list| - 1];
      assert list == front + [last];
      OrderedAtEnd(front, last);
      if last.payloadTime > t {
        PayloadAtIsLatest(front, t);
        if e :| InForceIn(front, t, e) {
          assert InForceIn(list, t, e);
        }
      } else {
        assert InForceIn(list, t, last);
      }
    }
  }

  // ----- the query -----

  predicate IsClustersScopedResource(kind: string) {
    kind == "Node" || kind == "Namespace"
  }

  /** The resource that the query parameters name. */
  function ResourceOf(kind: string, namespace: string, name: string): Resource {
    Resource(kind, if IsClustersScopedResource(kind) then "" else namespace, name)
  }

  /** Of nodes and namespaces, and of nothing else, the namespace parameter is ignored. */
  lemma NamespaceIgnoredIff(kind: string, namespace: string, name: string)
    ensures (forall other :: ResourceOf(kind, other, name) == ResourceOf(kind, namespace, name)) <==> kind == "Node" || kind == "Namespace"
    ensures (kind != "Node" && kind != "Namespace") || namespace == "" ==> ResourceOf(kind, namespace, name) == Resource(kind, namespace, name)
  {
    if forall other :: ResourceOf(kind, other, name) == ResourceOf(kind, namespace, name) {
      assert ResourceOf(kind, "a", name) == ResourceOf(kind, "b", name);
    }
  }

  method GetSeekKey(dur: PartitionDuration, keyComparator: WatchTableKey, startTime: int) returns (seekKey: WatchTableKey)
    ensures fresh(seekKey)
    ensures seekKey.Value() == Resource(keyComparator.kind, keyComparator.namespace, keyComparator.name)
                               .Key(GetPartitionId(dur, startTime), Nanos(startTime))
  {
    seekKey := new WatchTableKey(GetPartitionId(dur, startTime), keyComparator.kind, keyComparator.namespace,
                                 keyComparator.name, Nanos(startTime));
  }

  predicate IsResPayloadInTimeRange(startTime: int, endTime: int, val: KubeWatchResult) {
    startTime <= val.timestamp <= endTime
  }

  function Entry(k: WatchKey, v: KubeWatchResult): PayloadOutput {
    PayloadOutput(Print(k), if k.timestamp.Nanos? then k.timestamp.n else 0, v.payload)
  }

  /** `list` has one entry for each key of the results, in the order `order`. */
  ghost predicate OneEntryEach(watchRes: Results, order: seq<WatchKey>, list: seq<PayloadOutput>) {
    && |list| == |order|
    && (forall k :: k in order <==> k in watchRes)
    && (forall i, j :: 0 <= i < j < |order| ==> order[i] != order[j])
    && (forall i :: 0 <= i < |order| ==> order[i] in watchRes && list[i] == Entry(order[i], watchRes[order[i]]))
  }

  /** Lists the results in the arbitrary order of a Go map. */
  method GetPayloadOutputList(watchRes: Results) returns (list: seq<PayloadOutput>, ghost order: seq<WatchKey>)
    ensures OneEntryEach(watchRes, order, list) && |list| == |watchRes|
    ensures forall e :: e in list <==> exists k :: k in watchRes && e == Entry(k, watchRes[k])
  {
    hide Print, Entry;
    list, order := [], [];
    var rest := watchRes.Keys;
    while rest != {}
      invariant rest <= watchRes.Keys && |list| == |order| && |list| + |rest| == |watchRes|
      invariant forall k :: k in watchRes <==> k in order || k in rest
      invariant forall i :: 0 <= i < |order| ==> order[i] !in rest
      invariant forall i, j :: 0 <= i < j < |order| ==> order[i] != order[j]
      invariant forall i :: 0 <= i < |order| ==> order[i] in watchRes && list[i] == Entry(order[i], watchRes[order[i]])
      decreases |rest|
    {
      var key :| key in rest;
      list, order := list + [Entry(key, watchRes[key])], order + [key];
      rest := rest - {key};
    }
    ListedEntries(watchRes, order, list);
  }

  lemma ListedEntries(watchRes: Results, order: seq<WatchKey>, list: seq<PayloadOutput>)
    requires OneEntryEach(watchRes, order, list)
    ensures forall e :: e in list <==> exists k :: k in watchRes && e == Entry(k, watchRes[k])
  {
    hide Entry;
    forall k | k in watchRes ensures Entry(k, watchRes[k]) in list {
      var i :| 0 <= i < |order| && order[i] == k;
      assert list[i] == Entry(k, watchRes[k]);
    }
    forall e | e in list ensures exists k :: k in watchRes && e == Entry(k, watchRes[k]) {
      var i :| 0 <= i < |list| && list[i] == e;
      assert order[i] in watchRes;
    }
  }

  /** `payload` is that of the latest stored record of the resource up to `t`, or "" if there is none. */
  ghost predicate InForce(data: Data, r: Resource, t: int, payload: string) {
    || (exists s :: IsPrevious(data, r, t + 1, s) && data[s].Watch? && payload == data[s].rec.payload)
    || (HasNoPrevious(data, r, t + 1) && payload == "")
  }

  /** At each instant only one payload is in force. */
  lemma InForceUnique(dur: PartitionDuration, width: nat, data: Data, r: Resource, t: int, p: string, q: string)
    requires SoundWatch(dur, width, data) && InForce(data, r, t, p) && InForce(data, r, t, q)
    ensures p == q
  {
    hide Parse, InTable, SoundWatchRow;
    if exists s :: IsPrevious(data, r, t + 1, s) && data[s].Watch? && p == data[s].rec.payload {
      var s :| IsPrevious(data, r, t + 1, s) && data[s].Watch? && p == data[s].rec.payload;
      if exists o :: IsPrevious(data, r, t + 1, o) && data[o].Watch? && q == data[o].rec.payload {
        var o :| IsPrevious(data, r, t + 1, o) && data[o].Watch? && q == data[o].rec.payload;
        RecordOrder(dur, width, data, r, s, o);
      }
    }
  }

  /** The keys that the query collects: the records of the range, and the one before it. */
  ghost predicate Collected(data: Data, r: Resource, startTime: int, endTime: int, k: WatchKey) {
    && IsRecord(data, r, Print(k)) && Parse(Print(k)) == Some(k)
    && (startTime <= TimeOf(Print(k)) <= endTime || IsPrevious(data, r, startTime, Print(k)))
  }

  ghost predicate Collects(data: Data, r: Resource, startTime: int, endTime: int, res: Results) {
    && (forall k :: k in res <==> Collected(data, r, startTime, endTime, k))
    && (forall k :: k in res ==> data[Print(k)].Watch? && res[k] == data[Print(k)].rec)
  }

  /** The entry is a stored record of the resource: its key, its time and its payload. It is one of the range, or the
      last one before it. */
  ghost predicate IsEntry(data: Data, r: Resource, startTime: int, endTime: int, e: PayloadOutput) {
    && IsRecord(data, r, e.payloadKey) && TimeOf(e.payloadKey) == e.payloadTime
    && data[e.payloadKey].Watch? && data[e.payloadKey].rec.payload == e.payload
    && (startTime <= e.payloadTime <= endTime || IsPrevious(data, r, startTime, e.payloadKey))
  }

  lemma CollectedIsEntry(data: Data, r: Resource, startTime: int, endTime: int, k: WatchKey)
    requires Collected(data, r, startTime, endTime, k) && data[Print(k)].Watch?
    ensures IsEntry(data, r, startTime, endTime, Entry(k, data[Print(k)].rec))
  {
    hide Parse, Print, InTable, IsPrevious;
  }

  lemma CleanQueryInstant(dur: PartitionDuration, width: nat, t: int)
    requires CleanInstant(width, t)
    ensures QueryInstant(dur, t)
  {
    InstantStart(dur, t);
  }

  lemma PreviousIsStored(dur: PartitionDuration, width: nat, data: Data, r: Resource, t: int, s: string)
    requires SoundWatch(dur, width, data) && IsPrevious(data, r, t, s)
    ensures s in data && data[s].Watch?
  {
  }

  /** The range read and the previous key together collect what the answer needs, and no more. */
  lemma CollectedExactly(dur: PartitionDuration, width: nat, data: Data, r: Resource, startTime: int, endTime: int,
                         vp: ValPredicate, ranged: Results, previous: Option<WatchKey>, res: Results)
    requires SoundWatch(dur, width, data) && r.Clean()
    requires vp.Some? && forall v :: vp.value(v) <==> IsResPayloadInTimeRange(startTime, endTime, v)
    requires IsFilter(dur, data, Some(r.Key("", Zero)), None, vp, startTime, endTime, ranged)
    requires match previous
             case None => HasNoPrevious(data, r, startTime) && res == ranged
             case Some(k) =>
               && IsPrevious(data, r, startTime, Print(k)) && Parse(Print(k)) == Some(k)
               && data[Print(k)].Watch? && res == ranged[k := data[Print(k)].rec]
    ensures Collects(data, r, startTime, endTime, res)
  {
    hide Parse, Print, StartOf, CleanField, TablePath, IsPrevious, HasNoPrevious, Canonical;
    forall k | k in ranged
      ensures Collected(data, r, startTime, endTime, k) && data[Print(k)].Watch? && ranged[k] == data[Print(k)].rec
    {
      PrintedInTable(k);
      RowTime(dur, width, Print(k), data[Print(k)]);
    }
    forall k | Collected(data, r, startTime, endTime, k)
      ensures k in res
    {
      if startTime <= TimeOf(Print(k)) <= endTime {
        StartOfMonotone(dur, startTime, TimeOf(Print(k)));
        StartOfMonotone(dur, TimeOf(Print(k)), endTime);
        RowTime(dur, width, Print(k), data[Print(k)]);
        assert k in ranged;
      } else {
        PreviousUnique(dur, width, data, r, startTime, previous, Print(k));
      }
    }
    forall k | k in res
      ensures Collected(data, r, startTime, endTime, k)
    {
      if k !in ranged {
        PreviousIsRecord(data, r, startTime, Print(k));
      }
    }
  }

  lemma PreviousIsRecord(data: Data, r: Resource, t: int, s: string)
    requires IsPrevious(data, r, t, s)
    ensures IsRecord(data, r, s)
  {
  }

  lemma PreviousUnique(dur: PartitionDuration, width: nat, data: Data, r: Resource, t: int, previous: Option<WatchKey>, s: string)
    requires SoundWatch(dur, width, data) && IsPrevious(data, r, t, s)
    requires match previous
             case None => HasNoPrevious(data, r, t)
             case Some(k) => IsPrevious(data, r, t, Print(k))
    ensures previous.Some? && s == Print(previous.value)
  {
    hide Parse, Print, InTable, SoundWatchRow;
    if previous.Some? {
      RecordOrder(dur, width, data, r, s, Print(previous.value));
    }
  }

  lemma PrintedInTable(k: WatchKey)
    ensures InTable(WATCH, Print(k))
  {
    hide FormatInt;
  }

  /** The latest collected record up to any instant of the range is the latest stored one. */
  lemma CollectedSuffices(dur: PartitionDuration, width: nat, data: Data, r: Resource, startTime: int, endTime: int,
                          previous: Option<WatchKey>, res: Results, list: seq<PayloadOutput>,
                          sorted: seq<PayloadOutput>, t: int)
    requires SoundWatch(dur, width, data) && Collects(data, r, startTime, endTime, res) && startTime <= t <= endTime
    requires forall e :: e in list <==> exists k :: k in res && e == Entry(k, res[k])
    requires match previous
             case None => HasNoPrevious(data, r, startTime)
             case Some(k) => IsPrevious(data, r, startTime, Print(k)) && Parse(Print(k)) == Some(k)
    requires IsSorting(list, sorted)
    ensures InForce(data, r, t, PayloadAt(sorted, t))
  {
    hide Parse, Print, InTable, PayloadAt, SoundWatchRow;
    SameEntries(list, sorted);
    PayloadAtIsLatest(sorted, t);
    forall o | IsRecord(data, r, o) && TimeOf(o) <= t
      ensures exists e :: e in sorted && TimeOf(o) <= e.payloadTime <= t
    {
      var s := if startTime <= TimeOf(o) then o else Print(previous.value);
      RecordEntry(dur, width, data, r, startTime, endTime, res, list, s);
      var k := Parse(s).value;
      assert Entry(k, res[k]) in sorted;
    }
    if e :| InForceIn(sorted, t, e) {
      var k :| k in res && e == Entry(k, res[k]);
      assert IsPrevious(data, r, t + 1, Print(k));
    } else {
      assert HasNoPrevious(data, r, t + 1);
    }
  }

  lemma RecordEntry(dur: PartitionDuration, width: nat, data: Data, r: Resource, startTime: int, endTime: int,
                    res: Results, list: seq<PayloadOutput>, s: string)
    requires SoundWatch(dur, width, data) && Collects(data, r, startTime, endTime, res) && IsRecord(data, r, s)
    requires forall e :: e in list <==> exists k :: k in res && e == Entry(k, res[k])
    requires startTime <= TimeOf(s) <= endTime || IsPrevious(data, r, startTime, s)
    ensures Parse(s).value in res && Entry(Parse(s).value, res[Parse(s).value]) in list
    ensures Entry(Parse(s).value, res[Parse(s).value]).payloadTime == TimeOf(s)
  {
    hide Parse, Print, InTable;
    RecordParses(dur, width, data, r, s);
    var k := Parse(s).value;
    assert Collected(data, r, startTime, endTime, k);
  }

  method GetResPayload(dur: PartitionDuration, ghost width: nat, db: Db, kind: string, namespace: string, name: string,
                       startTime: int, endTime: int)
    returns (payloads: Option<seq<PayloadOutput>>)
    requires SoundWatch(dur, width, db.data) && ResourceOf(kind, namespace, name).Clean()
    requires CleanInstant(width, startTime) && QueryInstant(dur, endTime)
    ensures payloads.Some?
    ensures forall t :: startTime <= t <= endTime ==>
              InForce(db.data, ResourceOf(kind, namespace, name), t, PayloadAt(payloads.value, t))
    ensures TimeOrdered(payloads.value) && forall e :: e in payloads.value ==>
              IsEntry(db.data, ResourceOf(kind, namespace, name), startTime, endTime, e)
    ensures NoDupes(payloads.value)
  {
    hide Parse, Print, CleanInstant, SoundWatch, IsPrevious, HasNoPrevious, StartOf, FormatId, PayloadAt, Gathered, RowsOf, RangeIds;
    var r := ResourceOf(kind, namespace, name);
    CleanQueryInstant(dur, width, startTime);
    var keyComparator := new WatchTableKey("", kind, r.namespace, name, Zero);
    ghost var prefix := ValueOf(keyComparator);
    var inRange := (v: KubeWatchResult) => IsResPayloadInTimeRange(startTime, endTime, v);
    var rangeRead := RangeRead(dur, db, keyComparator, None, Some(inRange), startTime, endTime);
    if rangeRead.None? {
      ghost var s :| BadRow(db.data, None, RowsOf(db.data.Keys, prefix, RangeIds(dur, startTime, endTime)), s);
      NoBadRows(dur, width, db.data, prefix, None, startTime, endTime, s);
      return None;
    }
    var watchRes := rangeRead.value;
    GatheredIsFilter(dur, width, db.data, prefix, None, Some(inRange), startTime, endTime, watchRes);
    ghost var inRangeOnly := watchRes;

    var seekKey := GetSeekKey(dur, keyComparator, startTime);
    var previousKey := GetPreviousKey(dur, width, db, seekKey, keyComparator, r, startTime);
    if previousKey.Some? {
      var previous := Print(previousKey.value);
      PreviousIsStored(dur, width, db.data, r, startTime, previous);
      if previous in db.data && db.data[previous].Watch? {
        watchRes := watchRes[previousKey.value := db.data[previous].rec];
      }
    }
    CollectedExactly(dur, width, db.data, r, startTime, endTime, Some(inRange), inRangeOnly, previousKey, watchRes);

    var list, order := GetPayloadOutputList(watchRes);
    var deduped, sorted := RemoveDupePayloads(list);
    forall t | startTime <= t <= endTime
      ensures InForce(db.data, r, t, PayloadAt(deduped, t))
    {
      CollectedSuffices(dur, width, db.data, r, startTime, endTime, previousKey, watchRes, list, sorted, t);
    }
    forall e | e in deduped
      ensures IsEntry(db.data, r, startTime, endTime, e)
    {
      var k :| k in watchRes && e == Entry(k, watchRes[k]);
      CollectedIsEntry(db.data, r, startTime, endTime, k);
    }
    return Some(deduped);
  }
}
