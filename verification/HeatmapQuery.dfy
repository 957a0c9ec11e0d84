/** The heat map query: summaries of resources and their event records become rows with overlays. */
module HeatmapQuery {
  import opened Partitions
  import opened Heatmap
  import EventSpread
  import WatchUpdates

  /** The key of a summary or of an event record. */
  datatype ResourceKey = ResourceKey(partitionId: string, kind: string, namespace: string, name: string, uid: string) {
    /** Partitions of one resource come together under the empty id. */
    function Joined(): ResourceKey {
      this.(partitionId := "")
    }

    /** The key that the overlays of a row are filed under: events name a node where others have a uid. */
    function EventRef(): ResourceKey {
      if kind == WatchUpdates.NODE_KIND then this.(uid := name) else this
    }
  }

  /** Two keys are of one resource, whatever their partitions. */
  lemma JoinedIff(a: ResourceKey, b: ResourceKey)
    ensures a.Joined() == b.Joined() <==> a.kind == b.kind && a.namespace == b.namespace && a.name == b.name && a.uid == b.uid
  {
  }

  /** The event records that a row shows: those about an object of its kind, namespace and name with its uid, or,
      of a node, with its name in the place of the uid. */
  predicate RefersTo(event: ResourceKey, row: ResourceKey) {
    && event.kind == row.kind && event.namespace == row.namespace && event.name == row.name
    && event.uid == if row.kind == "Node" then row.name else row.uid
  }

  lemma RefersIff(event: ResourceKey, row: ResourceKey)
    ensures event.Joined() == row.Joined().EventRef() <==> RefersTo(event, row)
  {
  }

  type Summaries = map<ResourceKey, ResourceSummary>
  /** The minutes with events of each event record. */
  type EventRecords = map<ResourceKey, seq<int>>
  type Rows = map<ResourceKey, TimelineRow>
  type Overlays = map<ResourceKey, array<Overlay>>

  datatype Times = Times(createTime: int, lastSeen: int, deletedAtEnd: bool)
  datatype Query = Query(start: int, end: int, resync: int)

  function TimesOf(value: ResourceSummary): Times
    reads value
  {
    Times(value.createTime, value.lastSeen, value.deletedAtEnd)
  }

  ghost function AllTimes(summaries: Summaries): map<ResourceKey, Times>
    reads summaries.Values
  {
    map k | k in summaries :: TimesOf(summaries[k])
  }

  ghost predicate Distinct(summaries: Summaries) {
    forall k, l :: k in summaries && l in summaries && k != l ==> summaries[k] != summaries[l]
  }

  predicate Overlaps(t: Times, q: Query) {
    t.createTime <= q.end && q.start <= t.lastSeen
  }

  // ----- filtering and extending -----

  /** Takes the keys that do not overlap out of the map, in arbitrary order. */
  method TimeFilterResSumMap(resSumMap: Summaries, q: Query) returns (kept: Summaries)
    requires Distinct(resSumMap)
    modifies resSumMap.Values
    ensures forall k :: k in kept <==> k in resSumMap && Overlaps(old(TimesOf(resSumMap[k])), q)
    ensures forall k :: k in kept ==> kept[k] == resSumMap[k]
    ensures forall k :: k in kept ==> TimesOf(kept[k]) == Cut(old(TimesOf(resSumMap[k])), q)
  {
    hide Overlaps, Cut;
    kept := resSumMap;
    var rest := resSumMap.Keys;
    while rest != {}
      invariant rest <= resSumMap.Keys && kept.Keys <= resSumMap.Keys
      invariant forall k :: k in kept ==> kept[k] == resSumMap[k]
      invariant forall k :: k in rest ==> k in kept && TimesOf(resSumMap[k]) == old(TimesOf(resSumMap[k]))
      invariant forall k :: k in resSumMap && k !in rest ==> (k in kept <==> Overlaps(old(TimesOf(resSumMap[k])), q))
      invariant forall k :: k in kept && k !in rest ==> TimesOf(resSumMap[k]) == Cut(old(TimesOf(resSumMap[k])), q)
      decreases |rest|
    {
      var key :| key in rest;
      var keep := FilterOne(resSumMap[key], q);
      if !keep {
        kept := kept - {key};
      }
      rest := rest - {key};
    }
  }

  /** Cut to the query. */
  function Cut(t: Times, q: Query): Times {
    t.(createTime := Max(t.createTime, q.start), lastSeen := Min(t.lastSeen, q.end))
  }

  method FilterOne(value: ResourceSummary, q: Query) returns (keep: bool)
    modifies value
    ensures keep <==> Overlaps(old(TimesOf(value)), q)
    ensures keep ==> TimesOf(value) == Cut(old(TimesOf(value)), q)
  {
    keep := TimeFilterResSumValue(value, q.start, q.end);
  }

  /** In arbitrary order. */
  method AdjustLastSeenTimeMap(resSumMap: Summaries, q: Query)
    requires Distinct(resSumMap)
    modifies resSumMap.Values
    ensures forall k :: k in resSumMap ==> TimesOf(resSumMap[k]) == Extended(old(TimesOf(resSumMap[k])), q)
  {
    hide Extended;
    var rest := resSumMap.Keys;
    while rest != {}
      invariant rest <= resSumMap.Keys
      invariant forall k :: k in resSumMap ==>
                  TimesOf(resSumMap[k]) == if k in rest then old(TimesOf(resSumMap[k])) else Extended(old(TimesOf(resSumMap[k])), q)
      decreases |rest|
    {
      var key :| key in rest;
      ExtendOne(resSumMap[key], q);
      rest := rest - {key};
    }
  }

  /** Extended to the end of the query if seen within one resync of it, and not deleted. */
  function Extended(t: Times, q: Query): Times {
    if !t.deletedAtEnd && t.lastSeen + q.resync >= q.end then t.(lastSeen := q.end) else t
  }

  method ExtendOne(value: ResourceSummary, q: Query)
    modifies value
    ensures TimesOf(value) == Extended(old(TimesOf(value)), q)
  {
    AdjustLastSeenTime(value, q.end, q.resync);
  }

  // ----- rows -----

  predicate Shows(row: TimelineRow, t: Times) {
    row.startDate == Unix(t.createTime) && row.endDate == Unix(t.lastSeen) && row.duration == row.endDate - row.startDate
  }

  method ResSumRowToD3Gantt(key: ResourceKey, value: ResourceSummary) returns (row: TimelineRow)
    ensures Shows(row, TimesOf(value))
  {
    var start, end := Unix(value.createTime), Unix(value.lastSeen);
    var none := new Overlay[0];
    row := TimelineRow(key.name, start, end, end - start, none);
  }

  function TakeNewest(left: TimelineRow, right: TimelineRow): TimelineRow {
    if left.endDate > right.endDate then left else right
  }

  /** The row shows one of the summaries of the resource, and none of them was seen later. */
  ghost predicate ShowsNewest(shown: map<ResourceKey, Times>, key: ResourceKey, row: TimelineRow) {
    && (exists k :: k in shown && k.Joined() == key && Shows(row, shown[k]))
    && (forall k :: k in shown && k.Joined() == key ==> Unix(shown[k].lastSeen) <= row.endDate)
  }

  /** One row for each resource. */
  ghost predicate RowsShow(shown: map<ResourceKey, Times>, rows: Rows) {
    && (forall key :: key in rows <==> exists k :: k in shown && k.Joined() == key)
    && (forall key :: key in rows ==> ShowsNewest(shown, key, rows[key]))
  }

  lemma RowAdded(shown: map<ResourceKey, Times>, rows: Rows, k: ResourceKey, t: Times, row: TimelineRow)
    requires RowsShow(shown, rows) && k !in shown && Shows(row, t)
    ensures var key := k.Joined();
            RowsShow(shown[k := t], rows[key := if key in rows then TakeNewest(row, rows[key]) else row])
  {
    hide Shows, ResourceKey.Joined;
    var key := k.Joined();
    var shown' := shown[k := t];
    var rows' := rows[key := if key in rows then TakeNewest(row, rows[key]) else row];
    EndShown(row, t);
    assert k in shown' && shown'[k] == t;
    forall c | c in rows'
      ensures ShowsNewest(shown', c, rows'[c])
      ensures exists l :: l in shown' && l.Joined() == c
    {
      if c in rows {
        var l :| l in shown && l.Joined() == c && Shows(rows[c], shown[l]);
        assert l in shown' && shown'[l] == shown[l];
      }
    }
  }

  lemma EndShown(row: TimelineRow, t: Times)
    requires Shows(row, t)
    ensures row.endDate == Unix(t.lastSeen)
  {
  }

  /** Takes the newest of several summaries of a resource, in arbitrary order. */
  method ResSumRowsToD3GanttMap(summaries: Summaries) returns (result: Rows)
    ensures RowsShow(AllTimes(summaries), result)
  {
    hide RowsShow, ResourceKey.Joined, TakeNewest, Shows;
    result := map[];
    var rest := summaries.Keys;
    ghost var done := map[];
    assert RowsShow(done, result) by {
      NoRows();
    }
    while rest != {}
      invariant rest <= summaries.Keys
      invariant done == map k | k in summaries && k !in rest :: TimesOf(summaries[k])
      invariant RowsShow(done, result)
      decreases |rest|
    {
      var k :| k in rest;
      var newRow := ResSumRowToD3Gantt(k, summaries[k]);
      var key := k.Joined();
      RowAdded(done, result, k, TimesOf(summaries[k]), newRow);
      if key !in result {
        result := result[key := newRow];
      } else {
        result := result[key := TakeNewest(newRow, result[key])];
      }
      done := done[k := TimesOf(summaries[k])];
      rest := rest - {k};
    }
    assert done == AllTimes(summaries);
  }

  lemma NoRows()
    ensures RowsShow(map[], map[])
  {
  }

  // ----- overlays -----

  /** Some record of the resource has an event in the minute. */
  ghost predicate HasMinute(events: EventRecords, ref: ResourceKey, m: int) {
    exists k :: k in events && k.Joined() == ref && m in events[k]
  }

  ghost predicate Overlaid(events: EventRecords, ref: ResourceKey, overlays: seq<Overlay>) {
    forall o :: o in overlays <==> exists m :: HasMinute(events, ref, m) && o == MinuteOverlay(m, "")
  }

  method EventCountRowToD3GanttOverlay(minutes: seq<int>) returns (overlays: seq<Overlay>)
    ensures forall o :: o in overlays <==> exists m :: m in minutes && o == MinuteOverlay(m, "")
  {
    hide MinuteOverlay;
    overlays := seq(|minutes|, j requires 0 <= j < |minutes| => MinuteOverlay(minutes[j], ""));
    forall m | m in minutes ensures MinuteOverlay(m, "") in overlays {
      var j :| 0 <= j < |minutes| && minutes[j] == m;
      assert overlays[j] == MinuteOverlay(m, "");
    }
  }

  /** Appends the overlays of all partitions of a resource, in arbitrary order. */
  method EventCountsToOverlayMap(events: EventRecords) returns (retMap: map<ResourceKey, seq<Overlay>>)
    ensures forall ref :: ref in retMap <==> exists k :: k in events && k.Joined() == ref
    ensures forall ref :: ref in retMap ==> Overlaid(events, ref, retMap[ref])
  {
    hide MinuteOverlay, ResourceKey.Joined, Overlaid;
    retMap := map[];
    var rest := events.Keys;
    ghost var done: EventRecords := map[];
    while rest != {}
      invariant rest <= events.Keys
      invariant done == map k | k in events && k !in rest :: events[k]
      invariant forall ref :: ref in retMap <==> exists k :: k in done && k.Joined() == ref
      invariant forall ref :: ref in retMap ==> Overlaid(done, ref, retMap[ref])
      decreases |rest|
    {
      var k :| k in rest;
      var overlays := EventCountRowToD3GanttOverlay(events[k]);
      var ref := k.Joined();
      var before := if ref in retMap then retMap[ref] else [];
      ghost var was, done' := retMap, done[k := events[k]];
      if ref !in retMap {
        NoneOverlaid(done, ref);
      }
      retMap := retMap[ref := before + overlays];
      rest := rest - {k};
      OverlaidMore(done, k, events[k], before, overlays);
      forall c | c in retMap
        ensures Overlaid(done', c, retMap[c]) && exists l :: l in done' && l.Joined() == c
      {
        if c != ref {
          OverlaidElsewhere(done, k, events[k], c, retMap[c]);
          var l :| l in done && l.Joined() == c;
          assert l in done';
        } else {
          assert k in done';
        }
      }
      done := done';
    }
    assert done == events;
  }

  lemma NoneOverlaid(events: EventRecords, ref: ResourceKey)
    requires forall k :: k in events ==> k.Joined() != ref
    ensures Overlaid(events, ref, [])
  {
  }

  lemma OverlaidMore(events: EventRecords, k: ResourceKey, minutes: seq<int>, before: seq<Overlay>, overlays: seq<Overlay>)
    requires k !in events && Overlaid(events, k.Joined(), before)
    requires forall o :: o in overlays <==> exists m :: m in minutes && o == MinuteOverlay(m, "")
    ensures Overlaid(events[k := minutes], k.Joined(), before + overlays)
  {
    hide MinuteOverlay, ResourceKey.Joined, HasMinute;
    var ref := k.Joined();
    forall m ensures HasMinute(events[k := minutes], ref, m) <==> HasMinute(events, ref, m) || m in minutes {
      MinuteAdded(events, k, minutes, ref, m);
    }
  }

  lemma OverlaidElsewhere(events: EventRecords, k: ResourceKey, minutes: seq<int>, ref: ResourceKey, overlays: seq<Overlay>)
    requires k !in events && k.Joined() != ref && Overlaid(events, ref, overlays)
    ensures Overlaid(events[k := minutes], ref, overlays)
  {
    hide MinuteOverlay, ResourceKey.Joined, HasMinute;
    forall m ensures HasMinute(events[k := minutes], ref, m) <==> HasMinute(events, ref, m) {
      MinuteAdded(events, k, minutes, ref, m);
    }
  }

  lemma MinuteAdded(events: EventRecords, k: ResourceKey, minutes: seq<int>, ref: ResourceKey, m: int)
    requires k !in events
    ensures HasMinute(events[k := minutes], ref, m) <==> HasMinute(events, ref, m) || (k.Joined() == ref && m in minutes)
  {
    hide ResourceKey.Joined;
    var events' := events[k := minutes];
    if HasMinute(events, ref, m) {
      var l :| l in events && l.Joined() == ref && m in events[l];
      assert l in events' && events'[l] == events[l];
    }
    if k.Joined() == ref && m in minutes {
      assert k in events' && events'[k] == minutes;
    }
  }

  /** A slice for each key. */
  method Slices(overlays: map<ResourceKey, seq<Overlay>>) returns (slices: Overlays)
    ensures slices.Keys == overlays.Keys
    ensures forall ref :: ref in slices ==> fresh(slices[ref]) && slices[ref][..] == overlays[ref]
    ensures forall r, s :: r in slices && s in slices && r != s ==> slices[r] != slices[s]
  {
    slices := map[];
    var rest := overlays.Keys;
    while rest != {}
      invariant rest <= overlays.Keys && slices.Keys == overlays.Keys - rest
      invariant forall ref :: ref in slices ==> fresh(slices[ref]) && slices[ref][..] == overlays[ref]
      invariant forall r, s :: r in slices && s in slices && r != s ==> slices[r] != slices[s]
      decreases |rest|
    {
      var ref :| ref in rest;
      var all := overlays[ref];
      var slice := new Overlay[|all|](j requires 0 <= j < |all| => all[j]);
      assert slice[..] == all;
      slices := slices[ref := slice];
      rest := rest - {ref};
    }
  }

  method OverlaysFor(overlays: Overlays, ref: ResourceKey) returns (shown: array<Overlay>)
    ensures ref in overlays ==> shown == overlays[ref]
    ensures ref !in overlays ==> fresh(shown) && shown.Length == 0
  {
    if ref in overlays {
      return overlays[ref];
    }
    shown := new Overlay[0];
  }

  /** Gives each row the overlays filed under its reference: equally named nodes get the same slice. */
  method MergeHeatmapWithResources(rows: Rows, overlays: Overlays) returns (merged: Rows)
    ensures merged.Keys == rows.Keys
    ensures forall key :: key in rows ==> merged[key] == rows[key].(overlays := merged[key].overlays)
    ensures forall key :: key in rows && key.EventRef() in overlays ==> merged[key].overlays == overlays[key.EventRef()]
    ensures forall key :: key in rows && key.EventRef() !in overlays ==> fresh(merged[key].overlays) && merged[key].overlays.Length == 0
  {
    hide ResourceKey.EventRef, OverlaysOf;
    merged := rows;
    var rest := rows.Keys;
    while rest != {}
      invariant rest <= rows.Keys && merged.Keys == rows.Keys
      invariant forall key :: key in rows ==> merged[key] == rows[key].(overlays := merged[key].overlays)
      invariant forall key :: key in rows && key !in rest && key.EventRef() in overlays ==> merged[key].overlays == overlays[key.EventRef()]
      invariant forall key :: key in rows && key !in rest && key.EventRef() !in overlays ==>
                  fresh(merged[key].overlays) && merged[key].overlays.Length == 0
      decreases |rest|
    {
      var key :| key in rest;
      var shown := OverlaysFor(overlays, key.EventRef());
      merged := merged[key := merged[key].(overlays := shown)];
      rest := rest - {key};
    }
  }

  /** In the arbitrary order of a Go map. */
  method ConvertHeatmapToSlice(rows: Rows) returns (ret: seq<TimelineRow>, ghost keys: seq<ResourceKey>)
    ensures |ret| == |keys| && (forall k :: k in keys <==> k in rows)
    ensures forall i, j :: 0 <= i < j < |keys| ==> keys[i] != keys[j]
    ensures forall i :: 0 <= i < |keys| ==> keys[i] in rows && ret[i] == rows[keys[i]]
  {
    ret, keys := [], [];
    var rest := rows.Keys;
    while rest != {}
      invariant rest <= rows.Keys && |ret| == |keys|
      invariant forall k :: k in rows <==> k in keys || k in rest
      invariant forall i :: 0 <= i < |keys| ==> keys[i] !in rest
      invariant forall i, j :: 0 <= i < j < |keys| ==> keys[i] != keys[j]
      invariant forall i :: 0 <= i < |keys| ==> keys[i] in rows && ret[i] == rows[keys[i]]
      decreases |rest|
    {
      var key :| key in rest;
      ret, keys := ret + [rows[key]], keys + [key];
      rest := rest - {key};
    }
  }

  // ----- the whole query -----

  /** What is shown of the summaries that overlap the query. */
  ghost function ShownTimes(times: map<ResourceKey, Times>, q: Query): map<ResourceKey, Times> {
    map k | k in times && Overlaps(times[k], q) :: Extended(Cut(times[k], q), q)
  }

  ghost predicate Lasting(times: map<ResourceKey, Times>) {
    forall k :: k in times ==> times[k].createTime <= times[k].lastSeen
  }

  /** `rows` are one valid row for each resource that overlaps the query. */
  ghost predicate RowsOfQuery(times: map<ResourceKey, Times>, q: Query, keys: seq<ResourceKey>, rows: seq<TimelineRow>) {
    && |rows| == |keys|
    && (forall key :: key in keys <==> exists k :: k in ShownTimes(times, q) && k.Joined() == key)
    && (forall i, j :: 0 <= i < j < |keys| ==> keys[i] != keys[j])
    && (forall i :: 0 <= i < |rows| ==> RowValid(rows[i]) && ShowsNewest(ShownTimes(times, q), keys[i], rows[i]))
  }

  /** Each row shows the minutes filed under its reference, and shares them with the rows of that reference. */
  ghost predicate Laid(events: EventRecords, keys: seq<ResourceKey>, rows: seq<TimelineRow>)
    requires |rows| == |keys|
    reads OverlaysOf(rows)
  {
    && (forall i :: 0 <= i < |rows| ==> Overlaid(events, keys[i].EventRef(), rows[i].overlays[..]))
    && SharedByReference(events, keys, rows)
  }

  ghost predicate SharedByReference(events: EventRecords, keys: seq<ResourceKey>, rows: seq<TimelineRow>)
    requires |rows| == |keys|
  {
    forall i, j, m :: 0 <= i < |rows| && 0 <= j < |rows| && HasMinute(events, keys[i].EventRef(), m) ==>
      (rows[i].overlays == rows[j].overlays <==> keys[i].EventRef() == keys[j].EventRef())
  }

  lemma ShownIsValid(times: map<ResourceKey, Times>, q: Query, key: ResourceKey, row: TimelineRow)
    requires Lasting(times) && q.start <= q.end && 0 <= q.resync && ShowsNewest(ShownTimes(times, q), key, row)
    ensures RowValid(row)
  {
    hide ResourceKey.Joined;
    var k :| k in ShownTimes(times, q) && k.Joined() == key && Shows(row, ShownTimes(times, q)[k]);
    UnixMonotone(ShownTimes(times, q)[k].createTime, ShownTimes(times, q)[k].lastSeen);
  }

  lemma UnixMonotone(s: int, t: int)
    requires s <= t
    ensures Unix(s) <= Unix(t)
  {
  }

  /** The rows of the summaries. */
  method ResourceRows(resources: Summaries, q: Query) returns (rows: Rows)
    requires Distinct(resources)
    modifies resources.Values
    ensures RowsShow(ShownTimes(old(AllTimes(resources)), q), rows)
  {
    hide Overlaps, Cut, Extended, RowsShow;
    ghost var times := AllTimes(resources);
    var kept := TimeFilterResSumMap(resources, q);
    AdjustLastSeenTimeMap(kept, q);
    rows := ResSumRowsToD3GanttMap(kept);
    assert AllTimes(kept) == ShownTimes(times, q);
  }

  /** There is a slice for each resource with event records, and it holds their minutes. */
  ghost predicate Filed(events: EventRecords, slices: Overlays)
    reads slices.Values
  {
    && (forall ref :: ref in slices <==> exists k :: k in events && k.Joined() == ref)
    && (forall ref :: ref in slices ==> Overlaid(events, ref, slices[ref][..]))
    && (forall r, s :: r in slices && s in slices && r != s ==> slices[r] != slices[s])
  }

  method OverlayRows(d3Rows: Rows, slices: Overlays, ghost events: EventRecords) returns (rows: seq<TimelineRow>, ghost keys: seq<ResourceKey>)
    requires Filed(events, slices)
    ensures |rows| == |keys| && (forall k :: k in keys <==> k in d3Rows)
    ensures forall i, j :: 0 <= i < j < |keys| ==> keys[i] != keys[j]
    ensures forall i :: 0 <= i < |keys| ==> keys[i] in d3Rows && rows[i] == d3Rows[keys[i]].(overlays := rows[i].overlays)
    ensures forall i :: 0 <= i < |keys| ==> rows[i].overlays in slices.Values || fresh(rows[i].overlays)
    ensures Laid(events, keys, rows)
  {
    hide ResourceKey.Joined, ResourceKey.EventRef, Overlaid, HasMinute;
    var merged := MergeHeatmapWithResources(d3Rows, slices);
    rows, keys := ConvertHeatmapToSlice(merged);
    forall i | 0 <= i < |rows|
      ensures Overlaid(events, keys[i].EventRef(), rows[i].overlays[..])
    {
      if keys[i].EventRef() !in slices {
        NoneOverlaid(events, keys[i].EventRef());
        assert rows[i].overlays[..] == [];
      }
    }
    forall i, j, m | 0 <= i < |rows| && 0 <= j < |rows| && HasMinute(events, keys[i].EventRef(), m)
      ensures rows[i].overlays == rows[j].overlays <==> keys[i].EventRef() == keys[j].EventRef()
    {
      MinuteIsFiled(events, keys[i].EventRef(), m);
    }
  }

  /** Rows with their overlays, before these are adjusted. */
  method LayOut(resources: Summaries, events: EventRecords, q: Query) returns (rows: seq<TimelineRow>, ghost keys: seq<ResourceKey>)
    requires Distinct(resources) && Lasting(AllTimes(resources)) && q.start <= q.end && 0 <= q.resync
    modifies resources.Values
    ensures RowsOfQuery(old(AllTimes(resources)), q, keys, rows) && Laid(events, keys, rows)
    ensures forall i :: 0 <= i < |rows| ==> fresh(rows[i].overlays)
  {
    hide ResourceKey.Joined, ShowsNewest, RowValid, Overlaid, ShownTimes, Lasting, SharedByReference, AllTimes, Distinct;
    ghost var times := AllTimes(resources);
    var d3Rows := ResourceRows(resources, q);
    var mapResSumKeyToOverlay := EventCountsToOverlayMap(events);
    var slices := Slices(mapResSumKeyToOverlay);
    rows, keys := OverlayRows(d3Rows, slices, events);
    forall i | 0 <= i < |rows|
      ensures RowValid(rows[i]) && ShowsNewest(ShownTimes(times, q), keys[i], rows[i])
    {
      SameShows(ShownTimes(times, q), keys[i], d3Rows[keys[i]], rows[i].overlays);
      ShownIsValid(times, q, keys[i], rows[i]);
    }
  }

  lemma SameShows(shown: map<ResourceKey, Times>, key: ResourceKey, row: TimelineRow, overlays: array<Overlay>)
    requires ShowsNewest(shown, key, row)
    ensures ShowsNewest(shown, key, row.(overlays := overlays))
  {
    hide ResourceKey.Joined;
    var k :| k in shown && k.Joined() == key && Shows(row, shown[k]);
    assert Shows(row.(overlays := overlays), shown[k]);
  }

  lemma MinuteIsFiled(events: EventRecords, ref: ResourceKey, m: int)
    requires HasMinute(events, ref, m)
    ensures exists k :: k in events && k.Joined() == ref
  {
  }

  /** The minute meets the row, and the row starts before any that shows the same minutes has ended. */
  ghost predicate Fits(keys: seq<ResourceKey>, rows: seq<TimelineRow>, i: nat, m: int)
    requires i < |rows| == |keys|
  {
    && Touches(rows[i].startDate, rows[i].endDate, MinuteOverlay(m, ""))
    && forall j :: 0 <= j < |rows| && keys[j].EventRef() == keys[i].EventRef() ==> rows[i].startDate <= rows[j].endDate
  }

  lemma FitsIsInside(events: EventRecords, keys: seq<ResourceKey>, rows: seq<TimelineRow>, i: nat, m: int)
    requires |rows| == |keys| && SharedByReference(events, keys, rows)
    requires i < |rows| && HasMinute(events, keys[i].EventRef(), m)
    ensures OverlayConsistent(Adjusted(rows, rows[i].overlays, MinuteOverlay(m, "")))
    ensures InsideAll(rows, rows[i].overlays, Adjusted(rows, rows[i].overlays, MinuteOverlay(m, ""))) <==>
              forall k :: 0 <= k < |rows| && keys[k].EventRef() == keys[i].EventRef() ==> Fits(keys, rows, k, m)
  {
    hide ResourceKey.EventRef, Adjusted, Touches, HasMinute, InsideAll;
    var overlays := rows[i].overlays;
    AdjustedIsInside(rows, overlays, MinuteOverlay(m, ""));
    forall k | 0 <= k < |rows|
      ensures Shares(rows, overlays, k) <==> keys[k].EventRef() == keys[i].EventRef()
    {
    }
    if TouchesAll(rows, overlays, MinuteOverlay(m, "")) && Compatible(rows, overlays) {
      forall k | 0 <= k < |rows| && keys[k].EventRef() == keys[i].EventRef() ensures Fits(keys, rows, k, m) {
        assert Shares(rows, overlays, k);
      }
    }
    if forall k :: 0 <= k < |rows| && keys[k].EventRef() == keys[i].EventRef() ==> Fits(keys, rows, k, m) {
      forall k | Shares(rows, overlays, k) ensures Fits(keys, rows, k, m) {
      }
    }
  }

  /** The overlays of a row are the adjusted minutes filed under its reference. */
  ghost predicate Placed(events: EventRecords, keys: seq<ResourceKey>, rows: seq<TimelineRow>, i: nat)
    requires i < |rows| == |keys|
    reads rows[i].overlays
  {
    forall o :: o in rows[i].overlays[..] <==>
      exists m :: HasMinute(events, keys[i].EventRef(), m) && o == Adjusted(rows, rows[i].overlays, MinuteOverlay(m, ""))
  }

  lemma AdjustedIsPlaced(events: EventRecords, keys: seq<ResourceKey>, rows: seq<TimelineRow>, i: nat, before: seq<Overlay>)
    requires i < |rows| == |keys| && Overlaid(events, keys[i].EventRef(), before)
    requires |before| == rows[i].overlays.Length
    requires forall j :: 0 <= j < |before| ==> rows[i].overlays[j] == Adjusted(rows, rows[i].overlays, before[j])
    ensures Placed(events, keys, rows, i)
  {
    hide ResourceKey.EventRef, Adjusted, HasMinute, MinuteOverlay;
    forall o | o in rows[i].overlays[..]
      ensures exists m :: HasMinute(events, keys[i].EventRef(), m) && o == Adjusted(rows, rows[i].overlays, MinuteOverlay(m, ""))
    {
      var j :| 0 <= j < rows[i].overlays.Length && rows[i].overlays[j] == o;
      assert before[j] in before;
    }
    forall m | HasMinute(events, keys[i].EventRef(), m)
      ensures Adjusted(rows, rows[i].overlays, MinuteOverlay(m, "")) in rows[i].overlays[..]
    {
      assert MinuteOverlay(m, "") in before;
      var j :| 0 <= j < |before| && before[j] == MinuteOverlay(m, "");
      assert rows[i].overlays[..][j] == Adjusted(rows, rows[i].overlays, before[j]);
    }
  }

  /** All checks of the overlays pass exactly when every minute of a row fits. */
  lemma ChecksPass(events: EventRecords, keys: seq<ResourceKey>, rows: seq<TimelineRow>)
    requires |rows| == |keys| && SharedByReference(events, keys, rows)
    requires forall i :: 0 <= i < |rows| ==> Placed(events, keys, rows, i)
    ensures (forall i, j :: 0 <= i < |rows| && 0 <= j < rows[i].overlays.Length ==>
               OverlayConsistent(rows[i].overlays[j]) && OverlayInside(rows[i].startDate, rows[i].endDate, rows[i].overlays[j]))
            <==> forall i, m :: 0 <= i < |rows| && HasMinute(events, keys[i].EventRef(), m) ==> Fits(keys, rows, i, m)
  {
    hide ResourceKey.EventRef, Adjusted, HasMinute, MinuteOverlay, OverlayConsistent, OverlayInside, Fits;
    if forall i, j :: 0 <= i < |rows| && 0 <= j < rows[i].overlays.Length ==>
         OverlayInside(rows[i].startDate, rows[i].endDate, rows[i].overlays[j])
    {
      forall i, m | 0 <= i < |rows| && HasMinute(events, keys[i].EventRef(), m)
        ensures Fits(keys, rows, i, m)
      {
        FitsIsInside(events, keys, rows, i, m);
        var o := Adjusted(rows, rows[i].overlays, MinuteOverlay(m, ""));
        assert Placed(events, keys, rows, i);
        assert o in rows[i].overlays[..];
        var j :| 0 <= j < rows[i].overlays.Length && rows[i].overlays[j] == o;
      }
    }
    if forall i, m :: 0 <= i < |rows| && HasMinute(events, keys[i].EventRef(), m) ==> Fits(keys, rows, i, m) {
      forall i, j | 0 <= i < |rows| && 0 <= j < rows[i].overlays.Length
        ensures OverlayInside(rows[i].startDate, rows[i].endDate, rows[i].overlays[j])
      {
        assert Placed(events, keys, rows, i) && rows[i].overlays[j] in rows[i].overlays[..];
        var m :| HasMinute(events, keys[i].EventRef(), m) && rows[i].overlays[j] == Adjusted(rows, rows[i].overlays, MinuteOverlay(m, ""));
        FitsIsInside(events, keys, rows, i, m);
        assert Shares(rows, rows[i].overlays, i);
      }
    }
    forall i, j | 0 <= i < |rows| && 0 <= j < rows[i].overlays.Length
      ensures OverlayConsistent(rows[i].overlays[j])
    {
      assert Placed(events, keys, rows, i) && rows[i].overlays[j] in rows[i].overlays[..];
      var m :| HasMinute(events, keys[i].EventRef(), m) && rows[i].overlays[j] == Adjusted(rows, rows[i].overlays, MinuteOverlay(m, ""));
      FitsIsInside(events, keys, rows, i, m);
    }
  }

  /** The times that a row stands for: those of one of the summaries of its resource, as cut and extended, of which
      none was seen in a later second. The row has them in whole seconds. */
  ghost predicate RowIsOf(times: map<ResourceKey, Times>, q: Query, key: ResourceKey, row: TimelineRow, t: Times) {
    && (exists k :: k in ShownTimes(times, q) && k.Joined() == key && ShownTimes(times, q)[k] == t)
    && (forall k :: k in ShownTimes(times, q) && k.Joined() == key ==> ShownTimes(times, q)[k].lastSeen / NANOS <= t.lastSeen / NANOS)
    && row.startDate * NANOS <= t.createTime < (row.startDate + 1) * NANOS
    && row.endDate * NANOS <= t.lastSeen < (row.endDate + 1) * NANOS && row.duration == row.endDate - row.startDate
  }

  ghost function TimesShown(times: map<ResourceKey, Times>, q: Query, key: ResourceKey, row: TimelineRow): (t: Times)
    requires ShowsNewest(ShownTimes(times, q), key, row)
    ensures RowIsOf(times, q, key, row, t)
  {
    hide ResourceKey.Joined, ShownTimes, Unix;
    var shown := ShownTimes(times, q);
    var k :| k in shown && k.Joined() == key && Shows(row, shown[k]);
    UnixIsSecond(shown[k].createTime);
    UnixIsSecond(shown[k].lastSeen);
    assert forall l :: l in shown && l.Joined() == key ==> shown[l].lastSeen / NANOS <= shown[k].lastSeen / NANOS by {
      UnixIsQuotient();
    }
    shown[k]
  }

  lemma UnixIsQuotient()
    ensures forall t :: Unix(t) == t / NANOS
  {
  }

  /** The minute, with the second after it, and the times of the row have an instant in common; and the row starts no
      later than in the second in which any row that shows the same events ends. */
  ghost predicate FitsInTime(keys: seq<ResourceKey>, shown: seq<Times>, i: nat, m: int)
    requires i < |keys| == |shown|
  {
    && m * EventSpread.MINUTE <= shown[i].lastSeen && shown[i].createTime < (m + 1) * EventSpread.MINUTE + NANOS
    && forall j :: 0 <= j < |keys| && keys[j].EventRef() == keys[i].EventRef() ==>
         shown[i].createTime < (shown[j].lastSeen / NANOS + 1) * NANOS
  }

  lemma FitsIffInTime(times: map<ResourceKey, Times>, q: Query, keys: seq<ResourceKey>, rows: seq<TimelineRow>, shown: seq<Times>,
                      i: nat, m: int)
    requires i < |keys| == |rows| == |shown| && forall j :: 0 <= j < |rows| ==> RowIsOf(times, q, keys[j], rows[j], shown[j])
    ensures Fits(keys, rows, i, m) <==> FitsInTime(keys, shown, i, m)
  {
    hide ResourceKey.EventRef, ResourceKey.Joined, ShownTimes;
    assert RowIsOf(times, q, keys[i], rows[i], shown[i]);
    forall j | 0 <= j < |rows|
      ensures rows[i].startDate <= rows[j].endDate <==> shown[i].createTime < (shown[j].lastSeen / NANOS + 1) * NANOS
    {
      assert RowIsOf(times, q, keys[j], rows[j], shown[j]);
      assert shown[j].lastSeen / NANOS == rows[j].endDate;
    }
  }

  /** A row for each resource that overlaps the query, standing for the times of the newest of its summaries. No
      check fires, exactly when every minute with events that a row shows fits these times. */
  method EventHeatMap(resources: Summaries, events: EventRecords, q: Query)
    returns (rows: seq<TimelineRow>, errors: nat, ghost keys: seq<ResourceKey>, ghost shown: seq<Times>)
    requires Distinct(resources) && Lasting(AllTimes(resources)) && q.start <= q.end && 0 <= q.resync
    modifies resources.Values
    ensures RowsOfQuery(old(AllTimes(resources)), q, keys, rows)
    ensures |shown| == |rows| && forall i :: 0 <= i < |rows| ==> RowIsOf(old(AllTimes(resources)), q, keys[i], rows[i], shown[i])
    ensures SharedByReference(events, keys, rows) && forall i :: 0 <= i < |rows| ==> Placed(events, keys, rows, i)
    ensures errors == 0 <==>
              forall i, m :: 0 <= i < |rows| && HasMinute(events, keys[i].EventRef(), m) ==> FitsInTime(keys, shown, i, m)
  {
    hide ResourceKey.EventRef, Adjusted, HasMinute, MinuteOverlay, OverlayConsistent, OverlayInside, Fits, Overlaid, Placed;
    hide ShownTimes, ShowsNewest, Lasting, RowValid, SharedByReference, RowIsOf, FitsInTime;
    ghost var times := AllTimes(resources);
    rows, keys := LayOut(resources, events, q);
    ghost var before := seq(|rows|, i requires 0 <= i < |rows| reads OverlaysOf(rows) => rows[i].overlays[..]);
    AdjustOverlays(rows);
    forall i | 0 <= i < |rows|
      ensures Placed(events, keys, rows, i)
    {
      AdjustedIsPlaced(events, keys, rows, i, before[i]);
    }
    ChecksPass(events, keys, rows);
    shown := seq(|rows|, i requires 0 <= i < |rows| => TimesShown(times, q, keys[i], rows[i]));
    forall i, m | 0 <= i < |rows| && HasMinute(events, keys[i].EventRef(), m)
      ensures Fits(keys, rows, i, m) <==> FitsInTime(keys, shown, i, m)
    {
      FitsIffInTime(times, q, keys, rows, shown, i, m);
    }
    errors := OutputRowValidation(rows);
  }
}
