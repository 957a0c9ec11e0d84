/** Rows and overlays of the heat map: clipping resources to the query range, and the per-minute overlays
    to their rows. Resource times are nanoseconds, row times are Unix seconds. */
module Heatmap {
  import opened Partitions
  import EventSpread

  datatype Overlay = Overlay(text: string, startDate: int, duration: int, endDate: int)

  datatype TimelineRow = TimelineRow(text: string, startDate: int, endDate: int, duration: int, overlays: array<Overlay>)

  class ResourceSummary {
    var createTime: int
    var lastSeen: int
    var deletedAtEnd: bool

    constructor (createTime: int, lastSeen: int, deletedAtEnd: bool)
      ensures this.createTime == createTime && this.lastSeen == lastSeen && this.deletedAtEnd == deletedAtEnd
    {
      this.createTime, this.lastSeen, this.deletedAtEnd := createTime, lastSeen, deletedAtEnd;
    }
  }

  // ----- resources -----

  function Max(a: int, b: int): int {
    if a < b then b else a
  }

  function Min(a: int, b: int): int {
    if a < b then a else b
  }

  /** Keeps what overlaps the query range, cut to it. */
  method TimeFilterResSumValue(value: ResourceSummary, queryStart: int, queryEnd: int) returns (keep: bool)
    modifies value`createTime, value`lastSeen
    ensures keep <==> old(value.createTime) <= queryEnd && queryStart <= old(value.lastSeen)
    ensures keep ==> value.createTime == Max(old(value.createTime), queryStart) && value.lastSeen == Min(old(value.lastSeen), queryEnd)
    ensures !keep ==> value.createTime == old(value.createTime) && value.lastSeen == old(value.lastSeen)
  {
    if value.createTime > queryEnd || value.lastSeen < queryStart {
      return false;
    }
    if value.createTime < queryStart {
      value.createTime := queryStart;
    }
    if value.lastSeen > queryEnd {
      value.lastSeen := queryEnd;
    }
    return true;
  }

  /** A resource seen within one resync of the end of the range is taken to last until the end. */
  method AdjustLastSeenTime(value: ResourceSummary, queryEnd: int, resync: int)
    modifies value`lastSeen
    ensures value.lastSeen == if !value.deletedAtEnd && old(value.lastSeen) + resync >= queryEnd then queryEnd else old(value.lastSeen)
  {
    if value.deletedAtEnd {
      return;
    }
    if value.lastSeen + resync == queryEnd || value.lastSeen + resync > queryEnd {
      value.lastSeen := queryEnd;
    }
  }

  function Unix(nanos: int): int {
    nanos / NANOS
  }

  /** The overlays of an event record: one for each minute with a text. */
  function MinuteOverlay(minute: int, text: string): Overlay {
    Overlay(text, 60 * minute, 60, 60 * minute + 60)
  }

  /** The second that an instant lies in. */
  lemma UnixIsSecond(t: int)
    ensures Unix(t) * NANOS <= t < (Unix(t) + 1) * NANOS
  {
  }

  /** An instant lies in a minute, as the counting numbers them, exactly when it lies in the minute's overlay. */
  lemma OverlayIsMinute(m: int, text: string, t: int)
    ensures var o := MinuteOverlay(m, text);
            o.startDate * NANOS <= t < o.endDate * NANOS <==> m * EventSpread.MINUTE <= t < (m + 1) * EventSpread.MINUTE
    ensures IsMinute(MinuteOverlay(m, text)) && MinuteOverlay(m, text).text == text
  {
  }

  predicate IsMinute(o: Overlay) {
    o.duration == 60 && o.endDate == o.startDate + 60
  }

  // ----- adjustOverlays -----

  function AdjustedStart(rowStart: int, o: Overlay): Overlay {
    var tooEarlyMs := rowStart - o.startDate;
    if tooEarlyMs > 0 && tooEarlyMs < 60 * 1000 then
      if o.duration - tooEarlyMs <= 0 then o.(duration := 0, startDate := o.endDate)
      else o.(startDate := o.startDate + tooEarlyMs, duration := o.duration - tooEarlyMs)
    else o
  }

  function AdjustedEnd(rowEnd: int, o: Overlay): Overlay {
    var overMs := o.endDate - rowEnd;
    if overMs > 0 && overMs < 60 * 1000 then
      if o.duration - overMs <= 0 then o.(duration := 0, endDate := o.startDate)
      else o.(endDate := o.endDate - overMs, duration := o.duration - overMs)
    else o
  }

  /** Equally named nodes show the same overlays: what the rows that share them do to one overlay, row by row. */
  function AfterStarts(rows: seq<TimelineRow>, overlays: array<Overlay>, n: nat, o: Overlay): Overlay
    requires n <= |rows|
  {
    if n == 0 then o
    else
      var before := AfterStarts(rows, overlays, n - 1, o);
      if rows[n - 1].overlays == overlays then AdjustedStart(rows[n - 1].startDate, before) else before
  }

  function AfterEnds(rows: seq<TimelineRow>, overlays: array<Overlay>, n: nat, o: Overlay): Overlay
    requires n <= |rows|
  {
    if n == 0 then o
    else
      var before := AfterEnds(rows, overlays, n - 1, o);
      if rows[n - 1].overlays == overlays then AdjustedEnd(rows[n - 1].endDate, before) else before
  }

  function Adjusted(rows: seq<TimelineRow>, overlays: array<Overlay>, o: Overlay): Overlay {
    AfterEnds(rows, overlays, |rows|, AfterStarts(rows, overlays, |rows|, o))
  }

  ghost function OverlaysOf(rows: seq<TimelineRow>): set<object> {
    set r | r in rows :: r.overlays as object
  }

  method AdjustStarts(row: TimelineRow)
    modifies row.overlays
    ensures forall j :: 0 <= j < row.overlays.Length ==> row.overlays[j] == AdjustedStart(row.startDate, old(row.overlays[j]))
  {
    var overlays := row.overlays;
    for idx := 0 to overlays.Length
      invariant forall j :: 0 <= j < idx ==> overlays[j] == AdjustedStart(row.startDate, old(row.overlays[j]))
      invariant forall j :: idx <= j < overlays.Length ==> overlays[j] == old(row.overlays[j])
    {
      var tooEarlyMs := row.startDate - overlays[idx].startDate;
      if tooEarlyMs > 0 && tooEarlyMs < 60 * 1000 {
        overlays[idx] := overlays[idx].(startDate := overlays[idx].startDate + tooEarlyMs);
        overlays[idx] := overlays[idx].(duration := overlays[idx].duration - tooEarlyMs);
        if overlays[idx].duration <= 0 {
          overlays[idx] := overlays[idx].(duration := 0);
          overlays[idx] := overlays[idx].(startDate := overlays[idx].endDate);
        }
      }
    }
  }

  method AdjustEnds(row: TimelineRow)
    modifies row.overlays
    ensures forall j :: 0 <= j < row.overlays.Length ==> row.overlays[j] == AdjustedEnd(row.endDate, old(row.overlays[j]))
  {
    var overlays := row.overlays;
    for idx := 0 to overlays.Length
      invariant forall j :: 0 <= j < idx ==> overlays[j] == AdjustedEnd(row.endDate, old(row.overlays[j]))
      invariant forall j :: idx <= j < overlays.Length ==> overlays[j] == old(row.overlays[j])
    {
      var overMs := overlays[idx].endDate - row.endDate;
      if overMs > 0 && overMs < 60 * 1000 {
        overlays[idx] := overlays[idx].(endDate := overlays[idx].endDate - overMs);
        overlays[idx] := overlays[idx].(duration := overlays[idx].duration - overMs);
        if overlays[idx].duration <= 0 {
          overlays[idx] := overlays[idx].(duration := 0);
          overlays[idx] := overlays[idx].(endDate := overlays[idx].startDate);
        }
      }
    }
  }

  /** First all starts, then all ends, in place. */
  method AdjustOverlays(rows: seq<TimelineRow>)
    modifies OverlaysOf(rows)
    ensures forall i, j :: 0 <= i < |rows| && 0 <= j < rows[i].overlays.Length ==>
              rows[i].overlays[j] == Adjusted(rows, rows[i].overlays, old(rows[i].overlays[j]))
  {
    hide AdjustedStart, AdjustedEnd;
    for i := 0 to |rows|
      invariant forall k, j :: 0 <= k < |rows| && 0 <= j < rows[k].overlays.Length ==>
                  rows[k].overlays[j] == AfterStarts(rows, rows[k].overlays, i, old(rows[k].overlays[j]))
    {
      AdjustStarts(rows[i]);
    }
    for i := 0 to |rows|
      invariant forall k, j :: 0 <= k < |rows| && 0 <= j < rows[k].overlays.Length ==>
                  rows[k].overlays[j] == AfterEnds(rows, rows[k].overlays, i,
                                                   AfterStarts(rows, rows[k].overlays, |rows|, old(rows[k].overlays[j])))
    {
      AdjustEnds(rows[i]);
    }
  }

  // ----- outputRowValidation -----

  predicate RowValid(row: TimelineRow) {
    row.startDate <= row.endDate && row.startDate + row.duration == row.endDate && row.duration >= 0
  }

  predicate OverlayConsistent(o: Overlay) {
    o.startDate <= o.endDate && o.startDate + o.duration == o.endDate && o.duration >= 0
  }

  predicate OverlayInside(rowStart: int, rowEnd: int, o: Overlay) {
    rowStart <= o.startDate && o.endDate <= rowEnd
  }

  /** Counts the errors that would be logged. */
  method OutputRowValidation(rows: seq<TimelineRow>) returns (errors: nat)
    ensures errors == 0 <==> forall i :: 0 <= i < |rows| ==>
              && RowValid(rows[i])
              && forall j :: 0 <= j < rows[i].overlays.Length ==>
                   OverlayConsistent(rows[i].overlays[j]) && OverlayInside(rows[i].startDate, rows[i].endDate, rows[i].overlays[j])
  {
    errors := 0;
    for i := 0 to |rows|
      invariant errors == 0 <==> forall k :: 0 <= k < i ==>
                  && RowValid(rows[k])
                  && forall j :: 0 <= j < rows[k].overlays.Length ==>
                       OverlayConsistent(rows[k].overlays[j]) && OverlayInside(rows[k].startDate, rows[k].endDate, rows[k].overlays[j])
    {
      var d3row := rows[i];
      ghost var before := errors;
      errors := errors + if d3row.startDate > d3row.endDate then 1 else 0;
      errors := errors + if d3row.startDate + d3row.duration != d3row.endDate then 1 else 0;
      errors := errors + if d3row.duration < 0 then 1 else 0;
      for j := 0 to d3row.overlays.Length
        invariant errors == 0 <==> before == 0 && RowValid(d3row) && forall m :: 0 <= m < j ==>
                    OverlayConsistent(d3row.overlays[m]) && OverlayInside(d3row.startDate, d3row.endDate, d3row.overlays[m])
        invariant errors >= before
      {
        var ol := d3row.overlays[j];
        errors := errors + if ol.startDate > ol.endDate then 1 else 0;
        errors := errors + if ol.startDate + ol.duration != ol.endDate then 1 else 0;
        errors := errors + if ol.duration < 0 then 1 else 0;
        errors := errors + if ol.startDate < d3row.startDate then 1 else 0;
        errors := errors + if ol.endDate > d3row.endDate then 1 else 0;
      }
    }
  }

  /** The minute and the row have a second in common, be it an end point. */
  predicate Touches(rowStart: int, rowEnd: int, o: Overlay) {
    rowStart <= o.endDate && o.startDate <= rowEnd
  }

  /** The rows with these overlays. */
  predicate Shares(rows: seq<TimelineRow>, overlays: array<Overlay>, i: int) {
    0 <= i < |rows| && rows[i].overlays == overlays
  }

  ghost predicate InsideAll(rows: seq<TimelineRow>, overlays: array<Overlay>, o: Overlay) {
    forall i :: Shares(rows, overlays, i) ==> OverlayInside(rows[i].startDate, rows[i].endDate, o)
  }

  ghost predicate TouchesAll(rows: seq<TimelineRow>, overlays: array<Overlay>, o: Overlay) {
    forall i :: Shares(rows, overlays, i) ==> Touches(rows[i].startDate, rows[i].endDate, o)
  }

  /** Every row that shares these overlays starts before any other of them has ended. */
  ghost predicate Compatible(rows: seq<TimelineRow>, overlays: array<Overlay>) {
    forall i, j :: Shares(rows, overlays, i) && Shares(rows, overlays, j) ==> rows[i].startDate <= rows[j].endDate
  }

  lemma {:induction false} StartsMoved(rows: seq<TimelineRow>, overlays: array<Overlay>, n: nat, o: Overlay)
    requires IsMinute(o) && n <= |rows|
    ensures var r := AfterStarts(rows, overlays, n, o);
            && r.startDate + r.duration == r.endDate == o.endDate && o.startDate <= r.startDate <= r.endDate
            && (TouchesAll(rows, overlays, o) ==>
                  && (forall i :: i < n && Shares(rows, overlays, i) ==> rows[i].startDate <= r.startDate)
                  && (r.startDate == o.startDate || exists i :: Shares(rows, overlays, i) && r.startDate == rows[i].startDate))
  {
    if n > 0 {
      StartsMoved(rows, overlays, n - 1, o);
      assert rows[n - 1].overlays == overlays ==> Shares(rows, overlays, n - 1);
    }
  }

  lemma {:induction false} EndsMoved(rows: seq<TimelineRow>, overlays: array<Overlay>, n: nat, o: Overlay)
    requires OverlayConsistent(o) && o.duration <= 60 && n <= |rows|
    ensures var r := AfterEnds(rows, overlays, n, o);
            && OverlayConsistent(r) && r.startDate == o.startDate && r.endDate <= o.endDate
            && ((forall i :: Shares(rows, overlays, i) ==> o.startDate <= rows[i].endDate) ==>
                  && (forall i :: i < n && Shares(rows, overlays, i) ==> r.endDate <= rows[i].endDate)
                  && (r.endDate == o.endDate || exists i :: Shares(rows, overlays, i) && r.endDate == rows[i].endDate))
  {
    if n > 0 {
      EndsMoved(rows, overlays, n - 1, o);
      assert rows[n - 1].overlays == overlays ==> Shares(rows, overlays, n - 1);
    }
  }

  predicate Within(a: int, s: int, b: int) {
    a <= s <= b
  }

  /** An adjusted minute is always consistent. It lies inside all the rows that show it exactly when it met
      all of them before, and each of them starts before any other has ended. Then it is what the minute and
      all of these rows have in common. */
  lemma AdjustedIsInside(rows: seq<TimelineRow>, overlays: array<Overlay>, o: Overlay)
    requires IsMinute(o)
    ensures OverlayConsistent(Adjusted(rows, overlays, o))
    ensures InsideAll(rows, overlays, Adjusted(rows, overlays, o)) <==> TouchesAll(rows, overlays, o) && Compatible(rows, overlays)
    ensures TouchesAll(rows, overlays, o) && Compatible(rows, overlays) ==>
              var r := Adjusted(rows, overlays, o);
              forall s :: Within(r.startDate, s, r.endDate) <==>
                (Within(o.startDate, s, o.endDate) && forall i :: Shares(rows, overlays, i) ==> Within(rows[i].startDate, s, rows[i].endDate))
  {
    hide AfterStarts, AfterEnds;
    var r := AfterStarts(rows, overlays, |rows|, o);
    StartsMoved(rows, overlays, |rows|, o);
    EndsMoved(rows, overlays, |rows|, r);
  }

  /** In a row that shares it with no other: of a minute that misses the row a point is left, its end nearer to the
      row, if its other end is less than 60000 seconds away; and all of it otherwise. */
  lemma MissedByOneRow(row: TimelineRow, o: Overlay)
    requires IsMinute(o) && row.startDate <= row.endDate && !Touches(row.startDate, row.endDate, o)
    ensures Adjusted([row], row.overlays, o)
         == if o.endDate < row.startDate < o.startDate + 60_000 then Overlay(o.text, o.endDate, 0, o.endDate)
            else if o.endDate - 60_000 < row.endDate < o.startDate then Overlay(o.text, o.startDate, 0, o.startDate)
            else o
  {
    var r := AdjustedStart(row.startDate, o);
    assert AfterStarts([row], row.overlays, 0, o) == o && AfterStarts([row], row.overlays, 1, o) == r;
    assert AfterEnds([row], row.overlays, 0, r) == r && AfterEnds([row], row.overlays, 1, r) == AdjustedEnd(row.endDate, r);
  }

  /** What was inside all rows that show it stays as it is. */
  lemma {:induction false} InsideIsKept(rows: seq<TimelineRow>, overlays: array<Overlay>, n: nat, o: Overlay)
    requires InsideAll(rows, overlays, o) && n <= |rows|
    ensures AfterStarts(rows, overlays, n, o) == o && AfterEnds(rows, overlays, n, o) == o
  {
    if n > 0 {
      InsideIsKept(rows, overlays, n - 1, o);
      assert rows[n - 1].overlays == overlays ==> Shares(rows, overlays, n - 1);
    }
  }

  lemma MeetsBoth(rows: seq<TimelineRow>, overlays: array<Overlay>)
    requires |rows| == 2 && rows[0].startDate == 0 && rows[0].endDate == 10 && rows[1].startDate == 50 && rows[1].endDate == 60
    ensures TouchesAll(rows, overlays, MinuteOverlay(0, ""))
  {
    forall i | Shares(rows, overlays, i)
      ensures Touches(rows[i].startDate, rows[i].endDate, MinuteOverlay(0, ""))
    {
      assert i == 0 || i == 1;
    }
  }

  /** A minute that meets both rows of two equally named nodes can end up outside one of them: here it meets
      rows 0-10 and 50-60 and ends at 50. */
  lemma SharedOverlaysEscape(overlays: array<Overlay>)
    ensures var rows := [TimelineRow("", 0, 10, 10, overlays), TimelineRow("", 50, 60, 10, overlays)];
            var o := MinuteOverlay(0, "");
            TouchesAll(rows, overlays, o) && !InsideAll(rows, overlays, Adjusted(rows, overlays, o))
  {
    var rows := [TimelineRow("", 0, 10, 10, overlays), TimelineRow("", 50, 60, 10, overlays)];
    hide Adjusted, InsideAll, TouchesAll;
    assert TouchesAll(rows, overlays, MinuteOverlay(0, "")) by {
      MeetsBoth(rows, overlays);
    }
    assert Shares(rows, overlays, 0) && Shares(rows, overlays, 1);
    AdjustedIsInside(rows, overlays, MinuteOverlay(0, ""));
    assert !(rows[1].startDate <= rows[0].endDate);
  }

}
