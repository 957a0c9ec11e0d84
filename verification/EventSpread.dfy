/** The arithmetic of event counts: what is new in an event, the part of it that falls into the
    available partitions, and its spread over minutes. */
module EventSpread {
  import opened Wrappers
  import opened Partitions

  /** Nanoseconds in a minute. */
  const MINUTE: int := 60_000_000_000
  /** Go's zero `time.Time`: the first instant of year 1. */
  const ZERO_TIME: int := -62_135_596_800 * NANOS

  datatype EventInfo = EventInfo(reason: string, severity: string, first: int, last: int, count: int)

  /** The end of year 9999, in Unix seconds, where clocks are a day behind UTC. */
  const END_OF_DATES: int := 253_402_300_800 + 86_400

  /** The times of an event are read from RFC 3339 timestamps, whose years have four digits, and whose offsets
      are less than a day (section 5.6). */
  predicate Dated(info: EventInfo) {
    info.first < END_OF_DATES * NANOS && info.last < END_OF_DATES * NANOS
  }

  /** A range of time and the number of events in it. */
  datatype Counted = Counted(first: int, last: int, count: int)

  // ----- Go's conversions and division, which truncate toward zero -----

  function Truncate(x: real): int {
    if x >= 0.0 then x.Floor else -((-x).Floor)
  }

  function GoDiv(a: int, b: int): int
    requires b > 0
  {
    if a >= 0 then a / b else -((-a) / b)
  }

  function GoMod(a: int, b: int): int
    requires b > 0
  {
    a - GoDiv(a, b) * b
  }

  function Seconds(nanos: int): real {
    nanos as real / NANOS as real
  }

  /** `int(float64(count) * (part / whole))` */
  function Scaled(count: int, part: real, whole: real): int
    requires whole != 0.0
  {
    Truncate(count as real * (part / whole))
  }

  // ----- computeEventsDiff -----

  function ComputeEventsDiff(prev: Option<EventInfo>, new': EventInfo): Counted {
    if prev.None? then
      Counted(new'.first, new'.last, new'.count)
    else if prev.value.last < new'.first then
      Counted(new'.first, new'.last, new'.count)
    else if prev.value.last == new'.last || prev.value.last > new'.last then
      Counted(ZERO_TIME, ZERO_TIME, 0)
    else if prev.value.first == new'.first then
      if new'.count < prev.value.count then
        Counted(ZERO_TIME, ZERO_TIME, 0)
      else
        Counted(prev.value.last, new'.last, new'.count - prev.value.count)
    else
      var oldSeconds := Seconds(prev.value.last - prev.value.first);
      var overlapSeconds := Seconds(prev.value.last - new'.first);
      if oldSeconds <= 0.0 then
        Counted(ZERO_TIME, ZERO_TIME, 0)
      else
        var newCount := new'.count - Scaled(prev.value.count, overlapSeconds, oldSeconds);
        Counted(prev.value.last, new'.last, if newCount < 0 then 0 else newCount)
  }

  /** Something new is only seen in an event that ends later than the previous one. Its range never
      reaches back before that end, nor past its own. */
  lemma DiffIsNew(prev: EventInfo, new': EventInfo)
    requires new'.first <= new'.last
    ensures var d := ComputeEventsDiff(Some(prev), new');
            d.count != 0 ==> prev.last <= d.first <= d.last == new'.last && new'.first <= d.first && prev.last < new'.last
  {
  }

  lemma DiffIsDated(prev: Option<EventInfo>, new': EventInfo)
    requires Dated(new')
    ensures var d := ComputeEventsDiff(prev, new'); d.count != 0 ==> d.first < END_OF_DATES * NANOS && d.last < END_OF_DATES * NANOS
  {
  }

  /** Of a partly overlapping earlier event the share that overlaps is discounted, in whole events. The new one
      may even start before it. */
  lemma OverlapIsDiscounted(prev: EventInfo, new': EventInfo)
    requires prev.first < prev.last < new'.last && new'.first <= prev.last && new'.first != prev.first && 0 <= prev.count
    ensures var d := ComputeEventsDiff(Some(prev), new');
            var newCount := new'.count - prev.count * (prev.last - new'.first) / (prev.last - prev.first);
            d == Counted(prev.last, new'.last, if newCount < 0 then 0 else newCount)
  {
    hide Seconds, Scaled;
    ShareIsFloor(prev.count, prev.last - new'.first, prev.last - prev.first);
  }

  lemma SecondsPositive(nanos: int)
    requires 0 < nanos
    ensures 0.0 < Seconds(nanos)
  {
  }

  /** A share of a count, in whole events. */
  lemma ShareIsFloor(count: nat, part: nat, whole: nat)
    requires 0 < whole
    ensures 0.0 < Seconds(whole) && Scaled(count, Seconds(part), Seconds(whole)) == count * part / whole
  {
    SecondsPositive(whole);
    var n := count * part;
    assert Seconds(part) / Seconds(whole) == part as real / whole as real;
    Associates(count, part, whole);
    QuotientIsFloor(n, whole);
  }

  lemma Associates(count: nat, part: nat, whole: nat)
    requires 0 < whole
    ensures count as real * (part as real / whole as real) == (count * part) as real / whole as real
  {
    assert (count * part) as real == count as real * part as real;
  }

  lemma QuotientIsFloor(a: nat, b: nat)
    requires 0 < b
    ensures Truncate(a as real / b as real) == a / b
  {
    var q, r := a / b, a % b;
    assert a == q * b + r;
    assert a as real == q as real * b as real + r as real;
    assert a as real / b as real == q as real + r as real / b as real;
    assert 0.0 <= r as real / b as real < 1.0;
  }

  // ----- adjustForAvailablePartitions -----

  /** The events can only be counted between these instants. */
  datatype Window = Window(begin: int, end: int)

  function Available(minPartitionEnd: int, maxPartitionStart: int, maxPartitionEnd: int): Window {
    Window(if minPartitionEnd == maxPartitionEnd then maxPartitionStart else minPartitionEnd, maxPartitionEnd)
  }

  /** `nanInt` is what the machine makes of `int(NaN)`, which Go leaves open: it comes out of 0/0
      when both timestamps are the same instant. */
  function Adjust(nanInt: int, c: Counted, w: Window): Counted {
    if c.last < w.begin || c.first > w.end then
      Counted(w.begin, w.end, 0)
    else
      var totalSeconds := Seconds(c.last - c.first);
      var afterBegin := if c.first < w.begin then totalSeconds - Seconds(w.begin - c.first) else totalSeconds;
      var secondsToKeep := if c.last > w.end then afterBegin - Seconds(c.last - w.end) else afterBegin;
      Counted(if c.first < w.begin then w.begin else c.first,
              if c.last > w.end then w.end else c.last,
              if totalSeconds == 0.0 then nanInt else Scaled(c.count, secondsToKeep, totalSeconds))
  }

  function Later(s: int, t: int): int {
    if s < t then t else s
  }

  function Earlier(s: int, t: int): int {
    if s < t then s else t
  }

  /** Of a range that overlaps the window the overlap is kept, with its share of the count in whole events. */
  lemma AdjustIsFloor(nanInt: int, c: Counted, w: Window)
    requires c.first < c.last && w.begin <= w.end && c.count >= 0 && w.begin <= c.last && c.first <= w.end
    ensures var begin, end := Later(c.first, w.begin), Earlier(c.last, w.end);
            Adjust(nanInt, c, w) == Counted(begin, end, c.count * (end - begin) / (c.last - c.first))
  {
    hide Scaled;
    var begin, end := Later(c.first, w.begin), Earlier(c.last, w.end);
    var total := Seconds(c.last - c.first);
    var afterBegin := if c.first < w.begin then total - Seconds(w.begin - c.first) else total;
    var keep := if c.last > w.end then afterBegin - Seconds(c.last - w.end) else afterBegin;
    assert keep == Seconds(end - begin);
    ShareIsFloor(c.count, end - begin, c.last - c.first);
  }

  predicate Between(a: int, t: int, b: int) {
    a <= t <= b
  }

  /** Clipping keeps the intersection of the range with the window, and a share of the count. */
  lemma AdjustClips(nanInt: int, c: Counted, w: Window)
    requires c.first < c.last && w.begin < w.end && c.count >= 0
    ensures var a := Adjust(nanInt, c, w);
            && 0 <= a.count <= c.count
            && (c.last < w.begin || c.first > w.end ==> a.count == 0)
            && (!(c.last < w.begin || c.first > w.end) ==>
                  forall t :: Between(a.first, t, a.last) <==> Between(c.first, t, c.last) && Between(w.begin, t, w.end))
            && (w.begin <= c.first && c.last <= w.end ==> a == c)
  {
    if !(c.last < w.begin || c.first > w.end) {
      var total := Seconds(c.last - c.first);
      var keep := total - (if c.first < w.begin then Seconds(w.begin - c.first) else 0.0)
                        - (if c.last > w.end then Seconds(c.last - w.end) else 0.0);
      assert 0.0 <= keep <= total && 0.0 < total;
      ShareBounds(c.count, keep, total);
    }
  }

  /** A range that is not inside the window loses some of its count. */
  lemma PartIsLess(nanInt: int, c: Counted, w: Window)
    requires c.first < c.last && w.begin < w.end && c.count > 0 && !(w.begin <= c.first && c.last <= w.end)
    ensures Adjust(nanInt, c, w).count < c.count
  {
    if !(c.last < w.begin || c.first > w.end) {
      var total := Seconds(c.last - c.first);
      var keep := total - (if c.first < w.begin then Seconds(w.begin - c.first) else 0.0)
                        - (if c.last > w.end then Seconds(c.last - w.end) else 0.0);
      assert 0.0 <= keep < total;
      SmallerShare(c.count, keep, total);
    }
  }

  lemma SmallerShare(count: nat, keep: real, total: real)
    requires 0.0 <= keep < total && count > 0
    ensures Scaled(count, keep, total) < count
  {
    var pct := keep / total;
    assert 0.0 <= pct < 1.0;
    var share := count as real * pct;
    assert 0.0 <= share < count as real;
    assert share.Floor as real <= share;
  }

  lemma ShareBounds(count: nat, keep: real, total: real)
    requires 0.0 <= keep <= total && 0.0 < total
    ensures 0 <= Scaled(count, keep, total) <= count
    ensures keep == total ==> Scaled(count, keep, total) == count
  {
    var pct := keep / total;
    assert 0.0 <= pct <= 1.0;
    assert 0.0 <= count as real * pct <= count as real;
    if keep == total {
      assert pct == 1.0;
    }
  }

  /** Inside the window the count survives clipping, whatever the machine makes of `int(NaN)`, exactly when
      the range is longer than an instant. */
  lemma InstantsAreLost(c: Counted, w: Window)
    requires w.begin <= c.first <= c.last <= w.end
    ensures (forall nanInt :: Adjust(nanInt, c, w).count == c.count) <==> c.first < c.last
  {
    if c.first < c.last {
      forall nanInt ensures Adjust(nanInt, c, w).count == c.count {
        WholeIsKept(c.count, Seconds(c.last - c.first));
      }
    } else {
      assert Adjust(c.count + 1, c, w).count == c.count + 1;
    }
  }

  lemma WholeIsKept(count: int, total: real)
    requires 0.0 < total
    ensures Scaled(count, total, total) == count
  {
    assert total / total == 1.0;
  }

  // ----- distributeValue -----

  function Bucket(value: int, buckets: nat, pos: nat): int
    requires buckets > 0
  {
    GoDiv(value, buckets) + if GoMod(value, buckets) > pos then 1 else 0
  }

  method DistributeValue(value: int, buckets: nat) returns (ret: seq<int>)
    ensures |ret| == buckets
    ensures forall i :: 0 <= i < buckets ==> ret[i] == Bucket(value, buckets, i)
  {
    ret := [];
    if buckets == 0 {
      return;
    }
    for pos := 0 to buckets
      invariant |ret| == pos
      invariant forall i :: 0 <= i < pos ==> ret[i] == Bucket(value, buckets, i)
    {
      var thisVal := GoDiv(value, buckets);
      if GoMod(value, buckets) > pos {
        thisVal := thisVal + 1;
      }
      ret := ret + [thisVal];
    }
  }

  function BucketSum(value: int, buckets: nat, n: nat): int
    requires buckets > 0
  {
    if n == 0 then 0 else BucketSum(value, buckets, n - 1) + Bucket(value, buckets, n - 1)
  }

  lemma {:induction false} BucketSumClosed(value: int, buckets: nat, n: nat)
    requires buckets > 0 && n <= buckets
    ensures var r := GoMod(value, buckets);
            BucketSum(value, buckets, n) == n * GoDiv(value, buckets) + if r <= 0 then 0 else if r <= n then r else n
  {
    if n > 0 {
      BucketSumClosed(value, buckets, n - 1);
      assert n * GoDiv(value, buckets) == (n - 1) * GoDiv(value, buckets) + GoDiv(value, buckets);
    }
  }

  lemma GoModRange(value: int, buckets: nat)
    requires buckets > 0
    ensures 0 - buckets < GoMod(value, buckets) < buckets
    ensures value >= 0 ==> GoMod(value, buckets) >= 0 && GoDiv(value, buckets) >= 0
    ensures value < 0 ==> GoMod(value, buckets) <= 0 && GoDiv(value, buckets) <= 0
  {
    var v := if value >= 0 then value else -value;
    var q, r := v / buckets, v % buckets;
    Division(v, buckets);
    if value < 0 {
      assert GoDiv(value, buckets) == -q;
      assert (-q) * buckets == -(q * buckets);
    }
  }

  lemma Division(v: nat, b: nat)
    requires b > 0
    ensures v == v / b * b + v % b && 0 <= v % b < b && 0 <= v / b
  {
  }

  /** The buckets add up to the value, exactly when it is not negative or divides evenly. */
  lemma BucketsConserve(value: int, buckets: nat)
    requires buckets > 0
    ensures BucketSum(value, buckets, buckets) == value <==> value >= 0 || GoMod(value, buckets) == 0
  {
    BucketSumClosed(value, buckets, buckets);
    GoModRange(value, buckets);
    assert GoDiv(value, buckets) * buckets == buckets * GoDiv(value, buckets);
  }

  /** Buckets differ by at most one and never increase. */
  lemma BucketsEven(value: int, buckets: nat, i: nat, j: nat)
    requires i < j < buckets
    ensures Bucket(value, buckets, j) <= Bucket(value, buckets, i) <= Bucket(value, buckets, j) + 1
  {
  }

  // ----- spreadOutEvents -----

  /** `t.Round(time.Minute)`: the nearest whole minute, halves upward; counted in minutes. */
  function RoundMinute(t: int): int {
    (t + MINUTE / 2) / MINUTE
  }

  /** Over how many minutes a range that rounds to `firstMinute` and `lastMinute` is spread. */
  function NumMinutes(firstMinute: int, lastMinute: int): nat {
    if lastMinute - firstMinute < 1 then 1 else lastMinute - firstMinute
  }

  /** How many events the range contributes to a minute. */
  function SpreadAt(c: Counted, minute: int): int {
    var a, b := RoundMinute(c.first), RoundMinute(c.last);
    if a == b then
      if minute == a then c.count else 0
    else if a <= minute < a + NumMinutes(a, b) && Bucket(c.count, NumMinutes(a, b), minute - a) > 0 then
      Bucket(c.count, NumMinutes(a, b), minute - a)
    else 0
  }

  predicate SpreadHas(c: Counted, minute: int) {
    if RoundMinute(c.first) == RoundMinute(c.last) then minute == RoundMinute(c.first) else SpreadAt(c, minute) > 0
  }

  /** The map from minutes to counts. Minutes are numbered from the epoch: the Unix time that the
      source uses as a key is 60 times the number. */
  ghost predicate IsSpread(c: Counted, ret: map<int, int>) {
    && (forall minute :: minute in ret <==> SpreadHas(c, minute))
    && (forall minute :: minute in ret ==> ret[minute] == SpreadAt(c, minute))
  }

  /** The first `n` minutes of the spread. */
  function SpreadUpTo(c: Counted, buckets: nat, n: nat): map<int, int>
    requires n <= buckets
  {
    if n == 0 then map[]
    else
      var before := SpreadUpTo(c, buckets, n - 1);
      if Bucket(c.count, buckets, n - 1) > 0
      then before[RoundMinute(c.first) + n - 1 := Bucket(c.count, buckets, n - 1)] else before
  }

  function SpreadMap(c: Counted): map<int, int> {
    var a, b := RoundMinute(c.first), RoundMinute(c.last);
    if a == b then map[a := c.count] else SpreadUpTo(c, NumMinutes(a, b), NumMinutes(a, b))
  }

  method SpreadOutEvents(c: Counted) returns (ret: map<int, int>)
    ensures ret == SpreadMap(c)
  {
    ret := map[];
    var firstRound, lastRound := RoundMinute(c.first), RoundMinute(c.last);
    if firstRound == lastRound {
      ret := ret[firstRound := c.count];
      return;
    }
    var numMinutes := NumMinutes(firstRound, lastRound);
    var counts := DistributeValue(c.count, numMinutes);
    var thisMinute := firstRound;
    for idx := 0 to numMinutes
      invariant thisMinute == firstRound + idx
      invariant ret == SpreadUpTo(c, numMinutes, idx)
    {
      if counts[idx] > 0 {
        ret := ret[thisMinute := counts[idx]];
      }
      thisMinute := thisMinute + 1;
    }
  }

  lemma {:induction false} SpreadUpToIs(c: Counted, n: nat)
    requires RoundMinute(c.first) != RoundMinute(c.last)
    requires n <= NumMinutes(RoundMinute(c.first), RoundMinute(c.last))
    ensures var ret := SpreadUpTo(c, NumMinutes(RoundMinute(c.first), RoundMinute(c.last)), n);
            forall m :: (m in ret <==> SpreadHas(c, m) && m < RoundMinute(c.first) + n) && (m in ret ==> ret[m] == SpreadAt(c, m))
  {
    hide RoundMinute, GoDiv, GoMod;
    if n > 0 {
      SpreadUpToIs(c, n - 1);
    }
  }

  /** The loop puts each minute's share under that minute, and only there. */
  lemma SpreadMapIsSpread(c: Counted)
    ensures IsSpread(c, SpreadMap(c))
  {
    hide RoundMinute, Bucket;
    if RoundMinute(c.first) != RoundMinute(c.last) {
      SpreadUpToIs(c, NumMinutes(RoundMinute(c.first), RoundMinute(c.last)));
    }
  }

  // ----- what the spread looks like -----

  /** A minute that is missing in the map counts nothing. */
  function CountAt(ret: map<int, int>, minute: int): int {
    if minute in ret then ret[minute] else 0
  }

  /** Rounded instants are whole minutes, at most half a minute away; halves go up. */
  lemma RoundMinuteIsNear(t: int)
    ensures RoundMinute(t) * MINUTE - MINUTE / 2 <= t < RoundMinute(t) * MINUTE + MINUTE / 2
  {
  }

  /** The count is spread evenly over the minutes from that of the first instant up to, and without, that of the
      last one, earlier minutes first; no other minute gets any. */
  lemma SpreadIsEven(c: Counted, i: int, j: int)
    requires c.count >= 0 && RoundMinute(c.first) <= i < j < RoundMinute(c.last)
    ensures CountAt(SpreadMap(c), j) <= CountAt(SpreadMap(c), i) <= CountAt(SpreadMap(c), j) + 1
    ensures forall m :: m in SpreadMap(c) ==> RoundMinute(c.first) <= m < RoundMinute(c.last)
  {
    hide RoundMinute, Bucket, SpreadMap;
    var a, b := RoundMinute(c.first), RoundMinute(c.last);
    SpreadMapIsSpread(c);
    BucketsEven(c.count, b - a, i - a, j - a);
    BucketsNotNegative(c.count, b - a, i - a);
    BucketsNotNegative(c.count, b - a, j - a);
  }

  lemma BucketsNotNegative(value: nat, buckets: nat, pos: nat)
    requires pos < buckets
    ensures Bucket(value, buckets, pos) >= 0
  {
    hide GoDiv, GoMod;
    GoModRange(value, buckets);
  }

  /** A range within one minute, or one that ends before it starts, goes to the minute it starts in. */
  lemma SpreadOfOneMinute(c: Counted, m: int)
    requires c.count > 0 && RoundMinute(c.last) <= RoundMinute(c.first) + 1
    ensures CountAt(SpreadMap(c), m) == if m == RoundMinute(c.first) then c.count else 0
  {
    hide RoundMinute;
    assert GoDiv(c.count, 1) == c.count && GoMod(c.count, 1) == 0;
    SpreadMapIsSpread(c);
  }

  // ----- sums over minutes -----

  function SumMinutes(f: int -> int, lo: int, n: nat): int {
    if n == 0 then 0 else SumMinutes(f, lo, n - 1) + f(lo + n - 1)
  }

  lemma {:induction false} SumOfSum(f: int -> int, g: int -> int, h: int -> int, lo: int, n: nat)
    requires forall m :: lo <= m < lo + n ==> h(m) == f(m) + g(m)
    ensures SumMinutes(h, lo, n) == SumMinutes(f, lo, n) + SumMinutes(g, lo, n)
  {
    if n > 0 {
      SumOfSum(f, g, h, lo, n - 1);
    }
  }

  lemma {:induction false} SumOfZeros(f: int -> int, lo: int, n: nat)
    requires forall m :: lo <= m < lo + n ==> f(m) == 0
    ensures SumMinutes(f, lo, n) == 0
  {
    if n > 0 {
      SumOfZeros(f, lo, n - 1);
    }
  }

  lemma {:induction false} SumSplit(f: int -> int, lo: int, n: nat, k: nat)
    requires k <= n
    ensures SumMinutes(f, lo, n) == SumMinutes(f, lo, k) + SumMinutes(f, lo + k, n - k)
    decreases n
  {
    if k < n {
      SumSplit(f, lo, n - 1, k);
    }
  }

  lemma {:induction false} SumOfBuckets(c: Counted, n: nat)
    requires c.count >= 0 && RoundMinute(c.first) != RoundMinute(c.last)
    requires n <= NumMinutes(RoundMinute(c.first), RoundMinute(c.last))
    ensures SumMinutes(m => SpreadAt(c, m), RoundMinute(c.first), n)
         == BucketSum(c.count, NumMinutes(RoundMinute(c.first), RoundMinute(c.last)), n)
  {
    hide RoundMinute, GoDiv, GoMod;
    var buckets := NumMinutes(RoundMinute(c.first), RoundMinute(c.last));
    if n > 0 {
      SumOfBuckets(c, n - 1);
      GoModRange(c.count, buckets);
    }
  }

  /** A window of minutes that takes in everything the range is spread over. */
  predicate Holds(c: Counted, lo: int, n: nat) {
    var a, b := RoundMinute(c.first), RoundMinute(c.last);
    lo <= a && a + NumMinutes(a, b) <= lo + n
  }

  /** Spreading conserves the count, exactly when it is not negative or all falls into one minute. */
  lemma SpreadConserves(c: Counted, lo: int, n: nat)
    requires Holds(c, lo, n)
    ensures SumMinutes(m => SpreadAt(c, m), lo, n) == c.count
            <==> c.count >= 0 || RoundMinute(c.first) == RoundMinute(c.last)
  {
    hide RoundMinute, Bucket, BucketSum, GoDiv, GoMod;
    var f := m => SpreadAt(c, m);
    var a, b := RoundMinute(c.first), RoundMinute(c.last);
    var k := NumMinutes(a, b);
    SumSplit(f, lo, n, a - lo);
    SumSplit(f, a, n - (a - lo), k);
    SumOfZeros(f, lo, a - lo);
    SumOfZeros(f, a + k, n - (a - lo) - k);
    if a == b {
      assert SumMinutes(f, a, 1) == SumMinutes(f, a, 0) + f(a);
    } else if c.count >= 0 {
      SumOfBuckets(c, k);
      BucketsConserve(c.count, k);
    } else {
      NegativeSpread(c);
      SumOfZeros(f, a, k);
    }
  }

  lemma NegativeSpread(c: Counted)
    requires c.count < 0 && RoundMinute(c.first) != RoundMinute(c.last)
    ensures forall m :: SpreadAt(c, m) == 0
  {
    hide RoundMinute, GoDiv, GoMod;
    GoModRange(c.count, NumMinutes(RoundMinute(c.first), RoundMinute(c.last)));
  }

  /** Counts go only to minutes of the window, and to its very end only if the whole range rounds to it. */
  lemma SpreadStaysInside(c: Counted, w: Window, minute: int)
    requires w.begin <= c.first <= c.last <= w.end
    requires w.begin % MINUTE == 0 && w.end % MINUTE == 0 && SpreadHas(c, minute)
    ensures w.begin <= minute * MINUTE <= w.end
    ensures minute * MINUTE == w.end ==> RoundMinute(c.first) == RoundMinute(c.last)
    ensures 0 <= SpreadAt(c, minute) || RoundMinute(c.first) == RoundMinute(c.last)
  {
  }

  /** Whatever the range and however it was clipped, counts go only to minutes of the window, and to none
      later than the range. */
  lemma ClippedStaysInside(nanInt: int, c: Counted, w: Window, minute: int)
    requires w.begin < w.end && w.begin % MINUTE == 0 && w.end % MINUTE == 0
    requires SpreadHas(Adjust(nanInt, c, w), minute)
    ensures w.begin <= minute * MINUTE <= w.end
    ensures minute * MINUTE <= (if c.first < c.last then c.last else c.first) + MINUTE / 2
  {
    hide Bucket;
    var a := Adjust(nanInt, c, w);
    if c.last < w.begin || c.first > w.end {
      NothingToSpread(a, minute);
    } else {
      assert w.begin <= a.first <= w.end && w.begin <= a.last <= w.end;
      RoundedWithin(w, a.first);
      RoundedWithin(w, a.last);
    }
  }

  lemma NothingToSpread(c: Counted, minute: int)
    requires c.count == 0 && RoundMinute(c.first) != RoundMinute(c.last)
    ensures !SpreadHas(c, minute)
  {
    hide RoundMinute;
  }

  lemma RoundedWithin(w: Window, t: int)
    requires w.begin <= t <= w.end && w.begin % MINUTE == 0 && w.end % MINUTE == 0
    ensures w.begin <= RoundMinute(t) * MINUTE <= w.end && RoundMinute(t) * MINUTE <= t + MINUTE / 2
  {
  }
}
