/** Choosing the oldest partitions by size and age. */
module GarbageCollection {
  import opened ByteStrings
  import opened Decimal
  import opened Wrappers
  import opened Partitions
  import opened Store
  import opened WatchKeys
  import opened Tables
  import opened PartitionCounts

  type Db = MockDb<Value>

  // ----- how much to delete -----

  function HasFilesOnDiskExceededThreshold(diskSizeBytes: nat, sizeLimitBytes: int, gcThreshold: real): bool {
    diskSizeBytes as real > gcThreshold * sizeLimitBytes as real
  }

  /** The share of the data above the threshold; None is the infinite quotient of an empty disk. */
  function GetGarbageCollectionRatio(currentDiskSize: nat, sizeLimitBytes: int, gcThreshold: real): Option<real> {
    var sizeThreshold := gcThreshold * sizeLimitBytes as real;
    if currentDiskSize as real > sizeThreshold then
      if currentDiskSize == 0 then None
      else Some((currentDiskSize as real - sizeThreshold) / currentDiskSize as real)
    else Some(0.0)
  }

  function Ceil(x: real): int {
    -((-x).Floor)
  }

  /** A ratio outside (0, 1] deletes nothing; otherwise at least that share of the keys, and never more
      than all of them. */
  function GetNumberOfKeysToDelete(ratio: Option<real>, totalKeyCount: nat): (keys: nat)
    ensures keys <= totalKeyCount
    ensures ratio.Some? && 0.0 < ratio.value <= 1.0 ==>
              keys as real >= ratio.value * totalKeyCount as real > keys as real - 1.0
  {
    if ratio.None? || ratio.value <= 0.0 || ratio.value > 1.0 then 0
    else
      var wanted := ratio.value * totalKeyCount as real;
      assert 0.0 <= wanted <= totalKeyCount as real;
      Ceil(wanted)
  }

  /** The span from the start of the one partition to the end of the other exceeds the limit. */
  function CleanUpTimeCondition(dur: PartitionDuration, minPartition: string, maxPartition: string, timeLimit: int): bool {
    var oldest := GetTimeRangeForPartition(dur, minPartition);
    var latest := GetTimeRangeForPartition(dur, maxPartition);
    if oldest.None? || latest.None? then false else latest.value.1 - oldest.value.0 > timeLimit
  }

  predicate TooOld(dur: PartitionDuration, p: int, hi: int, timeLimit: int) {
    (hi + dur.Seconds() - p) * NANOS > timeLimit
  }

  lemma TimeConditionIs(dur: PartitionDuration, p: int, hi: int, timeLimit: int)
    requires IsStart(dur, p) && IsStart(dur, hi)
    ensures CleanUpTimeCondition(dur, FormatId(p), FormatId(hi), timeLimit) <==> TooOld(dur, p, hi, timeLimit)
  {
    hide FormatId, ParseInt;
    IdFaithful(p);
    IdFaithful(hi);
  }

  // ----- which partitions to delete -----

  /** `sorted` are the ids of `starts`, ascending, the last one being the newest partition. */
  ghost predicate SortedStarts(dur: PartitionDuration, ks: set<string>, sorted: seq<string>, starts: seq<int>) {
    && |sorted| == |starts|
    && (forall i :: 0 <= i < |starts| ==> IsStart(dur, starts[i]) && sorted[i] == FormatId(starts[i]))
    && (forall i, j :: 0 <= i < j < |starts| ==> starts[i] < starts[j])
    && (forall k :: k in ks ==> StartOfKey(k) in starts)
    && (forall i :: 0 <= i < |starts| ==> exists k :: k in ks && StartOfKey(k) == starts[i])
  }

  lemma KeyParses(dur: PartitionDuration, ks: set<string>, k: string)
    requires SoundStore(dur, ks) && k in ks
    ensures ParseKey(k).Some? && PartitionOf(k) == FormatId(StartOfKey(k)) && IsStart(dur, StartOfKey(k))
    ensures IsTable(TableOfKey(k))
  {
    hide InTable, ParseKey, FormatId, ParseInt, IsTable;
    var t := TableOf(k);
    assert SoundTable(dur, t, ks);
    SoundRowParts(dur, t, k);
  }

  lemma SoundRowParts(dur: PartitionDuration, t: string, k: string)
    requires SoundRow(dur, t, k)
    ensures ParseKey(k).Some? && PartitionOf(k) == FormatId(StartOfKey(k)) && IsStart(dur, StartOfKey(k)) && TableOfKey(k) == t
  {
    hide FormatId, ParseInt;
  }

  function StartOfId(id: string): int {
    if ParseInt(id).Some? then ParseInt(id).value else 0
  }

  lemma IdOfStored(dur: PartitionDuration, ks: set<string>, infos: Infos, total: nat, id: string) returns (k: string)
    requires SoundStore(dur, ks) && Counts(ks, infos, total) && id in infos
    ensures k in ks && StartOfKey(k) == StartOfId(id) && IsStart(dur, StartOfId(id)) && id == FormatId(StartOfId(id))
  {
    hide ParseKey, FormatId, InStore, SoundTables, StartOfKey, PartitionOf, ParseInt;
    k :| k in KeysOf(ks, id);
    KeyParses(dur, ks, k);
    IdFaithful(StartOfKey(k));
  }

  lemma SortedStartsOf(dur: PartitionDuration, ks: set<string>, infos: Infos, total: nat, sorted: seq<string>) returns (starts: seq<int>)
    requires SoundStore(dur, ks) && Counts(ks, infos, total)
    requires Ascending(sorted) && forall id :: id in sorted <==> id in infos
    ensures |sorted| == |starts| && SortedStarts(dur, ks, sorted, starts)
  {
    hide ParseKey, FormatId, Less, SoundStore, StartOfKey, StartOfId, PartitionOf;
    starts := seq(|sorted|, i requires 0 <= i < |sorted| => StartOfId(sorted[i]));
    forall i | 0 <= i < |starts|
      ensures IsStart(dur, starts[i]) && sorted[i] == FormatId(starts[i])
      ensures exists k :: k in ks && StartOfKey(k) == starts[i]
    {
      assert sorted[i] in sorted;
      var k := IdOfStored(dur, ks, infos, total, sorted[i]);
      assert StartOfKey(k) == starts[i];
    }
    forall i, j | 0 <= i < j < |starts|
      ensures starts[i] < starts[j]
    {
      IdOrder(starts[i], starts[j]);
    }
    forall k | k in ks
      ensures StartOfKey(k) in starts
    {
      KeyParses(dur, ks, k);
      assert k in KeysOf(ks, PartitionOf(k));
      var i :| 0 <= i < |sorted| && sorted[i] == PartitionOf(k);
      IdOrder(starts[i], StartOfKey(k));
      assert starts[i] == StartOfKey(k);
    }
  }

  method GetPartitionsForSize(target: nat, infos: Infos, sorted: seq<string>) returns (partitionsToDelete: seq<string>)
    requires forall id :: id in sorted ==> id in infos
    requires target <= SumOf(infos, sorted)
    ensures |partitionsToDelete| <= |sorted| && partitionsToDelete == sorted[..|partitionsToDelete|]
    ensures forall j :: 0 <= j <= |sorted| ==>
              (forall id :: id in sorted[..j] ==> id in infos) && (target <= SumOf(infos, sorted[..j]) <==> |partitionsToDelete| <= j)
  {
    partitionsToDelete := [];
    var keysToBeCollected := 0;
    var index := 0;
    assert sorted[..|sorted|] == sorted;
    while keysToBeCollected < target
      invariant index <= |sorted| && partitionsToDelete == sorted[..index]
      invariant keysToBeCollected == SumOf(infos, sorted[..index])
      invariant index > 0 ==> SumOf(infos, sorted[..index - 1]) < target
      decreases |sorted| - index
    {
      assert sorted[..index + 1][..index] == sorted[..index];
      keysToBeCollected := keysToBeCollected + infos[sorted[index]].totalKeyCount;
      partitionsToDelete := partitionsToDelete + [sorted[index]];
      index := index + 1;
    }
    forall j | 0 <= j <= |sorted|
      ensures (forall id :: id in sorted[..j] ==> id in infos) && (target <= SumOf(infos, sorted[..j]) <==> index <= j)
    {
      if index <= j {
        SumGrows(infos, sorted, index, j);
      } else {
        SumGrows(infos, sorted, j, index - 1);
      }
    }
  }

  /** The limits of one cleanup. */
  datatype Limits = Limits(timeLimit: int, sizeLimitBytes: int, diskSizeBytes: nat, gcThreshold: real) {
    predicate SizeConditionMet() {
      HasFilesOnDiskExceededThreshold(diskSizeBytes, sizeLimitBytes, gcThreshold)
    }

    function Target(totalKeyCount: nat): nat {
      GetNumberOfKeysToDelete(GetGarbageCollectionRatio(diskSizeBytes, sizeLimitBytes, gcThreshold), totalKeyCount)
    }

    /** The size at which the cleanup starts. */
    function SizeThreshold(): real {
      gcThreshold * sizeLimitBytes as real
    }

    /** To delete `keys` of all the keys is enough for the size: if the disk is over the threshold, at least the
        same share of the keys goes as there is too much on the disk. A negative threshold asks for nothing. */
    predicate Suffices(keys: nat, totalKeyCount: nat) {
      0.0 <= SizeThreshold() < diskSizeBytes as real ==>
        keys as real * diskSizeBytes as real >= totalKeyCount as real * (diskSizeBytes as real - SizeThreshold())
    }
  }

  /** So many keys are enough for the size exactly if they reach the target. */
  lemma TargetIff(limits: Limits, total: nat, keys: nat)
    ensures limits.Target(total) <= keys <==> limits.Suffices(keys, total)
  {
    hide GetNumberOfKeysToDelete, GetGarbageCollectionRatio;
    if !limits.SizeConditionMet() {
      NotOver(limits);
    } else if 0.0 <= limits.SizeThreshold() {
      RatioIsShare(limits);
      var ratio := GetGarbageCollectionRatio(limits.diskSizeBytes, limits.sizeLimitBytes, limits.gcThreshold).value;
      TargetOfShare(limits, total, ratio);
      ShareReached(ratio, limits.diskSizeBytes as real - limits.SizeThreshold(), limits.diskSizeBytes as real, total, keys);
    } else {
      NegativeThreshold(limits, total);
    }
  }

  /** Below the threshold no key has to go. */
  lemma NotOver(limits: Limits)
    requires !limits.SizeConditionMet()
    ensures forall keys, total :: limits.Suffices(keys, total)
    ensures forall total :: limits.Target(total) == 0
  {
  }

  lemma PrefixReaches(limits: Limits, infos: Infos, total: nat, sorted: seq<string>, chosen: nat)
    requires limits.SizeConditionMet()
    requires forall j :: 0 <= j <= |sorted| ==>
               (forall id :: id in sorted[..j] ==> id in infos) && (limits.Target(total) <= SumOf(infos, sorted[..j]) <==> chosen <= j)
    ensures forall j :: 0 <= j <= |sorted| ==>
               (forall id :: id in sorted[..j] ==> id in infos) && (limits.Suffices(SumOf(infos, sorted[..j]), total) <==> chosen <= j)
  {
    hide Limits.Target, Limits.Suffices, Limits.SizeConditionMet, SumOf;
    forall j | 0 <= j <= |sorted|
      ensures (forall id :: id in sorted[..j] ==> id in infos) && (limits.Suffices(SumOf(infos, sorted[..j]), total) <==> chosen <= j)
    {
      TargetIff(limits, total, SumOf(infos, sorted[..j]));
    }
  }

  lemma RatioIsShare(limits: Limits)
    requires 0.0 <= limits.SizeThreshold() < limits.diskSizeBytes as real
    ensures var ratio := GetGarbageCollectionRatio(limits.diskSizeBytes, limits.sizeLimitBytes, limits.gcThreshold);
            && ratio.Some? && 0.0 < ratio.value <= 1.0
            && ratio.value * limits.diskSizeBytes as real == limits.diskSizeBytes as real - limits.SizeThreshold()
  {
  }

  lemma TargetOfShare(limits: Limits, total: nat, ratio: real)
    requires GetGarbageCollectionRatio(limits.diskSizeBytes, limits.sizeLimitBytes, limits.gcThreshold) == Some(ratio) && 0.0 < ratio <= 1.0
    ensures var keys := limits.Target(total); keys as real >= ratio * total as real > keys as real - 1.0
  {
    hide GetGarbageCollectionRatio;
  }

  lemma NegativeThreshold(limits: Limits, total: nat)
    requires limits.SizeThreshold() < 0.0
    ensures limits.Target(total) == 0
  {
    hide GetGarbageCollectionRatio;
    RatioIsTooHigh(limits);
  }

  lemma RatioIsTooHigh(limits: Limits)
    requires limits.SizeThreshold() < 0.0
    ensures var ratio := GetGarbageCollectionRatio(limits.diskSizeBytes, limits.sizeLimitBytes, limits.gcThreshold);
            ratio.Some? ==> ratio.value > 1.0
  {
    var ratio := GetGarbageCollectionRatio(limits.diskSizeBytes, limits.sizeLimitBytes, limits.gcThreshold);
    if ratio.Some? {
      QuotientAboveOne(ratio.value, limits.diskSizeBytes as real - limits.SizeThreshold(), limits.diskSizeBytes as real);
    }
  }

  lemma QuotientAboveOne(ratio: real, over: real, disk: real)
    requires 0.0 < disk < over && ratio * disk == over
    ensures ratio > 1.0
  {
  }

  lemma ShareReached(ratio: real, over: real, disk: real, total: nat, keys: nat)
    requires 0.0 < disk && ratio * disk == over
    ensures ratio * total as real <= keys as real <==> keys as real * disk >= total as real * over
  {
    var share := ratio * total as real;
    assert share * disk == total as real * over;
  }

  /** Deleting the first `k` partitions is enough: they hold the keys the size calls for, and none of the
      others is too old. */
  ghost predicate Enough(dur: PartitionDuration, infos: Infos, total: nat, sorted: seq<string>, starts: seq<int>, limits: Limits, k: nat)
    requires k <= |sorted| == |starts| && forall id :: id in sorted ==> id in infos
  {
    && limits.Suffices(SumOf(infos, sorted[..k]), total)
    && forall j :: k <= j < |starts| ==> !TooOld(dur, starts[j], starts[|starts| - 1], limits.timeLimit)
  }

  /** What `getPartitionsToDelete` returns, of the counts and starts of a store that is not empty. */
  ghost predicate IsSelection(dur: PartitionDuration, infos: Infos, total: nat, sorted: seq<string>, starts: seq<int>, limits: Limits,
                              selected: seq<string>)
    requires |sorted| == |starts| && forall id :: id in sorted ==> id in infos
  {
    && |selected| <= |sorted| && selected == sorted[..|selected|]
    && Enough(dur, infos, total, sorted, starts, limits, |selected|)
    && forall j :: 0 <= j < |selected| ==> !Enough(dur, infos, total, sorted, starts, limits, j)
  }

  /** The counts and partitions of a store. */
  datatype Census = Census(infos: Infos, total: nat, sorted: seq<string>, starts: seq<int>)

  ghost predicate IsCensus(dur: PartitionDuration, ks: set<string>, c: Census) {
    && Counts(ks, c.infos, c.total) && |c.sorted| == |c.starts|
    && Ascending(c.sorted) && (forall id :: id in c.sorted <==> id in c.infos)
    && SortedStarts(dur, ks, c.sorted, c.starts)
  }

  lemma CensusEnds(dur: PartitionDuration, ks: set<string>, c: Census, lo: int, hi: int)
    requires IsCensus(dur, ks, c) && StoreBounds(ks, lo, hi) && forall k :: k in ks ==> InStore(k)
    ensures |c.sorted| == |c.starts| > 0 && c.starts[0] == lo && c.starts[|c.starts| - 1] == hi
  {
    hide InStore, StartOfKey, Counts, FormatId, Less;
    var a :| a in ks && InStore(a) && StartOfKey(a) == lo;
    var b :| b in ks && InStore(b) && StartOfKey(b) == hi;
    var i :| 0 <= i < |c.starts| && c.starts[i] == lo;
    var j :| 0 <= j < |c.starts| && c.starts[j] == hi;
    var last := |c.starts| - 1;
    var k0 :| k0 in ks && StartOfKey(k0) == c.starts[0];
    var k1 :| k1 in ks && StartOfKey(k1) == c.starts[last];
  }

  /** The index past the end of the list is read, exactly when not even the newest partition is within the
      time limit and the size does not call for all of them. */
  ghost predicate RunsOffTheEnd(dur: PartitionDuration, c: Census, limits: Limits)
    requires |c.sorted| > 0 && forall id :: id in c.sorted ==> id in c.infos
  {
    && limits.timeLimit < dur.Seconds() * NANOS
    && limits.Suffices(SumOf(c.infos, c.sorted[..|c.sorted| - 1]), c.total)
  }

  /** None stands for the index out of range; the returned counts are empty when there is nothing to do. */
  method GetPartitionsToDelete(dur: PartitionDuration, db: Db, limits: Limits)
    returns (selected: Option<seq<string>>, infos: Infos, ghost c: Census)
    requires SoundStore(dur, db.data.Keys)
    ensures IsCensus(dur, db.data.Keys, c)
    ensures db.data == map[] ==> selected == Some([])
    ensures db.data != map[] ==> |c.sorted| > 0 && (selected.None? <==> RunsOffTheEnd(dur, c, limits))
    ensures db.data != map[] && selected.Some? ==>
              IsSelection(dur, c.infos, c.total, c.sorted, c.starts, limits, selected.value)
    ensures selected.Some? && selected.value != [] ==> infos == c.infos
  {
    hide FormatId, StoreBounds, InStore, Counts, ParseKey, SoundTables, SortedStarts, Less, SumOf;
    hide CleanUpTimeCondition, TooOld, Limits.Target, Limits.SizeConditionMet, Limits.Suffices;
    var ok, minPartition, maxPartition := GetMinAndMaxPartition(dur, db);
    var partitionMap, totalKeysCount := GetPartitionsInfo(db);
    var sortedPartitionsList := GetSortedPartitionIDs(partitionMap);
    ghost var starts := SortedStartsOf(dur, db.data.Keys, partitionMap, totalKeysCount, sortedPartitionsList);
    c := Census(partitionMap, totalKeysCount, sortedPartitionsList, starts);
    if !ok {
      NothingStored(db.data);
      return Some([]), map[], c;
    }
    ghost var lo, hi :| StoreBounds(db.data.Keys, lo, hi) && IsStart(dur, lo) && IsStart(dur, hi) && hi + dur.Seconds() < MAX_ID
                        && minPartition == FormatId(lo) && maxPartition == FormatId(hi);
    CensusEnds(dur, db.data.Keys, c, lo, hi);
    TimeConditionIs(dur, lo, hi, limits.timeLimit);
    var sizeConditionMet := limits.SizeConditionMet();
    var needCleanUp := sizeConditionMet || CleanUpTimeCondition(dur, minPartition, maxPartition, limits.timeLimit);
    if !needCleanUp {
      NothingToDo(dur, db.data.Keys, c, limits);
      return Some([]), map[], c;
    }

    var partitionsToDelete := [];
    SumIsTotal(db.data.Keys, partitionMap, totalKeysCount, sortedPartitionsList);
    TargetWithinTotal(limits, totalKeysCount);
    if sizeConditionMet {
      partitionsToDelete := GetPartitionsForSize(limits.Target(totalKeysCount), partitionMap, sortedPartitionsList);
      PrefixReaches(limits, partitionMap, totalKeysCount, sortedPartitionsList, |partitionsToDelete|);
    }
    ghost var bySize := |partitionsToDelete|;
    if |partitionsToDelete| == |sortedPartitionsList| {
      AllSelected(dur, db.data.Keys, c, limits);
      return Some(partitionsToDelete), partitionMap, c;
    }

    var index := |partitionsToDelete|;
    while index < |sortedPartitionsList| && CleanUpTimeCondition(dur, sortedPartitionsList[index], maxPartition, limits.timeLimit)
      invariant bySize <= index <= |sortedPartitionsList| && partitionsToDelete == sortedPartitionsList[..index]
      invariant forall j :: bySize <= j < index ==> TooOld(dur, starts[j], hi, limits.timeLimit)
    {
      CensusStart(dur, db.data.Keys, c, index);
      TimeConditionIs(dur, starts[index], hi, limits.timeLimit);
      partitionsToDelete := partitionsToDelete + [sortedPartitionsList[index]];
      index := index + 1;
    }
    if index >= |sortedPartitionsList| {
      EndReached(dur, db.data.Keys, c, limits, bySize);
      return None, map[], c;
    }
    CensusStart(dur, db.data.Keys, c, index);
    TimeConditionIs(dur, starts[index], hi, limits.timeLimit);
    SelectionFound(dur, db.data.Keys, c, limits, bySize, index);
    return Some(partitionsToDelete), partitionMap, c;
  }

  /** When even the oldest partition is within the time limit, the size alone decides: no shorter prefix would be
      enough for it, and below the threshold nothing is selected. */
  lemma BySizeAlone(dur: PartitionDuration, ks: set<string>, c: Census, limits: Limits, selected: seq<string>)
    requires IsCensus(dur, ks, c) && |c.sorted| == |c.starts| > 0
    requires IsSelection(dur, c.infos, c.total, c.sorted, c.starts, limits, selected)
    requires !TooOld(dur, c.starts[0], c.starts[|c.starts| - 1], limits.timeLimit)
    ensures forall j :: 0 <= j < |selected| ==> !limits.Suffices(SumOf(c.infos, c.sorted[..j]), c.total)
    ensures !limits.SizeConditionMet() ==> selected == []
  {
    hide Counts, FormatId, StartOfKey, Less, Limits.SizeConditionMet, Limits.Suffices, SumOf, SortedStarts;
    forall j | 0 <= j < |c.starts| ensures !TooOld(dur, c.starts[j], c.starts[|c.starts| - 1], limits.timeLimit) {
      LaterIsYounger(dur, ks, c, limits, 0, j);
    }
    forall j | 0 <= j < |selected| ensures !limits.Suffices(SumOf(c.infos, c.sorted[..j]), c.total) {
      assert !Enough(dur, c.infos, c.total, c.sorted, c.starts, limits, j);
    }
    if !limits.SizeConditionMet() {
      NotOver(limits);
      assert Enough(dur, c.infos, c.total, c.sorted, c.starts, limits, 0);
    }
  }

  lemma TargetWithinTotal(limits: Limits, total: nat)
    ensures limits.Target(total) <= total
  {
  }

  lemma NothingStored(data: map<string, Value>)
    requires forall k :: k in data ==> InStore(k)
    requires !exists k :: k in data && InStore(k)
    ensures data == map[]
  {
    hide InStore;
  }

  lemma CensusStart(dur: PartitionDuration, ks: set<string>, c: Census, i: nat)
    requires IsCensus(dur, ks, c) && i < |c.sorted|
    ensures |c.starts| == |c.sorted| && IsStart(dur, c.starts[i]) && c.sorted[i] == FormatId(c.starts[i])
  {
  }

  lemma LaterIsYounger(dur: PartitionDuration, ks: set<string>, c: Census, limits: Limits, i: nat, j: nat)
    requires IsCensus(dur, ks, c) && i <= j < |c.starts|
    requires !TooOld(dur, c.starts[i], c.starts[|c.starts| - 1], limits.timeLimit)
    ensures !TooOld(dur, c.starts[j], c.starts[|c.starts| - 1], limits.timeLimit)
  {
    hide Counts, FormatId, StartOfKey, Less;
  }

  lemma NothingToDo(dur: PartitionDuration, ks: set<string>, c: Census, limits: Limits)
    requires IsCensus(dur, ks, c) && |c.starts| > 0 && !limits.SizeConditionMet()
    requires !TooOld(dur, c.starts[0], c.starts[|c.starts| - 1], limits.timeLimit)
    ensures |c.sorted| == |c.starts| && IsSelection(dur, c.infos, c.total, c.sorted, c.starts, limits, [])
    ensures !RunsOffTheEnd(dur, c, limits)
  {
    hide Counts, FormatId, StartOfKey, Less, Limits.SizeConditionMet, Limits.Suffices;
    NotOver(limits);
    forall j | 0 <= j < |c.starts| ensures !TooOld(dur, c.starts[j], c.starts[|c.starts| - 1], limits.timeLimit) {
      LaterIsYounger(dur, ks, c, limits, 0, j);
    }
  }

  lemma AllSelected(dur: PartitionDuration, ks: set<string>, c: Census, limits: Limits)
    requires IsCensus(dur, ks, c) && |c.sorted| > 0 && limits.SizeConditionMet()
    requires forall j :: 0 <= j <= |c.sorted| ==>
               (forall id :: id in c.sorted[..j] ==> id in c.infos) && (limits.Suffices(SumOf(c.infos, c.sorted[..j]), c.total) <==> |c.sorted| <= j)
    ensures |c.sorted| == |c.starts| && IsSelection(dur, c.infos, c.total, c.sorted, c.starts, limits, c.sorted)
    ensures !RunsOffTheEnd(dur, c, limits)
  {
    hide Counts, FormatId, StartOfKey, Less, Limits.SizeConditionMet, Limits.Suffices, TooOld, SumOf;
    assert c.sorted[..|c.sorted|] == c.sorted;
  }

  /** The time loop ran through the newest partition. */
  lemma EndReached(dur: PartitionDuration, ks: set<string>, c: Census, limits: Limits, bySize: nat)
    requires IsCensus(dur, ks, c) && |c.sorted| == |c.starts| && bySize < |c.sorted|
    requires forall j :: bySize <= j < |c.starts| ==> TooOld(dur, c.starts[j], c.starts[|c.starts| - 1], limits.timeLimit)
    requires limits.SizeConditionMet() ==> forall j :: 0 <= j <= |c.sorted| ==>
               (forall id :: id in c.sorted[..j] ==> id in c.infos) && (limits.Suffices(SumOf(c.infos, c.sorted[..j]), c.total) <==> bySize <= j)
    ensures RunsOffTheEnd(dur, c, limits)
  {
    hide Counts, FormatId, StartOfKey, Less, Limits.SizeConditionMet, Limits.Suffices, SumOf, SortedStarts;
    var last := |c.starts| - 1;
    assert TooOld(dur, c.starts[last], c.starts[last], limits.timeLimit);
    if limits.SizeConditionMet() {
      assert limits.Suffices(SumOf(c.infos, c.sorted[..last]), c.total);
    } else {
      NotOver(limits);
    }
  }

  lemma SelectionFound(dur: PartitionDuration, ks: set<string>, c: Census, limits: Limits, bySize: nat, index: nat)
    requires IsCensus(dur, ks, c) && |c.sorted| == |c.starts| && bySize <= index < |c.sorted|
    requires forall j :: bySize <= j < index ==> TooOld(dur, c.starts[j], c.starts[|c.starts| - 1], limits.timeLimit)
    requires !TooOld(dur, c.starts[index], c.starts[|c.starts| - 1], limits.timeLimit)
    requires if limits.SizeConditionMet()
             then forall j :: 0 <= j <= |c.sorted| ==>
               (forall id :: id in c.sorted[..j] ==> id in c.infos) && (limits.Suffices(SumOf(c.infos, c.sorted[..j]), c.total) <==> bySize <= j)
             else bySize == 0
    ensures IsSelection(dur, c.infos, c.total, c.sorted, c.starts, limits, c.sorted[..index])
    ensures !RunsOffTheEnd(dur, c, limits)
  {
    hide Counts, FormatId, StartOfKey, Less, Limits.SizeConditionMet, Limits.Suffices, SumOf, SortedStarts;
    var last := |c.starts| - 1;
    forall j | index <= j < |c.starts| ensures !TooOld(dur, c.starts[j], c.starts[last], limits.timeLimit) {
      LaterIsYounger(dur, ks, c, limits, index, j);
    }
    assert !TooOld(dur, c.starts[last], c.starts[last], limits.timeLimit);
    if !limits.SizeConditionMet() {
      NotOver(limits);
    }
    assert Enough(dur, c.infos, c.total, c.sorted, c.starts, limits, index);
    forall j | 0 <= j < index ensures !Enough(dur, c.infos, c.total, c.sorted, c.starts, limits, j) {
      if bySize <= j {
        assert TooOld(dur, c.starts[j], c.starts[last], limits.timeLimit);
      }
    }
  }
}
