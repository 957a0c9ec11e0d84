/** How many keys each partition and each table holds. */
module PartitionCounts {
  import opened ByteStrings
  import opened Store
  import opened WatchKeys
  import opened Tables

  datatype PartitionInfo = PartitionInfo(totalKeyCount: nat, tableNameToKeyCountMap: map<string, nat>)

  type Infos = map<string, PartitionInfo>

  function PartitionOf(key: string): string {
    if ParseKey(key).Some? then ParseKey(key).value[2] else ""
  }

  function TableOfKey(key: string): string {
    if ParseKey(key).Some? then ParseKey(key).value[1] else ""
  }

  /** The keys that parse. */
  ghost function Parsable(ks: set<string>): set<string> {
    set k | k in ks && ParseKey(k).Some?
  }

  ghost function KeysOf(ks: set<string>, id: string): set<string> {
    set k | k in ks && ParseKey(k).Some? && PartitionOf(k) == id
  }

  ghost function KeysIn(ks: set<string>, id: string, table: string): set<string> {
    set k | k in ks && ParseKey(k).Some? && PartitionOf(k) == id && TableOfKey(k) == table
  }

  /** `infos` counts the keys of `ks`, by partition and by table within a partition. */
  ghost predicate Counts(ks: set<string>, infos: Infos, total: nat) {
    && total == |Parsable(ks)|
    && (forall id :: id in infos <==> KeysOf(ks, id) != {})
    && (forall id :: id in infos ==> infos[id].totalKeyCount == |KeysOf(ks, id)|)
    && (forall id, table :: id in infos ==> CountFor(infos[id], table) == |KeysIn(ks, id, table)|)
  }

  /** A Go map of numbers: what is not there counts as zero. */
  function CountFor(info: PartitionInfo, table: string): nat {
    if table in info.tableNameToKeyCountMap then info.tableNameToKeyCountMap[table] else 0
  }

  function WithKey(infos: Infos, key: string): Infos {
    var id, table := PartitionOf(key), TableOfKey(key);
    var info := if id in infos then infos[id] else PartitionInfo(0, map[]);
    infos[id := PartitionInfo(info.totalKeyCount + 1, info.tableNameToKeyCountMap[table := CountFor(info, table) + 1])]
  }

  lemma CountOneMore(ks: set<string>, infos: Infos, total: nat, key: string)
    requires Counts(ks, infos, total) && key !in ks && ParseKey(key).Some?
    ensures Counts(ks + {key}, WithKey(infos, key), total + 1)
  {
    hide ParseKey, PartitionOf, TableOfKey, KeysOf, KeysIn;
    var ks' := ks + {key};
    var id, table := PartitionOf(key), TableOfKey(key);
    var infos' := WithKey(infos, key);
    assert Parsable(ks') == Parsable(ks) + {key};
    forall i
      ensures i in infos' <==> KeysOf(ks', i) != {}
      ensures i in infos' ==> infos'[i].totalKeyCount == |KeysOf(ks', i)|
    {
      KeysOfMore(ks, key, i);
    }
    forall i, t | i in infos'
      ensures CountFor(infos'[i], t) == |KeysIn(ks', i, t)|
    {
      KeysInMore(ks, key, i, t);
    }
  }

  lemma KeysOfMore(ks: set<string>, key: string, id: string)
    requires key !in ks && ParseKey(key).Some?
    ensures KeysOf(ks + {key}, id) == if id == PartitionOf(key) then KeysOf(ks, id) + {key} else KeysOf(ks, id)
    ensures key !in KeysOf(ks, id)
  {
    hide ParseKey, PartitionOf;
  }

  lemma KeysInMore(ks: set<string>, key: string, id: string, table: string)
    requires key !in ks && ParseKey(key).Some?
    ensures KeysIn(ks + {key}, id, table)
            == if id == PartitionOf(key) && table == TableOfKey(key) then KeysIn(ks, id, table) + {key} else KeysIn(ks, id, table)
    ensures key !in KeysIn(ks, id, table) && (KeysOf(ks, id) == {} ==> KeysIn(ks, id, table) == {})
  {
    hide ParseKey, PartitionOf, TableOfKey;
    assert KeysIn(ks, id, table) <= KeysOf(ks, id);
  }

  lemma CountNone(ks: set<string>, infos: Infos, total: nat, key: string)
    requires Counts(ks, infos, total) && ParseKey(key).None?
    ensures Counts(ks + {key}, infos, total)
  {
    hide ParseKey, PartitionOf, TableOfKey;
    var ks' := ks + {key};
    assert Parsable(ks') == Parsable(ks);
    assert forall i :: KeysOf(ks', i) == KeysOf(ks, i);
    assert forall i, t :: KeysIn(ks', i, t) == KeysIn(ks, i, t);
  }

  lemma CountEmpty()
    ensures Counts({}, map[], 0)
  {
    assert forall i :: KeysOf({}, i) == {};
  }

  /** Walks all keys once; those that do not parse are skipped. */
  method GetPartitionsInfo(db: MockDb<Value>) returns (infos: Infos, totalKeyCount: nat)
    ensures Counts(db.data.Keys, infos, totalKeyCount)
  {
    hide ParseKey, Counts, PartitionOf, TableOfKey, Less;
    infos, totalKeyCount := map[], 0;
    CountEmpty();
    var it := new MockIterator(db, false);
    it.Rewind();
    ghost var keys, seen: set<string> := it.keys, {};
    while it.Valid()
      invariant it.keys == keys && it.currentIdx <= |it.keys| && it.Sorted()
      invariant forall k :: k in seen <==> k in it.keys[..it.currentIdx]
      invariant Counts(seen, infos, totalKeyCount)
      decreases |it.keys| - it.currentIdx
    {
      var key := it.Key();
      AscendingIsNew(it.keys, it.currentIdx);
      if ParseKey(key).None? {
        CountNone(seen, infos, totalKeyCount, key);
      } else {
        CountOneMore(seen, infos, totalKeyCount, key);
        infos := WithKey(infos, key);
        totalKeyCount := totalKeyCount + 1;
      }
      assert it.keys[..it.currentIdx + 1] == it.keys[..it.currentIdx] + [key];
      seen := seen + {key};
      it.Next();
    }
    assert it.keys[..it.currentIdx] == it.keys;
    assert seen == db.data.Keys;
  }

  lemma AscendingIsNew(keys: seq<string>, n: nat)
    requires Ascending(keys) && n < |keys|
    ensures keys[n] !in keys[..n]
  {
    hide Less;
    if keys[n] in keys[..n] {
      var i :| 0 <= i < n && keys[i] == keys[n];
      LessIrreflexive(keys[n]);
    }
  }

  /** The ids of the partitions, oldest first. */
  method GetSortedPartitionIDs(infos: Infos) returns (sorted: seq<string>)
    ensures Ascending(sorted) && forall id :: id in sorted <==> id in infos
  {
    var ids := [];
    var rest := infos.Keys;
    while rest != {}
      invariant forall id :: id in infos <==> id in rest || id in ids
      invariant forall i :: 0 <= i < |ids| ==> ids[i] !in rest
      invariant forall i, j :: 0 <= i < j < |ids| ==> ids[i] != ids[j]
      decreases |rest|
    {
      var id :| id in rest;
      ids, rest := ids + [id], rest - {id};
    }
    sorted := SortStrings(ids);
  }

  // ----- the counts add up -----

  function SumOf(infos: Infos, ids: seq<string>): nat
    requires forall id :: id in ids ==> id in infos
  {
    if ids == [] then 0
    else
      assert ids[|ids| - 1] in ids;
      SumOf(infos, ids[..|ids| - 1]) + infos[ids[|ids| - 1]].totalKeyCount
  }

  ghost function KeysOfAll(ks: set<string>, ids: seq<string>): set<string> {
    set k | k in ks && ParseKey(k).Some? && PartitionOf(k) in ids
  }

  /** The counts of different partitions count different keys. */
  lemma {:induction false} SumCountsKeys(ks: set<string>, infos: Infos, total: nat, ids: seq<string>)
    requires Counts(ks, infos, total) && (forall id :: id in ids ==> id in infos)
    requires forall i, j :: 0 <= i < j < |ids| ==> ids[i] != ids[j]
    ensures SumOf(infos, ids) == |KeysOfAll(ks, ids)|
  {
    hide ParseKey, PartitionOf, TableOfKey;
    if ids == [] {
      assert KeysOfAll(ks, ids) == {};
    } else {
      var front, id := ids[..|ids| - 1], ids[|ids| - 1];
      assert ids == front + [id];
      SumCountsKeys(ks, infos, total, front);
      assert KeysOfAll(ks, ids) == KeysOfAll(ks, front) + KeysOf(ks, id);
      assert KeysOfAll(ks, front) !! KeysOf(ks, id);
    }
  }

  lemma {:induction false} SumGrows(infos: Infos, ids: seq<string>, j: nat, k: nat)
    requires (forall id :: id in ids ==> id in infos) && j <= k <= |ids|
    ensures (forall id :: id in ids[..j] ==> id in infos) && (forall id :: id in ids[..k] ==> id in infos)
    ensures SumOf(infos, ids[..j]) <= SumOf(infos, ids[..k])
    decreases k
  {
    if j < k {
      SumGrows(infos, ids, j, k - 1);
      assert ids[..k][..k - 1] == ids[..k - 1];
    }
  }

  /** All partitions together hold all keys that parse. */
  lemma SumIsTotal(ks: set<string>, infos: Infos, total: nat, ids: seq<string>)
    requires Counts(ks, infos, total) && Ascending(ids) && forall id :: id in ids <==> id in infos
    ensures SumOf(infos, ids) == total
  {
    hide ParseKey, PartitionOf, TableOfKey, Less;
    AscendingDistinct(ids);
    SumCountsKeys(ks, infos, total, ids);
    forall k | k in Parsable(ks)
      ensures k in KeysOfAll(ks, ids)
    {
      assert k in KeysOf(ks, PartitionOf(k));
    }
    assert KeysOfAll(ks, ids) == Parsable(ks);
  }

  lemma AscendingDistinct(ids: seq<string>)
    requires Ascending(ids)
    ensures forall i, j :: 0 <= i < j < |ids| ==> ids[i] != ids[j]
  {
    hide Less;
    forall i, j | 0 <= i < j < |ids| ensures ids[i] != ids[j] {
      LessIrreflexive(ids[i]);
    }
  }
}
