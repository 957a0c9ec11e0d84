/** Deleting the chosen partitions: by dropping prefixes, or key by key. */
module Cleanup {
  import opened ByteStrings
  import opened Decimal
  import opened Wrappers
  import opened Partitions
  import opened Store
  import opened WatchKeys
  import opened Tables
  import opened PartitionCounts
  import opened GarbageCollection
  import KeyDeletion

  type Data = map<string, Value>

  // ----- the rows of a table in a partition -----

  function PartitionPrefix(table: string, id: string): string {
    "/" + table + "/" + id
  }

  /** Although it does not end in a slash, the prefix takes exactly the rows of one table and partition:
      ids have the same length. */
  lemma PrefixIsPartition(dur: PartitionDuration, ks: set<string>, table: string, p: int, k: string)
    requires SoundStore(dur, ks) && k in ks && IsTable(table) && IsStart(dur, p)
    ensures PartitionPrefix(table, FormatId(p)) <= k <==> TableOfKey(k) == table && PartitionOf(k) == FormatId(p)
    ensures !("!badger!move" + PartitionPrefix(table, FormatId(p)) <= k)
  {
    hide FormatId, ParseInt, SoundTables, InStore, StartOfKey, ParseKey, Split;
    KeyParses(dur, ks, k);
    KeyFromParts(k);
    var parts := Split(k);
    TableSlashFree(table);
    IdFaithful(p);
    IdFaithful(StartOfKey(k));
    IdSlashFree(StartOfKey(k));
    PrefixOfParts(table, FormatId(p), parts[1], parts[2], parts[3] + "/" + (parts[4] + "/" + (parts[5] + "/" + parts[6])));
  }

  lemma PrefixOfParts(table: string, id: string, table': string, id': string, rest: string)
    requires SlashFree(table) && SlashFree(table') && |id| == |id'|
    ensures PartitionPrefix(table, id) <= TablePath(table') + (id' + "/" + rest) <==> table == table' && id == id'
    ensures !("!badger!move" + PartitionPrefix(table, id) <= TablePath(table') + (id' + "/" + rest))
  {
    var x := id' + "/" + rest;
    FieldPrefix(table, id, table', x);
    assert PartitionPrefix(table, id) == "/" + (table + "/" + id);
    assert TablePath(table') + x == "/" + (table' + "/" + x);
    ConcatCancel("/", table + "/" + id, table' + "/" + x);
    assert x == id' + ("/" + rest);
    SameLengthPrefix(id, id', "/" + rest);
    assert (TablePath(table') + x)[0] == '/' && ("!badger!move" + PartitionPrefix(table, id))[0] == '!';
  }

  lemma SameLengthPrefix(a: string, b: string, x: string)
    requires |a| == |b|
    ensures a <= b + x <==> a == b
  {
    assert (b + x)[..|b|] == b;
  }

  lemma KeyFromParts(k: string)
    requires ParseKey(k).Some?
    ensures var parts := Split(k);
            |parts| == 7 && SlashFree(parts[1]) && PartitionOf(k) == parts[2] && TableOfKey(k) == parts[1]
            && k == TablePath(parts[1]) + Fields(parts[2], parts[3], parts[4], parts[5], parts[6])
  {
    hide Split, Fields;
    KeyOfParts(k, Split(k)[1]);
  }

  /** The store without the rows of the first tables in a partition. */
  ghost function Without(data: Data, id: string, tables: seq<string>): Data {
    map k | k in data && !(PartitionOf(k) == id && TableOfKey(k) in tables) :: data[k]
  }

  function CountsOf(info: PartitionInfo, tables: seq<string>): nat {
    if tables == [] then 0 else CountsOf(info, tables[..|tables| - 1]) + CountFor(info, tables[|tables| - 1])
  }

  // ----- when deleting key by key ends -----

  function Rank(table: string): nat {
    if table == TABLE_NAMES[0] then 0 else if table == TABLE_NAMES[1] then 1 else if table == TABLE_NAMES[2] then 2 else 3
  }

  lemma RankIs(table: string, i: nat)
    requires IsTable(table) && i < |TABLE_NAMES|
    ensures Rank(TABLE_NAMES[i]) == i
    ensures table == TABLE_NAMES[i] <==> Rank(table) == i
    ensures table in TABLE_NAMES[..i] <==> Rank(table) < i
  {
    var t := TABLE_NAMES;
    assert t[0] == "watch" && t[1] == "ressum" && t[2] == "eventcount" && t[3] == "watchactivity";
    assert |t[0]| == 5 && |t[1]| == 6 && |t[2]| == 10 && |t[3]| == 13;
    assert table == t[0] || table == t[1] || table == t[2] || table == t[3];
    assert i == 0 || i == 1 || i == 2 || i == 3;
    assert t[..0] == [] && t[..1] == [t[0]] && t[..2] == [t[0], t[1]] && t[..3] == [t[0], t[1], t[2]];
  }

  /** Before a row of the partition come only rows that are deleted no later: those of the partition, in its
      own table or an earlier one. */
  ghost predicate Unblocked(data: Data, id: string) {
    forall k, o :: k in data && o in data && PartitionOf(k) == id && Less(o, k) ==>
      PartitionOf(o) == id && Rank(TableOfKey(o)) <= Rank(TableOfKey(k))
  }

  /** The loop over the keys of the `i`-th table ends, on what the tables before it have left. */
  ghost predicate TableEnds(data: Data, id: string, i: nat, batchSize: nat)
    requires i < |TABLE_NAMES|
  {
    KeyDeletion.Ends(Without(data, id, TABLE_NAMES[..i]), PartitionPrefix(TABLE_NAMES[i], id), batchSize,
                     |KeysIn(data.Keys, id, TABLE_NAMES[i])|)
  }

  lemma MatchesIsRow(dur: PartitionDuration, data: Data, p: int, i: nat, k: string)
    requires SoundStore(dur, data.Keys) && IsStart(dur, p) && i < |TABLE_NAMES| && k in data
    ensures KeyDeletion.Matches(PartitionPrefix(TABLE_NAMES[i], FormatId(p)), k) <==> k in KeysIn(data.Keys, FormatId(p), TABLE_NAMES[i])
    ensures k in KeysIn(data.Keys, FormatId(p), TABLE_NAMES[i]) <==> PartitionOf(k) == FormatId(p) && Rank(TableOfKey(k)) == i
    ensures k in Without(data, FormatId(p), TABLE_NAMES[..i]) <==> !(PartitionOf(k) == FormatId(p) && Rank(TableOfKey(k)) < i)
  {
    hide FormatId, PartitionOf, TableOfKey, PartitionPrefix, SoundTables, InStore, Rank, IsTable;
    KeyParses(dur, data.Keys, k);
    NameIsTable(i);
    PrefixIsPartition(dur, data.Keys, TABLE_NAMES[i], p, k);
    RankIs(TableOfKey(k), i);
  }

  lemma NameIsTable(i: nat)
    requires i < |TABLE_NAMES|
    ensures IsTable(TABLE_NAMES[i])
  {
  }

  /** What leads a table's loop: its rows, if nothing else comes before them. */
  lemma TableEndsIff(dur: PartitionDuration, data: Data, p: int, i: nat, batchSize: nat)
    requires SoundStore(dur, data.Keys) && IsStart(dur, p) && i < |TABLE_NAMES|
    ensures var id := FormatId(p);
            var rows := KeysIn(data.Keys, id, TABLE_NAMES[i]);
            TableEnds(data, id, i, batchSize) <==>
              KeyDeletion.Leading(Without(data, id, TABLE_NAMES[..i]).Keys, PartitionPrefix(TABLE_NAMES[i], id)) == rows
  {
    hide FormatId, PartitionOf, TableOfKey, PartitionPrefix, SoundStore, Less, Without, KeysIn, Rank, KeyDeletion.Matches, IsStart;
    var id := FormatId(p);
    var rows, left := KeysIn(data.Keys, id, TABLE_NAMES[i]), Without(data, id, TABLE_NAMES[..i]);
    var leading := KeyDeletion.Leading(left.Keys, PartitionPrefix(TABLE_NAMES[i], id));
    KeyDeletion.EndsIffEnoughLead(left, PartitionPrefix(TABLE_NAMES[i], id), batchSize, |rows|);
    WithoutIsLess(data, id, TABLE_NAMES[..i]);
    forall k | k in leading ensures k in rows {
      MatchesIsRow(dur, data, p, i, k);
    }
    SubsetOfSize(leading, rows);
  }

  lemma WithoutIsLess(data: Data, id: string, tables: seq<string>)
    ensures Without(data, id, tables).Keys <= data.Keys
  {
  }

  lemma SubsetOfSize(a: set<string>, b: set<string>)
    requires a <= b
    ensures |b| <= |a| <==> a == b
  {
    assert b == a + (b - a);
  }

  /** Deleting a partition key by key ends exactly when nothing blocks it: otherwise one of its four loops turns
      forever, whatever the batch size. */
  lemma EndsIffUnblocked(dur: PartitionDuration, data: Data, p: int, batchSize: nat)
    requires SoundStore(dur, data.Keys) && IsStart(dur, p)
    ensures (forall i :: 0 <= i < |TABLE_NAMES| ==> TableEnds(data, FormatId(p), i, batchSize)) <==> Unblocked(data, FormatId(p))
  {
    hide FormatId, PartitionOf, TableOfKey, PartitionPrefix, SoundStore, Less, Without, KeysIn, Rank, KeyDeletion.Matches, IsStart;
    hide TableEnds, Unblocked, KeyDeletion.Leading;
    if Unblocked(data, FormatId(p)) {
      forall i | 0 <= i < |TABLE_NAMES| ensures TableEnds(data, FormatId(p), i, batchSize) {
        UnblockedLeads(dur, data, p, i);
        TableEndsIff(dur, data, p, i, batchSize);
      }
    }
    if forall i :: 0 <= i < |TABLE_NAMES| ==> TableEnds(data, FormatId(p), i, batchSize) {
      forall i | 0 <= i < |TABLE_NAMES|
        ensures KeyDeletion.Leading(Without(data, FormatId(p), TABLE_NAMES[..i]).Keys, PartitionPrefix(TABLE_NAMES[i], FormatId(p)))
             == KeysIn(data.Keys, FormatId(p), TABLE_NAMES[i])
      {
        TableEndsIff(dur, data, p, i, batchSize);
      }
      LeadingUnblocks(dur, data, p);
    }
  }

  lemma UnblockedLeads(dur: PartitionDuration, data: Data, p: int, i: nat)
    requires SoundStore(dur, data.Keys) && IsStart(dur, p) && i < |TABLE_NAMES| && Unblocked(data, FormatId(p))
    ensures KeyDeletion.Leading(Without(data, FormatId(p), TABLE_NAMES[..i]).Keys, PartitionPrefix(TABLE_NAMES[i], FormatId(p)))
         == KeysIn(data.Keys, FormatId(p), TABLE_NAMES[i])
  {
    hide FormatId, PartitionOf, TableOfKey, PartitionPrefix, SoundStore, Less, Without, KeysIn, Rank, KeyDeletion.Matches, IsStart;
    var id := FormatId(p);
    var rows, left := KeysIn(data.Keys, id, TABLE_NAMES[i]), Without(data, id, TABLE_NAMES[..i]);
    WithoutIsLess(data, id, TABLE_NAMES[..i]);
    KeysInAre(data, id, TABLE_NAMES[i]);
    forall k | k in data
      ensures KeyDeletion.Matches(PartitionPrefix(TABLE_NAMES[i], id), k) <==> k in rows
      ensures k in rows <==> PartitionOf(k) == id && Rank(TableOfKey(k)) == i
      ensures k in left <==> !(PartitionOf(k) == id && Rank(TableOfKey(k)) < i)
    {
      MatchesIsRow(dur, data, p, i, k);
    }
  }

  lemma KeysInAre(data: Data, id: string, table: string)
    ensures KeysIn(data.Keys, id, table) <= data.Keys
  {
  }

  lemma LeadingUnblocks(dur: PartitionDuration, data: Data, p: int)
    requires SoundStore(dur, data.Keys) && IsStart(dur, p)
    requires forall i :: 0 <= i < |TABLE_NAMES| ==>
               KeyDeletion.Leading(Without(data, FormatId(p), TABLE_NAMES[..i]).Keys, PartitionPrefix(TABLE_NAMES[i], FormatId(p)))
               == KeysIn(data.Keys, FormatId(p), TABLE_NAMES[i])
    ensures Unblocked(data, FormatId(p))
  {
    hide FormatId, PartitionOf, TableOfKey, PartitionPrefix, SoundStore, Less, Without, KeysIn, KeyDeletion.Matches, IsStart;
    var id := FormatId(p);
    forall k, o | k in data && o in data && PartitionOf(k) == id && Less(o, k)
      ensures PartitionOf(o) == id && Rank(TableOfKey(o)) <= Rank(TableOfKey(k))
    {
      var i := Rank(TableOfKey(k));
      MatchesIsRow(dur, data, p, i, k);
      MatchesIsRow(dur, data, p, i, o);
      assert k in KeyDeletion.Leading(Without(data, id, TABLE_NAMES[..i]).Keys, PartitionPrefix(TABLE_NAMES[i], id));
    }
  }

  /** Rows of the event counts and of the summaries come before all watch records but are deleted after them:
      with either of them anywhere in the store, no partition with a watch record can be deleted key by key. */
  lemma WatchRowsAreBlocked(dur: PartitionDuration, data: Data, k: string, o: string)
    requires SoundStore(dur, data.Keys) && k in data && o in data
    requires TableOfKey(k) == "watch" && (TableOfKey(o) == "eventcount" || TableOfKey(o) == "ressum")
    ensures !Unblocked(data, PartitionOf(k))
  {
    hide FormatId, PartitionOf, SoundStore, TableOfKey, ParseKey;
    KeyParses(dur, data.Keys, k);
    KeyParses(dur, data.Keys, o);
    KeyFromParts(k);
    KeyFromParts(o);
    assert k[0] == '/' && o[0] == '/';
    assert k[1] == 'w' && (o[1] == 'e' || o[1] == 'r');
    SecondByteDecides(o, k);
    assert Rank(TableOfKey(k)) == 0 && Rank(TableOfKey(o)) > 0 by {
      assert |TABLE_NAMES[0]| == 5;
    }
  }

  lemma SecondByteDecides(a: string, b: string)
    requires |a| > 1 && |b| > 1 && a[0] == b[0] && a[1] < b[1]
    ensures Less(a, b)
  {
  }

  // ----- deletePartition -----

  /** The counts of the partition, as they are in the store. */
  ghost predicate CountsRows(data: Data, id: string, info: PartitionInfo) {
    forall t :: CountFor(info, t) == |KeysIn(data.Keys, id, t)|
  }

  /** One table, key by key. */
  method DeleteTableByKeys(dur: PartitionDuration, db: MockDb<Value>, prefix: string, deletionBatchSize: nat, numberOfKeysToRemove: nat,
                           ghost data: Data, ghost p: int, ghost i: nat)
    returns (deleted: nat)
    requires SoundStore(dur, data.Keys) && IsStart(dur, p) && i < |TABLE_NAMES| && Unblocked(data, FormatId(p))
    requires db.data == Without(data, FormatId(p), TABLE_NAMES[..i]) && prefix == PartitionPrefix(TABLE_NAMES[i], FormatId(p))
    requires numberOfKeysToRemove == |KeysIn(data.Keys, FormatId(p), TABLE_NAMES[i])|
    modifies db
    ensures db.data == Without(data, FormatId(p), TABLE_NAMES[..i + 1]) && deleted == numberOfKeysToRemove
  {
    hide FormatId, PartitionOf, TableOfKey, PartitionPrefix, SoundStore, Less, Without, KeysIn, Rank, IsStart, Unblocked;
    hide KeyDeletion.Leading, KeyDeletion.InOrder, KeyDeletion.TakenOut, KeyDeletion.Expected;
    UnblockedLeads(dur, data, p, i);
    AllTaken(deletionBatchSize, numberOfKeysToRemove);
    ghost var before := db.data;
    deleted := KeyDeletion.DeleteKeysWithPrefix(prefix, db, deletionBatchSize, numberOfKeysToRemove);
    KeyDeletion.LeadingTakenOut(before, prefix);
    WithoutNext(dur, data, p, i);
  }

  lemma AllTaken(batchSize: nat, lead: nat)
    ensures KeyDeletion.Expected(batchSize, lead, lead) == lead
  {
    if batchSize > 0 && lead > 0 {
      KeyDeletion.RoundsUp(batchSize, lead);
    }
  }

  lemma WithoutNext(dur: PartitionDuration, data: Data, p: int, i: nat)
    requires SoundStore(dur, data.Keys) && IsStart(dur, p) && i < |TABLE_NAMES|
    ensures Without(data, FormatId(p), TABLE_NAMES[..i]) - KeysIn(data.Keys, FormatId(p), TABLE_NAMES[i])
         == Without(data, FormatId(p), TABLE_NAMES[..i + 1])
  {
    hide FormatId, PartitionOf, TableOfKey, PartitionPrefix, SoundStore, Rank, IsStart, ParseKey;
    assert TABLE_NAMES[..i + 1] == TABLE_NAMES[..i] + [TABLE_NAMES[i]];
    forall k | k in data ensures ParseKey(k).Some? {
      KeyParses(dur, data.Keys, k);
    }
  }

  /** One table, by its prefix. */
  method DropTable(dur: PartitionDuration, db: MockDb<Value>, prefix: string, ghost data: Data, ghost p: int, ghost i: nat)
    requires SoundStore(dur, data.Keys) && IsStart(dur, p) && i < |TABLE_NAMES|
    requires db.data == Without(data, FormatId(p), TABLE_NAMES[..i]) && prefix == PartitionPrefix(TABLE_NAMES[i], FormatId(p))
    modifies db
    ensures db.data == Without(data, FormatId(p), TABLE_NAMES[..i + 1])
  {
    hide FormatId, PartitionOf, TableOfKey, PartitionPrefix, SoundStore, IsStart, IsTable;
    NameIsTable(i);
    assert TABLE_NAMES[..i + 1] == TABLE_NAMES[..i] + [TABLE_NAMES[i]];
    forall k | k in data
      ensures prefix <= k <==> TableOfKey(k) == TABLE_NAMES[i] && PartitionOf(k) == FormatId(p)
      ensures !("!badger!move" + prefix <= k)
    {
      PrefixIsPartition(dur, data.Keys, TABLE_NAMES[i], p, k);
    }
    db.DropPrefix(prefix);
    db.DropPrefix("!badger!move" + prefix);
  }

  /** Removes the partition table by table. When whole prefixes are dropped, the number of keys is the one
      counted beforehand. Key by key it requires what makes the loops end (`EndsIffUnblocked`). */
  method DeletePartition(dur: PartitionDuration, db: MockDb<Value>, minPartition: string, deletionBatchSize: nat, enableDeleteKeys: bool,
                         partitionInfo: PartitionInfo, ghost p: int)
    returns (deleted: nat)
    requires SoundStore(dur, db.data.Keys) && IsStart(dur, p) && minPartition == FormatId(p)
    requires enableDeleteKeys ==> Unblocked(db.data, minPartition) && CountsRows(db.data, minPartition, partitionInfo)
    modifies db
    ensures db.data == Without(old(db.data), minPartition, TABLE_NAMES)
    ensures deleted == CountsOf(partitionInfo, TABLE_NAMES)
  {
    hide FormatId, SoundStore, PartitionOf, TableOfKey, PartitionPrefix, IsStart, CountFor, Without, Unblocked, KeysIn;
    deleted := 0;
    ghost var data := db.data;
    var names := TABLE_NAMES;
    var i := 0;
    NoTables(db.data, minPartition);
    assert names[..0] == [];
    while i < |names|
      invariant i <= |names|
      invariant db.data == Without(data, minPartition, names[..i])
      invariant deleted == CountsOf(partitionInfo, names[..i])
    {
      assert names[..i + 1][..i] == names[..i];
      var prefix := PartitionPrefix(names[i], minPartition);
      var numberOfKeysToRemove := CountFor(partitionInfo, names[i]);
      var numOfDeletedKeys := numberOfKeysToRemove;
      if enableDeleteKeys {
        numOfDeletedKeys := DeleteTableByKeys(dur, db, prefix, deletionBatchSize, numberOfKeysToRemove, data, p, i);
      } else {
        DropTable(dur, db, prefix, data, p, i);
      }
      deleted := deleted + numOfDeletedKeys;
      i := i + 1;
    }
    assert names[..i] == names;
  }

  lemma NoTables(data: Data, id: string)
    ensures Without(data, id, []) == data
  {
  }

  /** Every key is in one of the four tables, so the counts of the tables add up to the partition's. */
  lemma TablesSumUp(dur: PartitionDuration, ks: set<string>, infos: Infos, total: nat, id: string)
    requires SoundStore(dur, ks) && Counts(ks, infos, total) && id in infos
    ensures CountsOf(infos[id], TABLE_NAMES) == infos[id].totalKeyCount
  {
    hide ParseKey, PartitionOf, TableOfKey, SoundStore, CountFor, CountsOf, KeysOf;
    var t := TABLE_NAMES;
    CountsOfFour(infos[id]);
    var a, b, c, d := KeysIn(ks, id, t[0]), KeysIn(ks, id, t[1]), KeysIn(ks, id, t[2]), KeysIn(ks, id, t[3]);
    InOneTable(dur, ks, id);
    assert |a + b| == |a| + |b| && |a + b + c| == |a + b| + |c|;
  }

  lemma CountsOfFour(info: PartitionInfo)
    ensures CountsOf(info, TABLE_NAMES) == CountFor(info, TABLE_NAMES[0]) + CountFor(info, TABLE_NAMES[1])
                                           + CountFor(info, TABLE_NAMES[2]) + CountFor(info, TABLE_NAMES[3])
  {
    hide CountFor;
    var t := TABLE_NAMES;
    assert t[..3][..2] == t[..2] && t[..2][..1] == t[..1] && t[..1][..0] == [];
    assert CountsOf(info, t[..1]) == CountFor(info, t[0]);
    assert CountsOf(info, t[..2]) == CountsOf(info, t[..1]) + CountFor(info, t[1]);
    assert CountsOf(info, t[..3]) == CountsOf(info, t[..2]) + CountFor(info, t[2]);
  }

  lemma InOneTable(dur: PartitionDuration, ks: set<string>, id: string)
    requires SoundStore(dur, ks)
    ensures var t := TABLE_NAMES;
            KeysOf(ks, id) == KeysIn(ks, id, t[0]) + KeysIn(ks, id, t[1]) + KeysIn(ks, id, t[2]) + KeysIn(ks, id, t[3])
  {
    hide ParseKey, PartitionOf, TableOfKey, SoundStore;
    var t := TABLE_NAMES;
    forall k | k in ks
      ensures TableOfKey(k) == t[0] || TableOfKey(k) == t[1] || TableOfKey(k) == t[2] || TableOfKey(k) == t[3]
    {
      KeyParses(dur, ks, k);
    }
  }

  // ----- doCleanup -----

  ghost function Survivors(data: Data, ids: seq<string>): Data {
    map k | k in data && PartitionOf(k) !in ids :: data[k]
  }

  lemma SurvivorsStep(dur: PartitionDuration, data: Data, ids: seq<string>, id: string)
    requires SoundStore(dur, data.Keys)
    ensures Without(Survivors(data, ids), id, TABLE_NAMES) == Survivors(data, ids + [id])
    ensures SoundStore(dur, Survivors(data, ids).Keys)
  {
    hide PartitionOf, TableOfKey, InStore, SoundRow;
    SurvivorsStaySound(dur, data, ids);
    forall k | k in data ensures TableOfKey(k) in TABLE_NAMES {
      KeyParses(dur, data.Keys, k);
    }
  }

  lemma SurvivorsStaySound(dur: PartitionDuration, data: Data, ids: seq<string>)
    requires SoundStore(dur, data.Keys)
    ensures SoundStore(dur, Survivors(data, ids).Keys)
  {
    hide PartitionOf, SoundStore;
    FewerKeepSound(dur, data.Keys, Survivors(data, ids).Keys);
  }

  /** When deleting key by key, each selected partition must be unblocked by the time its turn comes. */
  ghost predicate NothingBlocks(dur: PartitionDuration, data: Data, limits: Limits) {
    forall c, selected :: IsCensus(dur, data.Keys, c) && IsSelection(dur, c.infos, c.total, c.sorted, c.starts, limits, selected) ==>
      InTurn(data, selected)
  }

  ghost predicate InTurn(data: Data, selected: seq<string>) {
    forall i :: 0 <= i < |selected| ==> Unblocked(Survivors(data, selected[..i]), selected[i])
  }

  /** The counts of a partition are right until its turn comes. */
  lemma CountsStay(data: Data, infos: Infos, total: nat, ids: seq<string>, id: string)
    requires Counts(data.Keys, infos, total) && id in infos && id !in ids
    ensures CountsRows(Survivors(data, ids), id, infos[id])
  {
    hide ParseKey, PartitionOf, TableOfKey;
    forall t ensures KeysIn(Survivors(data, ids).Keys, id, t) == KeysIn(data.Keys, id, t) {
    }
  }

  /** The loop over the selected partitions. */
  method DeleteSelected(dur: PartitionDuration, db: MockDb<Value>, limits: Limits, partitionsToDelete: seq<string>,
                        partitionsInfoMap: Infos, deletionBatchSize: nat, enableDeleteKeys: bool, ghost c: Census)
    returns (anyCleanupPerformed: bool, totalNumOfDeletedKeys: nat)
    requires SoundStore(dur, db.data.Keys) && IsCensus(dur, db.data.Keys, c)
    requires IsSelection(dur, c.infos, c.total, c.sorted, c.starts, limits, partitionsToDelete)
    requires partitionsToDelete != [] ==> partitionsInfoMap == c.infos
    requires enableDeleteKeys ==> InTurn(db.data, partitionsToDelete)
    modifies db
    ensures db.data == Survivors(old(db.data), partitionsToDelete)
    ensures forall id :: id in partitionsToDelete ==> id in c.infos
    ensures totalNumOfDeletedKeys == SumOf(c.infos, partitionsToDelete)
    ensures anyCleanupPerformed <==> partitionsToDelete != []
  {
    hide FormatId, SoundStore, PartitionOf, TableOfKey, Counts, Less, IsSelection, SortedStarts, Unblocked, CountsRows, Survivors;
    ghost var data := db.data;
    anyCleanupPerformed, totalNumOfDeletedKeys := false, 0;
    NothingRemoved(data);
    var i := 0;
    assert partitionsToDelete[..0] == [];
    while i < |partitionsToDelete|
      invariant i <= |partitionsToDelete|
      invariant db.data == Survivors(data, partitionsToDelete[..i])
      invariant anyCleanupPerformed <==> i > 0
      invariant forall id :: id in partitionsToDelete[..i] ==> id in c.infos
      invariant totalNumOfDeletedKeys == SumOf(c.infos, partitionsToDelete[..i])
    {
      var id := partitionsToDelete[i];
      ghost var p := SelectedStart(dur, data.Keys, c, limits, partitionsToDelete, i);
      SurvivorsStep(dur, data, partitionsToDelete[..i], id);
      assert partitionsToDelete[..i + 1] == partitionsToDelete[..i] + [id] && partitionsToDelete[..i + 1][..i] == partitionsToDelete[..i];
      TablesSumUp(dur, data.Keys, c.infos, c.total, id);
      CountsStay(data, c.infos, c.total, partitionsToDelete[..i], id);
      var numOfDeletedKeys := DeletePartition(dur, db, id, deletionBatchSize, enableDeleteKeys, partitionsInfoMap[id], p);
      anyCleanupPerformed := true;
      totalNumOfDeletedKeys := totalNumOfDeletedKeys + numOfDeletedKeys;
      i := i + 1;
    }
    assert partitionsToDelete[..i] == partitionsToDelete;
  }

  /** A pass that runs leaves exactly the rows of the partitions it did not select, reports exactly the
      number of rows it removed, which is enough for the size, and leaves nothing that is too old. Deleting key by key, it is required to
      end; what the library makes of dropping the empty prefix after that is not part of it. */
  method DoCleanup(dur: PartitionDuration, db: MockDb<Value>, limits: Limits, deletionBatchSize: nat, enableDeleteKeys: bool)
    returns (anyCleanupPerformed: bool, totalNumOfDeletedKeys: nat, selected: Option<seq<string>>, ghost c: Census)
    requires SoundStore(dur, db.data.Keys) && (enableDeleteKeys ==> NothingBlocks(dur, db.data, limits))
    modifies db
    ensures IsCensus(dur, old(db.data.Keys), c)
    ensures old(db.data) != map[] ==> |c.sorted| > 0 && (selected.None? <==> RunsOffTheEnd(dur, c, limits))
    ensures old(db.data) != map[] && selected.Some? ==>
              IsSelection(dur, c.infos, c.total, c.sorted, c.starts, limits, selected.value)
    ensures db.data == Survivors(old(db.data), if selected.Some? then selected.value else [])
    ensures SoundStore(dur, db.data.Keys)
    ensures totalNumOfDeletedKeys == |old(db.data)| - |db.data|
    ensures anyCleanupPerformed <==> selected.Some? && selected.value != []
    ensures old(db.data) != map[] && selected.Some? ==> limits.Suffices(totalNumOfDeletedKeys, |old(db.data)|)
    ensures old(db.data) != map[] && selected.Some? ==>
              forall k :: k in db.data ==> !TooOld(dur, StartOfKey(k), c.starts[|c.starts| - 1], limits.timeLimit)
  {
    hide FormatId, SoundStore, PartitionOf, TableOfKey, Counts, Less, IsSelection, RunsOffTheEnd, SortedStarts, TooOld, StartOfKey;
    hide InTurn, Survivors;
    var partitionsInfoMap;
    ghost var data := db.data;
    anyCleanupPerformed, totalNumOfDeletedKeys := false, 0;
    selected, partitionsInfoMap, c := GetPartitionsToDelete(dur, db, limits);
    NothingRemoved(data);
    if selected.None? || selected.value == [] {
      if selected.Some? && data != map[] {
        RemovedIsCounted(dur, data, c, limits, []);
        RemovedSuffices(dur, data, c, limits, []);
        SurvivorsAreYoung(dur, data, c, limits, []);
      }
      return;
    }
    anyCleanupPerformed, totalNumOfDeletedKeys :=
      DeleteSelected(dur, db, limits, selected.value, partitionsInfoMap, deletionBatchSize, enableDeleteKeys, c);
    SurvivorsStaySound(dur, data, selected.value);
    RemovedIsCounted(dur, data, c, limits, selected.value);
    RemovedSuffices(dur, data, c, limits, selected.value);
    SurvivorsAreYoung(dur, data, c, limits, selected.value);
  }

  lemma NothingRemoved(data: Data)
    ensures Survivors(data, []) == data
  {
  }

  lemma SelectedStart(dur: PartitionDuration, ks: set<string>, c: Census, limits: Limits, selected: seq<string>, i: nat) returns (p: int)
    requires IsCensus(dur, ks, c) && |c.sorted| == |c.starts|
    requires i < |selected| && IsSelection(dur, c.infos, c.total, c.sorted, c.starts, limits, selected)
    ensures IsStart(dur, p) && selected[i] == FormatId(p) && selected[i] in c.infos && selected[i] !in selected[..i]
  {
    hide FormatId, Counts, Less, Enough;
    p := c.starts[i];
    assert selected[i] == c.sorted[i];
    AscendingDistinct(c.sorted);
    forall j | 0 <= j < i ensures selected[j] != selected[i] {
      assert selected[j] == c.sorted[j];
    }
  }

  /** The whole pass ends, key by key, exactly when every selected partition is unblocked in its turn. */
  lemma CleanupEndsIff(dur: PartitionDuration, data: Data, c: Census, limits: Limits, selected: seq<string>, batchSize: nat)
    requires SoundStore(dur, data.Keys) && IsCensus(dur, data.Keys, c)
    requires IsSelection(dur, c.infos, c.total, c.sorted, c.starts, limits, selected)
    ensures (forall i, j :: 0 <= i < |selected| && 0 <= j < |TABLE_NAMES| ==>
               TableEnds(Survivors(data, selected[..i]), selected[i], j, batchSize))
            <==> InTurn(data, selected)
  {
    hide FormatId, SoundStore, Counts, SortedStarts, IsSelection, Unblocked, Survivors, TableEnds;
    forall i | 0 <= i < |selected|
      ensures (forall j :: 0 <= j < |TABLE_NAMES| ==> TableEnds(Survivors(data, selected[..i]), selected[i], j, batchSize))
              <==> Unblocked(Survivors(data, selected[..i]), selected[i])
    {
      var p := SelectedStart(dur, data.Keys, c, limits, selected, i);
      SurvivorsStaySound(dur, data, selected[..i]);
      EndsIffUnblocked(dur, Survivors(data, selected[..i]), p, batchSize);
    }
  }

  lemma RemovedIsCounted(dur: PartitionDuration, data: Data, c: Census, limits: Limits, selected: seq<string>)
    requires SoundStore(dur, data.Keys) && IsCensus(dur, data.Keys, c) && |c.sorted| == |c.starts|
    requires IsSelection(dur, c.infos, c.total, c.sorted, c.starts, limits, selected)
    ensures (forall id :: id in selected ==> id in c.infos) && SumOf(c.infos, selected) == |data| - |Survivors(data, selected)|
  {
    hide FormatId, ParseKey, PartitionOf, Less, Enough, SoundStore, Counts, KeysOfAll, Survivors, SortedStarts;
    AscendingDistinct(c.sorted);
    forall i | 0 <= i < |selected| ensures selected[i] == c.sorted[i] && selected[i] in c.infos {
      assert c.sorted[i] in c.sorted;
    }
    SumCountsKeys(data.Keys, c.infos, c.total, selected);
    SurvivorsSplit(dur, data, selected);
  }

  /** The rows removed are enough for the size, of all the rows there were. */
  lemma RemovedSuffices(dur: PartitionDuration, data: Data, c: Census, limits: Limits, selected: seq<string>)
    requires SoundStore(dur, data.Keys) && IsCensus(dur, data.Keys, c) && |c.sorted| == |c.starts|
    requires IsSelection(dur, c.infos, c.total, c.sorted, c.starts, limits, selected)
    requires (forall id :: id in selected ==> id in c.infos) && SumOf(c.infos, selected) == |data| - |Survivors(data, selected)|
    ensures limits.Suffices(|data| - |Survivors(data, selected)|, |data|)
  {
    hide FormatId, ParseKey, PartitionOf, Less, SoundStore, Survivors, SortedStarts, Limits.Suffices, TooOld;
    forall k | k in data ensures ParseKey(k).Some? {
      KeyParses(dur, data.Keys, k);
    }
    assert Parsable(data.Keys) == data.Keys && |data.Keys| == |data|;
  }

  lemma SurvivorsSplit(dur: PartitionDuration, data: Data, ids: seq<string>)
    requires SoundStore(dur, data.Keys)
    ensures |KeysOfAll(data.Keys, ids)| == |data| - |Survivors(data, ids)|
  {
    hide ParseKey, PartitionOf, SoundStore;
    var removed, left := KeysOfAll(data.Keys, ids), Survivors(data, ids);
    forall k | k in data ensures ParseKey(k).Some? {
      KeyParses(dur, data.Keys, k);
    }
    assert data.Keys == removed + left.Keys && removed !! left.Keys;
    assert |data| == |data.Keys| && |left| == |left.Keys|;
  }

  lemma SurvivorsAreYoung(dur: PartitionDuration, data: Data, c: Census, limits: Limits, selected: seq<string>)
    requires SoundStore(dur, data.Keys) && IsCensus(dur, data.Keys, c) && |c.sorted| == |c.starts| > 0
    requires IsSelection(dur, c.infos, c.total, c.sorted, c.starts, limits, selected)
    ensures forall k :: k in Survivors(data, selected) ==> !TooOld(dur, StartOfKey(k), c.starts[|c.starts| - 1], limits.timeLimit)
  {
    hide FormatId, PartitionOf, Less, SoundStore, StartOfKey, Counts, TooOld;
    forall k | k in Survivors(data, selected)
      ensures !TooOld(dur, StartOfKey(k), c.starts[|c.starts| - 1], limits.timeLimit)
    {
      KeyParses(dur, data.Keys, k);
      var i :| 0 <= i < |c.starts| && c.starts[i] == StartOfKey(k);
      if i < |selected| {
        PrefixHas(selected, c.sorted, i);
      }
    }
  }

  lemma PrefixHas(selected: seq<string>, sorted: seq<string>, i: nat)
    requires i < |selected| <= |sorted| && selected == sorted[..|selected|]
    ensures sorted[i] in selected
  {
    assert selected[i] == sorted[i];
  }
}
