/** What every generated table does: its rows are the keys under `/table/`, and the extreme keys
    bound the partitions it covers. */
module Tables {
  import opened ByteStrings
  import opened Decimal
  import opened Wrappers
  import opened Partitions
  import opened Store
  import opened WatchKeys

  datatype KubeWatchResult = KubeWatchResult(timestamp: int, kind: string, payload: string)

  /** Per minute, the count of each `reason:severity`. */
  type Minutes = map<int, map<string, int>>

  datatype Value = Watch(rec: KubeWatchResult) | Events(minutes: Minutes) | Other

  const TABLE_NAMES: seq<string> := ["watch", "ressum", "eventcount", "watchactivity"]

  /** The partition a table's key type parses from a key. */
  function RowPartition(table: string, key: string): Option<string> {
    var parts := ParseKey(key);
    if parts.None? || parts.value[1] != table then None
    else if table == WATCH && ParseInt(parts.value[6]).None? then None
    else Some(parts.value[2])
  }

  /** A key of the watch table parses as a row exactly if it parses as a watch key. */
  lemma WatchRowIff(key: string)
    ensures RowPartition(WATCH, key) == match Parse(key) case Some(k) => Some(k.partitionId) case None => None
  {
    hide ParseKey, ParseInt;
  }

  /** Keys that the writers of the store produce: their partition is the id of some start. */
  predicate SoundRow(dur: PartitionDuration, table: string, key: string) {
    RowPartition(table, key).Some?
    && var p := ParseInt(RowPartition(table, key).value);
       p.Some? && IsStart(dur, p.value) && p.value + dur.Seconds() < MAX_ID
       && RowPartition(table, key).value == FormatId(p.value)
  }

  function RowStart(dur: PartitionDuration, table: string, key: string): int
    requires SoundRow(dur, table, key)
  {
    ParseInt(RowPartition(table, key).value).value
  }

  predicate InTable(table: string, key: string) {
    TablePath(table) <= key
  }

  ghost predicate SoundTable(dur: PartitionDuration, table: string, ks: set<string>) {
    forall k :: k in ks && InTable(table, k) ==> SoundRow(dur, table, k)
  }

  /** `lo` and `hi` are the first and the last partition of which the table has a row. */
  ghost predicate Bounds(dur: PartitionDuration, table: string, ks: set<string>, lo: int, hi: int)
    requires SoundTable(dur, table, ks)
  {
    && (exists k :: k in ks && InTable(table, k) && RowStart(dur, table, k) == lo)
    && (exists k :: k in ks && InTable(table, k) && RowStart(dur, table, k) == hi)
    && (forall k :: k in ks && InTable(table, k) ==> lo <= RowStart(dur, table, k) <= hi)
  }

  lemma RowUnderId(dur: PartitionDuration, table: string, key: string)
    requires SoundRow(dur, table, key)
    ensures TablePath(table) + FormatId(RowStart(dur, table, key)) <= key && InTable(table, key)
  {
    hide ParseInt, FormatId, Split, Join, SlashFree;
    var parts := Split(key);
    KeyOfParts(key, table);
    assert key == TablePath(table) + (parts[2] + ("/" + (parts[3] + "/" + (parts[4] + "/" + (parts[5] + "/" + parts[6])))));
  }

  lemma KeyOfParts(key: string, table: string)
    requires |Split(key)| == 7 && Split(key)[0] == "" && Split(key)[1] == table
    ensures var parts := Split(key); key == TablePath(table) + Fields(parts[2], parts[3], parts[4], parts[5], parts[6])
  {
    hide Split, Join, Fields, SlashFree;
    var parts := Split(key);
    JoinSplit(key);
    SplitSix(table, parts[2], parts[3], parts[4], parts[5], parts[6]);
    assert parts == ["", table, parts[2], parts[3], parts[4], parts[5], parts[6]];
  }

  /** In one table, the order of the keys is an order of the partitions. */
  lemma RowOrder(dur: PartitionDuration, table: string, a: string, b: string)
    requires SoundRow(dur, table, a) && SoundRow(dur, table, b) && AtMost(a, b)
    ensures RowStart(dur, table, a) <= RowStart(dur, table, b)
  {
    hide ParseInt, FormatId, Less, RowPartition;
    var p, q := RowStart(dur, table, a), RowStart(dur, table, b);
    if q < p {
      RowUnderId(dur, table, a);
      RowUnderId(dur, table, b);
      EarlierId(TablePath(table), q, b, p, a);
      LessAsymmetric(b, a);
    }
  }

  /** Ids are ASCII, so the sentinel comes after every row of the table. */
  lemma RowBelowSentinel(dur: PartitionDuration, table: string, key: string)
    requires SoundRow(dur, table, key)
    ensures Less(key, TablePath(table) + SENTINEL)
  {
    hide ParseInt, FormatId, Less, RowPartition, NumeralValue;
    RowUnderId(dur, table, key);
    var p := RowStart(dur, table, key);
    IdFaithful(p);
    IdSlashFree(p);
    var root := TablePath(table);
    var x := key[|root|..];
    assert key == root + x;
    assert x[0] == FormatId(p)[0] < SENTINEL[0];
    assert Less(x, SENTINEL) by {
      FirstByteDecides(x, SENTINEL);
    }
    LessCancel(root, x, SENTINEL);
  }

  lemma FirstByteDecides(x: string, y: string)
    requires x != "" && y != "" && x[0] < y[0]
    ensures Less(x, y)
  {
  }

  ghost predicate IsFirstRow(table: string, ks: set<string>, k: string) {
    k in ks && InTable(table, k) && forall o :: o in ks && InTable(table, o) ==> AtMost(k, o)
  }

  /** What `GetMinMaxPartitions` makes of any keys: the partitions of the first row and of the last key before
      the sentinel, which may belong to another table; None if one of the two does not parse. */
  ghost function MinMaxPartitions(table: string, ks: set<string>): Option<(bool, string, string)> {
    if first :| IsFirstRow(table, ks, first) then
      var last := GreatestBelow(ks, TablePath(table) + SENTINEL);
      if RowPartition(table, first).None? || (last.Some? && RowPartition(table, last.value).None?) then None
      else Some((last.Some?, RowPartition(table, first).value, if last.Some? then RowPartition(table, last.value).value else ""))
    else Some((false, "", ""))
  }

  lemma FirstRowUnique(table: string, ks: set<string>, k: string)
    requires IsFirstRow(table, ks, k)
    ensures forall o :: IsFirstRow(table, ks, o) ==> o == k
  {
    hide Less;
    forall o | IsFirstRow(table, ks, o) ensures o == k {
      if o != k {
        LessAsymmetric(o, k);
      }
    }
  }

  datatype Table = Table(tableName: string) {

    method GetMinKey(db: MockDb<Value>) returns (ok: bool, key: string)
      ensures ok <==> exists k :: k in db.data && InTable(tableName, k)
      ensures ok ==> key in db.data && InTable(tableName, key)
      ensures ok ==> forall k :: k in db.data && InTable(tableName, k) ==> AtMost(key, k)
    {
      var keyPrefix := TablePath(tableName);
      var itr := new MockIterator(db, false);
      itr.Seek(keyPrefix);
      LeastWithPrefix(itr.keys, db.data.Keys, keyPrefix, itr.currentIdx);
      if !itr.ValidForPrefix(keyPrefix) {
        return false, "";
      }
      assert itr.Key() in itr.keys;
      return true, itr.Key();
    }

    /** `Valid` does not look at the prefix, so with an empty table this may find the key of
        another table. */
    method GetMaxKey(db: MockDb<Value>) returns (ok: bool, key: string)
      ensures GreatestBelow(db.data.Keys, TablePath(tableName) + SENTINEL) == if ok then Some(key) else None
    {
      var keyPrefix := TablePath(tableName);
      var itr := new MockIterator(db, true);
      itr.Seek(keyPrefix + SENTINEL);
      GreatestBelowAt(itr.keys, db.data.Keys, keyPrefix + SENTINEL, itr.currentIdx);
      if !itr.Valid() {
        return false, "";
      }
      return true, itr.Key();
    }

    /** None is the panic on a key that does not parse. */
    method GetMinMaxPartitions(db: MockDb<Value>) returns (r: Option<(bool, string, string)>)
      ensures r == MinMaxPartitions(tableName, db.data.Keys)
    {
      hide RowPartition, Less, GreatestBelow;
      var minOk, minKey := GetMinKey(db);
      if !minOk {
        return Some((false, "", ""));
      }
      FirstRowUnique(tableName, db.data.Keys, minKey);
      if RowPartition(tableName, minKey).None? {
        return None;
      }
      var maxOk, maxKey := GetMaxKey(db);
      if !maxOk {
        return Some((false, RowPartition(tableName, minKey).value, ""));
      }
      if RowPartition(tableName, maxKey).None? {
        return None;
      }
      return Some((true, RowPartition(tableName, minKey).value, RowPartition(tableName, maxKey).value));
    }

    method GetUniquePartitionList(dur: PartitionDuration, db: MockDb<Value>) returns (ids: seq<string>)
      requires SoundTable(dur, tableName, db.data.Keys)
      ensures (forall k :: k in db.data ==> !InTable(tableName, k)) ==> ids == []
      ensures (exists k :: k in db.data && InTable(tableName, k)) ==> exists lo, hi ::
                && Bounds(dur, tableName, db.data.Keys, lo, hi)
                && ids == IdsOf(StartsBetween(dur, lo, hi))
    {
      hide FormatId, RowPartition, ParseInt;
      ids := [];
      var minMax := GetMinMaxPartitions(db);
      MinMaxOfSound(dur, tableName, db.data.Keys);
      var (ok, minPar, maxPar) := minMax.value;
      if ok {
        ghost var lo, hi :| Bounds(dur, tableName, db.data.Keys, lo, hi) && minPar == FormatId(lo) && maxPar == FormatId(hi);
        ids := EnumerateIds(dur, minPar, maxPar, lo, hi);
      }
    }
  }

  lemma RowParses(dur: PartitionDuration, table: string, key: string)
    requires SoundRow(dur, table, key)
    ensures RowPartition(table, key) == Some(FormatId(RowStart(dur, table, key)))
  {
  }

  lemma LeastWithPrefix(keys: seq<string>, ks: set<string>, prefix: string, n: nat)
    requires Lists(keys, ks) && Ascending(keys) && n <= |keys|
    requires forall i :: 0 <= i < n ==> Less(keys[i], prefix)
    requires forall i :: n <= i < |keys| ==> !Less(keys[i], prefix)
    ensures (exists k :: k in ks && prefix <= k) <==> n < |keys| && prefix <= keys[n]
    ensures n < |keys| ==> forall k :: k in ks && prefix <= k ==> AtMost(keys[n], k)
  {
    hide Less;
    forall k | k in ks && prefix <= k
      ensures n < |keys| && AtMost(keys[n], k) && prefix <= keys[n]
    {
      var i :| 0 <= i < |keys| && keys[i] == k;
      PrefixAtMost(prefix, k);
      if Less(k, prefix) {
        LessAsymmetric(k, prefix);
      }
      LessTotal(keys[n], prefix);
      PrefixInterval(prefix, prefix, keys[n], k);
    }
    if n < |keys| && prefix <= keys[n] {
      assert keys[n] in keys;
    }
  }

  /** On a table that is not empty, the reverse seek past the sentinel ends on its last row. */
  lemma ExtremeRows(dur: PartitionDuration, table: string, ks: set<string>, minKey: string)
    requires SoundTable(dur, table, ks)
    requires minKey in ks && InTable(table, minKey)
    requires forall k :: k in ks && InTable(table, k) ==> AtMost(minKey, k)
    ensures var max := GreatestBelow(ks, TablePath(table) + SENTINEL);
            && max.Some? && max.value in ks && InTable(table, max.value)
            && Bounds(dur, table, ks, RowStart(dur, table, minKey), RowStart(dur, table, max.value))
  {
    hide Less, SoundRow;
    var path := TablePath(table);
    var max := GreatestBelow(ks, path + SENTINEL);
    RowBelowSentinel(dur, table, minKey);
    assert path <= path + SENTINEL;
    PrefixInterval(path, minKey, max.value, path + SENTINEL);
    forall k | k in ks && InTable(table, k)
      ensures RowStart(dur, table, minKey) <= RowStart(dur, table, k) <= RowStart(dur, table, max.value)
    {
      RowBelowSentinel(dur, table, k);
      RowOrder(dur, table, minKey, k);
      RowOrder(dur, table, k, max.value);
    }
  }

  /** On a sound table nothing panics, and the two ids are those of the first and the last partition of which
      the table has a row. */
  lemma MinMaxOfSound(dur: PartitionDuration, table: string, ks: set<string>)
    requires SoundTable(dur, table, ks)
    ensures var r := MinMaxPartitions(table, ks);
            && r.Some?
            && (r.value.0 <==> exists k :: k in ks && InTable(table, k))
            && (r.value.0 ==> exists lo, hi :: Bounds(dur, table, ks, lo, hi) && r.value.1 == FormatId(lo) && r.value.2 == FormatId(hi))
  {
    hide SoundRow, FormatId, Less, RowPartition;
    if k :| k in ks && InTable(table, k) {
      var first := FirstRow(table, ks, k);
      FirstRowUnique(table, ks, first);
      ExtremeRows(dur, table, ks, first);
      RowParses(dur, table, first);
      RowParses(dur, table, GreatestBelow(ks, TablePath(table) + SENTINEL).value);
    }
  }

  lemma {:induction false} FirstRow(table: string, ks: set<string>, k: string) returns (first: string)
    requires k in ks && InTable(table, k)
    ensures IsFirstRow(table, ks, first)
    decreases |ks|
  {
    hide Less, InTable;
    if IsFirstRow(table, ks, k) {
      first := k;
    } else {
      var o :| o in ks && InTable(table, o) && !AtMost(k, o);
      LessTotal(k, o);
      var fewer := ks - {k};
      assert ks == fewer + {k};
      first := FirstRow(table, fewer, o);
      if !AtMost(first, k) {
        LessTotal(first, k);
        LessTransitive(o, k, first);
        LessAsymmetric(o, first);
      }
    }
  }

  // ----- all tables -----

  predicate IsTable(t: string) {
    t in TABLE_NAMES
  }

  ghost predicate SoundTables(dur: PartitionDuration, ks: set<string>) {
    forall t :: IsTable(t) ==> SoundTable(dur, t, ks)
  }

  ghost predicate InStore(key: string) {
    exists t :: IsTable(t) && InTable(t, key)
  }

  /** All rows of the store belong to the four tables and lie in partitions. */
  ghost predicate SoundStore(dur: PartitionDuration, ks: set<string>) {
    SoundTables(dur, ks) && forall k :: k in ks ==> InStore(k)
  }

  lemma TableSlashFree(table: string)
    requires IsTable(table)
    ensures SlashFree(table)
  {
    assert table == "watch" || table == "ressum" || table == "eventcount" || table == "watchactivity";
  }

  /** A key belongs to one table only: a slash ends the name. */
  lemma OneTable(s: string, t: string, key: string)
    requires IsTable(s) && IsTable(t) && InTable(s, key) && InTable(t, key)
    ensures s == t
  {
    hide IsTable;
    TableSlashFree(s);
    TableSlashFree(t);
    var x := key[|TablePath(t)|..];
    assert key == "/" + (t + "/" + x);
    assert TablePath(s) == "/" + (s + "/" + "");
    ConcatCancel("/", s + "/" + "", t + "/" + x);
    FieldPrefix(s, "", t, x);
  }

  /** Adding a sound row keeps the tables sound. */
  lemma RowKeepsTables(dur: PartitionDuration, ks: set<string>, t: string, key: string)
    requires SoundTables(dur, ks) && IsTable(t) && SoundRow(dur, t, key)
    ensures SoundTables(dur, ks + {key}) && InStore(key)
  {
    hide SoundRow, IsTable, InTable;
    RowUnderId(dur, t, key);
    forall s | IsTable(s) ensures SoundTable(dur, s, ks + {key}) {
      assert SoundTable(dur, s, ks);
      if InTable(s, key) {
        OneTable(s, t, key);
      }
    }
  }

  /** Removing rows does, too. */
  lemma FewerKeepSound(dur: PartitionDuration, ks: set<string>, fewer: set<string>)
    requires SoundStore(dur, ks) && fewer <= ks
    ensures SoundStore(dur, fewer)
  {
    hide SoundRow, IsTable, InTable, InStore;
    forall t | IsTable(t) ensures SoundTable(dur, t, fewer) {
      assert SoundTable(dur, t, ks);
    }
  }

  /** The partition start that the third part of a key denotes, whatever its table. */
  function StartOfKey(key: string): int {
    var parts := Split(key);
    if |parts| == 7 && ParseInt(parts[2]).Some? then ParseInt(parts[2]).value else 0
  }

  lemma StartOfRow(dur: PartitionDuration, table: string, key: string)
    requires SoundRow(dur, table, key)
    ensures StartOfKey(key) == RowStart(dur, table, key)
    ensures IsStart(dur, StartOfKey(key)) && StartOfKey(key) + dur.Seconds() < MAX_ID
  {
  }

  /** First and last partition over all tables. */
  ghost predicate StoreBounds(ks: set<string>, lo: int, hi: int) {
    && (exists k :: k in ks && InStore(k) && StartOfKey(k) == lo)
    && (exists k :: k in ks && InStore(k) && StartOfKey(k) == hi)
    && (forall k :: k in ks && InStore(k) ==> lo <= StartOfKey(k) <= hi)
  }

  /** `ids` holds ids of partitions of the first `n` tables, among them the extreme ones. */
  ghost predicate ExtremesOf(dur: PartitionDuration, ks: set<string>, tables: seq<string>, ids: seq<string>) {
    && (forall id :: id in ids ==> exists k :: k in ks && InStore(k) && id == FormatId(StartOfKey(k)))
    && (forall t, k :: t in tables && k in ks && InTable(t, k) ==>
          exists lo, hi :: lo <= StartOfKey(k) <= hi && IsBound(ks, ids, lo) && IsBound(ks, ids, hi))
  }

  ghost predicate IsBound(ks: set<string>, ids: seq<string>, p: int) {
    FormatId(p) in ids && exists k :: k in ks && InStore(k) && StartOfKey(k) == p
  }

  method GetMinAndMaxPartition(dur: PartitionDuration, db: MockDb<Value>) returns (ok: bool, minPartition: string, maxPartition: string)
    requires SoundTables(dur, db.data.Keys)
    ensures ok <==> exists k :: k in db.data && InStore(k)
    ensures ok ==> exists lo, hi :: StoreBounds(db.data.Keys, lo, hi) && IsStart(dur, lo) && IsStart(dur, hi)
                                    && hi + dur.Seconds() < MAX_ID
                                    && minPartition == FormatId(lo) && maxPartition == FormatId(hi)
  {
    hide FormatId, InTable, SoundTable, StartOfKey, RowStart, StoreBounds, SoundTables, InStore, SortStrings, Bounds;
    hide ExtremesOf, IsTable, AtMost;
    var tables := ["eventcount", "ressum", "watch", "watchactivity"];
    AllTables(tables);
    NoExtremes(dur, db.data.Keys);
    var allPartitions := [];
    var i := 0;
    while i < |tables|
      invariant i <= |tables|
      invariant ExtremesOf(dur, db.data.Keys, tables[..i], allPartitions)
    {
      assert IsTable(tables[i]);
      TableIsSound(dur, db.data.Keys, tables[i]);
      var minMax := Table(tables[i]).GetMinMaxPartitions(db);
      MinMaxOfSound(dur, tables[i], db.data.Keys);
      var (found, minPar, maxPar) := minMax.value;
      ghost var was := allPartitions;
      if found {
        allPartitions := allPartitions + [minPar, maxPar];
      }
      ExtremesOfMore(dur, db.data.Keys, tables, i, was, allPartitions);
      i := i + 1;
    }
    assert tables[..i] == tables;
    ExtremesOfAll(dur, db.data.Keys, tables, allPartitions);
    if |allPartitions| == 0 {
      return false, "", "";
    }
    var sorted := SortStrings(allPartitions);
    BoundsFromExtremes(dur, db.data.Keys, tables, allPartitions, sorted);
    return true, sorted[0], sorted[|sorted| - 1];
  }

  lemma AllTables(tables: seq<string>)
    requires tables == ["eventcount", "ressum", "watch", "watchactivity"]
    ensures (forall i :: 0 <= i < |tables| ==> IsTable(tables[i])) && forall t :: IsTable(t) ==> t in tables
  {
    forall t | IsTable(t) ensures t in tables {
      assert t == tables[2] || t == tables[1] || t == tables[0] || t == tables[3];
    }
  }

  lemma NoExtremes(dur: PartitionDuration, ks: set<string>)
    ensures ExtremesOf(dur, ks, [], [])
  {
  }

  lemma TableIsSound(dur: PartitionDuration, ks: set<string>, t: string)
    requires SoundTables(dur, ks) && IsTable(t)
    ensures SoundTable(dur, t, ks)
  {
  }

  lemma ExtremesOfAll(dur: PartitionDuration, ks: set<string>, tables: seq<string>, ids: seq<string>)
    requires ExtremesOf(dur, ks, tables, ids) && forall t :: IsTable(t) ==> t in tables
    ensures ids != [] <==> exists k :: k in ks && InStore(k)
  {
    hide FormatId, InTable, StartOfKey, IsTable;
    if ids != [] {
      assert ids[0] in ids;
    }
  }

  lemma ExtremesOfMore(dur: PartitionDuration, ks: set<string>, tables: seq<string>, i: nat, was: seq<string>, ids: seq<string>)
    requires i < |tables| && IsTable(tables[i]) && SoundTables(dur, ks)
    requires ExtremesOf(dur, ks, tables[..i], was)
    requires ((forall k :: k in ks ==> !InTable(tables[i], k)) && ids == was)
             || exists lo, hi :: Bounds(dur, tables[i], ks, lo, hi) && ids == was + [FormatId(lo), FormatId(hi)]
    ensures ExtremesOf(dur, ks, tables[..i + 1], ids)
  {
    hide FormatId, InTable, SoundTable, StartOfKey, RowStart, IsBound, Bounds, InStore, IsTable;
    var table := tables[i];
    TableIsSound(dur, ks, table);
    assert tables[..i + 1] == tables[..i] + [table];
    if exists lo, hi :: Bounds(dur, table, ks, lo, hi) && ids == was + [FormatId(lo), FormatId(hi)] {
      var lo, hi :| Bounds(dur, table, ks, lo, hi) && ids == was + [FormatId(lo), FormatId(hi)];
      BoundsAreStarts(dur, table, ks, lo, hi);
      BoundInList(ks, ids, lo);
      BoundInList(ks, ids, hi);
    }
    forall t, k | t in tables[..i] && k in ks && InTable(t, k)
      ensures exists lo, hi :: lo <= StartOfKey(k) <= hi && IsBound(ks, ids, lo) && IsBound(ks, ids, hi)
    {
      var lo, hi :| lo <= StartOfKey(k) <= hi && IsBound(ks, was, lo) && IsBound(ks, was, hi);
      BoundStays(ks, was, ids, lo);
      BoundStays(ks, was, ids, hi);
    }
  }

  lemma BoundsAreStarts(dur: PartitionDuration, table: string, ks: set<string>, lo: int, hi: int)
    requires SoundTable(dur, table, ks) && IsTable(table) && Bounds(dur, table, ks, lo, hi)
    ensures (exists k :: k in ks && InStore(k) && StartOfKey(k) == lo) && (exists k :: k in ks && InStore(k) && StartOfKey(k) == hi)
    ensures forall k :: k in ks && InTable(table, k) ==> lo <= StartOfKey(k) <= hi
  {
    hide InTable, SoundRow, StartOfKey, RowStart, IsTable;
    forall k | k in ks && InTable(table, k)
      ensures InStore(k) && StartOfKey(k) == RowStart(dur, table, k)
    {
      StartOfRow(dur, table, k);
    }
  }

  lemma BoundInList(ks: set<string>, ids: seq<string>, p: int)
    requires FormatId(p) in ids && exists k :: k in ks && InStore(k) && StartOfKey(k) == p
    ensures IsBound(ks, ids, p)
  {
  }

  lemma BoundStays(ks: set<string>, was: seq<string>, ids: seq<string>, p: int)
    requires IsBound(ks, was, p) && was <= ids
    ensures IsBound(ks, ids, p)
  {
    hide FormatId;
    var i :| 0 <= i < |was| && was[i] == FormatId(p);
    assert ids[i] == FormatId(p);
  }

  lemma TableOf(k: string) returns (t: string)
    requires InStore(k)
    ensures IsTable(t) && InTable(t, k)
  {
    t :| IsTable(t) && InTable(t, k);
  }

  lemma BoundsFromExtremes(dur: PartitionDuration, ks: set<string>, tables: seq<string>, ids: seq<string>, sorted: seq<string>)
    requires SoundTables(dur, ks) && ExtremesOf(dur, ks, tables, ids) && forall t :: IsTable(t) ==> t in tables
    requires |sorted| == |ids| > 0 && (forall k :: k in sorted <==> k in ids)
    requires Sorted(sorted)
    ensures exists lo, hi :: StoreBounds(ks, lo, hi) && IsStart(dur, lo) && IsStart(dur, hi) && hi + dur.Seconds() < MAX_ID
                             && sorted[0] == FormatId(lo) && sorted[|sorted| - 1] == FormatId(hi)
  {
    hide FormatId, InTable, SoundTable, StartOfKey, Less, AtMost, IsBound, InStore, IsTable;
    assert sorted[0] in ids && sorted[|sorted| - 1] in ids;
    var first :| first in ks && InStore(first) && sorted[0] == FormatId(StartOfKey(first));
    var last :| last in ks && InStore(last) && sorted[|sorted| - 1] == FormatId(StartOfKey(last));
    var lo, hi := StartOfKey(first), StartOfKey(last);
    StoredStart(dur, ks, first);
    StoredStart(dur, ks, last);
    forall k | k in ks && InStore(k)
      ensures lo <= StartOfKey(k) <= hi
    {
      var t := TableOf(k);
      var a, b :| a <= StartOfKey(k) <= b && IsBound(ks, ids, a) && IsBound(ks, ids, b);
      BoundSorted(ks, ids, sorted, a);
      BoundSorted(ks, ids, sorted, b);
      IdBetween(dur, ks, sorted, lo, hi, a);
      IdBetween(dur, ks, sorted, lo, hi, b);
    }
    assert StoreBounds(ks, lo, hi);
  }

  lemma BoundSorted(ks: set<string>, ids: seq<string>, sorted: seq<string>, p: int)
    requires IsBound(ks, ids, p) && forall k :: k in sorted <==> k in ids
    ensures IsBound(ks, sorted, p)
  {
  }

  lemma StoredStart(dur: PartitionDuration, ks: set<string>, k: string)
    requires SoundTables(dur, ks) && k in ks && InStore(k)
    ensures IsStart(dur, StartOfKey(k)) && StartOfKey(k) + dur.Seconds() < MAX_ID
  {
    hide InTable, SoundRow, StartOfKey, RowStart;
    var t :| IsTable(t) && InTable(t, k);
    assert SoundTable(dur, t, ks);
    StartOfRow(dur, t, k);
  }

  lemma IdBetween(dur: PartitionDuration, ks: set<string>, sorted: seq<string>, lo: int, hi: int, p: int)
    requires SoundTables(dur, ks) && IsBound(ks, sorted, p) && IsStart(dur, lo) && IsStart(dur, hi)
    requires |sorted| > 0 && Sorted(sorted)
    requires sorted[0] == FormatId(lo) && sorted[|sorted| - 1] == FormatId(hi)
    ensures lo <= p <= hi
  {
    hide FormatId, InTable, SoundRow, StartOfKey, Less;
    var k :| k in ks && InStore(k) && StartOfKey(k) == p;
    StoredStart(dur, ks, k);
    var i :| 0 <= i < |sorted| && sorted[i] == FormatId(p);
    IdOrder(lo, p);
    IdOrder(p, hi);
  }

  // ----- the window of available partitions -----

  lemma StoreBoundsUnique(ks: set<string>, lo: int, hi: int, lo': int, hi': int)
    requires StoreBounds(ks, lo, hi) && StoreBounds(ks, lo', hi')
    ensures lo == lo' && hi == hi'
  {
  }

  /** Any finite number of keys has an oldest and a newest one. */
  lemma {:induction false} ExtremeKeys(ks: set<string>) returns (oldest: string, newest: string)
    requires ks != {}
    ensures oldest in ks && newest in ks
    ensures forall k :: k in ks ==> StartOfKey(oldest) <= StartOfKey(k) <= StartOfKey(newest)
    decreases |ks|
  {
    hide StartOfKey;
    var x :| x in ks;
    var rest := ks - {x};
    assert ks == rest + {x};
    if rest == {} {
      oldest, newest := x, x;
    } else {
      var a, b := ExtremeKeys(rest);
      oldest := if StartOfKey(x) < StartOfKey(a) then x else a;
      newest := if StartOfKey(b) < StartOfKey(x) then x else b;
    }
  }

  /** A store has a first and a last partition exactly when it holds a row of one of its tables. */
  lemma BoundsIffRows(ks: set<string>)
    ensures (exists lo, hi :: StoreBounds(ks, lo, hi)) <==> exists k :: k in ks && InStore(k)
  {
    hide StartOfKey, InStore;
    var rows := set k | k in ks && InStore(k);
    if k :| k in ks && InStore(k) {
      assert k in rows;
      var oldest, newest := ExtremeKeys(rows);
      assert StoreBounds(ks, StartOfKey(oldest), StartOfKey(newest));
    }
  }
}
