/** Deleting keys in batches from the head of the key order. */
module KeyDeletion {
  import opened ByteStrings
  import opened Store
  import opened Tables

  type Db = MockDb<Value>
  type Data = map<string, Value>

  predicate Matches(prefix: string, key: string) {
    prefix <= key || "!badger!move" + prefix <= key
  }

  /** How many keys at the head of the order match: the walk rewinds, and stops at the first that does not. */
  function Lead(keys: seq<string>, prefix: string): (n: nat)
    ensures n <= |keys| && forall i :: 0 <= i < n ==> Matches(prefix, keys[i])
    ensures n < |keys| ==> !Matches(prefix, keys[n])
  {
    if keys == [] || !Matches(prefix, keys[0]) then 0 else 1 + Lead(keys[1..], prefix)
  }

  lemma {:induction false} LeadAfter(keys: seq<string>, prefix: string, m: nat)
    requires m <= Lead(keys, prefix)
    ensures Lead(keys[m..], prefix) == Lead(keys, prefix) - m
  {
    if m > 0 {
      assert keys[m..] == keys[1..][m - 1..];
      LeadAfter(keys[1..], prefix, m - 1);
    } else {
      assert keys[0..] == keys;
    }
  }

  /** Keys that one pass takes when `lead` match; a batch size of 0 never fills up. */
  function BatchLength(batchSize: nat, lead: nat): (n: nat)
    ensures n <= lead
  {
    if batchSize == 0 || lead < batchSize then lead else batchSize
  }

  // ----- the sorted keys of a store -----

  lemma {:induction false} AscendingUnique(a: seq<string>, b: seq<string>)
    requires Ascending(a) && Ascending(b) && forall k :: k in a <==> k in b
    ensures a == b
  {
    hide Less;
    if a == [] || b == [] {
      NoMembers(if a == [] then b else a);
    } else {
      assert a[0] in b && b[0] in a;
      var i :| 0 <= i < |b| && b[i] == a[0];
      var j :| 0 <= j < |a| && a[j] == b[0];
      if i > 0 && j > 0 {
        LessAsymmetric(a[0], b[0]);
      }
      assert a[0] == b[0];
      TailKeys(a);
      TailKeys(b);
      AscendingUnique(a[1..], b[1..]);
      assert a == [a[0]] + a[1..] && b == [b[0]] + b[1..];
    }
  }

  lemma NoMembers(a: seq<string>)
    requires forall k :: k !in a
    ensures a == []
  {
    if a != [] {
      FirstIsMember(a);
    }
  }

  lemma FirstIsMember(a: seq<string>)
    requires a != []
    ensures exists k :: k in a
  {
    assert a[0] in a;
  }

  lemma TailKeys(a: seq<string>)
    requires Ascending(a) && a != []
    ensures forall k :: k in a[1..] <==> k in a && k != a[0]
  {
    hide Less;
    assert a == [a[0]] + a[1..];
    if a[0] in a[1..] {
      LessIrreflexive(a[0]);
    }
  }

  /** The keys of a store in order. */
  ghost predicate Ordered(ks: set<string>, keys: seq<string>) {
    Ascending(keys) && Lists(keys, ks)
  }

  function TakenOut(data: Data, keys: seq<string>): Data {
    map k | k in data && k !in keys :: data[k]
  }

  lemma OrderedAfter(data: Data, keys: seq<string>, m: nat)
    requires Ordered(data.Keys, keys) && m <= |keys|
    ensures Ordered(TakenOut(data, keys[..m]).Keys, keys[m..])
  {
    hide Less;
    assert keys == keys[..m] + keys[m..];
    forall k ensures k in keys[m..] <==> k in TakenOut(data, keys[..m]) {
      if k in keys[..m] && k in keys[m..] {
        var i :| 0 <= i < m && keys[i] == k;
        var j :| 0 <= j < |keys| - m && keys[m..][j] == k;
        assert keys[m + j] == k;
        LessIrreflexive(k);
      }
    }
  }

  ghost function InOrder(ks: set<string>): (keys: seq<string>)
    ensures Ordered(ks, keys) && |keys| == |ks|
  {
    if ks == {} then []
    else
      var k :| k in ks;
      assert ks == (ks - {k}) + {k};
      Insert(k, AscendingIsSorted(InOrder(ks - {k})))
  }

  function AscendingIsSorted(keys: seq<string>): (r: seq<string>)
    requires Ascending(keys)
    ensures r == keys && Sorted(keys)
  {
    keys
  }

  lemma InOrderIs(ks: set<string>, keys: seq<string>)
    requires Ordered(ks, keys)
    ensures InOrder(ks) == keys
  {
    AscendingUnique(InOrder(ks), keys);
  }

  // ----- the passes of the loop -----

  /** What the loop of `DeleteKeysWithPrefix` has done so far. */
  datatype Progress = Progress(data: Data, deleted: nat)

  /** The keys that one pass over a store collects. */
  ghost function Batch(data: Data, prefix: string, batchSize: nat): seq<string> {
    var keys := InOrder(data.Keys);
    keys[..BatchLength(batchSize, Lead(keys, prefix))]
  }

  /** After some turns of the loop, on any store; it stops turning when the target is met. */
  ghost function AfterPasses(data: Data, prefix: string, batchSize: nat, target: nat, passes: nat): Progress {
    if passes == 0 then Progress(data, 0)
    else
      var before := AfterPasses(data, prefix, batchSize, target, passes - 1);
      if before.deleted >= target then before
      else
        var batch := Batch(before.data, prefix, batchSize);
        Progress(TakenOut(before.data, batch), before.deleted + |batch|)
  }

  /** The number of keys that are gone by then, when `lead` of them match at the head of the order. */
  function DeletedAfter(batchSize: nat, lead: nat, target: nat, passes: nat): (d: nat)
    ensures d <= lead
  {
    if passes == 0 then 0
    else
      var before := DeletedAfter(batchSize, lead, target, passes - 1);
      if before >= target then before else before + BatchLength(batchSize, lead - before)
  }

  lemma OneMorePass(data: Data, prefix: string, batchSize: nat, d: nat)
    requires d <= Lead(InOrder(data.Keys), prefix)
    ensures var keys := InOrder(data.Keys);
            var n := BatchLength(batchSize, Lead(keys, prefix) - d);
            var batch := Batch(TakenOut(data, keys[..d]), prefix, batchSize);
            |batch| == n && TakenOut(TakenOut(data, keys[..d]), batch) == TakenOut(data, keys[..d + n])
  {
    hide Less, Matches, InOrder, TakenOut, Lead, Ordered, BatchLength;
    var keys := InOrder(data.Keys);
    OrderedAfter(data, keys, d);
    InOrderIs(TakenOut(data, keys[..d]).Keys, keys[d..]);
    LeadAfter(keys, prefix, d);
    TakenOutTwice(data, keys, d, d + BatchLength(batchSize, Lead(keys, prefix) - d));
  }

  /** The passes eat the store's keys up from the head of the order. */
  lemma {:induction false} PassesTakeOut(data: Data, prefix: string, batchSize: nat, target: nat, passes: nat)
    ensures var keys := InOrder(data.Keys);
            var d := DeletedAfter(batchSize, Lead(keys, prefix), target, passes);
            AfterPasses(data, prefix, batchSize, target, passes) == Progress(TakenOut(data, keys[..d]), d)
  {
    hide InOrder, TakenOut, Lead, Batch;
    if passes == 0 {
      NothingTakenOut(data);
      assert InOrder(data.Keys)[..0] == [];
    } else {
      PassesTakeOut(data, prefix, batchSize, target, passes - 1);
      OneMorePass(data, prefix, batchSize, DeletedAfter(batchSize, Lead(InOrder(data.Keys), prefix), target, passes - 1));
    }
  }

  lemma NothingTakenOut(data: Data)
    ensures TakenOut(data, []) == data
  {
  }

  lemma TakenOutTwice(data: Data, keys: seq<string>, a: nat, b: nat)
    requires a <= b <= |keys|
    ensures TakenOut(TakenOut(data, keys[..a]), keys[a..][..b - a]) == TakenOut(data, keys[..b])
  {
    assert keys[..b] == keys[..a] + keys[a..][..b - a];
  }

  // ----- deleteKeys and DeleteKeysWithPrefix -----

  method DeleteKeys(db: Db, keysForDelete: seq<string>) returns (deleted: nat)
    modifies db
    ensures db.data == TakenOut(old(db.data), keysForDelete) && deleted == |keysForDelete|
  {
    deleted := 0;
    assert keysForDelete[..0] == [];
    while deleted < |keysForDelete|
      invariant deleted <= |keysForDelete|
      invariant db.data == TakenOut(old(db.data), keysForDelete[..deleted])
    {
      assert keysForDelete[..deleted + 1] == keysForDelete[..deleted] + [keysForDelete[deleted]];
      db.Delete(keysForDelete[deleted]);
      deleted := deleted + 1;
    }
    assert keysForDelete[..deleted] == keysForDelete;
  }

  /** Walks the head of the store. */
  method CollectBatch(db: Db, keyPrefix: string, deletionBatchSize: nat) returns (batch: seq<string>)
    ensures batch == Batch(db.data, keyPrefix, deletionBatchSize)
  {
    hide Less, Matches, InOrder, Ascending;
    ghost var keys := InOrder(db.data.Keys);
    batch := [];
    var it := new MockIterator(db, false);
    AscendingUnique(it.keys, keys);
    it.Rewind();
    while it.ValidForPrefix(keyPrefix) || it.ValidForPrefix("!badger!move" + keyPrefix)
      invariant it.keys == keys && it.currentIdx == |batch| <= Lead(keys, keyPrefix)
      invariant batch == keys[..|batch|]
      invariant deletionBatchSize == 0 || |batch| < deletionBatchSize
      decreases |keys| - it.currentIdx
    {
      ValidIsMatch(keyPrefix, keys, it.currentIdx);
      batch := batch + [it.Key()];
      if |batch| == deletionBatchSize {
        break;
      }
      it.Next();
    }
    if it.currentIdx < |keys| && it.currentIdx == |batch| {
      ValidIsMatch(keyPrefix, keys, it.currentIdx);
    }
  }

  lemma ValidIsMatch(prefix: string, keys: seq<string>, i: nat)
    requires i < |keys|
    ensures Matches(prefix, keys[i]) <==> prefix <= keys[i] || "!badger!move" + prefix <= keys[i]
  {
  }

  /** One turn of the loop. */
  method DeleteBatch(db: Db, keyPrefix: string, deletionBatchSize: nat) returns (deleted: nat)
    modifies db
    ensures var batch := Batch(old(db.data), keyPrefix, deletionBatchSize);
            db.data == TakenOut(old(db.data), batch) && deleted == |batch|
  {
    hide Batch;
    var keysThisBatch := CollectBatch(db, keyPrefix, deletionBatchSize);
    assert |keysThisBatch| == 0 ==> TakenOut(db.data, keysThisBatch) == db.data;
    deleted := 0;
    if |keysThisBatch| > 0 {
      deleted := DeleteKeys(db, keysThisBatch);
    }
  }

  /** A number of turns of the loop, on any store: fewer only if the target is met. */
  method DeletePasses(keyPrefix: string, db: Db, deletionBatchSize: nat, numOfKeysToDelete: nat, passes: nat)
    returns (numOfKeysDeleted: nat)
    modifies db
    ensures Progress(db.data, numOfKeysDeleted) == AfterPasses(old(db.data), keyPrefix, deletionBatchSize, numOfKeysToDelete, passes)
  {
    hide Batch;
    numOfKeysDeleted := 0;
    for turn := 0 to passes
      invariant Progress(db.data, numOfKeysDeleted) == AfterPasses(old(db.data), keyPrefix, deletionBatchSize, numOfKeysToDelete, turn)
    {
      if numOfKeysDeleted < numOfKeysToDelete {
        var deletedInThisBatch := DeleteBatch(db, keyPrefix, deletionBatchSize);
        numOfKeysDeleted := numOfKeysDeleted + deletedInThisBatch;
      }
    }
  }

  /** Full batches until the target is met: the target rounded up to whole batches, if that many match. */
  function Expected(batchSize: nat, lead: nat, target: nat): nat {
    if target == 0 then 0
    else if batchSize == 0 then lead
    else
      var rounded := batchSize * ((target + batchSize - 1) / batchSize);
      if lead < rounded then lead else rounded
  }

  /** The whole loop. Requires what makes it end (`EndsIffEnoughLead`): that the matching keys come first
      in the order, and suffice. */
  method DeleteKeysWithPrefix(keyPrefix: string, db: Db, deletionBatchSize: nat, numOfKeysToDelete: nat)
    returns (numOfKeysDeleted: nat)
    requires numOfKeysToDelete <= |Leading(db.data.Keys, keyPrefix)|
    modifies db
    ensures numOfKeysDeleted == Expected(deletionBatchSize, |Leading(old(db.data.Keys), keyPrefix)|, numOfKeysToDelete)
    ensures numOfKeysToDelete <= numOfKeysDeleted <= |Leading(old(db.data.Keys), keyPrefix)|
    ensures db.data == TakenOut(old(db.data), InOrder(old(db.data.Keys))[..numOfKeysDeleted])
  {
    hide Batch, Expected, Leading, InOrder, Lead, TakenOut;
    numOfKeysDeleted := 0;
    ghost var data, passes: nat := db.data, 0;
    ghost var lead := |Leading(data.Keys, keyPrefix)|;
    LeadIsLeading(data.Keys, keyPrefix);
    while numOfKeysDeleted < numOfKeysToDelete
      invariant Progress(db.data, numOfKeysDeleted) == AfterPasses(data, keyPrefix, deletionBatchSize, numOfKeysToDelete, passes)
      invariant numOfKeysDeleted == DeletedAfter(deletionBatchSize, lead, numOfKeysToDelete, passes)
      decreases lead - numOfKeysDeleted
    {
      var deletedInThisBatch := DeleteBatch(db, keyPrefix, deletionBatchSize);
      numOfKeysDeleted := numOfKeysDeleted + deletedInThisBatch;
      passes := passes + 1;
      PassesTakeOut(data, keyPrefix, deletionBatchSize, numOfKeysToDelete, passes);
    }
    PassesTakeOut(data, keyPrefix, deletionBatchSize, numOfKeysToDelete, passes);
    FinishedAsExpected(deletionBatchSize, lead, numOfKeysToDelete, passes);
  }

  // ----- when the loop ends -----

  /** The matching keys before which no other key comes. */
  ghost function Leading(ks: set<string>, prefix: string): (leading: set<string>)
    ensures leading <= ks && |leading| <= |ks|
  {
    var leading := set k | k in ks && Matches(prefix, k) && forall o :: o in ks && Less(o, k) ==> Matches(prefix, o);
    assert ks == leading + (ks - leading);
    leading
  }

  lemma LeadIsLeading(ks: set<string>, prefix: string)
    ensures Lead(InOrder(ks), prefix) == |Leading(ks, prefix)|
  {
    hide Less, Matches, InOrder, Lead, Leading;
    var keys := InOrder(ks);
    var n := Lead(keys, prefix);
    forall k ensures k in Leading(ks, prefix) <==> k in keys[..n] {
      if k in keys[..n] {
        LeadLeads(ks, keys, prefix, k);
      }
      if k in Leading(ks, prefix) {
        LeadingInLead(ks, keys, prefix, k);
      }
    }
    OrderedCount(keys[..n], Leading(ks, prefix));
  }

  lemma LeadLeads(ks: set<string>, keys: seq<string>, prefix: string, k: string)
    requires Ordered(ks, keys) && k in keys[..Lead(keys, prefix)]
    ensures k in Leading(ks, prefix)
  {
    hide Less, Matches, Lead;
    var n := Lead(keys, prefix);
    var i :| 0 <= i < n && keys[i] == k;
    assert k in keys;
    forall o | o in ks && Less(o, k) ensures Matches(prefix, o) {
      assert o in keys;
      var j :| 0 <= j < |keys| && keys[j] == o;
      if n <= j {
        LessAsymmetric(o, k);
      }
    }
  }

  lemma LeadingInLead(ks: set<string>, keys: seq<string>, prefix: string, k: string)
    requires Ordered(ks, keys) && k in Leading(ks, prefix)
    ensures k in keys[..Lead(keys, prefix)]
  {
    hide Less, Matches, Lead;
    var n := Lead(keys, prefix);
    assert k in keys;
    var i :| 0 <= i < |keys| && keys[i] == k;
    if n <= i {
      assert keys[n] in keys;
    } else {
      assert keys[..n][i] == k;
    }
  }

  lemma OrderedCount(keys: seq<string>, ks: set<string>)
    requires Ascending(keys) && Lists(keys, ks)
    ensures |keys| == |ks|
  {
    InOrderIs(ks, keys);
  }

  /** Taking out as many keys as lead takes out exactly those. */
  lemma LeadingTakenOut(data: Data, prefix: string)
    ensures TakenOut(data, InOrder(data.Keys)[..|Leading(data.Keys, prefix)|]) == data - Leading(data.Keys, prefix)
  {
    hide Less, Matches, InOrder, Lead, Leading;
    var keys := InOrder(data.Keys);
    LeadIsLeading(data.Keys, prefix);
    forall k ensures k in Leading(data.Keys, prefix) <==> k in keys[..Lead(keys, prefix)] {
      if k in keys[..Lead(keys, prefix)] {
        LeadLeads(data.Keys, keys, prefix, k);
      }
      if k in Leading(data.Keys, prefix) {
        LeadingInLead(data.Keys, keys, prefix, k);
      }
    }
  }

  lemma {:induction false} EveryPassDeletes(batchSize: nat, lead: nat, target: nat, passes: nat)
    requires target <= lead
    ensures DeletedAfter(batchSize, lead, target, passes) >= if passes < target then passes else target
  {
    if passes > 0 {
      EveryPassDeletes(batchSize, lead, target, passes - 1);
    }
  }

  /** On some turn the loop finds its target met. */
  ghost predicate Ends(data: Data, prefix: string, batchSize: nat, target: nat) {
    exists passes: nat :: AfterPasses(data, prefix, batchSize, target, passes).deleted >= target
  }

  /** On any store the loop ends exactly when at least as many matching keys as asked for come first in the
      key order: a matching key behind one that does not match is never reached, and the loop turns forever. */
  lemma EndsIffEnoughLead(data: Data, prefix: string, batchSize: nat, target: nat)
    ensures Ends(data, prefix, batchSize, target) <==> target <= |Leading(data.Keys, prefix)|
  {
    hide Less, Matches, InOrder, Lead, Leading, TakenOut;
    LeadIsLeading(data.Keys, prefix);
    if target <= |Leading(data.Keys, prefix)| {
      EveryPassDeletes(batchSize, |Leading(data.Keys, prefix)|, target, target);
      PassesTakeOut(data, prefix, batchSize, target, target);
    } else if passes: nat :| AfterPasses(data, prefix, batchSize, target, passes).deleted >= target {
      PassesTakeOut(data, prefix, batchSize, target, passes);
    }
  }

  /** A key before the prefix is enough to block it: then no key is deleted, whatever the target. */
  lemma EarlierKeyBlocks(data: Data, prefix: string, k: string, batchSize: nat, target: nat, passes: nat)
    requires k in data && Less(k, prefix)
    requires forall o :: o in data ==> !("!badger!move" + prefix <= o)
    ensures Leading(data.Keys, prefix) == {}
    ensures AfterPasses(data, prefix, batchSize, target, passes) == Progress(data, 0)
  {
    hide Less, InOrder, TakenOut;
    forall o | o in data && prefix <= o ensures !Matches(prefix, k) && Less(k, o) {
      PrefixAtMost(prefix, o);
      LessAtMost(k, prefix, o);
      NotWithPrefix(prefix, k);
    }
    LeadIsLeading(data.Keys, prefix);
    PassesTakeOut(data, prefix, batchSize, target, passes);
    NothingTakenOut(data);
    assert InOrder(data.Keys)[..0] == [];
  }

  lemma NotWithPrefix(prefix: string, k: string)
    requires Less(k, prefix)
    ensures !(prefix <= k)
  {
    if prefix <= k {
      PrefixAtMost(prefix, k);
      LessAsymmetric(k, prefix);
    }
  }

  lemma {:induction false} BatchesSoFar(batchSize: nat, lead: nat, target: nat, passes: nat)
    requires batchSize > 0 && (passes > 0 ==> DeletedAfter(batchSize, lead, target, passes - 1) < target)
    requires target <= lead
    ensures DeletedAfter(batchSize, lead, target, passes) == if lead < batchSize * passes then lead else batchSize * passes
  {
    if passes > 0 {
      if passes > 1 {
        StillRunning(batchSize, lead, target, passes - 1);
      }
      BatchesSoFar(batchSize, lead, target, passes - 1);
      assert batchSize * passes == batchSize * (passes - 1) + batchSize;
    }
  }

  lemma StillRunning(batchSize: nat, lead: nat, target: nat, passes: nat)
    requires passes > 0 && DeletedAfter(batchSize, lead, target, passes) < target
    ensures DeletedAfter(batchSize, lead, target, passes - 1) < target
  {
  }

  lemma {:induction false} FinishedAsExpected(batchSize: nat, lead: nat, target: nat, passes: nat)
    requires target <= lead && DeletedAfter(batchSize, lead, target, passes) >= target
    ensures DeletedAfter(batchSize, lead, target, passes) == Expected(batchSize, lead, target)
    decreases passes
  {
    if passes > 0 && DeletedAfter(batchSize, lead, target, passes - 1) >= target {
      FinishedAsExpected(batchSize, lead, target, passes - 1);
    } else if batchSize > 0 && passes > 0 {
      BatchesSoFar(batchSize, lead, target, passes);
      if passes > 1 {
        StillRunning(batchSize, lead, target, passes - 1);
      }
      BatchesSoFar(batchSize, lead, target, passes - 1);
      RoundedUp(batchSize, target, passes);
    }
  }

  /** Rounding up to whole batches reaches the target. */
  lemma RoundsUp(b: nat, n: nat)
    requires b > 0 && n > 0
    ensures b * ((n + b - 1) / b) >= n
  {
    var q, r := (n + b - 1) / b, (n + b - 1) % b;
    assert n + b - 1 == b * q + r;
  }

  lemma RoundedUp(b: nat, n: nat, t: nat)
    requires b > 0 && t > 0 && b * (t - 1) < n <= b * t
    ensures (n + b - 1) / b == t
  {
    var q := (n + b - 1) / b;
    var r := (n + b - 1) % b;
    assert n + b - 1 == b * q + r;
    assert b * (t - 1) == b * t - b && b * (q + 1) == b * q + b;
    if q < t {
      Multiply(b, q + 1, t);
    } else if q > t {
      Multiply(b, t + 1, q);
    }
  }

  lemma Multiply(b: nat, x: nat, y: nat)
    requires x <= y
    ensures b * x <= b * y
  {
  }
}
