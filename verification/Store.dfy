/** The ordered key/value store: a map with iterators over a sorted snapshot of its keys. */
module Store {
  import opened ByteStrings
  import opened Wrappers

  ghost predicate Ascending(keys: seq<string>) {
    forall i, j :: 0 <= i < j < |keys| ==> Less(keys[i], keys[j])
  }

  ghost predicate Descending(keys: seq<string>) {
    forall i, j :: 0 <= i < j < |keys| ==> Less(keys[j], keys[i])
  }

  ghost predicate Lists(keys: seq<string>, ks: set<string>) {
    forall k :: k in keys <==> k in ks
  }

  /** In order, possibly with repetitions. */
  ghost predicate Sorted(keys: seq<string>) {
    forall i, j :: 0 <= i < j < |keys| ==> AtMost(keys[i], keys[j])
  }

  function Insert(key: string, keys: seq<string>): (r: seq<string>)
    requires Sorted(keys)
    ensures Sorted(r) && |r| == |keys| + 1 && multiset(r) == multiset(keys) + multiset{key}
    ensures forall k :: k in r <==> k == key || k in keys
    ensures Ascending(keys) && key !in keys ==> Ascending(r)
  {
    if keys == [] || AtMost(key, keys[0]) then
      InsertFirst(key, keys);
      [key] + keys
    else
      var rest := Insert(key, keys[1..]);
      InsertLater(key, keys, rest);
      [keys[0]] + rest
  }

  lemma InsertFirst(key: string, keys: seq<string>)
    requires Sorted(keys) && (keys == [] || AtMost(key, keys[0]))
    ensures Sorted([key] + keys)
    ensures Ascending(keys) && key !in keys ==> Ascending([key] + keys)
  {
    forall i | 0 <= i < |keys|
      ensures AtMost(key, keys[i]) && (key !in keys ==> Less(key, keys[i]))
    {
      assert keys[i] in keys;
      if key != keys[0] {
        LessAtMost(key, keys[0], keys[i]);
      }
    }
  }

  lemma InsertLater(key: string, keys: seq<string>, rest: seq<string>)
    requires Sorted(keys) && keys != [] && !AtMost(key, keys[0])
    requires Sorted(rest) && multiset(rest) == multiset(keys[1..]) + multiset{key}
    requires Ascending(keys) && key !in keys ==> Ascending(rest)
    ensures Sorted([keys[0]] + rest) && multiset([keys[0]] + rest) == multiset(keys) + multiset{key}
    ensures Ascending(keys) && key !in keys ==> Ascending([keys[0]] + rest)
  {
    hide Less;
    LessTotal(key, keys[0]);
    assert keys == [keys[0]] + keys[1..];
    forall i | 0 <= i < |rest|
      ensures AtMost(keys[0], rest[i]) && (Ascending(keys) ==> Less(keys[0], rest[i]))
    {
      assert rest[i] in multiset(rest);
    }
  }

  /** Go's `sort.Strings`. */
  function SortStrings(keys: seq<string>): (r: seq<string>)
    ensures Sorted(r) && |r| == |keys| && multiset(r) == multiset(keys)
    ensures forall k :: k in r <==> k in keys
    ensures (forall i, j :: 0 <= i < j < |keys| ==> keys[i] != keys[j]) ==> Ascending(r)
  {
    if keys == [] then []
    else
      assert keys == [keys[0]] + keys[1..];
      Insert(keys[0], SortStrings(keys[1..]))
  }

  function Reversed(keys: seq<string>): (r: seq<string>)
    ensures |r| == |keys| && forall i :: 0 <= i < |r| ==> r[i] == keys[|keys| - 1 - i]
    ensures Ascending(keys) ==> Descending(r)
    ensures forall k :: k in r <==> k in keys
  {
    var r := seq(|keys|, i requires 0 <= i < |keys| => keys[|keys| - 1 - i]);
    assert forall i :: 0 <= i < |keys| ==> keys[i] == r[|keys| - 1 - i];
    r
  }

  /** Go's `sort.SearchStrings`: the least index whose element is not below `key`. */
  function SearchStrings(keys: seq<string>, key: string): (n: nat)
    requires Ascending(keys)
    ensures n <= |keys|
    ensures forall i :: 0 <= i < n ==> Less(keys[i], key)
    ensures forall i :: n <= i < |keys| ==> !Less(keys[i], key)
  {
    if keys == [] then 0
    else if Less(keys[0], key) then 1 + SearchStrings(keys[1..], key)
    else
      NoneBelow(keys, key);
      0
  }

  lemma NoneBelow(keys: seq<string>, key: string)
    requires Ascending(keys) && keys != [] && !Less(keys[0], key)
    ensures forall i :: 0 <= i < |keys| ==> !Less(keys[i], key)
  {
    forall i | 0 <= i < |keys|
      ensures !Less(keys[i], key)
    {
      if i > 0 && Less(keys[i], key) {
        LessTransitive(keys[0], keys[i], key);
      }
    }
  }

  // ----- the order on key sets that iterators walk -----

  ghost predicate IsGreatestBelow(ks: set<string>, bound: string, k: string) {
    && k in ks
    && Less(k, bound)
    && forall o :: o in ks && Less(o, bound) ==> AtMost(o, k)
  }

  /** The key a reverse walk meets first below `bound`. */
  ghost function GreatestBelow(ks: set<string>, bound: string): (r: Option<string>)
    ensures r.Some? ==> IsGreatestBelow(ks, bound, r.value)
    ensures r.None? ==> forall o :: o in ks ==> !Less(o, bound)
  {
    if k :| IsGreatestBelow(ks, bound, k) then Some(k)
    else
      var below := set o | o in ks && Less(o, bound);
      assert below == {} by {
        if below != {} {
          var k := Greatest(below);
          assert IsGreatestBelow(ks, bound, k);
        }
      }
      assert forall o :: o in ks && Less(o, bound) ==> o in below;
      None
  }

  lemma {:induction false} Greatest(ks: set<string>) returns (k: string)
    requires ks != {}
    ensures k in ks && forall o :: o in ks ==> AtMost(o, k)
    decreases |ks|
  {
    var x :| x in ks;
    k := x;
    if ks != {x} {
      assert ks - {x} != {} by {
        assert ks == (ks - {x}) + {x};
      }
      var g := Greatest(ks - {x});
      LessTotal(g, x);
      if Less(x, g) {
        k := g;
      } else {
        forall o | o in ks ensures AtMost(o, x) {
          if o != x && Less(o, g) {
            LessTransitive(o, g, x);
          }
        }
      }
    }
  }

  lemma GreatestBelowUnique(ks: set<string>, bound: string, k: string)
    requires IsGreatestBelow(ks, bound, k)
    ensures GreatestBelow(ks, bound) == Some(k)
  {
    var r := GreatestBelow(ks, bound);
    if r.Some? && r.value != k {
      LessAsymmetric(r.value, k);
    }
  }

  /** A descending list whose first `n` keys are not below `bound` and whose others are. */
  lemma GreatestBelowAt(keys: seq<string>, ks: set<string>, bound: string, n: nat)
    requires Lists(keys, ks) && Descending(keys) && n <= |keys|
    requires forall i :: 0 <= i < n ==> !Less(keys[i], bound)
    requires forall i :: n <= i < |keys| ==> Less(keys[i], bound)
    ensures GreatestBelow(ks, bound) == if n < |keys| then Some(keys[n]) else None
  {
    if n < |keys| {
      assert keys[n] in keys;
      assert IsGreatestBelow(ks, bound, keys[n]);
      GreatestBelowUnique(ks, bound, keys[n]);
    }
  }

  lemma GreatestBelowNext(keys: seq<string>, ks: set<string>, n: nat)
    requires Lists(keys, ks) && Descending(keys) && n < |keys|
    ensures GreatestBelow(ks, keys[n]) == if n + 1 < |keys| then Some(keys[n + 1]) else None
  {
    forall i | 0 <= i <= n ensures !Less(keys[i], keys[n]) {
      if i < n {
        LessAsymmetric(keys[n], keys[i]);
      } else {
        LessIrreflexive(keys[n]);
      }
    }
    GreatestBelowAt(keys, ks, keys[n], n + 1);
  }

  // ----- the store and its iterators -----

  class MockDb<V> {
    var data: map<string, V>

    constructor ()
      ensures data == map[]
    {
      data := map[];
    }

    method Set(key: string, value: V)
      modifies this
      ensures data == old(data)[key := value]
    {
      data := data[key := value];
    }

    method Delete(key: string)
      modifies this
      ensures data == old(data) - {key}
    {
      data := data - {key};
    }

    /** Visits the keys in the arbitrary order of a Go map. */
    method DropPrefix(prefix: string)
      modifies this
      ensures data == map k | k in old(data) && !(prefix <= k) :: old(data)[k]
    {
      var rest := data.Keys;
      while rest != {}
        invariant rest <= old(data.Keys)
        invariant data == map k | k in old(data) && !(prefix <= k && k !in rest) :: old(data)[k]
        decreases |rest|
      {
        var key :| key in rest;
        if prefix <= key {
          data := data - {key};
        }
        rest := rest - {key};
      }
    }
  }

  class MockIterator<V> {
    const db: MockDb<V>
    const reverse: bool
    var keys: seq<string>
    var currentIdx: nat
    /** The keys of the store when the iterator was made. */
    ghost const snapshot: set<string>

    ghost predicate Sorted()
      reads this
    {
      && Lists(keys, snapshot)
      && (if reverse then Descending(keys) else Ascending(keys))
    }

    constructor (db: MockDb<V>, reverse: bool)
      ensures this.db == db && this.reverse == reverse && snapshot == db.data.Keys
      ensures Sorted() && currentIdx == 0
    {
      this.db, this.reverse, snapshot := db, reverse, db.data.Keys;
      var ks := [];
      var rest := db.data.Keys;
      while rest != {}
        invariant forall k :: k in db.data.Keys <==> k in rest || k in ks
        invariant forall i :: 0 <= i < |ks| ==> ks[i] !in rest
        invariant forall i, j :: 0 <= i < j < |ks| ==> ks[i] != ks[j]
        decreases |rest|
      {
        var k :| k in rest;
        ks, rest := ks + [k], rest - {k};
      }
      ks := SortStrings(ks);
      keys := if reverse then Reversed(ks) else ks;
      currentIdx := 0;
    }

    method Seek(key: string)
      requires Sorted()
      modifies this
      ensures Sorted() && currentIdx <= |keys| && (!reverse ==> keys == old(keys))
      ensures forall i :: 0 <= i < currentIdx ==> Less(keys[i], key) == !reverse
      ensures forall i :: currentIdx <= i < |keys| ==> Less(keys[i], key) == reverse
    {
      if !reverse {
        currentIdx := SearchStrings(keys, key);
      } else {
        DescendingDistinct(keys);
        var ascending := SortStrings(keys);
        var n := SearchStrings(ascending, key);
        currentIdx := |ascending| - n;
        keys := Reversed(ascending);
      }
    }

    method Next()
      modifies this`currentIdx
      ensures currentIdx == old(currentIdx) + 1
    {
      currentIdx := currentIdx + 1;
    }

    method Rewind()
      modifies this`currentIdx
      ensures currentIdx == 0
    {
      currentIdx := 0;
    }

    predicate Valid()
      reads this
    {
      currentIdx < |keys|
    }

    predicate ValidForPrefix(prefix: string)
      reads this
    {
      Valid() && prefix <= keys[currentIdx]
    }

    function Key(): string
      requires Valid()
      reads this
    {
      keys[currentIdx]
    }
  }

  lemma DescendingDistinct(keys: seq<string>)
    requires Descending(keys)
    ensures forall i, j :: 0 <= i < j < |keys| ==> keys[i] != keys[j]
  {
    forall i, j | 0 <= i < j < |keys| ensures keys[i] != keys[j] {
      LessIrreflexive(keys[i]);
    }
  }
}
