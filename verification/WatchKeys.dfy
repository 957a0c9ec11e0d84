/** Keys of the stored rows: `/table/partition/kind/namespace/name/tail`, where the tail of a
    watch key is its timestamp. */
module WatchKeys {
  import opened ByteStrings
  import opened Decimal
  import opened Wrappers
  import opened Partitions

  const WATCH: string := "watch"

  /** Go's `time.Time` as far as keys are concerned: the zero time, or nanoseconds since 1970. */
  datatype Time = Zero | Nanos(n: int)

  datatype WatchKey = WatchKey(partitionId: string, kind: string, namespace: string, name: string, timestamp: Time)

  // ----- printing -----

  /** `partition/kind/namespace/name/tail` */
  function Fields(partitionId: string, kind: string, namespace: string, name: string, tail: string): string {
    partitionId + "/" + (kind + "/" + (namespace + "/" + (name + "/" + tail)))
  }

  function TablePath(table: string): string {
    "/" + table + "/"
  }

  predicate IsNameAlreadyDelimited(name: string) {
    |name| > 0 && (name[|name| - 1] == '.' || name[|name| - 1] == '/')
  }

  function Print(k: WatchKey): string {
    match k.timestamp
    case Nanos(n) => TablePath(WATCH) + Fields(k.partitionId, k.kind, k.namespace, k.name, FormatInt(n))
    case Zero =>
      var upToName := TablePath(WATCH) + (k.partitionId + "/" + (k.kind + "/" + (k.namespace + "/" + k.name)));
      if k.name == "" || IsNameAlreadyDelimited(k.name) then upToName else upToName + "/"
  }

  // ----- parsing -----

  /** `strings.Split(s, "/")` */
  function Split(s: string): (parts: seq<string>)
    ensures |parts| >= 1 && forall i :: 0 <= i < |parts| ==> SlashFree(parts[i])
  {
    if s == "" then [""]
    else
      var rest := Split(s[1..]);
      if s[0] == '/' then [""] + rest else [[s[0]] + rest[0]] + rest[1..]
  }

  function ParseKey(key: string): (r: Option<seq<string>>)
    ensures r.Some? ==> |r.value| == 7 && r.value[0] == "" && r.value == Split(key)
  {
    var parts := Split(key);
    if |parts| != 7 || parts[0] != "" then None else Some(parts)
  }

  function Parse(key: string): Option<WatchKey> {
    var parts := ParseKey(key);
    if parts.None? || parts.value[1] != WATCH then None
    else
      var n := ParseInt(parts.value[6]);
      if n.None? then None
      else Some(WatchKey(parts.value[2], parts.value[3], parts.value[4], parts.value[5], Nanos(n.value)))
  }

  lemma {:induction false} SplitWhole(a: string)
    requires SlashFree(a)
    ensures Split(a) == [a]
  {
    if a != "" {
      SplitWhole(a[1..]);
      assert [a[0]] + a[1..] == a;
    }
  }

  lemma {:induction false} SplitField(a: string, x: string)
    requires SlashFree(a)
    ensures Split(a + "/" + x) == [a] + Split(x)
  {
    var s := a + "/" + x;
    if a == "" {
      assert s[1..] == x;
    } else {
      SplitField(a[1..], x);
      assert s[1..] == a[1..] + "/" + x;
      assert [a[0]] + a[1..] == a;
    }
  }

  /** Puts the parts of a split back together. */
  function Join(parts: seq<string>): string
    requires |parts| >= 1
  {
    if |parts| == 1 then parts[0] else parts[0] + "/" + Join(parts[1..])
  }

  lemma {:induction false} JoinSplit(s: string)
    ensures Join(Split(s)) == s
  {
    if s != "" {
      var rest := Split(s[1..]);
      JoinSplit(s[1..]);
      var parts := Split(s);
      assert parts[1..] == if s[0] == '/' then rest else rest[1..];
      assert s == [s[0]] + s[1..];
    }
  }

  lemma SplitFields(p: string, k: string, ns: string, n: string, tail: string)
    requires SlashFree(p) && SlashFree(k) && SlashFree(ns) && SlashFree(n) && SlashFree(tail)
    ensures Split(Fields(p, k, ns, n, tail)) == [p, k, ns, n, tail]
  {
    hide Split, SlashFree;
    SplitWhole(tail);
    SplitField(n, tail);
    SplitField(ns, n + "/" + tail);
    SplitField(k, ns + "/" + (n + "/" + tail));
    SplitField(p, k + "/" + (ns + "/" + (n + "/" + tail)));
    assert [p, k, ns, n, tail] == [p] + ([k] + ([ns] + ([n] + [tail])));
  }

  lemma SplitSix(table: string, p: string, k: string, ns: string, n: string, tail: string)
    requires SlashFree(table) && SlashFree(p) && SlashFree(k) && SlashFree(ns) && SlashFree(n) && SlashFree(tail)
    ensures Split(TablePath(table) + Fields(p, k, ns, n, tail)) == ["", table, p, k, ns, n, tail]
    ensures Join(["", table, p, k, ns, n, tail]) == TablePath(table) + Fields(p, k, ns, n, tail)
  {
    hide Split, Join, Fields;
    var f := Fields(p, k, ns, n, tail);
    SplitFields(p, k, ns, n, tail);
    SplitField(table, f);
    SplitField("", table + "/" + f);
    assert TablePath(table) + f == "" + "/" + (table + "/" + f);
    assert ["", table, p, k, ns, n, tail] == [""] + ([table] + [p, k, ns, n, tail]);
    JoinSplit(TablePath(table) + f);
  }

  predicate SlashFreeFields(k: WatchKey) {
    SlashFree(k.partitionId) && SlashFree(k.kind) && SlashFree(k.namespace) && SlashFree(k.name)
  }

  lemma FormatIntSlashFree(n: int)
    ensures SlashFree(FormatInt(n))
  {
    NumeralAsciiSlashFree(Digits(if n < 0 then -n else n));
  }

  /** Reading back a printed key yields the key. */
  lemma ParsePrinted(k: WatchKey)
    requires SlashFreeFields(k) && k.timestamp.Nanos? && MIN_INT64 <= k.timestamp.n <= MAX_INT64
    ensures Parse(Print(k)) == Some(k)
  {
    hide FormatInt, ParseInt;
    FormatIntSlashFree(k.timestamp.n);
    assert SlashFree(WATCH);
    SplitSix(WATCH, k.partitionId, k.kind, k.namespace, k.name, FormatInt(k.timestamp.n));
    ParseFormatInt(k.timestamp.n);
  }

  /** Printing a parsed key yields the string again, exactly when its last part was written
      the way `%d` writes it (no plus sign, no leading zeros). */
  lemma PrintParsed(key: string)
    requires Parse(key).Some?
    ensures SlashFreeFields(Parse(key).value) && Parse(key).value.timestamp.Nanos?
    ensures Print(Parse(key).value) == key <==> FormatInt(Parse(key).value.timestamp.n) == Split(key)[6]
  {
    var k := Parse(key).value;
    PrintParsedParts(key, k, Split(key)[6]);
  }

  lemma PrintParsedParts(key: string, k: WatchKey, tail: string)
    requires k.timestamp.Nanos? && Split(key) == ["", WATCH, k.partitionId, k.kind, k.namespace, k.name, tail]
    ensures SlashFreeFields(k) && (Print(k) == key <==> FormatInt(k.timestamp.n) == tail)
  {
    hide FormatInt, ParseInt, Split;
    var parts := Split(key);
    assert SlashFree(parts[2]) && SlashFree(parts[3]) && SlashFree(parts[4]) && SlashFree(parts[5]) && SlashFree(parts[6]);
    FormatIntSlashFree(k.timestamp.n);
    SplitSix(WATCH, k.partitionId, k.kind, k.namespace, k.name, FormatInt(k.timestamp.n));
    SplitSix(WATCH, k.partitionId, k.kind, k.namespace, k.name, tail);
    JoinSplit(key);
  }

  // ----- comparators -----

  lemma ConcatCancel(p: string, x: string, y: string)
    ensures p + x <= p + y <==> x <= y
  {
    if p + x <= p + y {
      assert x == (p + x)[|p|..] == (p + y)[|p|..][..|x|] == y[..|x|];
    }
  }

  /** The last field of a comparator, which no slash need follow. */
  lemma OpenFieldPrefix(a: string, b: string, y: string)
    requires SlashFree(a)
    ensures a <= b + "/" + y <==> a <= b
  {
    var s := b + "/" + y;
    if a <= s && |a| > |b| {
      ReachesSlash(a, b, y);
    } else if a <= s {
      assert a == s[..|a|] == b[..|a|];
    }
  }

  lemma ReachesSlash(a: string, b: string, y: string)
    requires a <= b + "/" + y && |a| > |b|
    ensures !SlashFree(a)
  {
    assert a[|b|] == (b + "/" + y)[|b|] == '/';
  }

  predicate SameResource(a: WatchKey, b: WatchKey) {
    a.kind == b.kind && a.namespace == b.namespace && a.name == b.name
  }

  lemma DelimiterIsDot(name: string)
    requires SlashFree(name)
    ensures IsNameAlreadyDelimited(name) <==> name != "" && name[|name| - 1] == '.'
  {
  }

  /** What a comparator (a key with the zero time) is a prefix of, whatever its name. */
  lemma ComparatorPrefix(c: WatchKey, k: WatchKey)
    requires SlashFreeFields(c) && SlashFreeFields(k) && c.timestamp.Zero? && k.timestamp.Nanos?
    ensures Print(c) <= Print(k) <==>
              && c.partitionId == k.partitionId && c.kind == k.kind && c.namespace == k.namespace
              && (if c.name == "" || c.name[|c.name| - 1] == '.' then c.name <= k.name else c.name == k.name)
  {
    hide FormatInt, IsNameAlreadyDelimited;
    var t := FormatInt(k.timestamp.n);
    DelimiterIsDot(c.name);
    var open := c.name == "" || IsNameAlreadyDelimited(c.name);
    var c4 := if open then c.name else c.name + "/" + "";
    var k4 := k.name + "/" + t;
    var c3, k3 := c.namespace + "/" + c4, k.namespace + "/" + k4;
    var c2, k2 := c.kind + "/" + c3, k.kind + "/" + k3;
    var c1, k1 := c.partitionId + "/" + c2, k.partitionId + "/" + k2;
    assert Print(c) == TablePath(WATCH) + c1 && Print(k) == TablePath(WATCH) + k1;
    ConcatCancel(TablePath(WATCH), c1, k1);
    FieldPrefix(c.partitionId, c2, k.partitionId, k2);
    FieldPrefix(c.kind, c3, k.kind, k3);
    FieldPrefix(c.namespace, c4, k.namespace, k4);
    if open {
      OpenFieldPrefix(c.name, k.name, t);
    } else {
      FieldPrefix(c.name, "", k.name, t);
    }
  }

  // ----- the keys that records are stored under -----

  /** A field as Kubernetes and the writer of the store produce it. */
  predicate CleanField(s: string) {
    Ascii(s) && SlashFree(s)
  }

  /** Kind, namespace and name of one resource. */
  predicate CleanResource(kind: string, namespace: string, name: string) {
    && CleanField(kind) && CleanField(namespace) && CleanField(name)
    && name != "" && name[|name| - 1] != '.'
  }

  /** Instants that int64 nanoseconds hold and that `%d` prints with `width` digits. */
  predicate CleanInstant(width: nat, n: int) {
    0 <= n <= MAX_INT64 && |Digits(n)| == width
  }

  /** The key under which a record observed at its timestamp is stored. */
  predicate Canonical(dur: PartitionDuration, width: nat, k: WatchKey) {
    && CleanResource(k.kind, k.namespace, k.name)
    && k.timestamp.Nanos? && CleanInstant(width, k.timestamp.n)
    && k.partitionId == GetPartitionId(dur, k.timestamp.n)
  }

  lemma InstantStart(dur: PartitionDuration, n: int)
    requires 0 <= n <= MAX_INT64
    ensures IsStart(dur, StartOf(dur, n)) && StartOf(dur, n) + dur.Seconds() < MAX_ID
  {
    StartOfBounds(dur, n);
  }

  lemma CanonicalSlashFree(dur: PartitionDuration, width: nat, k: WatchKey)
    requires Canonical(dur, width, k)
    ensures SlashFreeFields(k) && Parse(Print(k)) == Some(k)
  {
    hide FormatInt, FormatId, Digits;
    InstantStart(dur, k.timestamp.n);
    IdSlashFree(StartOf(dur, k.timestamp.n));
    ParsePrinted(k);
  }

  /** The part of a key before its timestamp. */
  function Stem(k: WatchKey): string {
    TablePath(WATCH) + Fields(k.partitionId, k.kind, k.namespace, k.name, "")
  }

  lemma StemTail(k: WatchKey)
    requires k.timestamp.Nanos?
    ensures Print(k) == Stem(k) + FormatInt(k.timestamp.n)
  {
    hide FormatInt;
  }

  /** For numerals of equal length, a seek past `b` admits exactly what is at most `b`. */
  lemma SeekPast(stem: string, a: nat, b: nat)
    requires |Digits(a)| == |Digits(b)|
    ensures Less(stem + Digits(a), stem + Digits(b) + SENTINEL) <==> a <= b
  {
    hide Digits, Less;
    var x, y := Digits(a), Digits(b);
    assert stem + y + SENTINEL == stem + (y + SENTINEL);
    LessCancel(stem, x, y + SENTINEL);
    NumeralOrder(x, y);
    if a < b {
      LessExtend(x, "", y, SENTINEL);
      assert x + "" == x;
    } else if a == b {
      LessProperExtension(x, SENTINEL);
    } else {
      NumeralOrder(y, x);
      LessExtend(y, SENTINEL, x, "");
      assert x + "" == x;
      LessAsymmetric(y + SENTINEL, x);
    }
  }

  /** Timestamps must be printed with equally many digits: a seek at `b` finds an earlier `a` that is one
      digit shorter exactly when `a` is at most a tenth of `b`, and misses every later one. */
  lemma SeekPastShorter(stem: string, a: nat, b: nat)
    requires |Digits(a)| + 1 == |Digits(b)|
    ensures Less(stem + Digits(a), stem + Digits(b) + SENTINEL) <==> a <= b / 10
  {
    hide Less;
    var x, y, z := Digits(a), Digits(b / 10), [DigitChar(b % 10)] + SENTINEL;
    assert b >= 10 && Digits(b) == y + [DigitChar(b % 10)];
    assert stem + Digits(b) + SENTINEL == stem + (y + z);
    LessCancel(stem, x, y + z);
    NumeralOrder(x, y);
    NumeralOrder(y, x);
    assert x + "" == x;
    if a < b / 10 {
      LessExtend(x, "", y, z);
    } else if a == b / 10 {
      LessProperExtension(x, z);
    } else {
      LessExtend(y, z, x, "");
      LessAsymmetric(y + z, x);
    }
  }

  /** For one resource, the string order of stored keys is the order of their timestamps. */
  lemma KeyOrderIsTimeOrder(dur: PartitionDuration, width: nat, a: WatchKey, b: WatchKey)
    requires Canonical(dur, width, a) && Canonical(dur, width, b) && SameResource(a, b)
    ensures Less(Print(a), Print(b)) <==> a.timestamp.n < b.timestamp.n
    ensures Print(a) == Print(b) <==> a == b
  {
    hide FormatId, Digits, Less;
    var s, t := a.timestamp.n, b.timestamp.n;
    InstantStart(dur, s);
    InstantStart(dur, t);
    var p, q := StartOf(dur, s), StartOf(dur, t);
    IdOrder(p, q);
    CanonicalSlashFree(dur, width, a);
    CanonicalSlashFree(dur, width, b);
    StemTail(a);
    StemTail(b);
    UnderId(a);
    UnderId(b);
    if p == q {
      LessCancel(Stem(a), Digits(s), Digits(t));
      NumeralOrder(Digits(s), Digits(t));
    } else if p < q {
      EarlierId(TablePath(WATCH), p, Print(a), q, Print(b));
      if t <= s { StartOfMonotone(dur, t, s); }
    } else {
      EarlierId(TablePath(WATCH), q, Print(b), p, Print(a));
      LessAsymmetric(Print(b), Print(a));
      if s <= t { StartOfMonotone(dur, s, t); }
    }
  }

  /** Every string under an earlier partition comes before every string under a later one. */
  lemma EarlierId(root: string, p: int, a: string, q: int, b: string)
    requires 0 <= p < q < MAX_ID && root + FormatId(p) <= a && root + FormatId(q) <= b
    ensures Less(a, b)
  {
    hide Less, FormatId;
    IdOrder(p, q);
    IdFaithful(p);
    IdFaithful(q);
    var x, y := a[|root| + 12..], b[|root| + 12..];
    assert a == root + (FormatId(p) + x) && b == root + (FormatId(q) + y);
    LessExtend(FormatId(p), x, FormatId(q), y);
    LessCancel(root, FormatId(p) + x, FormatId(q) + y);
  }

  lemma UnderId(k: WatchKey)
    requires k.timestamp.Nanos?
    ensures TablePath(WATCH) + k.partitionId <= Print(k)
  {
    hide FormatInt;
  }

  /** The mutable key objects that the table methods receive. */
  class WatchTableKey {
    var partitionId: string
    var kind: string
    var namespace: string
    var name: string
    var timestamp: Time

    constructor (partitionId: string, kind: string, namespace: string, name: string, timestamp: Time)
      ensures Value() == WatchKey(partitionId, kind, namespace, name, timestamp)
    {
      this.partitionId, this.kind, this.namespace := partitionId, kind, namespace;
      this.name, this.timestamp := name, timestamp;
    }

    function Value(): WatchKey
      reads this
    {
      WatchKey(partitionId, kind, namespace, name, timestamp)
    }

    method SetPartitionId(newPartitionId: string)
      modifies this`partitionId
      ensures Value() == old(Value()).(partitionId := newPartitionId)
    {
      partitionId := newPartitionId;
    }
  }
}
