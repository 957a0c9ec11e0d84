/** Partition ids: the start of an hour or a day, in Unix seconds, padded to 12 digits.
    Instants are integer nanoseconds since the Unix epoch, in UTC. */
module Partitions {
  import opened ByteStrings
  import opened Decimal
  import opened Wrappers

  const NANOS: int := 1_000_000_000
  const MAX_ID: int := 1_000_000_000_000

  datatype PartitionDuration = Hour | Day {
    function Seconds(): (s: nat)
      ensures s == 3600 || s == 86400
    {
      if Hour? then 3600 else 86400
    }
  }

  function ToUint64(x: int): nat {
    x % 0x1_0000_0000_0000_0000
  }

  /** First second of the partition that holds `instant`. */
  function StartOf(dur: PartitionDuration, instant: int): int {
    var seconds := instant / NANOS;
    match dur
    case Hour => seconds - seconds % 3600
    case Day => seconds - seconds % 86400
  }

  function FormatId(start: int): string {
    ZeroPad(Digits(ToUint64(start)), 12)
  }

  function GetPartitionId(dur: PartitionDuration, instant: int): string {
    FormatId(StartOf(dur, instant))
  }

  function GetTimeForPartition(id: string): Option<int> {
    var seconds := ParseInt(id);
    if seconds.None? then None else Some(seconds.value * NANOS)
  }

  function GetTimeRangeForPartition(dur: PartitionDuration, id: string): Option<(int, int)> {
    var oldest := GetTimeForPartition(id);
    if oldest.None? then None else Some((oldest.value, oldest.value + dur.Seconds() * NANOS))
  }

  predicate Aligned(dur: PartitionDuration, start: int) {
    match dur
    case Hour => start % 3600 == 0
    case Day => start % 86400 == 0
  }

  /** A partition start whose id fits the 12 digits. */
  predicate IsStart(dur: PartitionDuration, start: int) {
    0 <= start < MAX_ID && Aligned(dur, start)
  }

  lemma StartOfBounds(dur: PartitionDuration, instant: int)
    ensures Aligned(dur, StartOf(dur, instant))
    ensures StartOf(dur, instant) * NANOS <= instant < (StartOf(dur, instant) + dur.Seconds()) * NANOS
    ensures instant >= 0 ==> StartOf(dur, instant) >= 0
  {
  }

  /** An instant lies in exactly one aligned span. */
  lemma StartOfUnique(dur: PartitionDuration, instant: int, start: int)
    requires Aligned(dur, start) && start * NANOS <= instant < (start + dur.Seconds()) * NANOS
    ensures StartOf(dur, instant) == start
  {
    StartOfBounds(dur, instant);
    var s := StartOf(dur, instant);
    if start < s {
      AlignedGap(dur, start, s);
    } else if s < start {
      AlignedGap(dur, s, start);
    }
  }

  lemma AlignedGap(dur: PartitionDuration, p: int, q: int)
    requires Aligned(dur, p) && Aligned(dur, q) && p < q
    ensures p + dur.Seconds() <= q
  {
    match dur {
      case Hour =>
        var i, j := p / 3600, q / 3600;
        assert p == 3600 * i && q == 3600 * j;
        assert i + 1 <= j;
      case Day =>
        var i, j := p / 86400, q / 86400;
        assert p == 86400 * i && q == 86400 * j;
        assert i + 1 <= j;
    }
  }

  lemma AlignedNext(dur: PartitionDuration, p: int)
    requires Aligned(dur, p)
    ensures Aligned(dur, p + dur.Seconds())
  {
  }

  lemma StartOfMonotone(dur: PartitionDuration, s: int, t: int)
    requires s <= t
    ensures StartOf(dur, s) <= StartOf(dur, t)
  {
    StartOfBounds(dur, s);
    StartOfBounds(dur, t);
    if StartOf(dur, t) < StartOf(dur, s) {
      AlignedGap(dur, StartOf(dur, t), StartOf(dur, s));
    }
  }

  lemma TwelveDigits()
    ensures Pow10(12) == MAX_ID
  {
    var p6 := Pow10(6);
    assert p6 == 1_000_000;
    assert Pow10(9) == 1000 * p6;
    assert Pow10(12) == 1000 * Pow10(9);
  }

  /** Below 10^12 an id has 12 digits, reads back as its start, and orders as its start. */
  lemma IdFaithful(p: int)
    requires 0 <= p < MAX_ID
    ensures |FormatId(p)| == 12 && Numeral(FormatId(p)) && NumeralValue(FormatId(p)) == p
    ensures ParseInt(FormatId(p)) == Some(p)
  {
    TwelveDigits();
    DigitsLength(p, 12);
    assert ToUint64(p) == p;
    ParseNumeral(FormatId(p));
  }

  /** The time range read off the id of an instant is the partition that the instant lies in. */
  lemma RangeHoldsInstant(dur: PartitionDuration, t: int)
    requires 0 <= t && StartOf(dur, t) < MAX_ID
    ensures var range := GetTimeRangeForPartition(dur, GetPartitionId(dur, t));
            && range.Some? && range.value.0 <= t < range.value.1 == range.value.0 + dur.Seconds() * NANOS
            && Aligned(dur, range.value.0 / NANOS)
    ensures forall id :: ParseInt(id).None? ==> GetTimeRangeForPartition(dur, id).None?
  {
    hide FormatId, ParseInt, StartOf, Aligned;
    StartOfBounds(dur, t);
    IdFaithful(StartOf(dur, t));
    assert StartOf(dur, t) * NANOS / NANOS == StartOf(dur, t);
  }

  /** Starts before 1970 wrap around in 64 bits. */
  lemma IdBeforeEpoch(p: int)
    requires MIN_INT64 <= p < 0
    ensures Numeral(FormatId(p)) && NumeralValue(FormatId(p)) == p + 0x1_0000_0000_0000_0000 && ParseInt(FormatId(p)) == None
  {
    assert ToUint64(p) == p + 0x1_0000_0000_0000_0000;
    var digits := FormatId(p);
    assert IsDigit(digits[0]);
  }

  lemma IdOrder(p: int, q: int)
    requires 0 <= p < MAX_ID && 0 <= q < MAX_ID
    ensures Less(FormatId(p), FormatId(q)) <==> p < q
    ensures FormatId(p) == FormatId(q) <==> p == q
  {
    IdFaithful(p);
    IdFaithful(q);
    NumeralOrder(FormatId(p), FormatId(q));
  }

  lemma IdSlashFree(p: int)
    requires 0 <= p < MAX_ID
    ensures Ascii(FormatId(p)) && SlashFree(FormatId(p))
  {
    IdFaithful(p);
    NumeralAsciiSlashFree(FormatId(p));
  }

  /** Starts of consecutive partitions, first to last inclusive. */
  function StartsBetween(dur: PartitionDuration, lo: int, hi: int): seq<int>
    decreases hi - lo
  {
    if lo > hi then [] else [lo] + StartsBetween(dur, lo + dur.Seconds(), hi)
  }

  /** An aligned start is listed exactly when it lies in the range. */
  lemma {:induction false} StartsBetweenHas(dur: PartitionDuration, lo: int, hi: int, p: int)
    requires Aligned(dur, lo) && Aligned(dur, p)
    ensures p in StartsBetween(dur, lo, hi) <==> lo <= p <= hi
    decreases hi - lo
  {
    if lo <= hi {
      AlignedNext(dur, lo);
      StartsBetweenHas(dur, lo + dur.Seconds(), hi, p);
      if lo < p {
        AlignedGap(dur, lo, p);
      }
    }
  }

  lemma {:induction false} StartsBetweenAt(dur: PartitionDuration, lo: int, hi: int, j: nat)
    requires j < |StartsBetween(dur, lo, hi)| && Aligned(dur, lo)
    ensures Aligned(dur, StartsBetween(dur, lo, hi)[j])
    ensures lo <= StartsBetween(dur, lo, hi)[j] <= hi
    ensures forall i | 0 <= i < j :: StartsBetween(dur, lo, hi)[i] < StartsBetween(dur, lo, hi)[j]
    decreases j
  {
    AlignedNext(dur, lo);
    if j > 0 {
      StartsBetweenAt(dur, lo + dur.Seconds(), hi, j - 1);
    }
  }

  function IdsOf(starts: seq<int>): (ids: seq<string>)
    ensures |ids| == |starts| && forall j :: 0 <= j < |ids| ==> ids[j] == FormatId(starts[j])
  {
    seq(|starts|, j requires 0 <= j < |starts| => FormatId(starts[j]))
  }

  /** One turn of the enumeration loops: read the id back, add the duration, format again. */
  method NextId(dur: PartitionDuration, id: string, ghost p: int) returns (next: string)
    requires IsStart(dur, p) && id == FormatId(p)
    ensures next == FormatId(p + dur.Seconds())
  {
    IdFaithful(p);
    AlignedNext(dur, p);
    StartOfUnique(dur, (p + dur.Seconds()) * NANOS, p + dur.Seconds());
    next := GetPartitionId(dur, (ParseInt(id).value + dur.Seconds()) * NANOS);
  }

  /** The loop of both partition enumerations: from one id, by one duration, up to another id. */
  method EnumerateIds(dur: PartitionDuration, first: string, last: string, ghost lo: int, ghost hi: int)
    returns (ids: seq<string>)
    requires IsStart(dur, lo) && IsStart(dur, hi) && hi + dur.Seconds() < MAX_ID
    requires first == FormatId(lo) && last == FormatId(hi)
    ensures ids == IdsOf(StartsBetween(dur, lo, hi))
  {
    hide FormatId;
    ids := [];
    var current := first;
    ghost var p, starts := lo, [];
    IdOrder(p, hi);
    while AtMost(current, last)
      invariant IsStart(dur, p) && lo <= p && (lo <= hi ==> p <= hi + dur.Seconds())
      invariant current == FormatId(p)
      invariant AtMost(current, last) <==> p <= hi
      invariant ids == IdsOf(starts) && starts + StartsBetween(dur, p, hi) == StartsBetween(dur, lo, hi)
      decreases hi - p
    {
      ghost var rest := StartsBetween(dur, p + dur.Seconds(), hi);
      assert starts + ([p] + rest) == starts + [p] + rest;
      ids, starts := ids + [current], starts + [p];
      current := NextId(dur, current, p);
      AlignedNext(dur, p);
      p := p + dur.Seconds();
      IdOrder(p, hi);
    }
  }
}
