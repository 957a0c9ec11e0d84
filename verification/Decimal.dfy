/** Decimal numerals: Go's `%d`, `%012d` and `strconv.ParseInt(s, 10, 64)`. */
module Decimal {
  import opened ByteStrings
  import opened Wrappers

  const MAX_INT64: int := 0x7fff_ffff_ffff_ffff
  const MIN_INT64: int := -0x8000_0000_0000_0000

  predicate IsDigit(c: char) {
    '0' <= c <= '9'
  }

  predicate Numeral(s: string) {
    forall i :: 0 <= i < |s| ==> IsDigit(s[i])
  }

  function DigitValue(c: char): nat
    requires IsDigit(c)
  {
    (c - '0') as nat
  }

  function DigitChar(d: nat): (c: char)
    requires d < 10
    ensures IsDigit(c) && DigitValue(c) == d
  {
    '0' + d as char
  }

  /** The number a numeral denotes, most significant digit first. */
  function NumeralValue(s: string): nat
    requires Numeral(s)
  {
    if s == "" then 0 else 10 * NumeralValue(s[..|s| - 1]) + DigitValue(s[|s| - 1])
  }

  /** `%d` of a number that is not negative. */
  function Digits(n: nat): (s: string)
    ensures s != "" && Numeral(s) && NumeralValue(s) == n
  {
    if n < 10 then
      [DigitChar(n)]
    else
      var s := Digits(n / 10) + [DigitChar(n % 10)];
      assert s[..|s| - 1] == Digits(n / 10);
      s
  }

  /** `%d` of any integer. */
  function FormatInt(n: int): string {
    if n < 0 then "-" + Digits(-n) else Digits(n)
  }

  function ZeroPad(s: string, width: nat): (r: string)
    requires Numeral(s)
    ensures Numeral(r) && NumeralValue(r) == NumeralValue(s)
    ensures |r| == if |s| < width then width else |s|
    decreases width - |s|
  {
    if |s| >= width then
      s
    else
      ZeroPadValue(s);
      ZeroPad("0" + s, width)
  }

  lemma {:induction false} ZeroPadValue(s: string)
    requires Numeral(s)
    ensures Numeral("0" + s) && NumeralValue("0" + s) == NumeralValue(s)
  {
    var z := "0" + s;
    assert Numeral(z);
    if s == "" {
      assert z[..0] == "";
    } else {
      ZeroPadValue(s[..|s| - 1]);
      assert z[..|z| - 1] == "0" + s[..|s| - 1];
    }
  }

  /** `strconv.ParseInt(s, 10, 64)`: an optional sign, then digits, in the range of int64. */
  function ParseInt(s: string): Option<int> {
    var digits := if s != "" && (s[0] == '+' || s[0] == '-') then s[1..] else s;
    if digits == "" || !Numeral(digits) then None
    else
      var magnitude: int := NumeralValue(digits);
      var n := if s[0] == '-' then -magnitude else magnitude;
      if MIN_INT64 <= n <= MAX_INT64 then Some(n) else None
  }

  /** The string is a numeral for the number, which may have a sign, even a plus. */
  predicate Denotes(s: string, digits: string, n: int) {
    && digits != "" && Numeral(digits)
    && (((s == digits || s == "+" + digits) && n == NumeralValue(digits)) || (s == "-" + digits && n == 0 - NumeralValue(digits)))
  }

  /** Exactly the numerals of int64 numbers parse. */
  lemma ParseIntIff(s: string, n: int)
    ensures ParseInt(s) == Some(n) <==> MIN_INT64 <= n <= MAX_INT64 && exists digits :: Denotes(s, digits, n)
  {
    if ParseInt(s) == Some(n) {
      var digits := if s[0] == '+' || s[0] == '-' then s[1..] else s;
      assert Denotes(s, digits, n);
    }
    if digits :| Denotes(s, digits, n) && MIN_INT64 <= n <= MAX_INT64 {
      assert IsDigit(digits[0]);
    }
  }

  lemma ParseNumeral(s: string)
    requires s != "" && Numeral(s) && NumeralValue(s) <= MAX_INT64
    ensures ParseInt(s) == Some(NumeralValue(s))
  {
    assert IsDigit(s[0]);
  }

  lemma ParseFormatInt(n: int)
    requires MIN_INT64 <= n <= MAX_INT64
    ensures ParseInt(FormatInt(n)) == Some(n)
  {
    if n < 0 {
      assert FormatInt(n)[1..] == Digits(-n);
    } else {
      ParseNumeral(Digits(n));
    }
  }

  lemma {:induction false} LessSnoc(a: string, x: char, b: string, y: char)
    requires |a| == |b|
    ensures Less(a + [x], b + [y]) <==> Less(a, b) || (a == b && x < y)
  {
    if a == "" {
    } else {
      assert (a + [x])[1..] == a[1..] + [x] && (b + [y])[1..] == b[1..] + [y];
      LessSnoc(a[1..], x, b[1..], y);
      assert a == [a[0]] + a[1..] && b == [b[0]] + b[1..];
    }
  }

  /** Numerals of equal length compare as strings the way their values compare as numbers. */
  lemma {:induction false} NumeralOrder(a: string, b: string)
    requires |a| == |b| && Numeral(a) && Numeral(b)
    ensures Less(a, b) <==> NumeralValue(a) < NumeralValue(b)
    ensures a == b <==> NumeralValue(a) == NumeralValue(b)
  {
    if a != "" {
      var a', b' := a[..|a| - 1], b[..|b| - 1];
      var x, y := a[|a| - 1], b[|b| - 1];
      NumeralOrder(a', b');
      assert a == a' + [x] && b == b' + [y];
      LessSnoc(a', x, b', y);
      assert DigitValue(x) < DigitValue(y) <==> x < y;
      assert DigitValue(x) == DigitValue(y) <==> x == y;
    }
  }

  function Pow10(k: nat): (p: nat)
    ensures p >= 1
  {
    if k == 0 then 1 else 10 * Pow10(k - 1)
  }

  lemma {:induction false} DigitsLength(n: nat, k: nat)
    requires 1 <= k && n < Pow10(k)
    ensures |Digits(n)| <= k
  {
    if n >= 10 {
      assert k > 1;
      DigitsLength(n / 10, k - 1);
    }
  }

  lemma NumeralAsciiSlashFree(s: string)
    requires Numeral(s)
    ensures Ascii(s) && SlashFree(s)
  {
    forall i | 0 <= i < |s| ensures s[i] != '/' && s[i] < '\U{80}' {
      assert IsDigit(s[i]);
    }
  }
}
