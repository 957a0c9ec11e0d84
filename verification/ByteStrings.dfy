/** Byte strings in the order in which Go and the key/value store compare them.
    One `char` stands for one byte. */
module ByteStrings {

  /** Go's `string(rune(255))`: the two bytes of its UTF-8 form (section 3 of RFC 3629). */
  const SENTINEL: string := "\U{C3}\U{BF}"

  predicate Less(a: string, b: string) {
    && b != ""
    && (a == "" || a[0] < b[0] || (a[0] == b[0] && Less(a[1..], b[1..])))
  }

  predicate AtMost(a: string, b: string) {
    a == b || Less(a, b)
  }

  predicate Ascii(s: string) {
    forall i :: 0 <= i < |s| ==> s[i] < '\U{80}'
  }

  predicate SlashFree(s: string) {
    '/' !in s
  }

  lemma {:induction false} LessIrreflexive(a: string)
    ensures !Less(a, a)
  {
    if a != "" {
      LessIrreflexive(a[1..]);
    }
  }

  lemma {:induction false} LessTransitive(a: string, b: string, c: string)
    requires Less(a, b) && Less(b, c)
    ensures Less(a, c)
  {
    if a != "" && a[0] == b[0] && b[0] == c[0] {
      LessTransitive(a[1..], b[1..], c[1..]);
    }
  }

  lemma {:induction false} LessTotal(a: string, b: string)
    ensures Less(a, b) || a == b || Less(b, a)
  {
    if a != "" && b != "" && a[0] == b[0] {
      LessTotal(a[1..], b[1..]);
      assert a == [a[0]] + a[1..] && b == [b[0]] + b[1..];
    }
  }

  lemma LessAsymmetric(a: string, b: string)
    requires Less(a, b)
    ensures !AtMost(b, a)
  {
    LessIrreflexive(a);
    if Less(b, a) {
      LessTransitive(a, b, a);
    }
  }

  lemma LessAtMost(a: string, b: string, c: string)
    requires Less(a, b) && AtMost(b, c)
    ensures Less(a, c)
  {
    if b != c {
      LessTransitive(a, b, c);
    }
  }

  /** A common prefix does not influence the order. */
  lemma {:induction false} LessCancel(p: string, a: string, b: string)
    ensures Less(p + a, p + b) <==> Less(a, b)
  {
    if p == "" {
      assert p + a == a && p + b == b;
    } else {
      assert (p + a)[1..] == p[1..] + a && (p + b)[1..] == p[1..] + b;
      LessCancel(p[1..], a, b);
    }
  }

  /** Between strings of equal length, the first difference decides whatever follows. */
  lemma {:induction false} LessExtend(a: string, x: string, b: string, y: string)
    requires |a| == |b| && Less(a, b)
    ensures Less(a + x, b + y)
  {
    if a[0] == b[0] {
      assert (a + x)[1..] == a[1..] + x && (b + y)[1..] == b[1..] + y;
      LessExtend(a[1..], x, b[1..], y);
    }
  }

  lemma LessProperExtension(a: string, x: string)
    requires x != ""
    ensures Less(a, a + x)
  {
    LessCancel(a, "", x);
    assert a + "" == a;
  }

  lemma PrefixAtMost(p: string, s: string)
    requires p <= s
    ensures AtMost(p, s)
  {
    if p != s {
      LessProperExtension(p, s[|p|..]);
      assert s == p + s[|p|..];
    }
  }

  /** The strings with prefix `p` are an interval of the order. */
  lemma {:induction false} PrefixInterval(p: string, a: string, x: string, b: string)
    requires p <= a && p <= b && AtMost(a, x) && AtMost(x, b)
    ensures p <= x
  {
    if p != "" {
      assert x != "";
      if a != x && x != b {
        assert a[0] == p[0] == b[0];
        assert x[0] == p[0];
      }
      PrefixInterval(p[1..], a[1..], x[1..], b[1..]);
      assert p == [p[0]] + p[1..] && x == [x[0]] + x[1..];
    }
  }

  /** A slash ends a slash-free field: prefixes of slash-joined strings agree field by field. */
  lemma {:induction false} FieldPrefix(a: string, x: string, b: string, y: string)
    requires SlashFree(a) && SlashFree(b)
    ensures a + "/" + x <= b + "/" + y <==> a == b && x <= y
  {
    var p, s := a + "/" + x, b + "/" + y;
    if a == "" || b == "" || a[0] != b[0] {
      assert p[0] == if a == "" then '/' else a[0];
      assert s[0] == if b == "" then '/' else b[0];
      if a == b {
        assert p[1..] == x && s[1..] == y && p == "/" + x && s == "/" + y;
        PrefixCons('/', x, y);
      }
    } else {
      FieldPrefix(a[1..], x, b[1..], y);
      assert p == [a[0]] + (a[1..] + "/" + x) && s == [b[0]] + (b[1..] + "/" + y);
      assert a == [a[0]] + a[1..] && b == [b[0]] + b[1..];
      PrefixCons(a[0], a[1..] + "/" + x, b[1..] + "/" + y);
    }
  }

  lemma PrefixCons(c: char, x: string, y: string)
    ensures [c] + x <= [c] + y <==> x <= y
  {
    var p, s := [c] + x, [c] + y;
    assert x == p[1..] && y == s[1..];
    if p <= s {
      assert x == p[1..] == s[..|p|][1..] == y[..|x|];
    }
  }
}
