/** Unicode encodings of strings of scalar values: UTF-16 units as section 2.1 of RFC 2781 gives them
    and UTF-8 bytes. Both encodings lose nothing. */
module Utf {
  import opened Ordering

  /** UTF-16 units of one character; characters above U+FFFF take a surrogate pair. */
  function CharUnits(c: char): (u: seq<int>)
    ensures 1 <= |u| <= 2
  {
    var n := c as int;
    if n < 0x10000 then [n] else [0xd800 + (n - 0x10000) / 0x400, 0xdc00 + (n - 0x10000) % 0x400]
  }

  /** `utf16.Encode([]rune(s))`. */
  function Units(s: string): seq<int> {
    if s == "" then [] else CharUnits(s[0]) + Units(s[1..])
  }

  /** UTF-8 bytes of one character. */
  function CharBytes(c: char): (b: seq<int>)
    ensures 1 <= |b| <= 4
  {
    var n := c as int;
    if n < 0x80 then [n]
    else if n < 0x800 then [0xc0 + n / 0x40, 0x80 + n % 0x40]
    else if n < 0x10000 then [0xe0 + n / 0x1000, 0x80 + n / 0x40 % 0x40, 0x80 + n % 0x40]
    else [0xf0 + n / 0x40000, 0x80 + n / 0x1000 % 0x40, 0x80 + n / 0x40 % 0x40, 0x80 + n % 0x40]
  }

  function Bytes(s: string): seq<int> {
    if s == "" then [] else CharBytes(s[0]) + Bytes(s[1..])
  }

  /** A character above U+FFFF is a high surrogate and a low one that give it back; any other is itself. */
  lemma UnitsOfChar(c: char)
    ensures var n, u := c as int, CharUnits(c);
      if n < 0x10000 then u == [n]
      else |u| == 2 && 0xd800 <= u[0] < 0xdc00 && 0xdc00 <= u[1] < 0xe000 &&
           n == 0x10000 + (u[0] - 0xd800) * 0x400 + (u[1] - 0xdc00)
  {
  }

  /** The first unit tells a single unit from a surrogate pair, so one character can be read back. */
  lemma CharUnitsPrefix(a: char, b: char, x: seq<int>, y: seq<int>)
    requires CharUnits(a) + x == CharUnits(b) + y
    ensures a == b && x == y
  {
    var l, r := CharUnits(a) + x, CharUnits(b) + y;
    assert l[0] == CharUnits(a)[0] && r[0] == CharUnits(b)[0];
    assert |CharUnits(a)| == |CharUnits(b)|;
    if |CharUnits(a)| == 2 {
      assert l[1] == CharUnits(a)[1] && r[1] == CharUnits(b)[1];
    }
    assert l[|CharUnits(a)|..] == x && r[|CharUnits(b)|..] == y;
  }

  lemma {:induction false} UnitsInjective(a: string, b: string)
    requires Units(a) == Units(b)
    ensures a == b
  {
    if a == "" || b == "" {
    } else {
      CharUnitsPrefix(a[0], b[0], Units(a[1..]), Units(b[1..]));
      UnitsInjective(a[1..], b[1..]);
      assert a == [a[0]] + a[1..] && b == [b[0]] + b[1..];
    }
  }

  lemma CharBytesPrefix(a: char, b: char, x: seq<int>, y: seq<int>)
    requires CharBytes(a) + x == CharBytes(b) + y
    ensures a == b && x == y
  {
    var l, r := CharBytes(a) + x, CharBytes(b) + y;
    var m, n := CharBytes(a), CharBytes(b);
    assert l[0] == m[0] && r[0] == n[0];
    FirstByte(a);
    FirstByte(b);
    assert |m| == |n|;
    forall i | 0 <= i < |m| ensures m[i] == n[i] { assert l[i] == m[i] && r[i] == n[i]; }
    assert m == n;
    CharOfBytes(a);
    CharOfBytes(b);
    assert l[|m|..] == x && r[|n|..] == y;
  }

  /** The first byte announces the length. */
  lemma FirstByte(c: char)
    ensures var b := CharBytes(c);
            |b| == if b[0] < 0x80 then 1 else if b[0] < 0xe0 then 2 else if b[0] < 0xf0 then 3 else 4
  {
  }

  /** Base-64 digits of a code point. */
  lemma Base64Digits(n: int)
    requires 0 <= n
    ensures n == n / 0x40 * 0x40 + n % 0x40
    ensures n / 0x40 == n / 0x1000 * 0x40 + n / 0x40 % 0x40
    ensures n / 0x1000 == n / 0x40000 * 0x40 + n / 0x1000 % 0x40
  {
  }

  /** Code point of one encoded character. */
  function CodeOf(b: seq<int>): int
    requires 1 <= |b| <= 4
  {
    match |b|
    case 1 => b[0]
    case 2 => (b[0] - 0xc0) * 0x40 + (b[1] - 0x80)
    case 3 => (b[0] - 0xe0) * 0x1000 + (b[1] - 0x80) * 0x40 + (b[2] - 0x80)
    case _ => (b[0] - 0xf0) * 0x40000 + (b[1] - 0x80) * 0x1000 + (b[2] - 0x80) * 0x40 + (b[3] - 0x80)
  }

  /** The character can be computed from its bytes. */
  lemma CharOfBytes(c: char)
    ensures CodeOf(CharBytes(c)) == c as int
  {
    Base64Digits(c as int);
  }

  /** The bytes of a character are the shortest of their form, and all but the first are continuations. */
  lemma BytesOfChar(c: char)
    ensures var n, b := c as int, CharBytes(c);
      CodeOf(b) == n && |b| == (if n < 0x80 then 1 else if n < 0x800 then 2 else if n < 0x10000 then 3 else 4) &&
      (forall i :: 1 <= i < |b| ==> 0x80 <= b[i] < 0xc0) &&
      match |b| case 1 => b[0] < 0x80 case 2 => 0xc0 <= b[0] < 0xe0 case 3 => 0xe0 <= b[0] < 0xf0 case _ => 0xf0 <= b[0] < 0xf8
  {
    CharOfBytes(c);
    FirstByte(c);
  }

  lemma {:induction false} BytesInjective(a: string, b: string)
    requires Bytes(a) == Bytes(b)
    ensures a == b
  {
    if a == "" || b == "" {
    } else {
      CharBytesPrefix(a[0], b[0], Bytes(a[1..]), Bytes(b[1..]));
      BytesInjective(a[1..], b[1..]);
      assert a == [a[0]] + a[1..] && b == [b[0]] + b[1..];
    }
  }

  /** The order of `utf16Less` on strings. */
  predicate Utf16Less(a: string, b: string) { LexLess(Units(a), Units(b)) }

  /** It is a strict total order: irreflexive, transitive, and any two different strings compare. */
  lemma Utf16TotalOrder(a: string, b: string, c: string)
    ensures !Utf16Less(a, a)
    ensures Utf16Less(a, b) && Utf16Less(b, c) ==> Utf16Less(a, c)
    ensures a != b ==> (Utf16Less(a, b) <==> !Utf16Less(b, a))
  {
    LexIrreflexive(Units(a));
    if Utf16Less(a, b) && Utf16Less(b, c) { LexTransitive(Units(a), Units(b), Units(c)); }
    if a != b {
      if Units(a) == Units(b) { UnitsInjective(a, b); }
      LexTotal(Units(a), Units(b));
      if Utf16Less(a, b) { LexAsymmetric(Units(a), Units(b)); }
    }
  }

  lemma UnitsInjectiveOn(s: set<string>)
    ensures InjectiveOn(s, Units)
  {
    forall x, y | x in s && y in s && Units(x) == Units(y) ensures x == y { UnitsInjective(x, y); }
  }

  /** `utf16Less`: the loop over the common length. */
  method CompareUtf16(left: string, right: string) returns (less: bool)
    ensures less == Utf16Less(left, right)
  {
    hide LexLess;
    var l, r := Units(left), Units(right);
    var limit := |l|;
    if |r| < limit { limit := |r|; }
    hide Units;
    for i := 0 to limit
      invariant forall j :: 0 <= j < i ==> l[j] == r[j]
    {
      if l[i] != r[i] {
        FirstDifference(l, r, i);
        return l[i] < r[i];
      }
    }
    PrefixLess(l, r, limit);
    return |l| < |r|;
  }

  lemma {:induction false} FirstDifference(l: seq<int>, r: seq<int>, i: nat)
    requires i < |l| && i < |r| && l[i] != r[i]
    requires forall j :: 0 <= j < i ==> l[j] == r[j]
    ensures LexLess(l, r) == (l[i] < r[i])
  {
    if i > 0 {
      FirstDifference(l[1..], r[1..], i - 1);
    }
  }

  lemma {:induction false} PrefixLess(l: seq<int>, r: seq<int>, limit: nat)
    requires limit <= |l| && limit <= |r| && (limit == |l| || limit == |r|)
    requires forall j :: 0 <= j < limit ==> l[j] == r[j]
    ensures LexLess(l, r) == (|l| < |r|)
  {
    if limit > 0 {
      PrefixLess(l[1..], r[1..], limit - 1);
    }
  }
}
