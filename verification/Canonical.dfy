/** Canonical JSON of internal/canonical/canonical.go: strings as section 3.2.2.2 of RFC 8785, object
    keys sorted as its section 3.2.3, integers only. `Print` is what `writeValue` writes; `Parse` is the
    matching reader. */
module Canonical {
  import opened Ordering
  import opened Text
  import opened Utf

  /** The values `json.Decoder` with `UseNumber` produces; a number keeps its text. */
  datatype Value =
    | Null
    | Bool(b: bool)
    | Number(text: string)
    | Str(s: string)
    | Arr(items: seq<Value>)
    | Obj(members: map<string, Value>)

  // ----- integers -----

  /** What `isCanonicalInteger` accepts. */
  predicate CanonicalInteger(s: string) {
    s == "0" || PositiveDigits(s) || (s != "" && s[0] == '-' && PositiveDigits(s[1..]))
  }

  predicate PositiveDigits(s: string) {
    s != "" && s[0] != '0' && forall i :: 0 <= i < |s| ==> IsDigit(s[i])
  }

  function IntegerValue(s: string): int
    requires CanonicalInteger(s)
  {
    if s[0] == '-' then 0 - DigitsValue(s[1..]) else DigitsValue(s)
  }

  /** The accepted texts are exactly the decimal printings of the integers. */
  lemma CanonicalIntegerIsDecimal(s: string, n: int)
    ensures CanonicalInteger(Decimal(n)) && IntegerValue(Decimal(n)) == n
    ensures CanonicalInteger(s) ==> Decimal(IntegerValue(s)) == s
  {
    var m: nat := if n < 0 then -n else n;
    DigitsRoundTrip(m);
    if n < 0 {
      assert Decimal(n)[1..] == Digits(m);
    } else if n > 0 {
      assert Digits(m)[0] != '-' by { assert IsDigit(Digits(m)[0]); }
    }
    if CanonicalInteger(s) {
      if s == "0" {
        assert DigitsValue("0") == 0 by { assert "0"[..0] == ""; }
      } else if s[0] == '-' {
        DigitsOfValue(s[1..]);
        assert s == "-" + s[1..];
      } else {
        DigitsOfValue(s);
      }
    }
  }

  // ----- printing -----

  const QUOTE := '"'
  const BACKSLASH := '\\'
  const BACKSPACE := 8 as char
  const FORMFEED := 12 as char

  function HexDigit(d: int): char
    requires 0 <= d < 16
  {
    "0123456789abcdef"[d]
  }

  /** How `writeString` writes one character. */
  function Escape(c: char): (r: string)
    ensures r != ""
  {
    if c == QUOTE || c == BACKSLASH then [BACKSLASH, c]
    else if c == BACKSPACE then [BACKSLASH, 'b']
    else if c == '\t' then [BACKSLASH, 't']
    else if c == '\n' then [BACKSLASH, 'n']
    else if c == FORMFEED then [BACKSLASH, 'f']
    else if c == '\r' then [BACKSLASH, 'r']
    else if c as int < 0x20 then [BACKSLASH, 'u', '0', '0', HexDigit(c as int / 16), HexDigit(c as int % 16)]
    else [c]
  }

  function EscapeAll(s: string): string {
    if s == "" then "" else Escape(s[0]) + EscapeAll(s[1..])
  }

  function PrintString(s: string): string { [QUOTE] + EscapeAll(s) + [QUOTE] }

  /** Keys of an object in the order they are written. */
  ghost function SortedKeys(m: map<string, Value>): (keys: seq<string>)
    ensures IsSortedListing(keys, m.Keys, Units)
  {
    UnitsInjectiveOn(m.Keys);
    Listing(m.Keys, Units)
  }

  ghost function Print(v: Value): string
    decreases v, 1, 0
  {
    match v
    case Null => "null"
    case Bool(b) => if b then "true" else "false"
    case Number(text) => text
    case Str(s) => PrintString(s)
    case Arr(items) => "[" + PrintItems(items)
    case Obj(m) => "{" + PrintMembers(v, m, SortedKeys(m))
  }

  ghost function PrintItems(items: seq<Value>): string
    decreases items, 0, 0
  {
    if items == [] then "]" else Print(items[0]) + PrintItemsTail(items[1..])
  }

  ghost function PrintItemsTail(items: seq<Value>): string
    decreases items, 0, 0
  {
    if items == [] then "]" else "," + Print(items[0]) + PrintItemsTail(items[1..])
  }

  ghost function PrintMember(v: Value, m: map<string, Value>, key: string): string
    requires v == Obj(m) && key in m
    decreases v, 0, 0
  {
    PrintString(key) + ":" + Print(m[key])
  }

  ghost function PrintMembers(v: Value, m: map<string, Value>, keys: seq<string>): string
    requires v == Obj(m) && forall k :: k in keys ==> k in m
    decreases v, 0, |keys| + 1
  {
    if keys == [] then "}" else PrintMember(v, m, keys[0]) + PrintMembersTail(v, m, keys[1..])
  }

  ghost function PrintMembersTail(v: Value, m: map<string, Value>, keys: seq<string>): string
    requires v == Obj(m) && forall k :: k in keys ==> k in m
    decreases v, 0, |keys| + 1
  {
    if keys == [] then "}" else "," + PrintMember(v, m, keys[0]) + PrintMembersTail(v, m, keys[1..])
  }

  /** Values `writeValue` does not refuse: every number is an integer in canonical form. */
  ghost predicate Printable(v: Value) {
    match v
    case Number(text) => CanonicalInteger(text)
    case Arr(items) => forall i :: 0 <= i < |items| ==> Printable(items[i])
    case Obj(m) => forall k :: k in m ==> Printable(m[k])
    case _ => true
  }
}
