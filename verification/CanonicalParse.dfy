/** A reader for canonical JSON and the proof that printing loses nothing. */
module CanonicalParse {
  import opened Ordering
  import opened Text
  import opened Canonical

  // ----- the reader -----

  function HexValue(c: char): Option<int> {
    if '0' <= c <= '9' then Some(c as int - '0' as int)
    else if 'a' <= c <= 'f' then Some(c as int - 'a' as int + 10)
    else None
  }

  /** One character, escaped or plain, and what follows it. */
  function ParseChar(s: string): (r: Option<(char, string)>)
    ensures r.Some? ==> |r.value.1| < |s|
  {
    if s == "" then None
    else if s[0] == BACKSLASH then
      if |s| < 2 then None
      else if s[1] == QUOTE || s[1] == BACKSLASH then Some((s[1], s[2..]))
      else if s[1] == 'b' then Some((BACKSPACE, s[2..]))
      else if s[1] == 't' then Some(('\t', s[2..]))
      else if s[1] == 'n' then Some(('\n', s[2..]))
      else if s[1] == 'f' then Some((FORMFEED, s[2..]))
      else if s[1] == 'r' then Some(('\r', s[2..]))
      else if s[1] == 'u' && |s| >= 6 && s[2] == '0' && s[3] == '0' && HexValue(s[4]).Some? && HexValue(s[5]).Some? then
        Some(((HexValue(s[4]).value * 16 + HexValue(s[5]).value) as char, s[6..]))
      else None
    else if s[0] == QUOTE || s[0] as int < 0x20 then None
    else Some((s[0], s[1..]))
  }

  /** Characters up to the closing quote. */
  function ParseChars(s: string): (r: Option<(string, string)>)
    ensures r.Some? ==> |r.value.1| < |s|
    decreases |s|
  {
    if s == "" then None
    else if s[0] == QUOTE then Some(("", s[1..]))
    else match ParseChar(s)
      case None => None
      case Some((c, rest)) =>
        match ParseChars(rest)
        case None => None
        case Some((t, after)) => Some(([c] + t, after))
  }

  function DigitRun(s: string): (n: nat)
    ensures n <= |s|
  {
    if s == "" || !IsDigit(s[0]) then 0 else 1 + DigitRun(s[1..])
  }

  function ParseNumber(s: string): (r: Option<(Value, string)>)
    ensures r.Some? ==> |r.value.1| < |s|
  {
    if s == "" then None
    else
      var sign := if s[0] == '-' then 1 else 0;
      var end := sign + DigitRun(s[sign..]);
      if CanonicalInteger(s[..end]) then Some((Number(s[..end]), s[end..])) else None
  }

  function ParseValue(s: string): (r: Option<(Value, string)>)
    ensures r.Some? ==> |r.value.1| < |s|
    decreases |s|, 0
  {
    if s == "" then None
    else if s[0] == 'n' then if HasPrefix(s, "null") then Some((Null, s[4..])) else None
    else if s[0] == 't' then if HasPrefix(s, "true") then Some((Bool(true), s[4..])) else None
    else if s[0] == 'f' then if HasPrefix(s, "false") then Some((Bool(false), s[5..])) else None
    else if s[0] == QUOTE then
      match ParseChars(s[1..])
      case None => None
      case Some((t, rest)) => Some((Str(t), rest))
    else if s[0] == '[' then
      match ParseItems(s[1..])
      case None => None
      case Some((items, rest)) => Some((Arr(items), rest))
    else if s[0] == '{' then
      match ParseMembers(s[1..])
      case None => None
      case Some((m, rest)) => Some((Obj(m), rest))
    else ParseNumber(s)
  }

  function ParseItems(s: string): (r: Option<(seq<Value>, string)>)
    ensures r.Some? ==> |r.value.1| < |s|
    decreases |s|, 1
  {
    if s == "" then None
    else if s[0] == ']' then Some(([], s[1..]))
    else match ParseValue(s)
      case None => None
      case Some((x, rest)) =>
        match ParseItemsTail(rest)
        case None => None
        case Some((xs, after)) => Some(([x] + xs, after))
  }

  function ParseItemsTail(s: string): (r: Option<(seq<Value>, string)>)
    ensures r.Some? ==> |r.value.1| < |s|
    decreases |s|, 1
  {
    if s == "" then None
    else if s[0] == ']' then Some(([], s[1..]))
    else if s[0] != ',' then None
    else match ParseValue(s[1..])
      case None => None
      case Some((x, rest)) =>
        match ParseItemsTail(rest)
        case None => None
        case Some((xs, after)) => Some(([x] + xs, after))
  }

  function ParseMember(s: string): (r: Option<(string, Value, string)>)
    ensures r.Some? ==> |r.value.2| < |s|
    decreases |s|, 1
  {
    if s == "" || s[0] != QUOTE then None
    else match ParseChars(s[1..])
      case None => None
      case Some((key, rest)) =>
        if rest == "" || rest[0] != ':' then None
        else match ParseValue(rest[1..])
          case None => None
          case Some((x, after)) => Some((key, x, after))
  }

  function ParseMembers(s: string): (r: Option<(map<string, Value>, string)>)
    ensures r.Some? ==> |r.value.1| < |s|
    decreases |s|, 2
  {
    if s == "" then None
    else if s[0] == '}' then Some((map[], s[1..]))
    else match ParseMember(s)
      case None => None
      case Some((key, x, rest)) =>
        match ParseMembersTail(rest)
        case None => None
        case Some((m, after)) => Some((m[key := x], after))
  }

  function ParseMembersTail(s: string): (r: Option<(map<string, Value>, string)>)
    ensures r.Some? ==> |r.value.1| < |s|
    decreases |s|, 2
  {
    if s == "" then None
    else if s[0] == '}' then Some((map[], s[1..]))
    else if s[0] != ',' then None
    else match ParseMember(s[1..])
      case None => None
      case Some((key, x, rest)) =>
        match ParseMembersTail(rest)
        case None => None
        case Some((m, after)) => Some((m[key := x], after))
  }

  // ----- strings -----

  lemma HexRoundTrip(d: int)
    requires 0 <= d < 16
    ensures HexValue(HexDigit(d)) == Some(d)
  {
  }

  lemma ParseEscape(c: char, rest: string)
    ensures ParseChar(Escape(c) + rest) == Some((c, rest))
    ensures Escape(c)[0] != QUOTE
  {
    var s := Escape(c) + rest;
    if |Escape(c)| == 6 {
      HexRoundTrip(c as int / 16);
      HexRoundTrip(c as int % 16);
      assert s[6..] == rest;
    } else if |Escape(c)| == 2 {
      assert s[2..] == rest;
    } else {
      assert s[1..] == rest;
    }
  }

  /** What is written for a character is the one shortest text that reads as the character: the two-character
      escapes are used where there are any, and nothing is escaped that need not be. */
  lemma EscapeIsShortest(c: char, t: string, rest: string)
    requires ParseChar(t + rest) == Some((c, rest))
    ensures |Escape(c)| <= |t| && (|t| == |Escape(c)| ==> t == Escape(c))
  {
    var s := t + rest;
    assert s != "" && |s| == |t| + |rest|;
    if s[0] != BACKSLASH {
      assert |t| == 1 && t == [s[0]];
    } else if s[1] != 'u' {
      assert |t| == 2 && t[0] == s[0] && t[1] == s[1] && t == [t[0], t[1]];
    } else {
      assert |t| == 6 && t == [t[0], t[1], t[2], t[3], t[4], t[5]];
      HexOfValue(s[4]);
      HexOfValue(s[5]);
      assert t[4] == s[4] && t[5] == s[5];
      var h, l := HexValue(s[4]).value, HexValue(s[5]).value;
      assert (h * 16 + l) / 16 == h && (h * 16 + l) % 16 == l;
    }
  }

  lemma HexOfValue(c: char)
    requires HexValue(c).Some?
    ensures 0 <= HexValue(c).value < 16 && HexDigit(HexValue(c).value) == c
  {
    var digits := "0123456789abcdef";
    assert digits[HexValue(c).value] == c by {
      assert digits[0] == '0' && digits[1] == '1' && digits[2] == '2' && digits[3] == '3' && digits[4] == '4' && digits[5] == '5';
      assert digits[6] == '6' && digits[7] == '7' && digits[8] == '8' && digits[9] == '9' && digits[10] == 'a' && digits[11] == 'b';
      assert digits[12] == 'c' && digits[13] == 'd' && digits[14] == 'e' && digits[15] == 'f';
    }
  }

  /** The table of section 3.2.2.2 of RFC 8785. */
  lemma EscapeTable(c: char)
    ensures |Escape(c)| == 6 <==> (c as int) < 0x20 && c as int !in {8, 9, 10, 12, 13}
    ensures |Escape(c)| == 2 <==> c == '"' || c == '\\' || c as int in {8, 9, 10, 12, 13}
    ensures Escape(8 as char) == "\\b" && Escape('\t') == "\\t" && Escape('\n') == "\\n" && Escape(12 as char) == "\\f" && Escape('\r') == "\\r"
    ensures |Escape(c)| == 6 ==> Escape(c)[..4] == "\\u00"
    ensures |Escape(c)| == 1 ==> Escape(c) == [c]
  {
  }

  lemma {:induction false} ParseEscaped(value: string, rest: string)
    ensures ParseChars(EscapeAll(value) + [QUOTE] + rest) == Some((value, rest))
  {
    var s := EscapeAll(value) + [QUOTE] + rest;
    if value == "" {
      assert s[1..] == rest;
    } else {
      var tail := EscapeAll(value[1..]) + [QUOTE] + rest;
      assert s == Escape(value[0]) + tail;
      ParseEscape(value[0], tail);
      ParseEscaped(value[1..], rest);
      assert value == [value[0]] + value[1..];
    }
  }

  lemma ParsePrintString(value: string, rest: string)
    ensures PrintString(value)[0] == QUOTE
    ensures ParseChars((PrintString(value) + rest)[1..]) == Some((value, rest))
  {
    assert (PrintString(value) + rest)[1..] == EscapeAll(value) + [QUOTE] + rest;
    ParseEscaped(value, rest);
  }

  // ----- numbers -----

  /** A number must not run into a following digit; every other value may be followed by anything. */
  predicate Terminated(v: Value, rest: string) {
    v.Number? ==> rest == "" || !IsDigit(rest[0])
  }

  lemma {:induction false} DigitRunAll(s: string, rest: string)
    requires forall i :: 0 <= i < |s| ==> IsDigit(s[i])
    requires rest == "" || !IsDigit(rest[0])
    ensures DigitRun(s + rest) == |s|
  {
    if s == "" {
      assert s + rest == rest;
    } else {
      assert (s + rest)[1..] == s[1..] + rest;
      DigitRunAll(s[1..], rest);
    }
  }

  lemma ParsePrintNumber(text: string, rest: string)
    requires CanonicalInteger(text) && (rest == "" || !IsDigit(rest[0]))
    ensures ParseNumber(text + rest) == Some((Number(text), rest))
  {
    var s := text + rest;
    var sign := if text[0] == '-' then 1 else 0;
    assert s[sign..] == text[sign..] + rest;
    DigitRunAll(text[sign..], rest);
    assert s[..|text|] == text && s[|text|..] == rest;
  }

  // ----- whole values -----

  /** A printed value starts with a character no closing bracket, comma or other kind starts with. */
  lemma PrintHead(v: Value)
    requires Printable(v)
    ensures Print(v) != "" && Print(v)[0] !in "]},:"
    ensures v.Number? ==> Print(v)[0] == '-' || IsDigit(Print(v)[0])
  {
  }

  lemma ParseKeyword(v: Value, rest: string)
    requires v.Null? || v.Bool?
    ensures ParseValue(Print(v) + rest) == Some((v, rest))
  {
    var s := Print(v) + rest;
    assert s[..|Print(v)|] == Print(v) && s[|Print(v)|..] == rest;
  }

  lemma ParseText(v: Value, rest: string)
    requires v.Str? || v.Number?
    requires Printable(v) && Terminated(v, rest)
    ensures ParseValue(Print(v) + rest) == Some((v, rest))
  {
    PrintHead(v);
    hide CanonicalInteger, ParseNumber, ParseChars, PrintString;
    if v.Str? { ParsePrintString(v.s, rest); } else { ParsePrintNumber(v.text, rest); }
  }

  /** Reading what `writeValue` wrote gives the value back and leaves what follows untouched. */
  lemma {:induction false} ParsePrint(v: Value, rest: string)
    requires Printable(v) && Terminated(v, rest)
    ensures ParseValue(Print(v) + rest) == Some((v, rest))
    decreases v, 1, 0
  {
    hide ParseValue, ParseItems, ParseMembers, Print, PrintItems, PrintMembers;
    if v.Null? || v.Bool? {
      ParseKeyword(v, rest);
    } else if v.Number? || v.Str? {
      ParseText(v, rest);
    } else if v.Arr? {
      AllPrintable(v);
      ParsePrintItems(v.items, rest);
      ParseArray(v, rest);
    } else {
      ParsePrintMembers(v, v.members, SortedKeys(v.members), rest);
      ParseObject(v, rest);
    }
  }

  lemma AllPrintable(v: Value)
    requires v.Arr? && Printable(v)
    ensures forall i :: 0 <= i < |v.items| ==> Printable(v.items[i])
  {
  }

  /** A value is read as an array after an opening bracket, as an object after an opening brace. */
  lemma ParseArray(v: Value, rest: string)
    requires v.Arr? && ParseItems(PrintItems(v.items) + rest) == Some((v.items, rest))
    ensures ParseValue(Print(v) + rest) == Some((v, rest))
  {
    hide PrintItems, ParseItems;
    var s := Print(v) + rest;
    assert s[0] == '[' && s[1..] == PrintItems(v.items) + rest;
  }

  lemma ParseObject(v: Value, rest: string)
    requires v.Obj?
    requires var keys := SortedKeys(v.members);
      ParseMembers(PrintMembers(v, v.members, keys) + rest) == Some((Sub(v.members, keys), rest))
    ensures ParseValue(Print(v) + rest) == Some((v, rest))
  {
    var keys := SortedKeys(v.members);
    MapOfAllKeys(v.members, keys);
    hide PrintMembers, ParseMembers, Sub, SortedKeys;
    var s := Print(v) + rest;
    assert s[0] == '{' && s[1..] == PrintMembers(v, v.members, keys) + rest;
  }

  lemma {:induction false} ParsePrintItems(items: seq<Value>, rest: string)
    requires forall i :: 0 <= i < |items| ==> Printable(items[i])
    ensures ParseItems(PrintItems(items) + rest) == Some((items, rest))
    decreases items, 0, 1
  {
    var s := PrintItems(items) + rest;
    if items == [] {
      assert s[1..] == rest;
    } else {
      var tail := PrintItemsTail(items[1..]) + rest;
      assert s == Print(items[0]) + tail;
      PrintHead(items[0]);
      ParsePrint(items[0], tail);
      ParsePrintItemsTail(items[1..], rest);
      assert items == [items[0]] + items[1..];
    }
  }

  lemma {:induction false} ParsePrintItemsTail(items: seq<Value>, rest: string)
    requires forall i :: 0 <= i < |items| ==> Printable(items[i])
    ensures ParseItemsTail(PrintItemsTail(items) + rest) == Some((items, rest))
    decreases items, 0, 0
  {
    var s := PrintItemsTail(items) + rest;
    if items == [] {
      assert s[1..] == rest;
    } else {
      var tail := PrintItemsTail(items[1..]) + rest;
      assert s[1..] == Print(items[0]) + tail;
      ParsePrint(items[0], tail);
      ParsePrintItemsTail(items[1..], rest);
      assert items == [items[0]] + items[1..];
    }
  }

  /** The sub-map of the given keys. */
  ghost function Sub(m: map<string, Value>, keys: seq<string>): map<string, Value>
    requires forall k :: k in keys ==> k in m
  {
    if keys == [] then map[] else Sub(m, keys[1..])[keys[0] := m[keys[0]]]
  }

  lemma {:induction false} SubLookup(m: map<string, Value>, keys: seq<string>)
    requires forall k :: k in keys ==> k in m
    ensures forall k :: k in Sub(m, keys) <==> k in keys
    ensures forall k :: k in keys ==> Sub(m, keys)[k] == m[k]
  {
    if keys != [] {
      SubLookup(m, keys[1..]);
      assert keys == [keys[0]] + keys[1..];
    }
  }

  lemma MapOfAllKeys(m: map<string, Value>, keys: seq<string>)
    requires forall k :: k in keys <==> k in m
    ensures Sub(m, keys) == m
  {
    SubLookup(m, keys);
  }

  lemma {:induction false} ParsePrintMember(v: Value, m: map<string, Value>, key: string, rest: string)
    requires v == Obj(m) && Printable(v) && key in m
    requires rest != "" && !IsDigit(rest[0])
    ensures ParseMember(PrintMember(v, m, key) + rest) == Some((key, m[key], rest))
    decreases v, 0, 0
  {
    var s := PrintMember(v, m, key) + rest;
    var tail := ":" + Print(m[key]) + rest;
    assert s == PrintString(key) + tail;
    ParsePrintString(key, tail);
    assert tail[1..] == Print(m[key]) + rest;
    ParsePrint(m[key], rest);
  }

  lemma {:induction false} ParsePrintMembers(v: Value, m: map<string, Value>, keys: seq<string>, rest: string)
    requires v == Obj(m) && Printable(v) && forall k :: k in keys ==> k in m
    ensures ParseMembers(PrintMembers(v, m, keys) + rest) == Some((Sub(m, keys), rest))
    decreases v, 0, |keys| + 2
  {
    var s := PrintMembers(v, m, keys) + rest;
    if keys == [] {
      assert s[1..] == rest;
    } else {
      var tail := PrintMembersTail(v, m, keys[1..]) + rest;
      assert s == PrintMember(v, m, keys[0]) + tail;
      ParsePrintMember(v, m, keys[0], tail);
      ParsePrintMembersTail(v, m, keys[1..], rest);
    }
  }

  lemma {:induction false} ParsePrintMembersTail(v: Value, m: map<string, Value>, keys: seq<string>, rest: string)
    requires v == Obj(m) && Printable(v) && forall k :: k in keys ==> k in m
    ensures ParseMembersTail(PrintMembersTail(v, m, keys) + rest) == Some((Sub(m, keys), rest))
    decreases v, 0, |keys| + 1
  {
    var s := PrintMembersTail(v, m, keys) + rest;
    if keys == [] {
      assert s[1..] == rest;
    } else {
      var tail := PrintMembersTail(v, m, keys[1..]) + rest;
      assert s[1..] == PrintMember(v, m, keys[0]) + tail;
      ParsePrintMember(v, m, keys[0], tail);
      ParsePrintMembersTail(v, m, keys[1..], rest);
    }
  }

  /** Different values print differently. */
  lemma PrintInjective(v: Value, w: Value)
    requires Printable(v) && Printable(w) && Print(v) == Print(w)
    ensures v == w
  {
    ParsePrint(v, "");
    ParsePrint(w, "");
    assert Print(v) + "" == Print(v) && Print(w) + "" == Print(w);
  }
}
