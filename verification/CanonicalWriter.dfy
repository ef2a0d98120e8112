/** The buffer-writing code of internal/canonical/canonical.go, proved to write `Print`, and the framed
    hash preimage. */
module CanonicalWriter {
  import opened Ordering
  import opened Text
  import opened Utf
  import opened Canonical
  import opened CanonicalParse

  /** `isCanonicalInteger`. */
  method IsCanonicalInteger(value: string) returns (ok: bool)
    ensures ok == CanonicalInteger(value)
  {
    if value == "0" { return true; }
    var digits := value;
    if HasPrefix(value, "-") { digits := value[1..]; }
    if digits == "" || digits[0] < '1' || digits[0] > '9' { return false; }
    for i := 1 to |digits|
      invariant forall j :: 0 <= j < i ==> IsDigit(digits[j])
    {
      if digits[i] < '0' || digits[i] > '9' { return false; }
    }
    return true;
  }

  /** `bytes.Buffer`, holding characters; `Bytes` of its contents are the bytes written. */
  class Buffer {
    var data: string

    constructor ()
      ensures data == ""
    {
      data := "";
    }

    method Put(s: string)
      modifies this
      ensures data == old(data) + s
    {
      data := data + s;
    }
  }

  lemma Assoc(a: string, b: string, c: string)
    ensures (a + b) + c == a + (b + c)
  {
  }

  /** `writeString`. */
  method WriteString(buffer: Buffer, value: string)
    modifies buffer
    ensures buffer.data == old(buffer.data) + PrintString(value)
  {
    ghost var start := buffer.data + [QUOTE];
    buffer.Put([QUOTE]);
    for i := 0 to |value|
      invariant buffer.data + EscapeAll(value[i..]) == start + EscapeAll(value)
    {
      assert value[i..][0] == value[i] && value[i..][1..] == value[i + 1..];
      Assoc(buffer.data, Escape(value[i]), EscapeAll(value[i + 1..]));
      buffer.Put(Escape(value[i]));
    }
    assert value[|value|..] == "";
    assert buffer.data == start + EscapeAll(value);
    Assoc(start, EscapeAll(value), [QUOTE]);
    Assoc(old(buffer.data), [QUOTE], EscapeAll(value) + [QUOTE]);
    Assoc([QUOTE], EscapeAll(value), [QUOTE]);
    buffer.Put([QUOTE]);
  }

  /** Keys in the arbitrary order of Go's map iteration, then sorted with `utf16Less`. */
  method ListKeys(m: map<string, Value>) returns (keys: seq<string>)
    ensures keys == SortedKeys(m)
  {
    keys := [];
    var todo := m.Keys;
    while todo != {}
      invariant todo <= m.Keys
      invariant forall k :: k in keys <==> k in m && k !in todo
      invariant forall i, j :: 0 <= i < j < |keys| ==> keys[i] != keys[j]
      decreases todo
    {
      var k :| k in todo;
      assert k !in keys;
      keys := keys + [k];
      todo := todo - {k};
    }
    UnitsInjectiveOn(m.Keys);
    SortIsListing(keys, m.Keys, Units);
    keys := SortBy(keys, Units);
    ListingUnique(keys, SortedKeys(m), m.Keys, Units);
  }

  /** `writeValue`: refuses exactly the values with a non-integer number, otherwise appends `Print(v)`. */
  method WriteValue(buffer: Buffer, v: Value) returns (ok: bool)
    modifies buffer
    ensures ok == Printable(v)
    ensures ok ==> buffer.data == old(buffer.data) + Print(v)
    decreases v, 2
  {
    if v.Null? || v.Bool? {
      buffer.Put(if v.Null? then "null" else if v.b then "true" else "false");
      return true;
    } else if v.Str? {
      WriteString(buffer, v.s);
      return true;
    } else if v.Number? {
      ok := IsCanonicalInteger(v.text);
      if ok { buffer.Put(v.text); }
    } else if v.Arr? {
      hide PrintItems;
      Assoc(buffer.data, "[", PrintItems(v.items));
      buffer.Put("[");
      ok := WriteItems(buffer, v);
    } else {
      var keys := ListKeys(v.members);
      hide PrintMembers, SortedKeys;
      Assoc(buffer.data, "{", PrintMembers(v, v.members, keys));
      buffer.Put("{");
      ok := WriteMembers(buffer, v, v.members, keys);
    }
  }

  /** What is still to be written of an array before item `i`. */
  ghost function ItemsFrom(items: seq<Value>, i: nat): string
    requires i <= |items|
  {
    if i == 0 then PrintItems(items) else PrintItemsTail(items[i..])
  }

  function Separator(i: nat): string { if i > 0 then "," else "" }

  lemma ItemsStep(items: seq<Value>, i: nat)
    requires i < |items|
    ensures ItemsFrom(items, i) == Separator(i) + (Print(items[i]) + ItemsFrom(items, i + 1))
  {
    assert items[i..][0] == items[i] && items[i..][1..] == items[i + 1..];
  }

  lemma ItemsStart(items: seq<Value>)
    ensures ItemsFrom(items, 0) == PrintItems(items)
  {
  }

  lemma ItemsEnd(items: seq<Value>)
    ensures ItemsFrom(items, |items|) == "]"
  {
    assert items[|items|..] == [];
  }

  /** One round of the array loop: a comma unless first, then the item. */
  method WriteItem(buffer: Buffer, v: Value, i: nat, ghost all: string) returns (ok: bool)
    requires v.Arr? && i < |v.items| && buffer.data + ItemsFrom(v.items, i) == all
    modifies buffer
    ensures ok == Printable(v.items[i])
    ensures ok ==> buffer.data + ItemsFrom(v.items, i + 1) == all
    decreases v, 0
  {
    ItemsStep(v.items, i);
    hide Print, Printable, ItemsFrom;
    var item := v.items[i];
    ghost var rest := ItemsFrom(v.items, i + 1);
    Assoc(buffer.data, Separator(i), Print(item) + rest);
    buffer.Put(Separator(i));
    Assoc(buffer.data, Print(item), rest);
    ok := WriteValue(buffer, item);
  }

  /** The array loop of `writeValue` and the closing bracket. */
  method WriteItems(buffer: Buffer, v: Value) returns (ok: bool)
    requires v.Arr?
    modifies buffer
    ensures ok <==> forall i :: 0 <= i < |v.items| ==> Printable(v.items[i])
    ensures ok ==> buffer.data == old(buffer.data) + PrintItems(v.items)
    decreases v, 1
  {
    hide Printable, ItemsFrom, PrintItems;
    ghost var all := buffer.data + PrintItems(v.items);
    ItemsStart(v.items);
    for i := 0 to |v.items|
      invariant forall j :: 0 <= j < i ==> Printable(v.items[j])
      invariant buffer.data + ItemsFrom(v.items, i) == all
    {
      ok := WriteItem(buffer, v, i, all);
      if !ok { return; }
    }
    ItemsEnd(v.items);
    buffer.Put("]");
    return true;
  }

  ghost function MembersFrom(v: Value, m: map<string, Value>, keys: seq<string>, i: nat): string
    requires v == Obj(m) && (forall k :: k in keys ==> k in m) && i <= |keys|
  {
    if i == 0 then PrintMembers(v, m, keys) else PrintMembersTail(v, m, keys[i..])
  }

  lemma MembersStep(v: Value, m: map<string, Value>, keys: seq<string>, i: nat)
    requires v == Obj(m) && (forall k :: k in keys ==> k in m) && i < |keys|
    ensures MembersFrom(v, m, keys, i)
            == Separator(i) + (PrintString(keys[i]) + (":" + (Print(m[keys[i]]) + MembersFrom(v, m, keys, i + 1))))
  {
    assert keys[i..][0] == keys[i] && keys[i..][1..] == keys[i + 1..];
    var member, rest := PrintMember(v, m, keys[i]), MembersFrom(v, m, keys, i + 1);
    assert member + rest == PrintString(keys[i]) + (":" + (Print(m[keys[i]]) + rest));
  }

  lemma MembersEnd(v: Value, m: map<string, Value>, keys: seq<string>)
    requires v == Obj(m) && forall k :: k in keys ==> k in m
    ensures MembersFrom(v, m, keys, |keys|) == "}"
  {
    assert keys[|keys|..] == [];
  }

  /** One round of the object loop: a comma unless first, then key, colon and value. */
  method WriteMember(buffer: Buffer, v: Value, m: map<string, Value>, keys: seq<string>, i: nat, ghost all: string) returns (ok: bool)
    requires v == Obj(m) && (forall k :: k in keys ==> k in m) && i < |keys|
    requires buffer.data + MembersFrom(v, m, keys, i) == all
    modifies buffer
    ensures ok == Printable(m[keys[i]])
    ensures ok ==> buffer.data + MembersFrom(v, m, keys, i + 1) == all
    decreases v, 0
  {
    MembersStep(v, m, keys, i);
    hide Print, Printable, PrintString, MembersFrom;
    var key := keys[i];
    ghost var rest := MembersFrom(v, m, keys, i + 1);
    Assoc(buffer.data, Separator(i), PrintString(key) + (":" + (Print(m[key]) + rest)));
    buffer.Put(Separator(i));
    Assoc(buffer.data, PrintString(key), ":" + (Print(m[key]) + rest));
    WriteString(buffer, key);
    Assoc(buffer.data, ":", Print(m[key]) + rest);
    buffer.Put(":");
    Assoc(buffer.data, Print(m[key]), rest);
    ok := WriteValue(buffer, m[key]);
  }

  /** The object loop of `writeValue` over sorted keys and the closing brace. */
  method WriteMembers(buffer: Buffer, v: Value, m: map<string, Value>, keys: seq<string>) returns (ok: bool)
    requires v == Obj(m) && forall k :: k in keys <==> k in m
    modifies buffer
    ensures ok <==> forall k :: k in m ==> Printable(m[k])
    ensures ok ==> buffer.data == old(buffer.data) + PrintMembers(v, m, keys)
    decreases v, 1
  {
    ghost var all := buffer.data + PrintMembers(v, m, keys);
    assert buffer.data + MembersFrom(v, m, keys, 0) == all;
    hide Printable, MembersFrom, PrintMembers;
    for i := 0 to |keys|
      invariant forall j :: 0 <= j < i ==> Printable(m[keys[j]])
      invariant buffer.data + MembersFrom(v, m, keys, i) == all
    {
      assert keys[i] in keys;
      ok := WriteMember(buffer, v, m, keys, i, all);
      if !ok { return; }
    }
    MembersEnd(v, m, keys);
    buffer.Put("}");
    forall k | k in m ensures Printable(m[k]) { assert k in keys; }
    return true;
  }

  // ----- the framed hash -----

  const HASH_PREFIX := "xgoal-canonical/v1\n"

  /** A kind or schema version: not empty, one line. */
  predicate ValidFrame(s: string) { s != "" && !ContainsAny(s, "\r\n") }

  ghost function Preimage(kind: string, version: string, v: Value): seq<int> {
    Utf.Bytes(HASH_PREFIX + kind + "\n" + version + "\n" + Print(v))
  }

  /** SHA-256 of a preimage, free of collisions. */
  datatype Digest = Sha256(preimage: seq<int>)

  /** `Hash`: refused for a bad frame or an unprintable value. */
  method Hash(kind: string, version: string, v: Value) returns (result: Option<Digest>)
    ensures result.Some? <==> ValidFrame(kind) && ValidFrame(version) && Printable(v)
    ensures result.Some? ==> result.value == Sha256(Preimage(kind, version, v))
    ensures result.Some? ==> result.value == Sha256(Utf.Bytes("xgoal-canonical/v1\n" + kind + "\n" + version + "\n" + Print(v)))
    ensures result.Some? ==> kind != "" && version != "" && '\n' !in kind + version && '\r' !in kind + version
  {
    FrameOfConcat(kind, version);
    if kind == "" || version == "" || ContainsAny(kind + version, "\r\n") { return None; }
    CleanFrame(kind + version);
    var buffer := new Buffer();
    var ok := WriteValue(buffer, v);
    if !ok { return None; }
    assert buffer.data == Print(v);
    return Some(Sha256(Utf.Bytes(HASH_PREFIX + kind + "\n" + version + "\n" + buffer.data)));
  }

  lemma CleanFrame(s: string)
    requires !ContainsAny(s, "\r\n")
    ensures '\n' !in s && '\r' !in s
  {
    forall c | c in s ensures c !in "\r\n" { var i :| 0 <= i < |s| && s[i] == c; }
    assert '\n' in "\r\n" && '\r' in "\r\n";
  }

  lemma FrameOfConcat(a: string, b: string)
    ensures ContainsAny(a + b, "\r\n") <==> ContainsAny(a, "\r\n") || ContainsAny(b, "\r\n")
  {
    if i :| 0 <= i < |a| && a[i] in "\r\n" { assert (a + b)[i] == a[i]; }
    if i :| 0 <= i < |b| && b[i] in "\r\n" { assert (a + b)[|a| + i] == b[i]; }
  }

  /** A line without newline can be told from what follows it. */
  lemma {:induction false} LineInjective(a: string, x: string, b: string, y: string)
    requires '\n' !in a && '\n' !in b && a + "\n" + x == b + "\n" + y
    ensures a == b && x == y
  {
    var s, t := a + "\n" + x, b + "\n" + y;
    assert s[0] == (if a == "" then '\n' else a[0]) && t[0] == (if b == "" then '\n' else b[0]);
    if a == "" {
      assert s[1..] == x && t[1..] == y;
    } else {
      assert s[1..] == a[1..] + "\n" + x && t[1..] == b[1..] + "\n" + y;
      LineInjective(a[1..], x, b[1..], y);
      assert a == [a[0]] + a[1..] && b == [b[0]] + b[1..];
    }
  }

  lemma FrameIsLine(s: string)
    requires ValidFrame(s)
    ensures '\n' !in s
  {
    assert forall i :: 0 <= i < |s| ==> s[i] !in "\r\n";
    assert '\n' in "\r\n";
  }

  lemma PrefixCancel(p: string, r: string, r': string)
    requires p + r == p + r'
    ensures r == r'
  {
    assert (p + r)[|p|..] == r && (p + r')[|p|..] == r';
  }

  lemma Regroup(head: string, kind: string, version: string, p: string)
    ensures head + kind + "\n" + version + "\n" + p == head + (kind + "\n" + (version + "\n" + p))
  {
    Assoc(head + kind + "\n" + version, "\n", p);
    Assoc(head + kind + "\n", version, "\n" + p);
    Assoc(head + kind, "\n", version + ("\n" + p));
    Assoc(version, "\n", p);
    Assoc(head, kind, "\n" + (version + "\n" + p));
    Assoc(kind, "\n", version + "\n" + p);
  }

  /** Equal hashes mean equal kind, schema version and value: the framing is injective. */
  lemma HashInjective(kind: string, version: string, v: Value, kind': string, version': string, v': Value)
    requires ValidFrame(kind) && ValidFrame(version) && Printable(v)
    requires ValidFrame(kind') && ValidFrame(version') && Printable(v')
    requires Sha256(Preimage(kind, version, v)) == Sha256(Preimage(kind', version', v'))
    ensures kind == kind' && version == version' && v == v'
  {
    FrameIsLine(kind); FrameIsLine(kind'); FrameIsLine(version); FrameIsLine(version');
    hide Print, Printable, Utf.Bytes, ValidFrame;
    var p, p', head := Print(v), Print(v'), HASH_PREFIX;
    BytesInjective(head + kind + "\n" + version + "\n" + p, head + kind' + "\n" + version' + "\n" + p');
    var r, r' := kind + "\n" + (version + "\n" + p), kind' + "\n" + (version' + "\n" + p');
    Regroup(head, kind, version, p);
    Regroup(head, kind', version', p');
    hide HASH_PREFIX;
    PrefixCancel(head, r, r');
    LineInjective(kind, version + "\n" + p, kind', version' + "\n" + p');
    LineInjective(version, p, version', p');
    PrintInjective(v, v');
  }
}
