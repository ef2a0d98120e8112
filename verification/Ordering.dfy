/** Lexicographic order on keys and a stable sort by key: the contract of Go's `sort` package
    as the rest of the model uses it. A key is a sequence of integers (code points, UTF-16 units,
    bytes or preference ranks). */
module Ordering {

  datatype Option<+T> = None | Some(value: T)

  /** Strict lexicographic order; a proper prefix comes first. */
  predicate LexLess(a: seq<int>, b: seq<int>) {
    if b == [] then false
    else if a == [] then true
    else if a[0] != b[0] then a[0] < b[0]
    else LexLess(a[1..], b[1..])
  }

  lemma {:induction false} LexIrreflexive(a: seq<int>)
    ensures !LexLess(a, a)
  {
    if a != [] { LexIrreflexive(a[1..]); }
  }

  lemma {:induction false} LexTransitive(a: seq<int>, b: seq<int>, c: seq<int>)
    requires LexLess(a, b) && LexLess(b, c)
    ensures LexLess(a, c)
  {
    if a != [] && a[0] == b[0] == c[0] { LexTransitive(a[1..], b[1..], c[1..]); }
  }

  lemma {:induction false} LexTotal(a: seq<int>, b: seq<int>)
    ensures a == b || LexLess(a, b) || LexLess(b, a)
  {
    if a != [] && b != [] && a[0] == b[0] {
      LexTotal(a[1..], b[1..]);
      assert a == [a[0]] + a[1..] && b == [b[0]] + b[1..];
    }
  }

  lemma LexAsymmetric(a: seq<int>, b: seq<int>)
    requires LexLess(a, b)
    ensures !LexLess(b, a)
  {
    if LexLess(b, a) {
      LexTransitive(a, b, a);
      LexIrreflexive(a);
    }
  }

  /** `a` is not after `b` and `b` is not after `c`, hence `a` is not after `c`. */
  lemma LexWeakTransitive(a: seq<int>, b: seq<int>, c: seq<int>)
    requires !LexLess(b, a) && !LexLess(c, b)
    ensures !LexLess(c, a)
  {
    LexTotal(a, b);
    LexTotal(b, c);
    if LexLess(c, a) {
      if a == b || b == c {
      } else {
        LexTransitive(a, b, c);
        LexAsymmetric(a, c);
      }
    }
  }

  // ----- strings as keys -----

  /** Code points of a string; comparing them is comparing the UTF-8 bytes. */
  function Codes(s: string): (r: seq<int>)
    ensures |r| == |s|
    ensures forall i :: 0 <= i < |s| ==> r[i] == s[i] as int
  {
    seq(|s|, i requires 0 <= i < |s| => s[i] as int)
  }

  lemma CodesInjective(a: string, b: string)
    requires Codes(a) == Codes(b)
    ensures a == b
  {
    forall i | 0 <= i < |a| ensures a[i] == b[i] {
      assert Codes(a)[i] == Codes(b)[i];
    }
  }

  // ----- stable sort -----

  ghost predicate SortedBy<T>(s: seq<T>, key: T -> seq<int>) {
    forall i, j :: 0 <= i < j < |s| ==> !LexLess(key(s[j]), key(s[i]))
  }

  ghost predicate StrictlySortedBy<T>(s: seq<T>, key: T -> seq<int>) {
    forall i, j :: 0 <= i < j < |s| ==> LexLess(key(s[i]), key(s[j]))
  }

  function InsertBy<T>(x: T, s: seq<T>, key: T -> seq<int>): (r: seq<T>)
    ensures |r| == |s| + 1
  {
    if s == [] || !LexLess(key(s[0]), key(x)) then [x] + s
    else [s[0]] + InsertBy(x, s[1..], key)
  }

  /** Stable insertion sort. */
  function SortBy<T>(s: seq<T>, key: T -> seq<int>): (r: seq<T>)
    ensures |r| == |s|
  {
    if s == [] then [] else InsertBy(s[0], SortBy(s[1..], key), key)
  }

  lemma {:induction false} InsertBySorts<T>(x: T, s: seq<T>, key: T -> seq<int>)
    requires SortedBy(s, key)
    ensures SortedBy(InsertBy(x, s, key), key)
  {
    if s == [] {
    } else if !LexLess(key(s[0]), key(x)) {
      forall j | 1 <= j < |s| ensures !LexLess(key(s[j]), key(x)) {
        LexWeakTransitive(key(x), key(s[0]), key(s[j]));
      }
    } else {
      var t := InsertBy(x, s[1..], key);
      InsertBySorts(x, s[1..], key);
      LexAsymmetric(key(s[0]), key(x));
      forall y | y in t ensures !LexLess(key(y), key(s[0])) { InsertMember(x, s[1..], key, y); }
    }
  }

  lemma {:induction false} SortBySorts<T>(s: seq<T>, key: T -> seq<int>)
    ensures SortedBy(SortBy(s, key), key)
  {
    if s != [] {
      SortBySorts(s[1..], key);
      InsertBySorts(s[0], SortBy(s[1..], key), key);
    }
  }

  // ----- sets as strictly sorted sequences -----

  ghost predicate InjectiveOn<T(!new)>(s: set<T>, key: T -> seq<int>) {
    forall x, y :: x in s && y in s && key(x) == key(y) ==> x == y
  }

  ghost predicate IsSortedListing<T(!new)>(r: seq<T>, s: set<T>, key: T -> seq<int>) {
    StrictlySortedBy(r, key) && (forall x :: x in r <==> x in s)
  }

  lemma StrictImpliesDistinct<T>(r: seq<T>, key: T -> seq<int>)
    requires StrictlySortedBy(r, key)
    ensures forall i, j :: 0 <= i < j < |r| ==> key(r[i]) != key(r[j])
    ensures SortedBy(r, key)
  {
    forall i, j | 0 <= i < j < |r|
      ensures key(r[i]) != key(r[j]) && !LexLess(key(r[j]), key(r[i]))
    {
      LexIrreflexive(key(r[i]));
      LexAsymmetric(key(r[i]), key(r[j]));
    }
  }

  /** A set has at most one strictly sorted listing: iteration order cannot show. */
  lemma {:induction false} ListingUnique<T(!new)>(a: seq<T>, b: seq<T>, s: set<T>, key: T -> seq<int>)
    requires IsSortedListing(a, s, key) && IsSortedListing(b, s, key)
    ensures a == b
    decreases |a|
  {
    assert |a| > 0 ==> a[0] in a && a[0] in b;
    assert |b| > 0 ==> b[0] in b && b[0] in a;
    if a != [] {
      assert a[0] in s && a[0] in b;
      assert b != [] && b[0] in s && b[0] in a;
      LexTotal(key(a[0]), key(b[0]));
      StrictImpliesDistinct(a, key);
      StrictImpliesDistinct(b, key);
      assert a[0] == b[0];
      var t := s - {a[0]};
      forall x ensures x in a[1..] <==> x in t {
        if x in a[1..] { var i :| 0 <= i < |a[1..]| && a[1..][i] == x; assert a[i + 1] == x; }
        if x in t { assert x in a; }
      }
      forall x ensures x in b[1..] <==> x in t {
        if x in b[1..] { var i :| 0 <= i < |b[1..]| && b[1..][i] == x; assert b[i + 1] == x; }
        if x in t { assert x in b; }
      }
      ListingUnique(a[1..], b[1..], t, key);
      assert a == [a[0]] + a[1..] && b == [b[0]] + b[1..];
    }
  }

  lemma {:induction false} ListingExists<T(!new)>(s: set<T>, key: T -> seq<int>) returns (r: seq<T>)
    requires InjectiveOn(s, key)
    ensures IsSortedListing(r, s, key)
    decreases s
  {
    if s == {} {
      r := [];
    } else {
      var x :| x in s;
      var t := ListingExists(s - {x}, key);
      r := InsertBy(x, t, key);
      forall y ensures y in r <==> y in s { InsertMember(x, t, key, y); }
      InsertStrict(x, t, key);
    }
  }

  lemma {:induction false} InsertStrict<T>(x: T, t: seq<T>, key: T -> seq<int>)
    requires StrictlySortedBy(t, key)
    requires forall y :: y in t ==> key(y) != key(x)
    ensures StrictlySortedBy(InsertBy(x, t, key), key)
  {
    if t == [] {
    } else if !LexLess(key(t[0]), key(x)) {
      LexTotal(key(x), key(t[0]));
      assert t[0] in t;
      forall j | 1 <= j < |t| ensures LexLess(key(x), key(t[j])) { LexTransitive(key(x), key(t[0]), key(t[j])); }
    } else {
      assert t == [t[0]] + t[1..];
      InsertStrict(x, t[1..], key);
      var u := InsertBy(x, t[1..], key);
      forall y | y in u ensures LexLess(key(t[0]), key(y)) { InsertMember(x, t[1..], key, y); }
    }
  }

  lemma {:induction false} InsertMember<T>(x: T, t: seq<T>, key: T -> seq<int>, y: T)
    ensures y in InsertBy(x, t, key) <==> y == x || y in t
  {
    if t != [] && LexLess(key(t[0]), key(x)) {
      InsertMember(x, t[1..], key, y);
      assert t == [t[0]] + t[1..];
    }
  }

  /** The strictly sorted listing of a set. */
  ghost function Listing<T(!new)>(s: set<T>, key: T -> seq<int>): (r: seq<T>)
    requires InjectiveOn(s, key)
    ensures IsSortedListing(r, s, key)
  {
    ListingWitness(s, key);
    var r :| IsSortedListing(r, s, key);
    r
  }

  lemma ListingWitness<T(!new)>(s: set<T>, key: T -> seq<int>)
    requires InjectiveOn(s, key)
    ensures exists r :: IsSortedListing(r, s, key)
  {
    var r := ListingExists(s, key);
  }

  /** Sorting any duplicate-free enumeration of a set gives its listing, whatever the enumeration order. */
  lemma SortIsListing<T(!new)>(e: seq<T>, s: set<T>, key: T -> seq<int>)
    requires InjectiveOn(s, key)
    requires forall x :: x in e <==> x in s
    requires forall i, j :: 0 <= i < j < |e| ==> e[i] != e[j]
    ensures SortBy(e, key) == Listing(s, key)
  {
    forall y ensures y in SortBy(e, key) <==> y in s { SortMember(e, key, y); }
    forall i, j | 0 <= i < j < |e| ensures key(e[i]) != key(e[j]) {
      assert e[i] in e && e[j] in e;
    }
    SortStrict(e, key);
    ListingUnique(SortBy(e, key), Listing(s, key), s, key);
  }

  lemma {:induction false} SortMember<T>(e: seq<T>, key: T -> seq<int>, y: T)
    ensures y in SortBy(e, key) <==> y in e
  {
    if e != [] {
      SortMember(e[1..], key, y);
      InsertMember(e[0], SortBy(e[1..], key), key, y);
      assert e == [e[0]] + e[1..];
    }
  }

  lemma {:induction false} SortStrict<T>(e: seq<T>, key: T -> seq<int>)
    requires forall i, j :: 0 <= i < j < |e| ==> key(e[i]) != key(e[j])
    ensures StrictlySortedBy(SortBy(e, key), key)
  {
    if e != [] {
      SortStrict(e[1..], key);
      var t := SortBy(e[1..], key);
      forall y | y in t ensures key(y) != key(e[0]) { SortMember(e[1..], key, y); }
      InsertStrict(e[0], t, key);
    }
  }
}
