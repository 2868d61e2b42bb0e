/** `Array.prototype.sort`, as the components call it: with no comparator (strings in code
    unit order) and with a numeric comparator `(a, b) => key(a) - key(b)`. Both are written as
    insertion sorts; for strings any correct sort gives the same result (SortedStringsUnique). */
module Sorting {
  import opened JsString

  predicate SortedStrings(s: seq<string>)
  {
    forall i, j :: 0 <= i < j < |s| ==> LexLessEq(s[i], s[j])
  }

  predicate SortedStringsDescending(s: seq<string>)
  {
    forall i, j :: 0 <= i < j < |s| ==> LexLessEq(s[j], s[i])
  }

  function InsertString(x: string, s: seq<string>): seq<string>
  {
    if s == [] || LexLessEq(x, s[0]) then [x] + s else [s[0]] + InsertString(x, s[1..])
  }

  /** `s.sort()` on an array of strings. */
  function SortStrings(s: seq<string>): seq<string>
  {
    if s == [] then [] else InsertString(s[0], SortStrings(s[1..]))
  }

  lemma {:induction false} InsertStringCorrect(x: string, s: seq<string>)
    requires SortedStrings(s)
    ensures SortedStrings(InsertString(x, s))
    ensures multiset(InsertString(x, s)) == multiset(s) + multiset{x}
  {
    if s == [] || LexLessEq(x, s[0]) {
      InsertAtFront(x, s);
    } else {
      assert s == [s[0]] + s[1..];
      InsertStringCorrect(x, s[1..]);
      LexLessTotal(x, s[0]);
      InsertBehindHead(x, s, InsertString(x, s[1..]));
    }
  }

  /** A string no greater than the head of a sorted list can go in front of it. */
  lemma InsertAtFront(x: string, s: seq<string>)
    requires SortedStrings(s) && (s == [] || LexLessEq(x, s[0]))
    ensures SortedStrings([x] + s)
  {
    forall j | 0 < j < |s| + 1 ensures LexLessEq(x, ([x] + s)[j]) {
      if x != s[0] && s[0] != s[j - 1] { LexLessTransitive(x, s[0], s[j - 1]); }
    }
  }

  /** The head of a sorted list stays in front of the rest with `x` inserted, when `x` is
      not less than it. */
  lemma InsertBehindHead(x: string, s: seq<string>, r: seq<string>)
    requires SortedStrings(s) && s != [] && LexLessEq(s[0], x)
    requires SortedStrings(r) && multiset(r) == multiset(s[1..]) + multiset{x}
    ensures SortedStrings([s[0]] + r)
  {
    forall j | 0 <= j < |r| ensures LexLessEq(s[0], r[j]) {
      assert r[j] in multiset(r);
      if r[j] != x {
        assert r[j] in multiset(s[1..]);
        var k :| 0 <= k < |s[1..]| && s[1..][k] == r[j];
        assert s[k + 1] == r[j];
      }
    }
  }

  lemma {:induction false} SortStringsCorrect(s: seq<string>)
    ensures SortedStrings(SortStrings(s))
    ensures multiset(SortStrings(s)) == multiset(s)
  {
    if s != [] {
      SortStringsCorrect(s[1..]);
      InsertStringCorrect(s[0], SortStrings(s[1..]));
      assert s == [s[0]] + s[1..];
    }
  }

  lemma SortedStringsHeadLeast(a: seq<string>, x: string)
    requires SortedStrings(a) && x in multiset(a)
    ensures LexLessEq(a[0], x)
  {
    var j :| 0 <= j < |a| && a[j] == x;
    if j > 0 { assert LexLessEq(a[0], a[j]); }
  }

  lemma SortedStringsTail(a: seq<string>)
    requires SortedStrings(a) && a != []
    ensures SortedStrings(a[1..])
    ensures multiset(a[1..]) == multiset(a) - multiset{a[0]}
  {
    assert a == [a[0]] + a[1..];
  }

  /** Sorting orders strings totally, so there is only one sorted arrangement of a multiset. */
  lemma {:induction false} SortedStringsUnique(a: seq<string>, b: seq<string>)
    requires SortedStrings(a) && SortedStrings(b) && multiset(a) == multiset(b)
    ensures a == b
    decreases |a|
  {
    assert |a| == |multiset(a)| == |b|;
    if a != [] {
      assert a[0] in multiset(a) && b[0] in multiset(b);
      SortedStringsHeadLeast(a, b[0]);
      SortedStringsHeadLeast(b, a[0]);
      if a[0] != b[0] { LexLessAsymmetric(a[0], b[0]); }
      SortedStringsTail(a);
      SortedStringsTail(b);
      SortedStringsUnique(a[1..], b[1..]);
      assert a == [a[0]] + a[1..] && b == [b[0]] + b[1..];
    }
  }

  /** Sorting depends only on which strings there are, not on their order. */
  lemma SortStringsPermutation(a: seq<string>, b: seq<string>)
    requires multiset(a) == multiset(b)
    ensures SortStrings(a) == SortStrings(b)
  {
    SortStringsCorrect(a);
    SortStringsCorrect(b);
    SortedStringsUnique(SortStrings(a), SortStrings(b));
  }

  function Reverse<T>(s: seq<T>): (r: seq<T>)
    ensures |r| == |s|
    ensures forall i :: 0 <= i < |s| ==> r[i] == s[|s| - 1 - i]
  {
    if s == [] then [] else Reverse(s[1..]) + [s[0]]
  }

  lemma {:induction false} ReverseMultiset<T>(s: seq<T>)
    ensures multiset(Reverse(s)) == multiset(s)
  {
    if s != [] {
      ReverseMultiset(s[1..]);
      assert s == [s[0]] + s[1..];
    }
  }

  /** `s.sort().reverse()`: the strings from greatest to least. */
  function SortStringsDescending(s: seq<string>): (r: seq<string>)
    ensures SortedStringsDescending(r)
    ensures multiset(r) == multiset(s)
  {
    SortStringsCorrect(s);
    ReverseMultiset(SortStrings(s));
    Reverse(SortStrings(s))
  }

  /** Sorting an already sorted list again changes nothing. */
  lemma SortStringsDescendingIdempotent(s: seq<string>)
    ensures SortStringsDescending(SortStringsDescending(s)) == SortStringsDescending(s)
    ensures SortStringsDescending(SortStrings(s)) == SortStringsDescending(s)
  {
    SortStringsCorrect(s);
    SortStringsPermutation(SortStringsDescending(s), s);
    SortStringsPermutation(SortStrings(s), s);
  }

  // ---------------------------------------------------------------------------
  // Sorting by a numeric key

  predicate SortedByKey<T>(s: seq<T>, key: T -> int)
  {
    forall i, j :: 0 <= i < j < |s| ==> key(s[i]) <= key(s[j])
  }

  lemma SortedByKeyCons<T>(x: T, s: seq<T>, key: T -> int)
    requires SortedByKey(s, key)
    requires forall j :: 0 <= j < |s| ==> key(x) <= key(s[j])
    ensures SortedByKey([x] + s, key)
  {
  }

  function InsertByKey<T>(x: T, s: seq<T>, key: T -> int): seq<T>
  {
    if s == [] || key(x) <= key(s[0]) then [x] + s else [s[0]] + InsertByKey(x, s[1..], key)
  }

  /** `s.sort((a, b) => key(a) - key(b))`: ascending by key, equal keys in input order. */
  function SortByKey<T>(s: seq<T>, key: T -> int): seq<T>
  {
    if s == [] then [] else InsertByKey(s[0], SortByKey(s[1..], key), key)
  }

  lemma {:induction false} InsertByKeyCorrect<T>(x: T, s: seq<T>, key: T -> int)
    requires SortedByKey(s, key)
    ensures SortedByKey(InsertByKey(x, s, key), key)
    ensures multiset(InsertByKey(x, s, key)) == multiset(s) + multiset{x}
  {
    if s == [] || key(x) <= key(s[0]) {
      assert InsertByKey(x, s, key) == [x] + s;
    } else {
      var t := s[1..];
      assert s == [s[0]] + t;
      InsertByKeyCorrect(x, t, key);
      var r := InsertByKey(x, t, key);
      assert InsertByKey(x, s, key) == [s[0]] + r;
      KeyHeadBelowAll(x, s, r, key);
      SortedByKeyCons(s[0], r, key);
    }
  }

  /** The head of a key-sorted list has a key no greater than any element of the rest with
      `x` inserted, when `x`'s key is not less than it. */
  lemma KeyHeadBelowAll<T>(x: T, s: seq<T>, r: seq<T>, key: T -> int)
    requires SortedByKey(s, key) && s != [] && key(s[0]) <= key(x)
    requires multiset(r) == multiset(s[1..]) + multiset{x}
    ensures forall j :: 0 <= j < |r| ==> key(s[0]) <= key(r[j])
  {
    var t := s[1..];
    forall j | 0 <= j < |r| ensures key(s[0]) <= key(r[j]) {
      assert r[j] in multiset(r);
      if r[j] != x {
        assert r[j] in multiset(t);
        var k :| 0 <= k < |t| && t[k] == r[j];
        assert s[k + 1] == r[j];
      }
    }
  }

  lemma {:induction false} SortByKeyCorrect<T>(s: seq<T>, key: T -> int)
    ensures SortedByKey(SortByKey(s, key), key)
    ensures multiset(SortByKey(s, key)) == multiset(s)
  {
    if s != [] {
      SortByKeyCorrect(s[1..], key);
      InsertByKeyCorrect(s[0], SortByKey(s[1..], key), key);
      assert s == [s[0]] + s[1..];
    }
  }
}
