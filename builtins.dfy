/** The Python builtins the detection code relies on: `min` and `max` with a
    `key=` argument, and `sorted` with a `key=` argument. */
module Builtins {

  /** `k` is the index of the element `min(s, key=key)` returns: its key is
      the least, and no earlier element has that least key (CPython replaces
      its candidate only on a strictly smaller key). */
  ghost predicate IsFirstMin<T>(s: seq<T>, k: int, key: T -> real) {
    && 0 <= k < |s|
    && (forall j :: 0 <= j < |s| ==> key(s[k]) <= key(s[j]))
    && (forall j :: 0 <= j < k ==> key(s[k]) < key(s[j]))
  }

  /** `k` is the index of the element `max(s, key=key)` returns. */
  ghost predicate IsFirstMax<T>(s: seq<T>, k: int, key: T -> real) {
    && 0 <= k < |s|
    && (forall j :: 0 <= j < |s| ==> key(s[j]) <= key(s[k]))
    && (forall j :: 0 <= j < k ==> key(s[j]) < key(s[k]))
  }

  /** `min(s, key=key)` as CPython computes it: one pass from the left,
      replacing the current element only when a later key is strictly
      smaller. Python raises ValueError on an empty sequence. */
  function FirstMin<T>(s: seq<T>, key: T -> real): (k: nat)
    requires |s| > 0
    ensures k < |s|
    decreases |s|
  {
    if |s| == 1 then 0
    else
      var m := FirstMin(s[..|s| - 1], key);
      if key(s[|s| - 1]) < key(s[m]) then |s| - 1 else m
  }

  /** `max(s, key=key)`: replaces the current element only on a strictly
      larger key. */
  function FirstMax<T>(s: seq<T>, key: T -> real): (k: nat)
    requires |s| > 0
    ensures k < |s|
    decreases |s|
  {
    if |s| == 1 then 0
    else
      var m := FirstMax(s[..|s| - 1], key);
      if key(s[|s| - 1]) > key(s[m]) then |s| - 1 else m
  }

  /** `min` returns an element with the least key, the earliest such. */
  lemma {:induction false} FirstMinIsFirst<T>(s: seq<T>, key: T -> real)
    requires |s| > 0
    ensures IsFirstMin(s, FirstMin(s, key), key)
    decreases |s|
  {
    if |s| > 1 {
      var init := s[..|s| - 1];
      FirstMinIsFirst(init, key);
      assert forall j :: 0 <= j < |init| ==> init[j] == s[j];
    }
  }

  /** `max` returns an element with the greatest key, the earliest such. */
  lemma {:induction false} FirstMaxIsFirst<T>(s: seq<T>, key: T -> real)
    requires |s| > 0
    ensures IsFirstMax(s, FirstMax(s, key), key)
    decreases |s|
  {
    if |s| > 1 {
      var init := s[..|s| - 1];
      FirstMaxIsFirst(init, key);
      assert forall j :: 0 <= j < |init| ==> init[j] == s[j];
    }
  }

  /** The contract of FirstMin determines its result: ties go to the earliest. */
  lemma FirstMinDetermined<T>(s: seq<T>, k: int, key: T -> real)
    requires |s| > 0 && IsFirstMin(s, k, key)
    ensures k == FirstMin(s, key)
  {
    FirstMinIsFirst(s, key);
  }

  /** The contract of FirstMax determines its result. */
  lemma FirstMaxDetermined<T>(s: seq<T>, k: int, key: T -> real)
    requires |s| > 0 && IsFirstMax(s, k, key)
    ensures k == FirstMax(s, key)
  {
    FirstMaxIsFirst(s, key);
  }

  ghost predicate SortedBy<T>(s: seq<T>, key: T -> int) {
    forall a, b :: 0 <= a < b < |s| ==> key(s[a]) <= key(s[b])
  }

  /** Inserts `x` into `t` after every leading element whose key is not
      larger, so that of two equal keys the one that came first stays first. */
  function Insert<T>(x: T, t: seq<T>, key: T -> int): (r: seq<T>)
    ensures |r| == |t| + 1
    decreases |t|
  {
    if t == [] then [x]
    else if key(x) < key(t[0]) then [x] + t
    else [t[0]] + Insert(x, t[1..], key)
  }

  /** Inserting into a sorted list gives a sorted list holding the old
      elements and `x`. */
  lemma {:induction false} InsertSorted<T>(x: T, t: seq<T>, key: T -> int)
    requires SortedBy(t, key)
    ensures SortedBy(Insert(x, t, key), key)
    ensures multiset(Insert(x, t, key)) == multiset(t) + multiset{x}
    decreases |t|
  {
    if t == [] {
    } else if key(x) < key(t[0]) {
      assert Insert(x, t, key) == [x] + t;
      assert multiset([x] + t) == multiset{x} + multiset(t);
    } else {
      var rest := Insert(x, t[1..], key);
      assert Insert(x, t, key) == [t[0]] + rest;
      assert SortedBy(t[1..], key);
      InsertSorted(x, t[1..], key);
      InsertHeadBound(x, t, rest, key);
      ConsSorted(t[0], rest, key);
      assert t == [t[0]] + t[1..];
      assert multiset([t[0]] + rest) == multiset{t[0]} + multiset(rest);
    }
  }

  /** A sorted list stays sorted with an element in front whose key is no
      larger than any of its keys. */
  lemma ConsSorted<T>(y: T, rest: seq<T>, key: T -> int)
    requires SortedBy(rest, key)
    requires forall b :: 0 <= b < |rest| ==> key(y) <= key(rest[b])
    ensures SortedBy([y] + rest, key)
  {
    var r := [y] + rest;
    forall a, b | 0 <= a < b < |r|
      ensures key(r[a]) <= key(r[b])
    {
      assert r[b] == rest[b - 1];
      if a > 0 { assert r[a] == rest[a - 1]; }
    }
  }

  /** Every element of `rest`, the insertion of `x` into `t[1..]`, has a key
      no smaller than that of `t[0]`. */
  lemma InsertHeadBound<T>(x: T, t: seq<T>, rest: seq<T>, key: T -> int)
    requires |t| > 0 && SortedBy(t, key) && key(t[0]) <= key(x)
    requires multiset(rest) == multiset(t[1..]) + multiset{x}
    ensures forall b :: 0 <= b < |rest| ==> key(t[0]) <= key(rest[b])
  {
    forall b | 0 <= b < |rest|
      ensures key(t[0]) <= key(rest[b])
    {
      assert rest[b] in multiset(rest);
      if rest[b] != x {
        assert rest[b] in multiset(t[1..]);
        var i :| 0 <= i < |t[1..]| && t[1..][i] == rest[b];
        assert t[i + 1] == rest[b];
      }
    }
  }

  /** `sorted(s, key=key)`: a stable sort, here by insertion in input order. */
  function SortBy<T>(s: seq<T>, key: T -> int): (r: seq<T>)
    ensures |r| == |s|
    decreases |s|
  {
    if s == [] then []
    else Insert(s[|s| - 1], SortBy(s[..|s| - 1], key), key)
  }

  /** `sorted` returns its input in ascending order of the key. */
  lemma {:induction false} SortBySorted<T>(s: seq<T>, key: T -> int)
    ensures SortedBy(SortBy(s, key), key)
    ensures multiset(SortBy(s, key)) == multiset(s)
    decreases |s|
  {
    if s != [] {
      var init := s[..|s| - 1];
      SortBySorted(init, key);
      InsertSorted(s[|s| - 1], SortBy(init, key), key);
      assert s == init + [s[|s| - 1]];
    }
  }
}
