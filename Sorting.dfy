/**
 * Ordering by a two-part integer key, standing in for `Array.prototype.sort`
 * with the numeric comparators the services pass to it.
 */
module Sorting {

  /** A sort key compared first by `major`, then by `minor`. */
  datatype Key = Key(major: int, minor: int)

  predicate KeyLe(a: Key, b: Key) {
    a.major < b.major || (a.major == b.major && a.minor <= b.minor)
  }

  predicate SortedBy<T>(s: seq<T>, key: T -> Key) {
    forall i, j :: 0 <= i < j < |s| ==> KeyLe(key(s[i]), key(s[j]))
  }

  /** Puts `x` after every leading element whose key is not greater than its own. */
  function Insert<T>(x: T, s: seq<T>, key: T -> Key): (r: seq<T>)
    ensures multiset(r) == multiset(s) + multiset{x}
    ensures |r| == |s| + 1 && (r[0] == x || (s != [] && r[0] == s[0]))
  {
    if s == [] then [x]
    else if KeyLe(key(s[0]), key(x)) then
      assert s == [s[0]] + s[1..];
      [s[0]] + Insert(x, s[1..], key)
    else [x] + s
  }

  /** Inserting into a sorted sequence keeps it sorted. */
  lemma {:induction false} InsertSorted<T>(x: T, s: seq<T>, key: T -> Key)
    requires SortedBy(s, key)
    ensures SortedBy(Insert(x, s, key), key)
  {
    if s != [] && KeyLe(key(s[0]), key(x)) {
      var rest := Insert(x, s[1..], key);
      InsertSorted(x, s[1..], key);
      assert KeyLe(key(s[0]), key(rest[0]));
      var r := [s[0]] + rest;
      forall i, j | 0 <= i < j < |r|
        ensures KeyLe(key(r[i]), key(r[j]))
      {
        assert r[j] == rest[j - 1];
        if i == 0 {
          assert j - 1 == 0 || KeyLe(key(rest[0]), key(rest[j - 1]));
        } else {
          assert r[i] == rest[i - 1];
        }
      }
      assert Insert(x, s, key) == r;
    }
  }

  /** Insertion sort: ascending by key, and a permutation of the input. */
  function SortBy<T>(s: seq<T>, key: T -> Key): (r: seq<T>)
    ensures SortedBy(r, key)
    ensures multiset(r) == multiset(s)
    ensures |r| == |s|
  {
    if s == [] then []
    else
      var init := s[..|s| - 1];
      assert s == init + [s[|s| - 1]];
      var r := Insert(s[|s| - 1], SortBy(init, key), key);
      InsertSorted(s[|s| - 1], SortBy(init, key), key);
      assert |r| == |multiset(r)| == |multiset(s)|;
      r
  }

  /** The elements of `s` whose key is `k`, in their order in `s`. */
  function WithKey<T>(s: seq<T>, key: T -> Key, k: Key): (r: seq<T>)
    ensures |r| <= |s|
    ensures forall i :: 0 <= i < |r| ==> key(r[i]) == k
  {
    if s == [] then []
    else (if key(s[0]) == k then [s[0]] else []) + WithKey(s[1..], key, k)
  }

  /** Picking the elements of one key distributes over concatenation. */
  lemma {:induction false} WithKeyAppend<T>(a: seq<T>, b: seq<T>, key: T -> Key, k: Key)
    ensures WithKey(a + b, key, k) == WithKey(a, key, k) + WithKey(b, key, k)
  {
    if a == [] {
      assert a + b == b;
    } else {
      assert (a + b)[1..] == a[1..] + b;
      WithKeyAppend(a[1..], b, key, k);
    }
  }

  /** A sequence with no element of key `k` has none to pick. */
  lemma {:induction false} WithKeyNone<T>(s: seq<T>, key: T -> Key, k: Key)
    requires forall i :: 0 <= i < |s| ==> key(s[i]) != k
    ensures WithKey(s, key, k) == []
  {
    if s != [] {
      WithKeyNone(s[1..], key, k);
    }
  }

  /** In a sorted sequence whose first key is above `x`'s, no key equals `x`'s. */
  lemma SortedAbove<T>(x: T, s: seq<T>, key: T -> Key)
    requires SortedBy(s, key) && s != [] && !KeyLe(key(s[0]), key(x))
    ensures forall i :: 0 <= i < |s| ==> key(s[i]) != key(x)
  {
    forall i | 0 <= i < |s|
      ensures key(s[i]) != key(x)
    {
      assert i == 0 || KeyLe(key(s[0]), key(s[i]));
    }
  }

  /** Inserting into a sorted sequence puts the new element after every element with the same key. */
  lemma {:induction false} InsertStable<T>(x: T, s: seq<T>, key: T -> Key, k: Key)
    requires SortedBy(s, key)
    ensures WithKey(Insert(x, s, key), key, k) == WithKey(s, key, k) + WithKey([x], key, k)
  {
    if s == [] {
      assert Insert(x, s, key) == [x];
    } else if KeyLe(key(s[0]), key(x)) {
      InsertStable(x, s[1..], key, k);
      InsertAfterHead(x, s, key, k);
    } else {
      assert Insert(x, s, key) == [x] + s;
      SortedAbove(x, s, key);
      if key(x) == k {
        WithKeyNone(s, key, k);
      }
      WithKeyAppend([x], s, key, k);
    }
  }

  /** The step of `InsertStable` where `x` goes after the head of `s`. */
  lemma InsertAfterHead<T>(x: T, s: seq<T>, key: T -> Key, k: Key)
    requires s != [] && KeyLe(key(s[0]), key(x))
    requires WithKey(Insert(x, s[1..], key), key, k) == WithKey(s[1..], key, k) + WithKey([x], key, k)
    ensures WithKey(Insert(x, s, key), key, k) == WithKey(s, key, k) + WithKey([x], key, k)
  {
    var h := if key(s[0]) == k then [s[0]] else [];
    var rest := Insert(x, s[1..], key);
    assert Insert(x, s, key) == [s[0]] + rest;
    assert ([s[0]] + rest)[1..] == rest;
    var tail, mine := WithKey(s[1..], key, k), WithKey([x], key, k);
    assert WithKey(Insert(x, s, key), key, k) == h + (tail + mine);
    assert WithKey(s, key, k) == h + tail;
    Associative(h, tail, mine);
  }

  /** Concatenation is associative. */
  lemma Associative<T>(a: seq<T>, b: seq<T>, c: seq<T>)
    ensures a + (b + c) == (a + b) + c
  {
  }

  /** The sort is stable: elements with equal keys keep their order. */
  lemma {:induction false} SortByStable<T>(s: seq<T>, key: T -> Key, k: Key)
    ensures WithKey(SortBy(s, key), key, k) == WithKey(s, key, k)
  {
    if s != [] {
      var init := s[..|s| - 1];
      assert s == init + [s[|s| - 1]];
      SortByStable(init, key, k);
      InsertStable(s[|s| - 1], SortBy(init, key), key, k);
      WithKeyAppend(init, [s[|s| - 1]], key, k);
    }
  }
}
