/**
 * Python's `list.sort(key=...)`: a stable sort by a key. Keys here are pairs
 * ordered lexicographically, which covers both the plain timestamp keys and the
 * `(rank, timestamp)` tuples the Canvas service sorts by.
 */
module Sorting {

  /** A sort key: tuples compare by `rank` first, then by `at`. */
  datatype Key = Key(rank: int, at: int)

  predicate KeyLe(a: Key, b: Key) {
    a.rank < b.rank || (a.rank == b.rank && a.at <= b.at)
  }

  predicate SortedBy<T>(s: seq<T>, key: T -> Key) {
    forall i, j :: 0 <= i < j < |s| ==> KeyLe(key(s[i]), key(s[j]))
  }

  /** The elements of s whose key is k, in order. */
  function WithKey<T>(s: seq<T>, key: T -> Key, k: Key): seq<T>
    decreases |s|
  {
    if s == [] then []
    else (if key(s[0]) == k then [s[0]] else []) + WithKey(s[1..], key, k)
  }

  /** Puts x in front of the first element whose key is not below x's. */
  function Insert<T>(x: T, s: seq<T>, key: T -> Key): (r: seq<T>)
    decreases |s|
  {
    if s == [] || KeyLe(key(x), key(s[0])) then [x] + s
    else [s[0]] + Insert(x, s[1..], key)
  }

  /** Insertion sort, the first element inserted last so that it lands before its equals. */
  function SortBy<T>(s: seq<T>, key: T -> Key): (r: seq<T>)
    decreases |s|
  {
    if s == [] then [] else Insert(s[0], SortBy(s[1..], key), key)
  }

  lemma {:induction false} InsertPermutes<T>(x: T, s: seq<T>, key: T -> Key)
    ensures multiset(Insert(x, s, key)) == multiset(s) + multiset{x}
    decreases |s|
  {
    if !(s == [] || KeyLe(key(x), key(s[0]))) {
      InsertPermutes(x, s[1..], key);
      assert s == [s[0]] + s[1..];
    }
  }

  lemma {:induction false} InsertSorted<T>(x: T, s: seq<T>, key: T -> Key)
    requires SortedBy(s, key)
    ensures SortedBy(Insert(x, s, key), key)
    decreases |s|
  {
    if !(s == [] || KeyLe(key(x), key(s[0]))) {
      var tail := s[1..];
      InsertSorted(x, tail, key);
      InsertPermutes(x, tail, key);
      var r := Insert(x, tail, key);
      forall y | y in r
        ensures KeyLe(key(s[0]), key(y))
      {
        assert y in multiset(r);
        if y != x {
          assert y in multiset(tail);
          var j :| 0 <= j < |tail| && tail[j] == y;
          assert s[j + 1] == y;
        }
      }
      var whole := [s[0]] + r;
      forall i, j | 0 <= i < j < |whole|
        ensures KeyLe(key(whole[i]), key(whole[j]))
      {
        if i == 0 {
          assert whole[j] in r;
        } else {
          assert whole[i] == r[i - 1] && whole[j] == r[j - 1];
        }
      }
    }
  }

  /** The sorted list is ordered by key and holds exactly the input's elements, as often as the input does. */
  lemma {:induction false} SortBySortsAndPermutes<T>(s: seq<T>, key: T -> Key)
    ensures SortedBy(SortBy(s, key), key)
    ensures multiset(SortBy(s, key)) == multiset(s)
    decreases |s|
  {
    if s != [] {
      SortBySortsAndPermutes(s[1..], key);
      InsertSorted(s[0], SortBy(s[1..], key), key);
      InsertPermutes(s[0], SortBy(s[1..], key), key);
      assert s == [s[0]] + s[1..];
    }
  }

  lemma {:induction false} WithKeyAppend<T>(a: seq<T>, b: seq<T>, key: T -> Key, k: Key)
    ensures WithKey(a + b, key, k) == WithKey(a, key, k) + WithKey(b, key, k)
    decreases |a|
  {
    if a == [] {
      assert a + b == b;
    } else {
      assert (a + b)[1..] == a[1..] + b;
      WithKeyAppend(a[1..], b, key, k);
    }
  }

  lemma SortedTail<T>(s: seq<T>, key: T -> Key)
    requires SortedBy(s, key) && s != []
    ensures SortedBy(s[1..], key)
  {
    var tail := s[1..];
    forall i, j | 0 <= i < j < |tail|
      ensures KeyLe(key(tail[i]), key(tail[j]))
    {
      assert tail[i] == s[i + 1] && tail[j] == s[j + 1];
    }
  }

  /** Inserting x in a sorted list keeps the elements of each key in their order, x first among its equals. */
  lemma {:induction false} InsertStable<T>(x: T, s: seq<T>, key: T -> Key, k: Key)
    requires SortedBy(s, key)
    ensures WithKey(Insert(x, s, key), key, k) == (if key(x) == k then [x] else []) + WithKey(s, key, k)
    decreases |s|
  {
    if s == [] || KeyLe(key(x), key(s[0])) {
      assert ([x] + s)[1..] == s;
    } else {
      var tail := s[1..];
      SortedTail(s, key);
      InsertStable(x, tail, key, k);
      var r := Insert(x, tail, key);
      assert ([s[0]] + r)[1..] == r;
      var head := if key(s[0]) == k then [s[0]] else [];
      var mine := if key(x) == k then [x] else [];
      assert WithKey([s[0]] + r, key, k) == head + WithKey(r, key, k);
      assert WithKey(s, key, k) == head + WithKey(tail, key, k);
      assert head == [] || mine == [];
    }
  }

  /** Stability: among elements with equal keys, the sorted list keeps the input order. */
  lemma {:induction false} SortByStable<T>(s: seq<T>, key: T -> Key, k: Key)
    ensures WithKey(SortBy(s, key), key, k) == WithKey(s, key, k)
    decreases |s|
  {
    if s != [] {
      SortByStable(s[1..], key, k);
      SortBySortsAndPermutes(s[1..], key);
      InsertStable(s[0], SortBy(s[1..], key), key, k);
    }
  }
}
