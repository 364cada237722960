/** Ordering of query results (`ORDER BY <key> ASC`): a stable insertion sort on an integer
    key. The store leaves the order of rows with equal keys unspecified; keeping their
    scan order is one of the orders it may produce. */
module Sorting {

  /** `s` is ordered by non-decreasing `key`. */
  predicate SortedBy<T>(s: seq<T>, key: T -> int) {
    forall i, j :: 0 <= i < j < |s| ==> key(s[i]) <= key(s[j])
  }

  /** Inserts `x` before the first element whose key is not smaller than its own. */
  function Insert<T>(x: T, s: seq<T>, key: T -> int): (r: seq<T>)
    requires SortedBy(s, key)
    ensures SortedBy(r, key)
    ensures multiset(r) == multiset(s) + multiset{x}
    decreases |s|
  {
    if s == [] || key(x) <= key(s[0]) then [x] + s
    else
      var r' := Insert(x, s[1..], key);
      assert s == [s[0]] + s[1..];
      InsertedAboveHead(x, s, key, r');
      [s[0]] + r'
  }

  lemma InsertedAboveHead<T>(x: T, s: seq<T>, key: T -> int, r': seq<T>)
    requires s != [] && SortedBy(s, key) && key(s[0]) < key(x)
    requires multiset(r') == multiset(s[1..]) + multiset{x}
    ensures forall k :: 0 <= k < |r'| ==> key(s[0]) <= key(r'[k])
  {
    forall k | 0 <= k < |r'|
      ensures key(s[0]) <= key(r'[k])
    {
      assert r'[k] in multiset(r');
      if r'[k] != x {
        assert r'[k] in multiset(s[1..]);
        var m :| 0 <= m < |s[1..]| && s[1..][m] == r'[k];
        assert s[m + 1] == r'[k];
      }
    }
  }

  /** The elements of `s`, ordered by non-decreasing `key`. */
  function SortBy<T>(s: seq<T>, key: T -> int): (r: seq<T>)
    ensures SortedBy(r, key)
    ensures multiset(r) == multiset(s)
    decreases |s|
  {
    if s == [] then []
    else
      assert s == [s[0]] + s[1..];
      Insert(s[0], SortBy(s[1..], key), key)
  }

  /** A permutation keeps every element and the length. */
  lemma PermutationKeepsElements<T>(a: seq<T>, b: seq<T>)
    requires multiset(a) == multiset(b)
    ensures |a| == |b|
    ensures forall x :: x in a <==> x in b
  {
    assert |a| == |multiset(a)|;
    forall x
      ensures x in a <==> x in b
    {
      assert x in a <==> x in multiset(a);
      assert x in b <==> x in multiset(b);
    }
  }
}
