/**
  `ORDER BY <key> DESC` over an abstract table: a stable insertion sort on
  an integer key. Postgres leaves the order of equal keys unspecified; the
  model fixes one (table order), and every property below is stated only in
  terms of the keys and the multiset of rows.
*/
module Sorting {

  /** Keys never increase along `s`. */
  predicate SortedDesc<T>(s: seq<T>, key: T -> int)
  {
    forall i, j :: 0 <= i < j < |s| ==> key(s[i]) >= key(s[j])
  }

  function Insert<T>(x: T, s: seq<T>, key: T -> int): (r: seq<T>)
    requires SortedDesc(s, key)
    ensures SortedDesc(r, key)
    ensures multiset(r) == multiset(s) + multiset{x}
    ensures |r| == |s| + 1
    ensures r[0] == x || (s != [] && r[0] == s[0])
  {
    if s == [] || key(x) >= key(s[0]) then
      ConsSorted(x, s, key);
      [x] + s
    else
      var tail := Insert(x, s[1..], key);
      InsertStep(x, s, tail, key);
      [s[0]] + tail
  }

  /** Putting the larger head back in front of the insertion into the
      rest. */
  lemma InsertStep<T>(x: T, s: seq<T>, tail: seq<T>, key: T -> int)
    requires SortedDesc(s, key) && s != [] && key(x) < key(s[0])
    requires SortedDesc(tail, key) && multiset(tail) == multiset(s[1..]) + multiset{x} && |tail| == |s|
    requires tail[0] == x || (s[1..] != [] && tail[0] == s[1..][0])
    ensures SortedDesc([s[0]] + tail, key)
    ensures multiset([s[0]] + tail) == multiset(s) + multiset{x}
  {
    assert s == [s[0]] + s[1..];
    assert key(s[0]) >= key(tail[0]);
    ConsSorted(s[0], tail, key);
  }

  /** A head no smaller than the sorted tail's first key keeps it sorted. */
  lemma ConsSorted<T>(y: T, t: seq<T>, key: T -> int)
    requires SortedDesc(t, key)
    requires t != [] ==> key(y) >= key(t[0])
    ensures SortedDesc([y] + t, key)
  {
    var r := [y] + t;
    forall i, j | 0 <= i < j < |r|
      ensures key(r[i]) >= key(r[j])
    {
      if i == 0 {
        assert r[j] == t[j - 1];
        assert key(t[0]) >= key(t[j - 1]) || j == 1;
      } else {
        assert r[i] == t[i - 1] && r[j] == t[j - 1];
      }
    }
  }

  /** The rows of `s` ordered by `key`, largest first. */
  function SortDesc<T>(s: seq<T>, key: T -> int): (r: seq<T>)
    ensures SortedDesc(r, key)
    ensures multiset(r) == multiset(s)
    ensures |r| == |s|
  {
    if s == [] then []
    else
      assert s == [s[0]] + s[1..];
      Insert(s[0], SortDesc(s[1..], key), key)
  }

  /** A row whose key is strictly larger than every other row's comes first. */
  lemma NewestFirst<T>(s: seq<T>, key: T -> int, x: T)
    requires x in s
    requires forall i :: 0 <= i < |s| && s[i] != x ==> key(s[i]) < key(x)
    ensures SortDesc(s, key) != [] && SortDesc(s, key)[0] == x
  {
    var r := SortDesc(s, key);
    assert x in multiset(r);
    var k :| 0 <= k < |r| && r[k] == x;
    assert key(r[0]) >= key(x);
    assert r[0] in multiset(s);
    var j :| 0 <= j < |s| && s[j] == r[0];
    assert s[j] == x;
  }
}
