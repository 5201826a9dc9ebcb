/**
 * `Array.prototype.sort` with a numeric comparator `(a, b) => key(a) - key(b)`,
 * as the fill generators call it on their intersection lists: a stable sort
 * by ascending key (stability is required by ECMAScript 2019 and later).
 * The model sorts by insertion, each element placed after every earlier
 * element whose key is not larger, which is the stable order.
 */
module Sorting {
  import opened Types

  /** Keys ascend along the list. */
  predicate SortedBy(s: seq<Point>, key: Point -> real) {
    forall i, j :: 0 <= i < j < |s| ==> key(s[i]) <= key(s[j])
  }

  /** p inserted before the first element with a larger key. */
  function Insert(p: Point, s: seq<Point>, key: Point -> real): (r: seq<Point>)
    ensures |r| == |s| + 1
  {
    if s == [] then [p]
    else if key(p) < key(s[0]) then [p] + s
    else [s[0]] + Insert(p, s[1..], key)
  }

  /** The list sorted by ascending key, equal keys kept in their original order. */
  function SortBy(s: seq<Point>, key: Point -> real): (r: seq<Point>)
    ensures |r| == |s|
  {
    if s == [] then [] else Insert(s[|s| - 1], SortBy(s[..|s| - 1], key), key)
  }

  /** Insertion adds exactly p. */
  lemma {:induction false} InsertPermutes(p: Point, s: seq<Point>, key: Point -> real)
    ensures multiset(Insert(p, s, key)) == multiset(s) + multiset{p}
  {
    if s != [] && key(p) >= key(s[0]) {
      InsertPermutes(p, s[1..], key);
      assert s == [s[0]] + s[1..];
    }
  }

  /** Insertion into a sorted list keeps it sorted. */
  lemma {:induction false} InsertSorted(p: Point, s: seq<Point>, key: Point -> real)
    requires SortedBy(s, key)
    ensures SortedBy(Insert(p, s, key), key)
  {
    if s != [] && key(p) >= key(s[0]) {
      var rest := Insert(p, s[1..], key);
      InsertSorted(p, s[1..], key);
      InsertPermutes(p, s[1..], key);
      forall k | 0 <= k < |rest|
        ensures key(s[0]) <= key(rest[k])
      {
        assert rest[k] in multiset(rest);
        assert rest[k] in multiset(s[1..]) || rest[k] == p;
        if rest[k] != p {
          var m :| 0 <= m < |s[1..]| && s[1..][m] == rest[k];
          assert s[m + 1] == rest[k];
        }
      }
    }
  }

  /** The sort returns a permutation of its input in ascending key order. */
  lemma {:induction false} SortByIsSortedPermutation(s: seq<Point>, key: Point -> real)
    ensures SortedBy(SortBy(s, key), key)
    ensures multiset(SortBy(s, key)) == multiset(s)
  {
    if s != [] {
      var n := |s| - 1;
      SortByIsSortedPermutation(s[..n], key);
      InsertSorted(s[n], SortBy(s[..n], key), key);
      InsertPermutes(s[n], SortBy(s[..n], key), key);
      assert s == s[..n] + [s[n]];
    }
  }
}
