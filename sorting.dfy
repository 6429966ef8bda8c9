/**
 * Ordering of query results. The repositories sort with SQL `ORDER BY`; the model sorts
 * the table's rows with an insertion sort on an integer key, which fixes one order among
 * rows whose keys tie (the database leaves that order unspecified).
 */
module Sorting {

  /** Non-decreasing by key. */
  ghost predicate SortedBy<T>(s: seq<T>, key: T -> int) {
    forall i, j :: 0 <= i < j < |s| ==> key(s[i]) <= key(s[j])
  }

  /** x placed into sorted s before the first row whose key is not smaller. */
  function Insert<T>(x: T, s: seq<T>, key: T -> int): (r: seq<T>)
    requires SortedBy(s, key)
    ensures SortedBy(r, key)
    ensures multiset(r) == multiset(s) + multiset{x}
  {
    if s == [] then [x]
    else if key(x) <= key(s[0]) then [x] + s
    else
      var rest := Insert(x, s[1..], key);
      assert forall j :: 0 <= j < |rest| ==> key(s[0]) <= key(rest[j]) by {
        forall j | 0 <= j < |rest| ensures key(s[0]) <= key(rest[j]) {
          assert rest[j] in multiset(rest);
          if rest[j] != x {
            assert rest[j] in multiset(s[1..]);
            var k :| 0 <= k < |s[1..]| && s[1..][k] == rest[j];
            assert s[1..][k] == s[k + 1];
          }
        }
      }
      assert s == [s[0]] + s[1..];
      [s[0]] + rest
  }

  /** The rows of s, ordered by ascending key. */
  function SortBy<T>(s: seq<T>, key: T -> int): (r: seq<T>)
    ensures SortedBy(r, key)
    ensures multiset(r) == multiset(s)
  {
    if s == [] then []
    else
      assert s == [s[0]] + s[1..];
      Insert(s[0], SortBy(s[1..], key), key)
  }

  /** Ascending or descending by key, as `Sort.Direction` chooses. */
  function SortDirected<T>(s: seq<T>, key: T -> int, ascending: bool): (r: seq<T>)
    ensures multiset(r) == multiset(s)
    ensures |r| == |s|
    ensures ascending ==> forall i, j :: 0 <= i < j < |r| ==> key(r[i]) <= key(r[j])
    ensures !ascending ==> forall i, j :: 0 <= i < j < |r| ==> key(r[i]) >= key(r[j])
  {
    var r := if ascending then SortBy(s, key) else SortBy(s, x => -key(x));
    assert |r| == |multiset(r)| == |multiset(s)| == |s|;
    r
  }
}
