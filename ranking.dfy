/**
 * Stable ranking by a descending integer key. Both `Counter.most_common`
 * (for keywords) and `list.sort(key=..., reverse=True)` (for search
 * results) sort this way: larger keys first, equal keys in the order they
 * arrived.
 */
module Ranking {

  ghost predicate SortedDesc<T>(s: seq<T>, key: T -> int) {
    forall i, j :: 0 <= i < j < |s| ==> key(s[i]) >= key(s[j])
  }

  /** `rank` strictly increases along `s` (it is the arrival order). */
  ghost predicate Increasing<T>(s: seq<T>, rank: T -> int) {
    forall i, j :: 0 <= i < j < |s| ==> rank(s[i]) < rank(s[j])
  }

  /** Among elements with equal keys, `rank` strictly increases along `s`. */
  ghost predicate TiesOrdered<T>(s: seq<T>, key: T -> int, rank: T -> int) {
    forall i, j :: 0 <= i < j < |s| && key(s[i]) == key(s[j]) ==> rank(s[i]) < rank(s[j])
  }

  /** Puts `x` in front of the first element whose key is not larger than its own. */
  function Insert<T>(x: T, s: seq<T>, key: T -> int): seq<T> {
    if s == [] || key(x) >= key(s[0]) then [x] + s else [s[0]] + Insert(x, s[1..], key)
  }

  /** Stable insertion sort, largest key first. */
  function SortDesc<T>(s: seq<T>, key: T -> int): seq<T> {
    if s == [] then [] else Insert(s[0], SortDesc(s[1..], key), key)
  }

  lemma {:induction false} InsertPerm<T>(x: T, s: seq<T>, key: T -> int)
    ensures multiset(Insert(x, s, key)) == multiset(s) + multiset{x}
  {
    if s != [] && key(x) < key(s[0]) {
      InsertPerm(x, s[1..], key);
      assert s == [s[0]] + s[1..];
    }
  }

  lemma {:induction false} InsertSorted<T>(x: T, s: seq<T>, key: T -> int)
    requires SortedDesc(s, key)
    ensures SortedDesc(Insert(x, s, key), key)
  {
    if s != [] && key(x) < key(s[0]) {
      InsertSorted(x, s[1..], key);
      InsertPerm(x, s[1..], key);
      var r := Insert(x, s[1..], key);
      forall j | 0 <= j < |r| ensures key(s[0]) >= key(r[j]) {
        assert r[j] in multiset(r);
        assert r[j] == x || r[j] in multiset(s[1..]);
      }
    }
  }

  /** Putting `a` in front keeps ties ordered when `a` ranks below every later element with its key. */
  lemma ConsTies<T>(a: T, r: seq<T>, key: T -> int, rank: T -> int)
    requires TiesOrdered(r, key, rank)
    requires forall j :: 0 <= j < |r| && key(a) == key(r[j]) ==> rank(a) < rank(r[j])
    ensures TiesOrdered([a] + r, key, rank)
  {
    var s := [a] + r;
    forall i, j | 0 <= i < j < |s| && key(s[i]) == key(s[j]) ensures rank(s[i]) < rank(s[j]) {
      assert s[j] == r[j - 1];
      if i > 0 {
        assert s[i] == r[i - 1];
      }
    }
  }

  lemma {:induction false} InsertTies<T>(x: T, s: seq<T>, key: T -> int, rank: T -> int)
    requires SortedDesc(s, key) && TiesOrdered(s, key, rank)
    requires forall y :: y in s ==> rank(x) < rank(y)
    ensures TiesOrdered(Insert(x, s, key), key, rank)
  {
    if s != [] && key(x) < key(s[0]) {
      InsertTies(x, s[1..], key, rank);
      InsertPerm(x, s[1..], key);
      var r := Insert(x, s[1..], key);
      forall j | 0 <= j < |r| && key(s[0]) == key(r[j]) ensures rank(s[0]) < rank(r[j]) {
        assert r[j] in multiset(r);
        if r[j] != x {
          assert r[j] in multiset(s[1..]);
          var k :| 1 <= k < |s| && s[k] == r[j];
        }
      }
      ConsTies(s[0], r, key, rank);
    } else {
      ConsTies(x, s, key, rank);
    }
  }

  /**
   * The sorted sequence is a permutation of the input, is non-increasing by
   * key, and keeps elements with equal keys in their arrival order.
   */
  lemma SortDescSpec<T>(s: seq<T>, key: T -> int, rank: T -> int)
    ensures multiset(SortDesc(s, key)) == multiset(s)
    ensures SortedDesc(SortDesc(s, key), key)
    ensures Increasing(s, rank) ==> TiesOrdered(SortDesc(s, key), key, rank)
  {
    SortDescPerm(s, key);
    SortDescSorted(s, key);
    if Increasing(s, rank) {
      SortDescTies(s, key, rank);
    }
  }

  lemma {:induction false} SortDescPerm<T>(s: seq<T>, key: T -> int)
    ensures multiset(SortDesc(s, key)) == multiset(s)
  {
    if s != [] {
      SortDescPerm(s[1..], key);
      InsertPerm(s[0], SortDesc(s[1..], key), key);
      assert s == [s[0]] + s[1..];
    }
  }

  lemma {:induction false} SortDescSorted<T>(s: seq<T>, key: T -> int)
    ensures SortedDesc(SortDesc(s, key), key)
  {
    if s != [] {
      SortDescSorted(s[1..], key);
      InsertSorted(s[0], SortDesc(s[1..], key), key);
    }
  }

  lemma {:induction false} SortDescTies<T>(s: seq<T>, key: T -> int, rank: T -> int)
    requires Increasing(s, rank)
    ensures TiesOrdered(SortDesc(s, key), key, rank)
  {
    if s != [] {
      var tail := s[1..];
      var r := SortDesc(tail, key);
      assert Increasing(tail, rank) by {
        assert forall k :: 0 <= k < |tail| ==> tail[k] == s[k + 1];
      }
      SortDescTies(tail, key, rank);
      SortDescSorted(tail, key);
      SortDescPerm(tail, key);
      forall y | y in r ensures rank(s[0]) < rank(y) {
        assert y in multiset(tail);
        var k :| 0 <= k < |tail| && tail[k] == y;
        assert s[k + 1] == y;
      }
      InsertTies(s[0], r, key, rank);
    }
  }

  /** `SortDesc` keeps the length of its input. */
  lemma SortDescLength<T>(s: seq<T>, key: T -> int)
    ensures |SortDesc(s, key)| == |s|
  {
    SortDescSpec(s, key, key);
    assert |multiset(SortDesc(s, key))| == |multiset(s)|;
  }

  /** The first `limit` elements; none when `limit` is not positive (as `heapq.nlargest` does). */
  function Take<T>(s: seq<T>, limit: int): (r: seq<T>)
    ensures |r| <= |s| && r == s[..|r|]
    ensures limit <= 0 ==> r == []
    ensures limit > 0 ==> |r| == if limit < |s| then limit else |s|
  {
    if limit <= 0 then [] else if limit < |s| then s[..limit] else s
  }
}
