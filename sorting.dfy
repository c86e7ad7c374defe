/** `Array.prototype.sort` with the comparator `(a, b) => key(b) - key(a)`, used by the mood
    summaries: a descending sort by a numeric key which, as ECMAScript 2019 requires of `sort`, is
    stable. It is modelled as an insertion sort that puts each element after the ones already placed
    whose key is at least as large. */
module Sorting {

  ghost predicate SortedDesc<T>(s: seq<T>, key: T -> int)
  {
    forall i, j :: 0 <= i < j < |s| ==> key(s[i]) >= key(s[j])
  }

  /** Element `i` of `s` is the first one with the largest key. */
  ghost predicate IsFirstMax<T>(s: seq<T>, key: T -> int, i: int)
  {
    0 <= i < |s| &&
    (forall j :: 0 <= j < |s| ==> key(s[j]) <= key(s[i])) &&
    (forall j :: 0 <= j < i ==> key(s[j]) < key(s[i]))
  }

  /** Places `x` into a sorted sequence after every element whose key is at least `key(x)`. */
  function Insert<T>(sorted: seq<T>, x: T, key: T -> int): (r: seq<T>)
    ensures |r| == |sorted| + 1
    ensures multiset(r) == multiset(sorted) + multiset{x}
  {
    if sorted == [] then [x]
    else if key(x) > key(sorted[0]) then [x] + sorted
    else
      assert sorted == [sorted[0]] + sorted[1..];
      [sorted[0]] + Insert(sorted[1..], x, key)
  }

  function SortDesc<T>(s: seq<T>, key: T -> int): (r: seq<T>)
    ensures |r| == |s|
  {
    if s == [] then [] else Insert(SortDesc(s[..|s| - 1], key), s[|s| - 1], key)
  }

  lemma {:induction false} InsertSorted<T>(sorted: seq<T>, x: T, key: T -> int)
    requires SortedDesc(sorted, key)
    ensures SortedDesc(Insert(sorted, x, key), key)
    ensures forall k :: 0 <= k < |Insert(sorted, x, key)| ==>
              key(Insert(sorted, x, key)[k]) <= key(x) || (sorted != [] && key(Insert(sorted, x, key)[k]) <= key(sorted[0]))
    ensures sorted != [] && key(x) <= key(sorted[0]) ==> Insert(sorted, x, key)[0] == sorted[0]
    ensures sorted == [] || key(x) > key(sorted[0]) ==> Insert(sorted, x, key)[0] == x
  {
    if sorted != [] && key(x) <= key(sorted[0]) {
      var tail := sorted[1..];
      SortedTail(sorted, key);
      InsertSorted(tail, x, key);
      var ins := Insert(tail, x, key);
      assert Insert(sorted, x, key) == [sorted[0]] + ins;
      assert tail != [] ==> key(tail[0]) <= key(sorted[0]);
      SortedCons(sorted[0], ins, key);
    } else if sorted != [] {
      SortedCons(x, sorted, key);
    }
  }

  lemma SortedTail<T>(s: seq<T>, key: T -> int)
    requires s != [] && SortedDesc(s, key)
    ensures SortedDesc(s[1..], key) && forall k :: 0 <= k < |s| - 1 ==> key(s[1..][k]) <= key(s[0])
  {
    var tail := s[1..];
    forall i, j | 0 <= i < j < |tail| ensures key(tail[i]) >= key(tail[j]) {
      assert tail[i] == s[i + 1] && tail[j] == s[j + 1];
    }
  }

  /** An element followed by a sorted sequence of no larger keys is sorted. */
  lemma SortedCons<T>(x: T, s: seq<T>, key: T -> int)
    requires SortedDesc(s, key) && forall k :: 0 <= k < |s| ==> key(s[k]) <= key(x)
    ensures SortedDesc([x] + s, key) && forall k :: 0 <= k < |s| + 1 ==> key(([x] + s)[k]) <= key(x)
  {
    var r := [x] + s;
    forall i, j | 0 <= i < j < |r| ensures key(r[i]) >= key(r[j]) {
      assert r[j] == s[j - 1];
      if i > 0 {
        assert r[i] == s[i - 1];
      }
    }
  }

  /** The sort yields its input in descending key order. */
  lemma {:induction false} SortDescSorted<T>(s: seq<T>, key: T -> int)
    ensures SortedDesc(SortDesc(s, key), key)
  {
    if s != [] {
      SortDescSorted(s[..|s| - 1], key);
      InsertSorted(SortDesc(s[..|s| - 1], key), s[|s| - 1], key);
    }
  }

  /** The sort rearranges its input: every element occurs as often as before. */
  lemma {:induction false} SortDescPermutation<T>(s: seq<T>, key: T -> int)
    ensures multiset(SortDesc(s, key)) == multiset(s)
  {
    if s != [] {
      SortDescPermutation(s[..|s| - 1], key);
      assert s == s[..|s| - 1] + [s[|s| - 1]];
    }
  }

  /** Stability at the head: the first element of the sorted sequence is the first element of the
      input with the largest key, so ties go to the earliest element. */
  lemma {:induction false} SortDescHead<T>(s: seq<T>, key: T -> int)
    requires s != []
    ensures exists i :: IsFirstMax(s, key, i) && SortDesc(s, key)[0] == s[i]
  {
    var init, x := s[..|s| - 1], s[|s| - 1];
    assert s == init + [x];
    SortDescSorted(init, key);
    var sorted := SortDesc(init, key);
    InsertSorted(sorted, x, key);
    if init == [] {
      assert IsFirstMax(s, key, 0);
    } else {
      SortDescHead(init, key);
      var i :| IsFirstMax(init, key, i) && sorted[0] == init[i];
      FirstMaxSnoc(init, x, key, i);
    }
  }

  /** Appending an element keeps the first maximum unless the new element's key is larger. */
  lemma FirstMaxSnoc<T>(s: seq<T>, x: T, key: T -> int, i: int)
    requires IsFirstMax(s, key, i)
    ensures key(x) > key(s[i]) ==> IsFirstMax(s + [x], key, |s|)
    ensures key(x) <= key(s[i]) ==> IsFirstMax(s + [x], key, i)
  {
    var t := s + [x];
    forall j | 0 <= j < |s| ensures t[j] == s[j] {
    }
  }

  /** There is only one first maximum. */
  lemma FirstMaxUnique<T>(s: seq<T>, key: T -> int, i: int, j: int)
    requires IsFirstMax(s, key, i) && IsFirstMax(s, key, j)
    ensures i == j
  {
    assert key(s[i]) == key(s[j]);
  }
}
