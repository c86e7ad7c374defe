/** Small value types and sequence combinators shared by every component of the app. */
module Common {

  /** JavaScript's `undefined`/`null` versus a present value. */
  datatype Option<T> = None | Some(value: T)

  /** `Array.prototype.filter`: keeps, in order, the elements satisfying `p`. */
  function Filter<T>(s: seq<T>, p: T -> bool): (r: seq<T>)
    ensures |r| <= |s|
    ensures forall i :: 0 <= i < |r| ==> r[i] in s && p(r[i])
    ensures forall i :: 0 <= i < |s| && p(s[i]) ==> s[i] in r
  {
    if s == [] then [] else (if p(s[0]) then [s[0]] else []) + Filter(s[1..], p)
  }

  /** Filtering a concatenation filters each part: the kept elements stay in their original order. */
  lemma {:induction false} FilterAppend<T>(a: seq<T>, b: seq<T>, p: T -> bool)
    ensures Filter(a + b, p) == Filter(a, p) + Filter(b, p)
  {
    if a == [] {
      assert a + b == b;
    } else {
      assert (a + b)[0] == a[0];
      assert (a + b)[1..] == a[1..] + b;
      FilterAppend(a[1..], b, p);
    }
  }

  /** Filtering keeps exactly the occurrences of the elements that satisfy `p`. */
  lemma {:induction false} FilterMultiset<T>(s: seq<T>, p: T -> bool, x: T)
    ensures multiset(Filter(s, p))[x] == if p(x) then multiset(s)[x] else 0
  {
    if s != [] {
      var head, rest := if p(s[0]) then [s[0]] else [], Filter(s[1..], p);
      assert Filter(s, p) == head + rest;
      FilterMultiset(s[1..], p, x);
      HeadTail(s);
      assert multiset(s) == multiset([s[0]]) + multiset(s[1..]);
      assert multiset(Filter(s, p)) == multiset(head) + multiset(rest);
    }
  }

  /** A filter whose predicate holds everywhere changes nothing. */
  lemma {:induction false} FilterAll<T>(s: seq<T>, p: T -> bool)
    requires forall i :: 0 <= i < |s| ==> p(s[i])
    ensures Filter(s, p) == s
  {
    if s != [] {
      FilterAll(s[1..], p);
    }
  }

  /** `Array.prototype.find`: the first element satisfying `p`, or `undefined`. */
  function FindFirst<T>(s: seq<T>, p: T -> bool): (r: Option<T>)
    ensures r.None? <==> forall i :: 0 <= i < |s| ==> !p(s[i])
    ensures r.Some? ==> exists i :: 0 <= i < |s| && s[i] == r.value && p(s[i]) &&
                                   forall j :: 0 <= j < i ==> !p(s[j])
  {
    if s == [] then None
    else if p(s[0]) then Some(s[0])
    else
      var r := FindFirst(s[1..], p);
      assert r.Some? ==> exists i :: 0 <= i < |s| - 1 && s[1..][i] == r.value && p(s[1..][i]) &&
                                   forall j :: 0 <= j < i ==> !p(s[1..][j]);
      r
  }

  /** A non-empty sequence is its head followed by its tail. */
  lemma HeadTail<T>(s: seq<T>)
    requires s != []
    ensures s == [s[0]] + s[1..]
  {
  }

  /** The prefix of a sequence as long as the sequence is the sequence. */
  lemma TakeAll<T>(s: seq<T>)
    ensures s[..|s|] == s
  {
  }

  /** The sum of a sequence of naturals, as `reduce((a, b) => a + b, 0)` computes it. */
  function Sum(s: seq<nat>): nat
  {
    if s == [] then 0 else s[0] + Sum(s[1..])
  }

  lemma {:induction false} SumAppend(a: seq<nat>, b: seq<nat>)
    ensures Sum(a + b) == Sum(a) + Sum(b)
  {
    if a == [] {
      assert a + b == b;
    } else {
      assert (a + b)[1..] == a[1..] + b;
      SumAppend(a[1..], b);
    }
  }

  function Min(a: int, b: int): int { if a <= b then a else b }

  /** A `Record<string, number>` of counts, as `Object.entries` lists it, in insertion order. */
  type Counts = seq<(string, nat)>

  ghost predicate DistinctKeys(counts: Counts)
  {
    forall i, j :: 0 <= i < j < |counts| ==> counts[i].0 != counts[j].0
  }

  function Values(counts: Counts): (vs: seq<nat>)
    ensures |vs| == |counts| && forall k :: 0 <= k < |vs| ==> vs[k] == counts[k].1
  {
    if counts == [] then [] else [counts[0].1] + Values(counts[1..])
  }

  function Lookup(counts: Counts, key: string): (r: Option<nat>)
    ensures r.None? <==> forall k :: 0 <= k < |counts| ==> counts[k].0 != key
    ensures r.Some? ==> (key, r.value) in counts
  {
    if counts == [] then None
    else if counts[0].0 == key then Some(counts[0].1)
    else Lookup(counts[1..], key)
  }
}
