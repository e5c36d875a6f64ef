/**
 * `Array.prototype.filter` and the stable `Array.prototype.sort` with a numeric key, which the
 * month view and the delete handler use, with what they guarantee.
 */
module Sequences {

  /** `s.filter(p)`. */
  function Filter<T>(s: seq<T>, p: T -> bool): (r: seq<T>)
    ensures |r| <= |s|
    ensures forall i :: 0 <= i < |r| ==> p(r[i])
  {
    if s == [] then []
    else if p(s[0]) then [s[0]] + Filter(s[1..], p) else Filter(s[1..], p)
  }

  /** Filtering keeps exactly the elements that pass: every one that passes, and no other. */
  lemma {:induction false} FilterMembers<T>(s: seq<T>, p: T -> bool)
    ensures forall i :: 0 <= i < |s| && p(s[i]) ==> s[i] in Filter(s, p)
    ensures forall x :: x in Filter(s, p) ==> x in s && p(x)
  {
    if s != [] {
      FilterMembers(s[1..], p);
      var r, rest := Filter(s, p), Filter(s[1..], p);
      forall i | 0 <= i < |s| && p(s[i])
        ensures s[i] in r
      {
        if i > 0 {
          assert s[1..][i - 1] == s[i];
        }
      }
      forall x | x in r
        ensures x in s && p(x)
      {
        if x != s[0] || !p(s[0]) {
          assert x in rest;
        }
      }
    }
  }

  /**
   * Filtering keeps every copy of an element that passes and no copy of one that fails:
   * no duplicate is dropped.
   */
  lemma {:induction false} FilterCounts<T>(s: seq<T>, p: T -> bool)
    ensures forall x :: multiset(Filter(s, p))[x] == if p(x) then multiset(s)[x] else 0
  {
    if s != [] {
      FilterCounts(s[1..], p);
      assert s == [s[0]] + s[1..];
      assert multiset(s) == multiset{s[0]} + multiset(s[1..]);
    }
  }

  /** Filtering an element in front. */
  lemma FilterCons<T>(x: T, s: seq<T>, p: T -> bool)
    ensures Filter([x] + s, p) == if p(x) then [x] + Filter(s, p) else Filter(s, p)
  {
    assert ([x] + s)[1..] == s;
  }

  /** Filtering distributes over concatenation. */
  lemma {:induction false} FilterAppend<T>(a: seq<T>, b: seq<T>, p: T -> bool)
    ensures Filter(a + b, p) == Filter(a, p) + Filter(b, p)
  {
    if a == [] {
      assert a + b == b;
    } else {
      var x, tail := a[0], a[1..];
      var head: seq<T> := if p(x) then [x] else [];
      calc {
        Filter(a + b, p);
        { assert a + b == [x] + (tail + b); FilterCons(x, tail + b, p); }
        head + Filter(tail + b, p);
        { FilterAppend(tail, b, p); }
        head + (Filter(tail, p) + Filter(b, p));
        (head + Filter(tail, p)) + Filter(b, p);
        { assert a == [x] + tail; FilterCons(x, tail, p); }
        Filter(a, p) + Filter(b, p);
      }
    }
  }

  /** A filter every element passes changes nothing. */
  lemma {:induction false} FilterAll<T>(s: seq<T>, p: T -> bool)
    requires forall i :: 0 <= i < |s| ==> p(s[i])
    ensures Filter(s, p) == s
  {
    if s != [] {
      FilterAll(s[1..], p);
    }
  }

  /** `r` is `s` with some elements left out, the rest in their order. */
  ghost predicate SubseqOf<T>(r: seq<T>, s: seq<T>)
  {
    r == [] || (s != [] && ((r[0] == s[0] && SubseqOf(r[1..], s[1..])) || SubseqOf(r, s[1..])))
  }

  /** What a filter keeps is a subsequence of its input: the order is preserved. */
  lemma {:induction false} FilterIsSubseq<T>(s: seq<T>, p: T -> bool)
    ensures SubseqOf(Filter(s, p), s)
  {
    if s != [] {
      FilterIsSubseq(s[1..], p);
      if p(s[0]) {
        assert Filter(s, p)[1..] == Filter(s[1..], p);
      }
    }
  }

  /** The elements of `s` whose key is `k`, in their order in `s`. */
  function WithKey<T>(s: seq<T>, key: T -> int, k: int): seq<T>
  {
    if s == [] then [] else (if key(s[0]) == k then [s[0]] else []) + WithKey(s[1..], key, k)
  }

  lemma WithKeyCons<T>(x: T, s: seq<T>, key: T -> int, k: int)
    ensures WithKey([x] + s, key, k) == (if key(x) == k then [x] else []) + WithKey(s, key, k)
  {
    assert ([x] + s)[1..] == s;
  }

  predicate SortedBy<T>(s: seq<T>, key: T -> int)
  {
    forall i, j :: 0 <= i < j < |s| ==> key(s[i]) <= key(s[j])
  }

  /** `x` placed before the first element of `s` whose key is not below its own. */
  function Insert<T>(x: T, s: seq<T>, key: T -> int): (r: seq<T>)
    ensures |r| == |s| + 1
  {
    if s == [] || key(x) <= key(s[0]) then [x] + s
    else [s[0]] + Insert(x, s[1..], key)
  }

  /** Inserting adds `x` and loses nothing. */
  lemma {:induction false} InsertPermutes<T>(x: T, s: seq<T>, key: T -> int)
    ensures multiset(Insert(x, s, key)) == multiset(s) + multiset{x}
  {
    if s != [] && key(x) > key(s[0]) {
      InsertPermutes(x, s[1..], key);
      assert s == [s[0]] + s[1..];
    }
  }

  /** Inserting into a sorted sequence keeps it sorted. */
  lemma {:induction false} InsertSorted<T>(x: T, s: seq<T>, key: T -> int)
    requires SortedBy(s, key)
    ensures SortedBy(Insert(x, s, key), key)
  {
    if s != [] && key(x) > key(s[0]) {
      var tail := Insert(x, s[1..], key);
      InsertSorted(x, s[1..], key);
      InsertPermutes(x, s[1..], key);
      forall i | 0 <= i < |tail|
        ensures key(s[0]) <= key(tail[i])
      {
        assert tail[i] in multiset(tail);
        if tail[i] != x {
          assert tail[i] in multiset(s[1..]);
          var j :| 0 <= j < |s[1..]| && s[1..][j] == tail[i];
          assert s[j + 1] == tail[i];
        }
      }
      assert Insert(x, s, key) == [s[0]] + tail;
    }
  }

  /** Inserting keeps elements with equal keys in the order of `[x] + s`. */
  lemma {:induction false} InsertStable<T>(x: T, s: seq<T>, key: T -> int, k: int)
    ensures WithKey(Insert(x, s, key), key, k) == WithKey([x] + s, key, k)
  {
    if s != [] && key(x) > key(s[0]) {
      var y, tail := s[0], s[1..];
      var ins := Insert(x, tail, key);
      var hx: seq<T> := if key(x) == k then [x] else [];
      var hy: seq<T> := if key(y) == k then [y] else [];
      var w := WithKey(tail, key, k);
      assert Insert(x, s, key) == [y] + ins;
      assert s == [y] + tail;
      InsertStable(x, tail, key, k);
      WithKeyCons(y, ins, key, k);
      WithKeyCons(x, tail, key, k);
      assert WithKey([y] + ins, key, k) == hy + (hx + w);
      WithKeyCons(y, tail, key, k);
      WithKeyCons(x, s, key, k);
      assert WithKey([x] + s, key, k) == hx + (hy + w);
      assert hx == [] || hy == [];
      assert hy + (hx + w) == hx + (hy + w);
    }
  }

  /**
   * `s.sort((a, b) => key(a) - key(b))`, which is stable: an insertion sort that places each
   * element before the later ones of equal key. The result is ordered by key, holds the
   * same elements, and keeps the elements of each key in their input order.
   */
  function StableSortBy<T>(s: seq<T>, key: T -> int): (r: seq<T>)
    ensures |r| == |s| && multiset(r) == multiset(s)
    ensures SortedBy(r, key)
    ensures forall k :: WithKey(r, key, k) == WithKey(s, key, k)
  {
    if s == [] then []
    else
      var rest := StableSortBy(s[1..], key);
      var r := Insert(s[0], rest, key);
      assert s == [s[0]] + s[1..];
      InsertPermutes(s[0], rest, key);
      InsertSorted(s[0], rest, key);
      forall k
        ensures WithKey(r, key, k) == WithKey(s, key, k)
      {
        InsertStable(s[0], rest, key, k);
        WithKeyCons(s[0], rest, key, k);
      }
      r
  }
}
