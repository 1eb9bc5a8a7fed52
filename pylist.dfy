/**
 * Python list and string semantics the backend relies on: slicing with
 * possibly negative bounds, `list.remove` (first occurrence only), and
 * `str.lower`.
 */
module PyList {

  /** No element occurs twice. */
  predicate Distinct<T(==)>(s: seq<T>) {
    forall i, j :: 0 <= i < j < |s| ==> s[i] != s[j]
  }

  /** Python's normalisation of one slice bound against a list of length n. */
  function Bound(k: int, n: nat): (b: nat)
    ensures b <= n
    ensures 0 <= k <= n ==> b == k
    ensures k > n ==> b == n
    ensures k < 0 ==> b == if k + n < 0 then 0 else k + n
  {
    if k < 0 then (if k + n < 0 then 0 else k + n)
    else if k > n then n
    else k
  }

  /** `s[start:stop]` as Python evaluates it. */
  function Slice<T>(s: seq<T>, start: int, stop: int): (r: seq<T>)
    ensures |r| <= |s|
    ensures |r| == if Bound(start, |s|) < Bound(stop, |s|) then Bound(stop, |s|) - Bound(start, |s|) else 0
    ensures forall i :: 0 <= i < |r| ==> Bound(start, |s|) + i < |s| && r[i] == s[Bound(start, |s|) + i]
  {
    var lo := Bound(start, |s|);
    var hi := Bound(stop, |s|);
    if lo < hi then s[lo..hi] else []
  }

  /** The `skip`/`limit` pagination of the list endpoints, for non-negative arguments. */
  lemma SliceWindow<T>(s: seq<T>, skip: int, limit: int)
    requires 0 <= skip && 0 <= limit
    ensures var r := Slice(s, skip, skip + limit);
      && |r| <= limit
      && (skip <= |s| ==> r == s[skip..if skip + limit <= |s| then skip + limit else |s|])
      && (skip >= |s| ==> r == [])
  {
  }

  /** `s[:limit]`: the first `limit` elements, or all but the last `-limit` for a negative limit. */
  lemma {:induction false} SlicePrefix<T>(s: seq<T>, limit: int)
    ensures var r := Slice(s, 0, limit);
      && r <= s
      && (0 <= limit ==> |r| == if limit <= |s| then limit else |s|)
      && (limit < 0 ==> |r| == if |s| + limit < 0 then 0 else |s| + limit)
  {
  }

  /** `list.index(x)`: the position of the first occurrence. */
  function IndexOf<T(==)>(s: seq<T>, x: T): (i: nat)
    requires x in s
    ensures i < |s| && s[i] == x && x !in s[..i]
  {
    if s[0] == x then 0
    else
      var i := 1 + IndexOf(s[1..], x);
      assert s[..i] == [s[0]] + s[1..][..i - 1];
      i
  }

  /** `list.remove(x)`: drops the first occurrence of `x` (the source only calls it when `x` is present). */
  function RemoveFirst<T(==)>(s: seq<T>, x: T): (r: seq<T>)
    ensures x in s ==> |r| == |s| - 1
    ensures x !in s ==> r == s
    ensures multiset(r) == multiset(s) - multiset{x}
  {
    if s == [] then []
    else
      assert s == [s[0]] + s[1..];
      if s[0] == x then s[1..] else [s[0]] + RemoveFirst(s[1..], x)
  }

  /** `list.remove(x)` removes exactly the first occurrence and keeps the order of the rest. */
  lemma {:induction false} RemoveFirstAt<T>(s: seq<T>, x: T, i: nat)
    requires i < |s| && s[i] == x && x !in s[..i]
    ensures RemoveFirst(s, x) == s[..i] + s[i + 1..]
  {
    if i > 0 {
      assert s[0] in s[..i];
      var t := s[1..];
      assert t[..i - 1] == s[1..i];
      RemoveFirstAt(t, x, i - 1);
      assert s[..i] == [s[0]] + t[..i - 1];
      assert s[i + 1..] == t[i..];
    }
  }

  /** The same, at the position `list.index(x)` reports. */
  lemma {:induction false} RemoveFirstAtIndex<T>(s: seq<T>, x: T)
    requires x in s
    ensures RemoveFirst(s, x) == s[..IndexOf(s, x)] + s[IndexOf(s, x) + 1..]
  {
    RemoveFirstAt(s, x, IndexOf(s, x));
  }

  /** Appending an absent element and then removing it gives the list back. */
  lemma {:induction false} RemoveFirstAfterAppend<T>(s: seq<T>, x: T)
    requires x !in s
    ensures RemoveFirst(s + [x], x) == s
  {
    if s != [] {
      assert (s + [x])[1..] == s[1..] + [x];
      RemoveFirstAfterAppend(s[1..], x);
    }
  }

  /** Removing from a duplicate-free list removes `x` altogether, keeps the order of the
      others and keeps the list duplicate-free. */
  lemma {:induction false} RemoveFirstDistinct<T>(s: seq<T>, x: T)
    requires Distinct(s)
    ensures var r := RemoveFirst(s, x);
      && r == Without(s, x)
      && x !in r
      && Distinct(r)
  {
    if s != [] {
      assert Distinct(s[1..]);
      RemoveFirstDistinct(s[1..], x);
      if s[0] == x {
        assert s[0] !in s[1..];
        WithoutAbsent(s[1..], x);
      }
    }
    WithoutDistinct(s, x);
  }

  /** `[t for t in s if t != x]`, the filter the front-end uses to drop a value. */
  function Without<T(==)>(s: seq<T>, x: T): (r: seq<T>)
    ensures x !in r
    ensures forall i :: 0 <= i < |r| ==> r[i] in s && r[i] != x
    ensures forall i :: 0 <= i < |s| && s[i] != x ==> s[i] in r
    ensures |r| <= |s|
  {
    if s == [] then []
    else if s[0] == x then Without(s[1..], x)
    else [s[0]] + Without(s[1..], x)
  }

  /** Filtering an absent value changes nothing. */
  lemma {:induction false} WithoutAbsent<T>(s: seq<T>, x: T)
    requires x !in s
    ensures Without(s, x) == s
  {
    if s != [] {
      WithoutAbsent(s[1..], x);
      assert s == [s[0]] + s[1..];
    }
  }

  /** Filtering keeps a duplicate-free list duplicate-free. */
  lemma {:induction false} WithoutDistinct<T>(s: seq<T>, x: T)
    requires Distinct(s)
    ensures Distinct(Without(s, x))
  {
    if s != [] {
      assert Distinct(s[1..]);
      WithoutDistinct(s[1..], x);
    }
  }

  /** Filtering distributes over an appended element. */
  lemma {:induction false} WithoutAppend<T>(s: seq<T>, x: T, t: T)
    ensures Without(s + [x], t) == Without(s, t) + (if x == t then [] else [x])
  {
    if s == [] {
      assert [] + [x] == [x];
    } else {
      assert (s + [x])[1..] == s[1..] + [x];
      WithoutAppend(s[1..], x, t);
    }
  }

  /** Python's `str.lower()` on one character (ASCII letters). */
  function LowerChar(c: char): char {
    if 'A' <= c <= 'Z' then (c as int + 32) as char else c
  }

  function Lower(s: string): (r: string)
    ensures |r| == |s|
    ensures forall i :: 0 <= i < |s| ==> r[i] == LowerChar(s[i])
  {
    if s == [] then [] else [LowerChar(s[0])] + Lower(s[1..])
  }

  /** Lower-casing twice is lower-casing once. */
  lemma LowerIdempotent(s: string)
    ensures Lower(Lower(s)) == Lower(s)
  {
    assert forall i :: 0 <= i < |s| ==> LowerChar(LowerChar(s[i])) == LowerChar(s[i]);
  }

  /** `[Lower(x) for x in s]`. */
  function LowerAll(s: seq<string>): (r: seq<string>)
    ensures |r| == |s|
    ensures forall i :: 0 <= i < |s| ==> r[i] == Lower(s[i])
  {
    if s == [] then [] else [Lower(s[0])] + LowerAll(s[1..])
  }
}
