/**
 * The document-store queries the handlers issue, on a collection held as a
 * sequence in insertion order: `findOne` (the first match), `find`
 * (all matches, in order), `sort({ createdAt: -1 })`, `skip`/`limit`,
 * `deleteOne` (the first match) and `deleteMany`.
 */
module Collections {
  import opened Wrappers

  /** The index of the first element satisfying `p`, as `findOne` returns the first match. */
  function FindFrom<T>(xs: seq<T>, p: T -> bool, from: nat): (r: Option<nat>)
    ensures r.Some? ==> from <= r.value < |xs| && p(xs[r.value])
    ensures r.Some? ==> forall j :: from <= j < r.value ==> !p(xs[j])
    ensures r.None? ==> forall j :: from <= j < |xs| ==> !p(xs[j])
    decreases |xs| - from
  {
    if from >= |xs| then None
    else if p(xs[from]) then Some(from)
    else FindFrom(xs, p, from + 1)
  }

  function Find<T>(xs: seq<T>, p: T -> bool): Option<nat> {
    FindFrom(xs, p, 0)
  }

  /** `find(filter)`: the matching elements, in collection order. */
  function Filter<T>(xs: seq<T>, p: T -> bool): (r: seq<T>)
    ensures |r| <= |xs|
    ensures forall k :: 0 <= k < |r| ==> r[k] in xs && p(r[k])
    ensures forall k :: 0 <= k < |xs| && p(xs[k]) ==> xs[k] in r
  {
    if xs == [] then []
    else (if p(xs[0]) then [xs[0]] else []) + Filter(xs[1..], p)
  }

  lemma {:induction false} FilterAppend<T>(xs: seq<T>, ys: seq<T>, p: T -> bool)
    ensures Filter(xs + ys, p) == Filter(xs, p) + Filter(ys, p)
    decreases |xs|
  {
    if xs != [] {
      FilterAppend(xs[1..], ys, p);
      assert (xs + ys)[1..] == xs[1..] + ys;
    } else {
      assert xs + ys == ys;
    }
  }

  /** Appending one element adds one match exactly when it matches. */
  lemma FilterLengthAppend<T>(xs: seq<T>, x: T, p: T -> bool)
    ensures |Filter(xs + [x], p)| == |Filter(xs, p)| + (if p(x) then 1 else 0)
  {
    FilterAppend(xs, [x], p);
    assert Filter([x], p) == (if p(x) then [x] else []) + Filter([], p);
  }

  /** Removing one element removes one match exactly when it matched. */
  lemma FilterLengthRemoveAt<T>(xs: seq<T>, i: nat, p: T -> bool)
    requires i < |xs|
    ensures |Filter(RemoveAt(xs, i), p)| + (if p(xs[i]) then 1 else 0) == |Filter(xs, p)|
  {
    assert xs == xs[..i] + ([xs[i]] + xs[i + 1..]);
    FilterAppend(xs[..i], [xs[i]] + xs[i + 1..], p);
    FilterAppend([xs[i]], xs[i + 1..], p);
    FilterAppend(xs[..i], xs[i + 1..], p);
    assert Filter([xs[i]], p) == (if p(xs[i]) then [xs[i]] else []) + Filter([], p);
  }

  lemma {:induction false} FilterAll<T>(xs: seq<T>, p: T -> bool)
    requires forall x :: x in xs ==> p(x)
    ensures Filter(xs, p) == xs
    decreases |xs|
  {
    if xs != [] {
      FilterAll(xs[1..], p);
    }
  }

  lemma {:induction false} FilterNone<T>(xs: seq<T>, p: T -> bool)
    requires forall x :: x in xs ==> !p(x)
    ensures Filter(xs, p) == []
    decreases |xs|
  {
    if xs != [] {
      FilterNone(xs[1..], p);
    }
  }

  /** Filters that agree on every element select the same elements. */
  lemma {:induction false} FilterSame<T>(xs: seq<T>, p: T -> bool, q: T -> bool)
    requires forall x :: x in xs ==> p(x) == q(x)
    ensures Filter(xs, p) == Filter(xs, q)
    decreases |xs|
  {
    if xs != [] {
      FilterSame(xs[1..], p, q);
    }
  }

  /** `deleteOne`: the collection without the element at `i`. */
  function RemoveAt<T>(xs: seq<T>, i: nat): (r: seq<T>)
    requires i < |xs|
    ensures |r| == |xs| - 1
    ensures forall k :: 0 <= k < i ==> r[k] == xs[k]
    ensures forall k :: i <= k < |r| ==> r[k] == xs[k + 1]
    ensures multiset(r) + multiset{xs[i]} == multiset(xs)
  {
    assert xs == xs[..i] + [xs[i]] + xs[i + 1..];
    xs[..i] + xs[i + 1..]
  }

  /** No two elements share a key. */
  ghost predicate DistinctBy<T, K>(xs: seq<T>, key: T -> K) {
    forall i, j :: 0 <= i < j < |xs| ==> key(xs[i]) != key(xs[j])
  }

  /** Every key lies below `bound`, so `bound` is a fresh key. */
  ghost predicate KeysBelow<T>(xs: seq<T>, key: T -> Id, bound: nat) {
    forall i :: 0 <= i < |xs| ==> key(xs[i]) < bound
  }

  lemma DistinctAppend<T, K>(xs: seq<T>, x: T, key: T -> K)
    requires DistinctBy(xs, key) && forall k :: 0 <= k < |xs| ==> key(xs[k]) != key(x)
    ensures DistinctBy(xs + [x], key)
  {
  }

  lemma KeysBelowAppend<T>(xs: seq<T>, x: T, key: T -> Id, bound: nat)
    requires KeysBelow(xs, key, bound) && key(x) < bound
    ensures KeysBelow(xs + [x], key, bound)
  {
  }

  lemma KeysBelowRaise<T>(xs: seq<T>, key: T -> Id, bound: nat, bound': nat)
    requires KeysBelow(xs, key, bound) && bound <= bound'
    ensures KeysBelow(xs, key, bound')
  {
  }

  lemma DistinctRemoveAt<T, K>(xs: seq<T>, i: nat, key: T -> K)
    requires i < |xs| && DistinctBy(xs, key)
    ensures DistinctBy(RemoveAt(xs, i), key)
  {
    var r := RemoveAt(xs, i);
    forall a, b | 0 <= a < b < |r| ensures key(r[a]) != key(r[b]) {
      var a' := if a < i then a else a + 1;
      var b' := if b < i then b else b + 1;
      assert r[a] == xs[a'] && r[b] == xs[b'];
    }
  }

  lemma KeysBelowRemoveAt<T>(xs: seq<T>, i: nat, key: T -> Id, bound: nat)
    requires i < |xs| && KeysBelow(xs, key, bound)
    ensures KeysBelow(RemoveAt(xs, i), key, bound)
  {
    var r := RemoveAt(xs, i);
    forall a | 0 <= a < |r| ensures key(r[a]) < bound {
      var a' := if a < i then a else a + 1;
      assert r[a] == xs[a'];
    }
  }

  /** Replacing an element by one whose key no OTHER element has keeps the keys distinct. */
  lemma DistinctReplace<T, K>(xs: seq<T>, i: nat, x: T, key: T -> K)
    requires i < |xs| && DistinctBy(xs, key)
    requires forall k :: 0 <= k < |xs| && k != i ==> key(xs[k]) != key(x)
    ensures DistinctBy(xs[i := x], key)
  {
  }

  lemma KeysBelowReplace<T>(xs: seq<T>, i: nat, x: T, key: T -> Id, bound: nat)
    requires i < |xs| && KeysBelow(xs, key, bound) && key(x) < bound
    ensures KeysBelow(xs[i := x], key, bound)
  {
  }

  lemma {:induction false} DistinctFilter<T, K>(xs: seq<T>, p: T -> bool, key: T -> K)
    requires DistinctBy(xs, key)
    ensures DistinctBy(Filter(xs, p), key)
    decreases |xs|
  {
    if xs != [] {
      DistinctFilter(xs[1..], p, key);
      var rest := Filter(xs[1..], p);
      var r := Filter(xs, p);
      if p(xs[0]) {
        assert r == [xs[0]] + rest;
        forall b | 0 < b < |r| ensures key(r[0]) != key(r[b]) {
          assert r[b] in xs[1..];
          var k :| 0 <= k < |xs[1..]| && xs[1..][k] == r[b];
          assert xs[k + 1] == r[b];
        }
      } else {
        assert r == rest;
      }
    }
  }

  /** Newest first: keys never increase along the sequence. */
  ghost predicate SortedDesc<T>(xs: seq<T>, key: T -> int) {
    forall i, j :: 0 <= i < j < |xs| ==> key(xs[i]) >= key(xs[j])
  }

  /** Insert `x` into a newest-first sequence, after every element with a key at least as large. */
  function InsertDesc<T>(x: T, xs: seq<T>, key: T -> int): (r: seq<T>)
    ensures |r| == |xs| + 1
  {
    if xs == [] then [x]
    else if key(xs[0]) >= key(x) then [xs[0]] + InsertDesc(x, xs[1..], key)
    else [x] + xs
  }

  /** Inserting keeps a newest-first sequence newest first and adds exactly `x`. */
  lemma {:induction false} InsertDescSorted<T>(x: T, xs: seq<T>, key: T -> int)
    requires SortedDesc(xs, key)
    ensures SortedDesc(InsertDesc(x, xs, key), key)
    ensures multiset(InsertDesc(x, xs, key)) == multiset(xs) + multiset{x}
  {
    if xs == [] {
    } else if key(xs[0]) >= key(x) {
      var rest := InsertDesc(x, xs[1..], key);
      assert SortedDesc(xs[1..], key) by {
        forall i, j | 0 <= i < j < |xs[1..]| ensures key(xs[1..][i]) >= key(xs[1..][j]) {
          assert xs[1..][i] == xs[i + 1] && xs[1..][j] == xs[j + 1];
        }
      }
      InsertDescSorted(x, xs[1..], key);
      assert xs == [xs[0]] + xs[1..];
      forall k | 0 <= k < |rest| ensures key(xs[0]) >= key(rest[k]) {
        assert rest[k] in multiset(rest);
        if rest[k] != x {
          assert rest[k] in multiset(xs[1..]);
          var m :| 0 <= m < |xs[1..]| && xs[1..][m] == rest[k];
          assert xs[1..][m] == xs[m + 1];
        }
      }
      ConsSorted(xs[0], rest, key);
    } else {
      forall k | 0 <= k < |xs| ensures key(x) >= key(xs[k]) {
        assert key(xs[0]) >= key(xs[k]) || k == 0;
      }
      ConsSorted(x, xs, key);
    }
  }

  /** An element at least as large as every element of a newest-first sequence can go in front of it. */
  lemma ConsSorted<T>(h: T, t: seq<T>, key: T -> int)
    requires SortedDesc(t, key)
    requires forall k :: 0 <= k < |t| ==> key(h) >= key(t[k])
    ensures SortedDesc([h] + t, key)
  {
    var s := [h] + t;
    forall i, j | 0 <= i < j < |s| ensures key(s[i]) >= key(s[j]) {
      assert s[j] == t[j - 1];
      if i > 0 {
        assert s[i] == t[i - 1];
      }
    }
  }

  /** `sort({ createdAt: -1 })` on the given key: a permutation in non-increasing key order; the order among equal keys is not specified. */
  function SortDesc<T>(xs: seq<T>, key: T -> int): (r: seq<T>)
    ensures SortedDesc(r, key)
    ensures multiset(r) == multiset(xs)
    ensures |r| == |xs|
  {
    if xs == [] then []
    else
      assert xs == [xs[0]] + xs[1..];
      InsertDescSorted(xs[0], SortDesc(xs[1..], key), key);
      InsertDesc(xs[0], SortDesc(xs[1..], key), key)
  }

  lemma SortDescMembers<T>(xs: seq<T>, key: T -> int, x: T)
    ensures x in SortDesc(xs, key) <==> x in xs
  {
    var r := SortDesc(xs, key);
    assert x in r <==> x in multiset(r);
    assert x in xs <==> x in multiset(xs);
  }

  function Min(a: int, b: int): int { if a <= b then a else b }

  /** `skip(offset).limit(limit)` for a non-negative skip and a positive limit. */
  function Page<T>(xs: seq<T>, offset: nat, limit: nat): (r: seq<T>)
    ensures |r| <= limit
    ensures |r| == if offset >= |xs| then 0 else Min(limit, |xs| - offset)
    ensures forall k :: 0 <= k < |r| ==> r[k] == xs[offset + k]
  {
    if offset >= |xs| then [] else xs[offset..offset + Min(limit, |xs| - offset)]
  }

  /** A page of a newest-first sequence is itself newest first. */
  lemma PageSorted<T>(xs: seq<T>, offset: nat, limit: nat, key: T -> int)
    requires SortedDesc(xs, key)
    ensures SortedDesc(Page(xs, offset, limit), key)
  {
    var r := Page(xs, offset, limit);
    forall i, j | 0 <= i < j < |r| ensures key(r[i]) >= key(r[j]) {
      assert r[i] == xs[offset + i] && r[j] == xs[offset + j];
    }
  }

  /** `map` over a sequence. */
  function MapSeq<T, U>(xs: seq<T>, f: T -> U): (r: seq<U>)
    ensures |r| == |xs|
    ensures forall k :: 0 <= k < |xs| ==> r[k] == f(xs[k])
  {
    if xs == [] then [] else [f(xs[0])] + MapSeq(xs[1..], f)
  }
}
