/**
 * Sorting by a numeric key in descending order and keeping the first `n` rows, the shape of
 * `sort_values(ascending=False).head(n)` and `sorted(..., reverse=True)[0:n]`.
 * The sort is stable; no contract below depends on how ties are ordered.
 */
module Ranking {
  import opened Results

  predicate SortedDesc<T>(s: seq<T>, key: T -> real)
  {
    forall i, j :: 0 <= i < j < |s| ==> key(s[i]) >= key(s[j])
  }

  predicate NoDuplicates<T(==)>(s: seq<T>)
  {
    forall i, j :: 0 <= i < j < |s| ==> s[i] != s[j]
  }

  /** `s` with `x` placed before the first element whose key is not larger than its own. */
  function Insert<T(==)>(x: T, s: seq<T>, key: T -> real): (r: seq<T>)
    ensures multiset(r) == multiset(s) + multiset{x} && |r| == |s| + 1
  {
    if s == [] || key(x) >= key(s[0]) then [x] + s
    else
      assert s == [s[0]] + s[1..];
      [s[0]] + Insert(x, s[1..], key)
  }

  /** Inserting into a descending sequence keeps it descending. */
  lemma {:induction false} InsertSorted<T>(x: T, s: seq<T>, key: T -> real)
    requires SortedDesc(s, key)
    ensures SortedDesc(Insert(x, s, key), key)
    ensures Insert(x, s, key)[0] == x || (s != [] && Insert(x, s, key)[0] == s[0])
  {
    if s != [] && key(x) < key(s[0]) {
      var tail := Insert(x, s[1..], key);
      InsertSorted(x, s[1..], key);
      var r := Insert(x, s, key);
      assert r == [s[0]] + tail;
      assert key(s[0]) >= key(tail[0]);
      forall i, j | 0 <= i < j < |r| ensures key(r[i]) >= key(r[j]) {
        assert r[j] == tail[j - 1];
        if i > 0 {
          assert r[i] == tail[i - 1];
        } else {
          assert key(tail[0]) >= key(tail[j - 1]);
        }
      }
    }
  }

  /** A descending rearrangement of `s`. */
  function SortDesc<T(==)>(s: seq<T>, key: T -> real): (r: seq<T>)
    ensures SortedDesc(r, key)
    ensures multiset(r) == multiset(s) && |r| == |s|
  {
    if s == [] then []
    else
      assert s == [s[0]] + s[1..];
      InsertSorted(s[0], SortDesc(s[1..], key), key);
      Insert(s[0], SortDesc(s[1..], key), key)
  }

  lemma MultisetNoDuplicates<T>(s: seq<T>, x: T)
    requires NoDuplicates(s)
    ensures multiset(s)[x] <= 1
  {
    if s != [] {
      assert s == [s[0]] + s[1..];
      MultisetNoDuplicates(s[1..], x);
      if x == s[0] {
        assert x !in s[1..];
      }
    }
  }

  lemma DistinctAt<T>(s: seq<T>, i: nat, j: nat)
    requires i < j < |s| && multiset(s)[s[i]] <= 1
    ensures s[i] != s[j]
  {
    assert s == s[..j] + s[j..];
    assert s[i] in multiset(s[..j]) && s[j] in multiset(s[j..]);
  }

  lemma NoDuplicatesMultiset<T>(s: seq<T>)
    requires forall x :: multiset(s)[x] <= 1
    ensures NoDuplicates(s)
  {
    forall i, j | 0 <= i < j < |s|
      ensures s[i] != s[j]
    {
      DistinctAt(s, i, j);
    }
  }

  /** In a descending sequence, no element after position `k` has a larger key than one before it. */
  lemma TailBelowPrefix<T>(sorted: seq<T>, key: T -> real, k: nat)
    requires SortedDesc(sorted, key) && k <= |sorted|
    ensures forall x, y :: x in sorted[k..] && y in sorted[..k] ==> key(x) <= key(y)
  {
    forall x, y | x in sorted[k..] && y in sorted[..k]
      ensures key(x) <= key(y)
    {
      var i :| 0 <= i < |sorted| - k && sorted[k..][i] == x;
      var j :| 0 <= j < k && sorted[..k][j] == y;
      assert sorted[j] == y && sorted[k + i] == x;
    }
  }

  /** What keeping a prefix of a descending rearrangement of `s` gives. */
  lemma PrefixOfSorted<T>(s: seq<T>, sorted: seq<T>, key: T -> real, k: nat)
    requires SortedDesc(sorted, key) && multiset(sorted) == multiset(s) && k <= |sorted|
    ensures multiset(sorted[..k]) <= multiset(s)
    ensures forall x, y :: x in multiset(s) - multiset(sorted[..k]) && y in sorted[..k] ==> key(x) <= key(y)
    ensures forall x, y :: x in s && x !in sorted[..k] && y in sorted[..k] ==> key(x) <= key(y)
    ensures NoDuplicates(s) ==> NoDuplicates(sorted[..k])
  {
    var r := sorted[..k];
    assert sorted == r + sorted[k..];
    assert multiset(sorted) == multiset(r) + multiset(sorted[k..]);
    assert multiset(s) - multiset(r) == multiset(sorted[k..]);
    TailBelowPrefix(sorted, key, k);
    forall x, y | x in multiset(s) - multiset(r) && y in r
      ensures key(x) <= key(y)
    {
      assert x in sorted[k..];
    }
    forall x, y | x in s && x !in r && y in r
      ensures key(x) <= key(y)
    {
      assert x in multiset(s) && x !in multiset(r);
      assert x in sorted[k..];
    }
    if NoDuplicates(s) {
      SubNoDuplicates(s, r);
    }
  }

  /** A sequence whose multiset lies within that of a sequence without duplicates has none either. */
  lemma SubNoDuplicates<T>(s: seq<T>, r: seq<T>)
    requires NoDuplicates(s) && multiset(r) <= multiset(s)
    ensures NoDuplicates(r)
  {
    forall x ensures multiset(r)[x] <= 1 {
      MultisetNoDuplicates(s, x);
    }
    NoDuplicatesMultiset(r);
  }

  /** The `n` rows with the largest keys, in descending key order. */
  function TopN<T(==)>(s: seq<T>, key: T -> real, n: nat): (r: seq<T>)
    ensures |r| == Min(n, |s|)
    ensures SortedDesc(r, key)
    ensures multiset(r) <= multiset(s)
    ensures forall x, y :: x in s && x !in r && y in r ==> key(x) <= key(y)
    ensures NoDuplicates(s) ==> NoDuplicates(r)
  {
    var sorted := SortDesc(s, key);
    PrefixOfSorted(s, sorted, key, Min(n, |s|));
    sorted[..Min(n, |s|)]
  }

  /** Counting repeated rows, no row left out has a larger key than a row kept. */
  lemma TopNLeftover<T>(s: seq<T>, key: T -> real, n: nat)
    ensures forall x, y :: x in multiset(s) - multiset(TopN(s, key, n)) && y in TopN(s, key, n) ==> key(x) <= key(y)
  {
    PrefixOfSorted(s, SortDesc(s, key), key, Min(n, |s|));
  }
}
