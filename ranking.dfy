/**
 * Ranking keys and the stable descending sort used by the scheduler.
 *
 * Python's `sorted(xs, key=k, reverse=True)` / `xs.sort(key=k, reverse=True)` orders by
 * key descending and, being stable, keeps the original order of elements with equal
 * keys. Keys here are pairs of reals compared lexicographically, which covers the
 * three keys the scheduler uses: a station's skill level, a priority score, and the
 * tuple (certification, competency).
 */
module Ranking {

  datatype Rank = Rank(major: real, minor: real)

  /** `a >= b` in lexicographic order. */
  predicate AtLeast(a: Rank, b: Rank)
  {
    a.major > b.major || (a.major == b.major && a.minor >= b.minor)
  }

  /** Non-increasing by key. */
  predicate SortedByKey<T>(s: seq<T>, key: T -> Rank)
  {
    forall i, j :: 0 <= i < j < |s| ==> AtLeast(key(s[i]), key(s[j]))
  }

  /** The elements whose key is `k`, in their order in `s`. */
  function WithKey<T>(s: seq<T>, key: T -> Rank, k: Rank): seq<T>
  {
    if s == [] then []
    else if key(s[0]) == k then [s[0]] + WithKey(s[1..], key, k)
    else WithKey(s[1..], key, k)
  }

  /**
   * Puts `x` in front of the first element whose key it is at least, so that
   * `x` precedes every element of `s` with an equal key.
   */
  function Insert<T>(x: T, s: seq<T>, key: T -> Rank): (r: seq<T>)
    ensures multiset(r) == multiset(s) + multiset{x}
    ensures |r| == |s| + 1
  {
    if s == [] || AtLeast(key(x), key(s[0])) then [x] + s
    else
      assert s == [s[0]] + s[1..];
      [s[0]] + Insert(x, s[1..], key)
  }

  /** A list ordered by key stays ordered under a new head whose key is at least all of its keys. */
  lemma ConsSorted<T>(h: T, r: seq<T>, key: T -> Rank)
    requires SortedByKey(r, key)
    requires forall y :: y in r ==> AtLeast(key(h), key(y))
    ensures SortedByKey([h] + r, key)
  {
    var s := [h] + r;
    forall i, j | 0 <= i < j < |s| ensures AtLeast(key(s[i]), key(s[j])) {
      if i > 0 {
        assert s[i] == r[i - 1] && s[j] == r[j - 1];
      } else {
        assert s[j] == r[j - 1] && r[j - 1] in r;
      }
    }
  }

  /** In a list ordered by key, the head's key is at least every key, and the tail is ordered. */
  lemma HeadBounds<T>(s: seq<T>, key: T -> Rank)
    requires SortedByKey(s, key) && s != []
    ensures forall y :: y in s ==> AtLeast(key(s[0]), key(y))
    ensures SortedByKey(s[1..], key)
  {
    forall y | y in s ensures AtLeast(key(s[0]), key(y)) {
      var k :| 0 <= k < |s| && s[k] == y;
      if k > 0 {
        assert AtLeast(key(s[0]), key(s[k]));
      }
    }
    var t := s[1..];
    forall i, j | 0 <= i < j < |t| ensures AtLeast(key(t[i]), key(t[j])) {
      assert t[i] == s[i + 1] && t[j] == s[j + 1];
    }
  }

  lemma {:induction false} InsertSorted<T>(x: T, s: seq<T>, key: T -> Rank)
    requires SortedByKey(s, key)
    ensures SortedByKey(Insert(x, s, key), key)
  {
    if s == [] || AtLeast(key(x), key(s[0])) {
      if s != [] {
        HeadBounds(s, key);
      }
      ConsSorted(x, s, key);
    } else {
      HeadBounds(s, key);
      InsertSorted(x, s[1..], key);
      var r' := Insert(x, s[1..], key);
      forall y | y in r' ensures AtLeast(key(s[0]), key(y)) {
        assert y in multiset(r');
        if y != x {
          assert y in multiset(s[1..]);
          assert y in s;
        }
      }
      ConsSorted(s[0], r', key);
    }
  }

  /** Insertion keeps the relative order of the elements that share a key with `x`, and puts `x` first among them. */
  lemma {:induction false} InsertWithKey<T>(x: T, s: seq<T>, key: T -> Rank, k: Rank)
    ensures WithKey(Insert(x, s, key), key, k) == if key(x) == k then [x] + WithKey(s, key, k) else WithKey(s, key, k)
  {
    if s == [] || AtLeast(key(x), key(s[0])) {
      assert ([x] + s)[1..] == s;
    } else {
      InsertWithKey(x, s[1..], key, k);
      assert ([s[0]] + Insert(x, s[1..], key))[1..] == Insert(x, s[1..], key);
    }
  }

  /** Stable insertion sort by key, descending. */
  function SortByKey<T>(s: seq<T>, key: T -> Rank): (r: seq<T>)
    ensures multiset(r) == multiset(s)
    ensures |r| == |s|
  {
    if s == [] then []
    else
      assert s == [s[0]] + s[1..];
      Insert(s[0], SortByKey(s[1..], key), key)
  }

  /** The sorted list is ordered by key, descending. */
  lemma {:induction false} SortSorted<T>(s: seq<T>, key: T -> Rank)
    ensures SortedByKey(SortByKey(s, key), key)
  {
    if s != [] {
      SortSorted(s[1..], key);
      InsertSorted(s[0], SortByKey(s[1..], key), key);
    }
  }

  /** Stability: elements with equal keys appear in the sorted list in their original order. */
  lemma {:induction false} SortStable<T>(s: seq<T>, key: T -> Rank, k: Rank)
    ensures WithKey(SortByKey(s, key), key, k) == WithKey(s, key, k)
  {
    if s != [] {
      SortStable(s[1..], key, k);
      InsertWithKey(s[0], SortByKey(s[1..], key), key, k);
    }
  }
}
