/** Facts about Python lists used as sequences: membership, duplicates and `list.remove`. */
module Lists {

  /** The set of elements of a list (Python's `set(xs)`). */
  function Elems<T>(s: seq<T>): set<T>
  {
    set x | x in s
  }

  predicate Distinct<T(==)>(s: seq<T>)
  {
    forall i, j :: 0 <= i < j < |s| ==> s[i] != s[j]
  }

  function MinInt(a: int, b: int): int { if a <= b then a else b }
  function MaxInt(a: int, b: int): int { if a >= b then a else b }

  /** A list without duplicates has as many distinct elements as it has entries. */
  lemma {:induction false} DistinctCard<T>(s: seq<T>)
    requires Distinct(s)
    ensures |Elems(s)| == |s|
  {
    if s != [] {
      var t := s[..|s| - 1];
      assert Distinct(t);
      DistinctCard(t);
      assert s == t + [s[|s| - 1]];
      assert Elems(s) == Elems(t) + {s[|s| - 1]};
      assert s[|s| - 1] !in Elems(t) by {
        forall i | 0 <= i < |t| ensures t[i] != s[|s| - 1] {
          assert s[i] == t[i];
        }
      }
    }
  }

  /** A subset is no larger than its superset. */
  lemma {:induction false} SubsetCard<T>(a: set<T>, b: set<T>)
    requires a <= b
    ensures |a| <= |b|
  {
    if a != {} {
      var x :| x in a;
      SubsetCard(a - {x}, b - {x});
    }
  }

  /** A duplicate-free list that has as many entries as a set it is drawn from covers that set. */
  lemma DistinctCovers<T>(s: seq<T>, pool: set<T>)
    requires Distinct(s) && Elems(s) <= pool && |s| >= |pool|
    ensures Elems(s) == pool
  {
    DistinctCard(s);
    if Elems(s) != pool {
      var x :| x in pool && x !in Elems(s);
      SubsetCard(Elems(s), pool - {x});
    }
  }

  /** A list with a new head is duplicate-free exactly when its tail is and does not hold the head. */
  lemma DistinctCons<T>(a: T, t: seq<T>)
    ensures Distinct([a] + t) <==> a !in t && Distinct(t)
  {
    var s := [a] + t;
    if Distinct(s) {
      forall i, j | 0 <= i < j < |t| ensures t[i] != t[j] {
        assert s[i + 1] == t[i] && s[j + 1] == t[j];
      }
      forall i | 0 <= i < |t| ensures t[i] != a {
        assert s[0] == a && s[i + 1] == t[i];
      }
    }
    if a !in t && Distinct(t) {
      forall i, j | 0 <= i < j < |s| ensures s[i] != s[j] {
        if i > 0 {
          assert s[i] == t[i - 1] && s[j] == t[j - 1];
        } else {
          assert s[j] == t[j - 1];
        }
      }
    }
  }

  /** A prefix one longer is the prefix with the next element appended. */
  lemma PrefixSnoc<T>(s: seq<T>, i: nat)
    requires i < |s|
    ensures s[..i + 1] == s[..i] + [s[i]]
  {
  }

  /** A non-empty list is its initial part with the last element appended. */
  lemma InitLast<T>(s: seq<T>)
    requires s != []
    ensures s == s[..|s| - 1] + [s[|s| - 1]]
  {
  }

  /** A prefix of a prefix is a prefix, with the same entries. */
  lemma PrefixOfPrefix<T>(s: seq<T>, n: nat, i: nat)
    requires i < n <= |s|
    ensures s[..n][i] == s[i] && s[..n][..i] == s[..i]
  {
  }

  /** The prefix as long as the list is the list. */
  lemma FullPrefix<T>(s: seq<T>)
    ensures s[..|s|] == s
  {
  }

  /** Appending keeps a list duplicate-free exactly when the new element is not already there. */
  lemma DistinctSnoc<T>(s: seq<T>, x: T)
    ensures Distinct(s + [x]) <==> Distinct(s) && x !in s
    ensures Elems(s + [x]) == Elems(s) + {x}
  {
    var r := s + [x];
    if Distinct(r) {
      forall i, j | 0 <= i < j < |s| ensures s[i] != s[j] {
        assert r[i] == s[i] && r[j] == s[j];
      }
      forall i | 0 <= i < |s| ensures s[i] != x {
        assert r[i] == s[i] && r[|s|] == x;
      }
    }
    if Distinct(s) && x !in s {
      forall i, j | 0 <= i < j < |r| ensures r[i] != r[j] {
        if j < |s| {
          assert r[i] == s[i] && r[j] == s[j];
        } else {
          assert r[i] == s[i];
        }
      }
    }
  }

  /** In a duplicate-free list an element occurs at most once. */
  lemma {:induction false} DistinctMultiplicity<T>(s: seq<T>, x: T)
    requires Distinct(s)
    ensures multiset(s)[x] <= 1
  {
    if s != [] {
      var t := s[1..];
      assert s == [s[0]] + t;
      assert Distinct(t) by {
        forall i, j | 0 <= i < j < |t| ensures t[i] != t[j] {
          assert t[i] == s[i + 1] && t[j] == s[j + 1];
        }
      }
      DistinctMultiplicity(t, x);
      if x == s[0] {
        assert x !in t by {
          forall i | 0 <= i < |t| ensures t[i] != x {
            assert t[i] == s[i + 1];
          }
        }
      }
    }
  }

  /** A permutation of a duplicate-free list is duplicate-free. */
  lemma DistinctPermutation<T>(s: seq<T>, r: seq<T>)
    requires multiset(s) == multiset(r) && Distinct(s)
    ensures Distinct(r)
  {
    forall i, j | 0 <= i < j < |r| ensures r[i] != r[j] {
      if r[i] == r[j] {
        var x := r[i];
        assert r == r[..j] + r[j..];
        assert x in r[..j] && x in r[j..];
        assert multiset(r)[x] == multiset(r[..j])[x] + multiset(r[j..])[x];
        DistinctMultiplicity(s, x);
        assert false;
      }
    }
  }

  /** Python's `xs.remove(x)`: deletes the first occurrence of `x`. */
  function RemoveFirst<T(==)>(s: seq<T>, x: T): (r: seq<T>)
    ensures x in s ==> |r| == |s| - 1
    ensures x !in s ==> r == s
    ensures multiset(r) == multiset(s) - multiset{x}
  {
    if s == [] then []
    else
      assert s == [s[0]] + s[1..];
      if s[0] == x then s[1..] else [s[0]] + RemoveFirst(s[1..], x)
  }

  lemma ElemsCons<T>(a: T, t: seq<T>)
    ensures Elems([a] + t) == {a} + Elems(t)
  {
    var s := [a] + t;
    forall y ensures y in Elems(s) <==> y == a || y in Elems(t) {
      if y in Elems(s) {
        var i :| 0 <= i < |s| && s[i] == y;
        if i > 0 { assert t[i - 1] == y; }
      }
      if y in Elems(t) {
        var i :| 0 <= i < |t| && t[i] == y;
        assert s[i + 1] == y;
      }
    }
  }

  /** Removing an element from a duplicate-free list removes it entirely, keeps the rest, and adds nothing. */
  lemma {:induction false} RemoveFirstDistinct<T>(s: seq<T>, x: T)
    requires Distinct(s)
    ensures Distinct(RemoveFirst(s, x))
    ensures Elems(RemoveFirst(s, x)) == Elems(s) - {x}
  {
    if s != [] {
      var a, t := s[0], s[1..];
      assert s == [a] + t;
      DistinctCons(a, t);
      ElemsCons(a, t);
      if a == x {
        assert RemoveFirst(s, x) == t;
        assert a !in Elems(t);
      } else {
        RemoveFirstDistinct(t, x);
        var r := RemoveFirst(t, x);
        assert RemoveFirst(s, x) == [a] + r;
        ElemsCons(a, r);
        assert a !in Elems(r);
        assert a !in r;
        DistinctCons(a, r);
      }
    }
  }

  /** Moving one element from the part still to visit to the part visited keeps the split of `all`. */
  lemma MoveOne<T>(seen: set<T>, rest: set<T>, all: set<T>, x: T)
    requires seen + rest == all && seen !! rest && x in rest
    ensures (seen + {x}) + (rest - {x}) == all && (seen + {x}) !! (rest - {x})
  {
  }

  /** One more element visited by a loop that lists the members of `p` it meets. */
  lemma FilterStep<T>(xs: seq<T>, p: set<T>, seen: set<T>, x: T)
    requires Distinct(xs) && Elems(xs) == p * seen && x !in seen
    ensures x in p ==> Distinct(xs + [x]) && Elems(xs + [x]) == p * (seen + {x})
    ensures x !in p ==> Elems(xs) == p * (seen + {x})
  {
    DistinctSnoc(xs, x);
  }

  /** Python's `list(s)` of a set: every element once, in an order the model leaves open. */
  method ListOf<T>(s: set<T>) returns (xs: seq<T>)
    ensures Distinct(xs) && Elems(xs) == s
  {
    xs := [];
    var rest := s;
    while rest != {}
      invariant Distinct(xs)
      invariant Elems(xs) + rest == s && Elems(xs) !! rest
      decreases |rest|
    {
      var x :| x in rest;
      assert Elems(xs + [x]) == Elems(xs) + {x};
      xs := xs + [x];
      rest := rest - {x};
    }
  }
}
