/**
 * Sequence helpers shared by the stores: order-preserving filtering (`Array.filter`,
 * LINQ `Where`) and the insertion order of a JavaScript `Map`.
 */
module Collections {

  /** Keeps, in order, the elements of `s` that satisfy `p`. */
  function Filter<T(!new)>(s: seq<T>, p: T -> bool): (r: seq<T>)
    ensures |r| <= |s|
    ensures forall x :: x in r <==> x in s && p(x)
  {
    if s == [] then [] else (if p(s[0]) then [s[0]] else []) + Filter(s[1..], p)
  }

  /** Two filters in a row keep exactly what their conjunction keeps. */
  lemma {:induction false} FilterFilter<T(!new)>(s: seq<T>, p: T -> bool, q: T -> bool, pq: T -> bool)
    requires forall x :: pq(x) == (p(x) && q(x))
    ensures Filter(Filter(s, p), q) == Filter(s, pq)
  {
    if s != [] {
      FilterFilter(s[1..], p, q, pq);
      if p(s[0]) {
        assert Filter(s, p) == [s[0]] + Filter(s[1..], p);
        assert Filter(s, p)[1..] == Filter(s[1..], p);
      } else {
        assert Filter(s, p) == Filter(s[1..], p);
      }
    }
  }

  /** A filter that keeps every element of `s` returns `s` itself. */
  lemma {:induction false} FilterKeepsAll<T(!new)>(s: seq<T>, p: T -> bool)
    requires forall x :: x in s ==> p(x)
    ensures Filter(s, p) == s
  {
    if s != [] {
      FilterKeepsAll(s[1..], p);
      assert [s[0]] + s[1..] == s;
    }
  }

  /** Two filters that agree on every element keep the same elements. */
  lemma {:induction false} FilterSame<T(!new)>(s: seq<T>, p: T -> bool, q: T -> bool)
    requires forall x :: p(x) == q(x)
    ensures Filter(s, p) == Filter(s, q)
  {
    if s != [] {
      FilterSame(s[1..], p, q);
    }
  }

  /** The filter `if (c) xs = xs.filter(p)` applies: `p` when `c` holds, otherwise none. */
  function Guarded<T>(c: bool, p: T -> bool): T -> bool
  {
    x => c ==> p(x)
  }

  /** Filtering only when a condition holds is filtering by the guarded predicate. */
  lemma FilterIf<T(!new)>(s: seq<T>, c: bool, p: T -> bool)
    ensures (if c then Filter(s, p) else s) == Filter(s, Guarded(c, p))
  {
    if c {
      FilterSame(s, p, Guarded(c, p));
    } else {
      FilterKeepsAll(s, Guarded(c, p));
    }
  }

  /** A subset is no larger than its superset. */
  lemma SubsetSize<T>(a: set<T>, b: set<T>)
    requires a <= b
    ensures |a| <= |b|
  {
    assert b == a + (b - a);
  }

  /** A subset at least as large as its superset is the superset itself. */
  lemma SubsetOfSameSize<T>(a: set<T>, b: set<T>)
    requires a <= b && |b| <= |a|
    ensures a == b
  {
    assert b == a + (b - a) && a !! (b - a);
    assert |b - a| == 0;
  }

  /** No element occurs twice. */
  predicate Distinct<T(==)>(s: seq<T>)
  {
    forall i, j :: 0 <= i < j < |s| ==> s[i] != s[j]
  }

  /** Filtering keeps a sequence free of duplicates. */
  lemma {:induction false} FilterDistinct<T(!new)>(s: seq<T>, p: T -> bool)
    requires Distinct(s)
    ensures Distinct(Filter(s, p))
  {
    if s != [] {
      assert Distinct(s[1..]) by {
        forall i, j | 0 <= i < j < |s| - 1 ensures s[1..][i] != s[1..][j] {
          assert s[i + 1] != s[j + 1];
        }
      }
      FilterDistinct(s[1..], p);
      assert s[0] !in s[1..] by {
        forall j | 0 <= j < |s| - 1 ensures s[1..][j] != s[0] {
          assert s[j + 1] != s[0];
        }
      }
      assert s[0] !in Filter(s[1..], p);
    }
  }

  /** `order` lists the keys of `m`, each exactly once: the iteration order of a JavaScript `Map`. */
  ghost predicate Tracks<K(!new), V>(order: seq<K>, m: map<K, V>)
  {
    Distinct(order) && forall k :: k in order <==> k in m
  }

  /** The values of `m` in the order `order` lists their keys (`Array.from(map.values())`). */
  function ValuesIn<K(!new), V>(order: seq<K>, m: map<K, V>): seq<V>
    requires forall k :: k in order ==> k in m
  {
    seq(|order|, i requires 0 <= i < |order| => m[order[i]])
  }

  /** A key order that tracks a map has exactly one entry per key. */
  lemma {:induction false} TracksSize<K(!new), V>(order: seq<K>, m: map<K, V>)
    requires Tracks(order, m)
    ensures |order| == |m|
  {
    if order == [] {
      assert m.Keys == {};
    } else {
      var k := order[0];
      var rest := m - {k};
      assert Distinct(order[1..]) by {
        forall i, j | 0 <= i < j < |order| - 1 ensures order[1..][i] != order[1..][j] {
          assert order[i + 1] != order[j + 1];
        }
      }
      forall j | j in order[1..] ensures j in rest {
        var i :| 0 <= i < |order| - 1 && order[1..][i] == j;
        assert order[i + 1] != order[0];
      }
      TracksSize(order[1..], rest);
      assert rest.Keys == m.Keys - {k};
    }
  }

  /** The key order without `k` (`Map.delete` removes the key and keeps the others' order). */
  function Without<K(==,!new)>(order: seq<K>, k: K): (r: seq<K>)
    ensures forall j :: j in r <==> j in order && j != k
  {
    Filter(order, j => j != k)
  }

  /** Deleting a key keeps the order tracking the map. */
  lemma TracksWithout<K(!new), V>(order: seq<K>, m: map<K, V>, k: K)
    requires Tracks(order, m)
    ensures Tracks(Without(order, k), m - {k})
  {
    FilterDistinct(order, j => j != k);
  }

  /** Adding a fresh key at the end keeps the order tracking the map. */
  lemma TracksAppend<K(!new), V>(order: seq<K>, m: map<K, V>, k: K, v: V)
    requires Tracks(order, m) && k !in m
    ensures Tracks(order + [k], m[k := v])
  {
  }
}
