/** Sums over finite maps: the order-free arithmetic behind SQL aggregates and map-ordered loops. */
module Sums {

  /** The sum of a map's values, with keys taken in an arbitrary order. */
  ghost function Sum<K>(m: map<K, int>): int {
    if m == map[] then 0 else
      var k :| k in m;
      m[k] + Sum(m - {k})
  }

  /** The arbitrary order does not matter: any key may be taken first. */
  lemma {:induction false} SumRemove<K>(m: map<K, int>, k: K)
    requires k in m
    ensures Sum(m) == m[k] + Sum(m - {k})
    decreases |m|
  {
    var j :| j in m && Sum(m) == m[j] + Sum(m - {j});
    if j != k {
      SumRemove(m - {j}, k);
      SumRemove(m - {k}, j);
      assert m - {j} - {k} == m - {k} - {j};
    }
  }

  lemma SumInsert<K>(m: map<K, int>, k: K, v: int)
    requires k !in m
    ensures Sum(m[k := v]) == Sum(m) + v
  {
    SumRemove(m[k := v], k);
    assert m[k := v] - {k} == m;
  }

  /** Pointwise comparison of two maps over nested key sets, the larger one non-negative. */
  lemma {:induction false} SumMonotone<K>(small: map<K, int>, large: map<K, int>)
    requires small.Keys <= large.Keys
    requires forall k | k in small :: small[k] <= large[k]
    requires forall k | k in large :: 0 <= large[k]
    ensures Sum(small) <= Sum(large)
    decreases |large|
  {
    if large == map[] {
      assert small == map[];
    } else {
      var k :| k in large;
      SumRemove(large, k);
      if k in small {
        SumRemove(small, k);
      } else {
        assert small - {k} == small;
      }
      SumMonotone(small - {k}, large - {k});
    }
  }

  /** Two entries of a non-negative map add up to no more than its sum. */
  lemma SumAtLeastTwo<K>(m: map<K, int>, j: K, k: K)
    requires j in m && k in m && j != k && forall i | i in m :: 0 <= m[i]
    ensures m[j] + m[k] <= Sum(m)
  {
    SumRemove(m, j);
    SumRemove(m - {j}, k);
    SumMonotone(map[], m - {j} - {k});
  }

  /** A bound added up n times. */
  function Times(bound: int, n: nat): int {
    if n == 0 then 0 else Times(bound, n - 1) + bound
  }

  lemma {:induction false} TimesIsProduct(bound: int, n: nat)
    ensures Times(bound, n) == bound * n
  {
    if n > 0 {
      TimesIsProduct(bound, n - 1);
    }
  }

  /** A sum of bounded entries is bounded, and reaches the bound only when every entry does. */
  lemma {:induction false} SumWithinTimes<K>(m: map<K, int>, bound: int)
    requires forall k | k in m :: m[k] <= bound
    ensures Sum(m) <= Times(bound, |m|)
    ensures Sum(m) == Times(bound, |m|) ==> forall k | k in m :: m[k] == bound
    decreases |m|
  {
    if m != map[] {
      var k :| k in m;
      var rest := m - {k};
      SumRemove(m, k);
      SumWithinTimes(rest, bound);
      assert m == rest[k := m[k]];
      assert forall j | j in m :: j == k || (j in rest && rest[j] == m[j]);
    }
  }

  lemma SumBounded<K>(m: map<K, int>, bound: int)
    requires forall k | k in m :: m[k] <= bound
    ensures Sum(m) <= bound * |m|
    ensures Sum(m) == bound * |m| ==> forall k | k in m :: m[k] == bound
  {
    SumWithinTimes(m, bound);
    TimesIsProduct(bound, |m|);
  }

  /** A part of a set is no larger than the set. */
  lemma SubsetSize<T>(small: set<T>, large: set<T>)
    requires small <= large
    ensures |small| <= |large|
  {
    assert large == small + (large - small);
  }

  /** Counting: a sum of ones is the number of keys. */
  lemma {:induction false} SumOfOnes<K>(m: map<K, int>)
    requires forall k | k in m :: m[k] == 1
    ensures Sum(m) == |m|
    decreases |m|
  {
    if m != map[] {
      var k :| k in m;
      SumRemove(m, k);
      SumOfOnes(m - {k});
    }
  }

  /** Keys with a zero value can be dropped. */
  lemma {:induction false} SumDropZeros<K>(m: map<K, int>, kept: set<K>)
    requires kept <= m.Keys
    requires forall k | k in m && k !in kept :: m[k] == 0
    ensures Sum(m) == Sum(map k | k in kept :: m[k])
    decreases |m|
  {
    var restricted := map k | k in kept :: m[k];
    if m.Keys == kept {
      assert restricted == m;
    } else {
      assert exists k :: k in m.Keys && k !in kept;
      var k :| k in m.Keys && k !in kept;
      SumRemove(m, k);
      assert restricted == map j | j in kept :: (m - {k})[j];
      SumDropZeros(m - {k}, kept);
    }
  }

  lemma SumRestrict<K>(full: map<K, int>, part: map<K, int>)
    requires part.Keys <= full.Keys && forall k | k in part :: part[k] == full[k]
    requires forall k | k in full && k !in part :: full[k] == 0
    ensures Sum(part) == Sum(full)
  {
    SumDropZeros(full, part.Keys);
    assert part == map k | k in part.Keys :: full[k];
  }

  /** A one-to-one renaming of the keys of one map onto those of another that matches the values. */
  ghost predicate Renames<K, L>(m: map<K, int>, renamed: map<L, int>, name: map<K, L>) {
    && name.Keys == m.Keys
    && (forall k | k in m :: name[k] in renamed && renamed[name[k]] == m[k])
    && (forall j, k | j in m && k in m && name[j] == name[k] :: j == k)
    && (forall l | l in renamed :: exists k :: k in m && name[k] == l)
  }

  lemma RenamesWithout<K, L>(m: map<K, int>, renamed: map<L, int>, name: map<K, L>, k: K)
    requires Renames(m, renamed, name) && k in m
    ensures Renames(m - {k}, renamed - {name[k]}, name - {k})
  {
    forall l | l in renamed - {name[k]} ensures exists j :: j in m - {k} && (name - {k})[j] == l {
      var j :| j in m && name[j] == l;
      assert j in m - {k};
    }
  }

  lemma RenamesNothing<K, L>(m: map<K, int>, renamed: map<L, int>, name: map<K, L>)
    requires Renames(m, renamed, name) && m == map[]
    ensures renamed == map[]
  {
  }

  /** Renaming the keys by a one-to-one map leaves the sum unchanged. */
  lemma {:induction false} SumRename<K, L>(m: map<K, int>, renamed: map<L, int>, name: map<K, L>)
    requires Renames(m, renamed, name)
    ensures Sum(m) == Sum(renamed)
    decreases |m|
  {
    if m == map[] {
      RenamesNothing(m, renamed, name);
    } else {
      var k :| k in m;
      SumRemove(m, k);
      SumRemove(renamed, name[k]);
      RenamesWithout(m, renamed, name, k);
      SumRename(m - {k}, renamed - {name[k]}, name - {k});
    }
  }

  /** Four indicator maps that pick exactly one of four on every key add up to the number of keys. */
  lemma {:induction false} SumFourWays<K>(a: map<K, int>, b: map<K, int>, c: map<K, int>, d: map<K, int>)
    requires a.Keys == b.Keys == c.Keys == d.Keys
    requires forall k | k in a :: a[k] + b[k] + c[k] + d[k] == 1
    ensures Sum(a) + Sum(b) + Sum(c) + Sum(d) == |a|
    decreases |a|
  {
    if a == map[] {
      assert b == map[] && c == map[] && d == map[];
    } else {
      var k :| k in a;
      SumRemove(a, k);
      SumRemove(b, k);
      SumRemove(c, k);
      SumRemove(d, k);
      SumFourWays(a - {k}, b - {k}, c - {k}, d - {k});
    }
  }
}
