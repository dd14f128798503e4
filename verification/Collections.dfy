/** Sums over finite maps, the value-level counterpart of SQL's SUM over a table. */
module Sums {

  ghost function Sum<K(!new)>(m: map<K, int>): int
    decreases |m|
  {
    if m == map[] then 0
    else
      var k :| k in m;
      assert |m - {k}| < |m| by { RemoveShrinks(m, k); }
      m[k] + Sum(m - {k})
  }

  lemma RemoveShrinks<K, V>(m: map<K, V>, k: K)
    requires k in m
    ensures |m - {k}| == |m| - 1
  {
    assert (m - {k}).Keys == m.Keys - {k};
  }

  /** The value of a sum does not depend on which row is taken out first. */
  lemma {:induction false} SumRemove<K(!new)>(m: map<K, int>, k: K)
    requires k in m
    ensures Sum(m) == m[k] + Sum(m - {k})
    decreases |m|
  {
    var p :| p in m && Sum(m) == m[p] + Sum(m - {p});
    if p != k {
      RemoveShrinks(m, p);
      RemoveShrinks(m, k);
      SumRemove(m - {p}, k);
      SumRemove(m - {k}, p);
      assert m - {p} - {k} == m - {k} - {p};
    }
  }

  lemma SumPut<K(!new)>(m: map<K, int>, k: K, v: int)
    ensures Sum(m[k := v]) == Sum(m) - (if k in m then m[k] else 0) + v
  {
    SumRemove(m[k := v], k);
    if k in m {
      SumRemove(m, k);
      assert m[k := v] - {k} == m - {k};
    } else {
      assert m[k := v] - {k} == m;
    }
  }

  function Plus<K>(m: map<K, int>, n: map<K, int>): map<K, int>
    requires m.Keys == n.Keys
  {
    map k | k in m :: m[k] + n[k]
  }

  lemma {:induction false} SumAdd<K(!new)>(m: map<K, int>, n: map<K, int>)
    requires m.Keys == n.Keys
    ensures Sum(Plus(m, n)) == Sum(m) + Sum(n)
    decreases |m|
  {
    if m == map[] {
      assert Plus(m, n) == map[] && n == map[];
    } else {
      hide Plus, Sum;
      var k :| k in m;
      PlusRemove(m, n, k);
      SumRemove(m, k);
      SumRemove(n, k);
      SumRemove(Plus(m, n), k);
      RemoveShrinks(m, k);
      SumAdd(m - {k}, n - {k});
    }
  }

  lemma PlusRemove<K>(m: map<K, int>, n: map<K, int>, k: K)
    requires m.Keys == n.Keys && k in m
    ensures (m - {k}).Keys == (n - {k}).Keys
    ensures k in Plus(m, n) && Plus(m, n)[k] == m[k] + n[k]
    ensures Plus(m, n) - {k} == Plus(m - {k}, n - {k})
  {
    assert (m - {k}).Keys == m.Keys - {k} && (n - {k}).Keys == n.Keys - {k};
  }

  lemma {:induction false} SumZero<K(!new)>(m: map<K, int>)
    requires forall k :: k in m ==> m[k] == 0
    ensures Sum(m) == 0
    decreases |m|
  {
    if m != map[] {
      var k :| k in m;
      SumRemove(m, k);
      RemoveShrinks(m, k);
      SumZero(m - {k});
    }
  }

  function Within<K, V>(m: map<K, V>, part: set<K>): map<K, V> {
    map k | k in m && k in part :: m[k]
  }

  lemma WithinRemove<K, V>(m: map<K, V>, part: set<K>, k: K)
    requires k in m
    ensures k in part ==> Within(m, part) - {k} == Within(m - {k}, part) && m - {k} - part == m - part
    ensures k !in part ==> Within(m, part) == Within(m - {k}, part) && m - {k} - part == m - part - {k}
  {
    if k in part {
      assert Within(m, part) - {k} == Within(m - {k}, part);
      assert m - {k} - part == m - part;
    } else {
      assert Within(m, part) == Within(m - {k}, part);
      assert m - {k} - part == m - part - {k};
    }
  }

  /** A sum splits into the rows within a set of keys and those outside it. */
  lemma {:induction false} SumPartition<K(!new)>(m: map<K, int>, part: set<K>)
    ensures Sum(m) == Sum(Within(m, part)) + Sum(m - part)
    decreases |m|
  {
    if m == map[] {
      assert Within(m, part) == map[] && m - part == map[];
    } else {
      var k :| k in m;
      WithinRemove(m, part, k);
      SumRemove(m, k);
      RemoveShrinks(m, k);
      SumPartition(m - {k}, part);
      if k in part {
        SumRemove(Within(m, part), k);
      } else {
        SumRemove(m - part, k);
      }
    }
  }

  lemma SumWithinOneMore<K(!new)>(m: map<K, int>, part: set<K>, k: K)
    requires k in m && k !in part
    ensures Sum(Within(m, {k} + part)) == m[k] + Sum(Within(m, part))
  {
    SumRemove(Within(m, {k} + part), k);
    assert Within(m, {k} + part) - {k} == Within(m, part);
  }

  /** Renaming the keys of a sum along an injection leaves it unchanged. */
  lemma {:induction false} SumReindex<K(!new), L(!new)>(m: map<K, int>, rename: map<L, K>, n: map<L, int>)
    requires rename.Keys == n.Keys && rename.Values == m.Keys
    requires forall a, b :: a in rename && b in rename && rename[a] == rename[b] ==> a == b
    requires forall l :: l in n ==> n[l] == m[rename[l]]
    ensures Sum(m) == Sum(n)
    decreases |n|
  {
    if n == map[] {
      assert m.Keys == {};
      assert m == map[];
    } else {
      var l :| l in n;
      var k := rename[l];
      assert k in m;
      SumRemove(n, l);
      SumRemove(m, k);
      RemoveShrinks(n, l);
      forall j | j in (m - {k}).Keys ensures j in (rename - {l}).Values {
        var a :| a in rename && rename[a] == j;
        assert a in rename - {l} && (rename - {l})[a] == j;
      }
      assert (rename - {l}).Values == (m - {k}).Keys;
      SumReindex(m - {k}, rename - {l}, n - {l});
    }
  }
}

/** Finite sets listed in the order of a strict total order, as ORDER BY lists rows. */
module Ordering {

  ghost predicate StrictTotal<T(!new)>(before: (T, T) -> bool) {
    && (forall x :: !before(x, x))
    && (forall x, y, z :: before(x, y) && before(y, z) ==> before(x, z))
    && (forall x, y :: x == y || before(x, y) || before(y, x))
  }

  predicate IsFirst<T(==, !new)>(s: set<T>, before: (T, T) -> bool, x: T) {
    x in s && forall y :: y in s && y != x ==> before(x, y)
  }

  lemma {:induction false} FirstExists<T(!new)>(s: set<T>, before: (T, T) -> bool) returns (x: T)
    requires StrictTotal(before) && s != {}
    ensures IsFirst(s, before, x)
    decreases |s|
  {
    var p :| p in s;
    if s == {p} {
      x := p;
    } else {
      var q := FirstExists(s - {p}, before);
      x := if before(p, q) then p else q;
      forall y | y in s && y != x ensures before(x, y) {
        assert y == p || y in s - {p};
      }
    }
  }

  ghost function First<T(!new)>(s: set<T>, before: (T, T) -> bool): (x: T)
    requires StrictTotal(before) && s != {}
    ensures IsFirst(s, before, x)
  {
    assert exists x :: IsFirst(s, before, x) by { var x := FirstExists(s, before); }
    var x :| IsFirst(s, before, x);
    x
  }

  /** The elements of s, each once, in the given order. */
  ghost function Listed<T(!new)>(s: set<T>, before: (T, T) -> bool): (q: seq<T>)
    requires StrictTotal(before)
    ensures |q| == |s|
    ensures forall x :: x in q <==> x in s
    ensures Increasing(q, before)
    decreases |s|
  {
    if s == {} then []
    else
      var x := First(s, before);
      var rest := Listed(s - {x}, before);
      assert forall y :: y in rest ==> y in s - {x};
      [x] + rest
  }

  ghost predicate Increasing<T(!new)>(q: seq<T>, before: (T, T) -> bool) {
    forall i, j :: 0 <= i < j < |q| ==> before(q[i], q[j])
  }

  lemma FirstIsFirst<T(!new)>(s: set<T>, before: (T, T) -> bool)
    requires StrictTotal(before) && s != {}
    ensures First(s, before) in s && IsFirst(s, before, First(s, before))
  {
  }

  lemma FirstIsNext<T(!new)>(sorted: seq<T>, s: set<T>, before: (T, T) -> bool, x: T)
    requires StrictTotal(before) && IsFirst(s, before, x)
    ensures sorted + Listed(s, before) == sorted + [x] + Listed(s - {x}, before)
  {
    assert x == First(s, before) by {
      var first := First(s, before);
      assert first != x ==> before(first, x) && before(x, first) && before(x, x);
    }
    assert Listed(s, before) == [x] + Listed(s - {x}, before);
  }

  /** The elements of s in order, taking out the first of the remaining ones again and again. */
  method Sorted<T(==, !new)>(s: set<T>, before: (T, T) -> bool) returns (sorted: seq<T>)
    requires StrictTotal(before)
    ensures sorted == Listed(s, before)
  {
    hide StrictTotal, IsFirst;
    sorted := [];
    var remaining := s;
    while remaining != {}
      invariant sorted + Listed(remaining, before) == Listed(s, before)
      decreases |remaining|
    {
      ghost var first := First(remaining, before);
      assert first in remaining && IsFirst(remaining, before, first) by { FirstIsFirst(remaining, before); }
      var x :| x in remaining && IsFirst(remaining, before, x);
      FirstIsNext(sorted, remaining, before, x);
      sorted := sorted + [x];
      remaining := remaining - {x};
    }
  }

  lemma {:induction false} SubsetSize<T>(a: set<T>, b: set<T>)
    requires a <= b
    ensures |a| <= |b|
    decreases |a|
  {
    if |a| > 0 {
      var x :| x in a;
      SubsetSize(a - {x}, b - {x});
    }
  }

  // Ids in ascending order

  predicate ById(t: nat, u: nat) {
    t < u
  }

  // The ids in ascending order.
  ghost function Ascending(ids: set<nat>): seq<nat> {
    Listed(ids, ById)
  }

  method SortedIds(ids: set<nat>) returns (sorted: seq<nat>)
    ensures sorted == Ascending(ids)
  {
    sorted := Sorted(ids, ById);
  }

  // The ids before position i of a listing.
  function Taken(ids: seq<nat>, i: nat): set<nat>
    requires i <= |ids|
  {
    set j | 0 <= j < i :: ids[j]
  }

  lemma TakeOneMore(ids: seq<nat>, i: nat)
    requires i < |ids| && Increasing(ids, ById)
    ensures Taken(ids, i + 1) == Taken(ids, i) + {ids[i]} && ids[i] !in Taken(ids, i)
  {
    assert forall j :: 0 <= j < i ==> ById(ids[j], ids[i]);
  }

  lemma AllTaken(ids: seq<nat>, all: set<nat>)
    requires ids == Ascending(all)
    ensures Taken(ids, |ids|) == all && |ids| == |all| && Increasing(ids, ById) && forall t :: t in ids <==> t in all
  {
    assert forall t :: t in ids <==> t in all;
  }
}
