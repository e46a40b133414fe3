/** Small vocabulary shared by the model: optional values, maps read with a
    default, and the sum of a map's values. */
module Common {

  type NodeId = string

  datatype Option<+T> = None | Some(value: T)

  /** The value stored under `k`, or `d` when there is none
      (`entry(..).or_insert(d)`, `get(..).unwrap_or(d)`). */
  function Get<K, V>(m: map<K, V>, k: K, d: V): V
  {
    if k in m then m[k] else d
  }

  function Min(a: nat, b: nat): nat
  {
    if a <= b then a else b
  }

  /** The elements of `s` that satisfy `p`, in order. */
  function Filter<T(!new)>(s: seq<T>, p: T -> bool): (r: seq<T>)
    ensures |r| <= |s|
    ensures forall x :: x in r <==> x in s && p(x)
  {
    if s == [] then []
    else Filter(s[..|s|-1], p) + (if p(s[|s|-1]) then [s[|s|-1]] else [])
  }

  ghost predicate Distinct<T>(s: seq<T>)
  {
    forall i, j :: 0 <= i < j < |s| ==> s[i] != s[j]
  }

  /** Filtering never changes the order of what is left, so it cannot repeat. */
  lemma {:induction false} FilterDistinct<T(!new)>(s: seq<T>, p: T -> bool)
    requires Distinct(s)
    ensures Distinct(Filter(s, p))
  {
    if s != [] {
      FilterDistinct(s[..|s|-1], p);
      assert s[|s|-1] !in s[..|s|-1];
    }
  }

  lemma {:induction false} FilterConcat<T(!new)>(s: seq<T>, t: seq<T>, p: T -> bool)
    ensures Filter(s + t, p) == Filter(s, p) + Filter(t, p)
  {
    if t == [] {
      assert s + t == s;
    } else {
      var t' := t[..|t|-1];
      assert (s + t)[..|s + t|-1] == s + t';
      FilterConcat(s, t', p);
      assert (s + t)[|s + t|-1] == t[|t|-1];
    }
  }

  lemma {:induction false} FilterAll<T(!new)>(s: seq<T>, p: T -> bool)
    requires forall x :: x in s ==> p(x)
    ensures Filter(s, p) == s
  {
    if s != [] {
      var n := |s| - 1;
      FilterAll(s[..n], p);
      assert p(s[n]);
      assert s == s[..n] + [s[n]];
    }
  }

  lemma {:induction false} FilterNone<T(!new)>(s: seq<T>, p: T -> bool)
    requires forall x :: x in s ==> !p(x)
    ensures Filter(s, p) == []
  {
    if s != [] {
      FilterNone(s[..|s|-1], p);
    }
  }

  lemma {:induction false} FilterSame<T(!new)>(s: seq<T>, p: T -> bool, q: T -> bool)
    requires forall x :: x in s ==> (p(x) <==> q(x))
    ensures Filter(s, p) == Filter(s, q)
  {
    if s != [] {
      FilterSame(s[..|s|-1], p, q);
      assert s[|s|-1] in s;
    }
  }

  /** Filtering by `p` and then by `q`, where on `s` only what satisfies `p`
      satisfies `q`. */
  lemma {:induction false} FilterTwice<T(!new)>(s: seq<T>, p: T -> bool, q: T -> bool)
    requires forall x :: x in s && q(x) ==> p(x)
    ensures Filter(Filter(s, p), q) == Filter(s, q)
  {
    if s != [] {
      var n := |s| - 1;
      FilterTwice(s[..n], p, q);
      FilterConcat(Filter(s[..n], p), if p(s[n]) then [s[n]] else [], q);
      assert s[n] in s;
    }
  }

  /** The first position whose element satisfies `p`. */
  function Find<T(!new)>(s: seq<T>, p: T -> bool): (r: Option<nat>)
    ensures r.Some? ==> r.value < |s| && p(s[r.value])
    ensures r.Some? ==> forall j :: 0 <= j < r.value ==> !p(s[j])
    ensures r.None? ==> forall j :: 0 <= j < |s| ==> !p(s[j])
  {
    if s == [] then None
    else
      match Find(s[..|s|-1], p)
      case Some(i) => Some(i)
      case None => if p(s[|s|-1]) then Some(|s|-1) else None
  }

  // Sums of map values

  ghost function MapSum<K(!new)>(m: map<K, int>): int
    decreases |m|
  {
    if m == map[] then 0
    else
      var k :| k in m;
      assert |m - {k}| < |m| by { RemoveShrinks(m, k); }
      m[k] + MapSum(m - {k})
  }

  lemma {:induction false} RemoveShrinks<K, V>(m: map<K, V>, k: K)
    requires k in m
    ensures |m - {k}| == |m| - 1
  {
    assert (m - {k}).Keys == m.Keys - {k};
    assert |m.Keys| == |m| && |(m - {k}).Keys| == |m - {k}|;
  }

  /** The sum does not depend on the order in which keys are taken. */
  lemma {:induction false} MapSumRemove<K(!new)>(m: map<K, int>, k: K)
    requires k in m
    ensures MapSum(m) == m[k] + MapSum(m - {k})
    decreases |m|
  {
    var j :| j in m && MapSum(m) == m[j] + MapSum(m - {j});
    if j != k {
      RemoveShrinks(m, j);
      RemoveShrinks(m, k);
      MapSumRemove(m - {j}, k);
      MapSumRemove(m - {k}, j);
      assert m - {j} - {k} == m - {k} - {j};
    }
  }

  /** Adding `d` to one entry (created at 0 if missing) adds `d` to the sum. */
  lemma {:induction false} MapSumAdd<K(!new)>(m: map<K, int>, k: K, d: int)
    ensures MapSum(m[k := Get(m, k, 0) + d]) == MapSum(m) + d
  {
    var m' := m[k := Get(m, k, 0) + d];
    MapSumRemove(m', k);
    if k in m {
      MapSumRemove(m, k);
      assert m' - {k} == m - {k};
    } else {
      assert m' - {k} == m;
    }
  }
}
