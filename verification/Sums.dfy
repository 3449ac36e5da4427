/** Sums of the values of a finite map, independent of any iteration order. */
module Sums {

  ghost function Total<K(!new)>(m: map<K, nat>): nat {
    if m == map[] then 0
    else
      var k :| k in m;
      m[k] + Total(m - {k})
  }

  function Restrict<K, V>(m: map<K, V>, part: set<K>): map<K, V> {
    map k | k in m && k in part :: m[k]
  }

  /** Any key may be taken out first. */
  lemma {:induction false} TotalRemove<K(!new)>(m: map<K, nat>, k: K)
    requires k in m
    ensures Total(m) == m[k] + Total(m - {k})
    decreases |m|
  {
    var p :| p in m && Total(m) == m[p] + Total(m - {p});
    if p != k {
      TotalRemove(m - {p}, k);
      TotalRemove(m - {k}, p);
      assert m - {p} - {k} == m - {k} - {p};
    }
  }

  lemma TotalInsert<K(!new)>(m: map<K, nat>, k: K, v: nat)
    requires k !in m
    ensures Total(m[k := v]) == v + Total(m)
  {
    TotalRemove(m[k := v], k);
    assert m[k := v] - {k} == m;
  }

  lemma RestrictInside<K(!new), V>(m: map<K, V>, part: set<K>, k: K)
    requires k in m && k in part
    ensures Restrict(m, part) - {k} == Restrict(m - {k}, part)
    ensures m - part == m - {k} - part
  {
  }

  lemma RestrictOutside<K(!new), V>(m: map<K, V>, part: set<K>, k: K)
    requires k in m && k !in part
    ensures Restrict(m, part) == Restrict(m - {k}, part)
    ensures m - part - {k} == m - {k} - part
  {
  }

  /** A map's total splits along any set of keys. */
  lemma {:induction false} TotalSplit<K(!new)>(m: map<K, nat>, part: set<K>)
    ensures Total(m) == Total(Restrict(m, part)) + Total(m - part)
    decreases |m|
  {
    if m == map[] {
      assert Restrict(m, part) == m;
      assert m - part == m;
    } else {
      var k :| k in m;
      TotalRemove(m, k);
      TotalSplit(m - {k}, part);
      if k in part {
        RestrictInside(m, part, k);
        TotalRemove(Restrict(m, part), k);
      } else {
        RestrictOutside(m, part, k);
        TotalRemove(m - part, k);
      }
    }
  }

  /** `a` weighted by `x` is at most `b` weighted by `y`. */
  predicate Below(x: int, a: int, y: int, b: int) {
    x * a <= y * b
  }

  lemma BelowAdd(x: int, y: int, a0: int, a1: int, b0: int, b1: int)
    requires Below(x, a0, y, b0) && Below(x, a1, y, b1)
    ensures Below(x, a0 + a1, y, b0 + b1)
  {
  }

  lemma BelowZero(x: int, y: int)
    ensures Below(x, 0, y, 0)
  {
  }

  /** Pointwise domination carries over to totals, with integer weights. */
  lemma {:induction false} TotalScaled<K(!new)>(a: map<K, nat>, b: map<K, nat>, x: int, y: int)
    requires a.Keys == b.Keys
    requires forall k :: k in a ==> Below(x, a[k], y, b[k])
    ensures Below(x, Total(a), y, Total(b))
    decreases |a|
  {
    hide Below;
    if a == map[] {
      assert b == map[];
      BelowZero(x, y);
    } else {
      var k :| k in a;
      TotalRemove(a, k);
      TotalRemove(b, k);
      TotalScaled(a - {k}, b - {k}, x, y);
      BelowAdd(x, y, a[k], Total(a - {k}), b[k], Total(b - {k}));
    }
  }
}
