/** The sum of the values of a finite map, independent of the order in which a
    Python loop over a dict would visit its keys. */
module MapSum {

  ghost function Sum<K>(m: map<K, real>): real
    decreases |m.Keys|
  {
    if m.Keys == {} then 0.0
    else
      var k :| k in m.Keys;
      assert (m - {k}).Keys == m.Keys - {k};
      m[k] + Sum(m - {k})
  }

  /** Any key can be taken out first. */
  lemma {:induction false} SumRemove<K>(m: map<K, real>, k: K)
    requires k in m
    ensures Sum(m) == m[k] + Sum(m - {k})
    decreases |m.Keys|
  {
    var j :| j in m.Keys && Sum(m) == m[j] + Sum(m - {j});
    if j != k {
      assert (m - {j}).Keys == m.Keys - {j};
      assert (m - {k}).Keys == m.Keys - {k};
      SumRemove(m - {j}, k);
      SumRemove(m - {k}, j);
      assert m - {j} - {k} == m - {k} - {j};
    }
  }

  /** Adding a fresh key adds its value. */
  lemma SumInsert<K>(m: map<K, real>, k: K, x: real)
    requires k !in m
    ensures Sum(m[k := x]) == Sum(m) + x
  {
    SumRemove(m[k := x], k);
    assert m[k := x] - {k} == m;
  }

  lemma {:induction false} SumEmptyIsZero<K>(m: map<K, real>)
    requires m == map[]
    ensures Sum(m) == 0.0
  {
    assert m.Keys == {};
  }

  /** The sum of the values at the keys `ks`, in that order. */
  ghost function SumAlong<K>(ks: seq<K>, m: map<K, real>): real
    requires forall k :: k in ks ==> k in m
  {
    if ks == [] then 0.0 else SumAlong(ks[..|ks| - 1], m) + m[ks[|ks| - 1]]
  }

  ghost predicate Enumerates<K(!new)>(ks: seq<K>, keys: set<K>)
  {
    (forall i, j :: 0 <= i < j < |ks| ==> ks[i] != ks[j]) && (forall k :: k in ks <==> k in keys)
  }

  /** Every finite map's keys can be listed once each. */
  lemma {:induction false} Enumerate<K(!new)>(m: map<K, real>) returns (ks: seq<K>)
    ensures Enumerates(ks, m.Keys)
    decreases |m.Keys|
  {
    if m.Keys == {} {
      ks := [];
    } else {
      var k :| k in m.Keys;
      assert (m - {k}).Keys == m.Keys - {k};
      var rest := Enumerate(m - {k});
      ks := rest + [k];
    }
  }

  lemma {:induction false} SumAlongAgree<K>(ks: seq<K>, m: map<K, real>, n: map<K, real>)
    requires forall k :: k in ks ==> k in m && k in n && m[k] == n[k]
    ensures SumAlong(ks, m) == SumAlong(ks, n)
  {
    if ks != [] {
      SumAlongAgree(ks[..|ks| - 1], m, n);
    }
  }

  /** Summing along any enumeration of the keys gives the map's sum. */
  lemma {:induction false} SumIsSumAlong<K(!new)>(ks: seq<K>, m: map<K, real>)
    requires Enumerates(ks, m.Keys)
    ensures SumAlong(ks, m) == Sum(m)
    decreases |ks|
  {
    if ks == [] {
      assert m.Keys == {};
    } else {
      var k, init := ks[|ks| - 1], ks[..|ks| - 1];
      var m' := m - {k};
      assert m'.Keys == m.Keys - {k};
      assert forall j :: j in init ==> j != k by {
        forall j | j in init ensures j != k {
          var i :| 0 <= i < |init| && init[i] == j;
          assert ks[i] == j && ks[|ks| - 1] == k;
        }
      }
      assert Enumerates(init, m'.Keys);
      SumIsSumAlong(init, m');
      SumAlongAgree(init, m', m);
      SumRemove(m, k);
    }
  }

  lemma {:induction false} ScaleAlong<K>(ks: seq<K>, m: map<K, real>, a: real, n: map<K, real>)
    requires forall k :: k in ks ==> k in m && k in n && n[k] == a * m[k]
    ensures SumAlong(ks, n) == a * SumAlong(ks, m)
  {
    if ks != [] {
      ScaleAlong(ks[..|ks| - 1], m, a, n);
    }
  }

  /** `n` is `m` with every value multiplied by `a`. */
  ghost predicate Scaled<K>(m: map<K, real>, a: real, n: map<K, real>)
  {
    n.Keys == m.Keys && forall k :: k in m ==> n[k] == a * m[k]
  }

  /** Multiplying every value by `a` multiplies the sum by `a`: the sums are
      returned as x and s, with s equal to a times x. */
  lemma SumScale<K(!new)>(m: map<K, real>, a: real, n: map<K, real>) returns (x: real, s: real)
    requires Scaled(m, a, n)
    ensures x == Sum(m) && s == Sum(n) && s == a * x
  {
    var ks := CommonEnumeration(m, n);
    ScaleAlong(ks, m, a, n);
    x := SumAlong(ks, m);
    s := SumAlong(ks, n);
  }

  lemma MulCongruence(a: real, x: real, y: real)
    requires x == y
    ensures a * x == a * y
  {
  }

  /** One listing of the keys along which both maps sum to their totals. */
  lemma CommonEnumeration<K(!new)>(m: map<K, real>, n: map<K, real>) returns (ks: seq<K>)
    requires n.Keys == m.Keys
    ensures forall k :: k in ks ==> k in m && k in n
    ensures SumAlong(ks, m) == Sum(m) && SumAlong(ks, n) == Sum(n)
  {
    ks := Enumerate(m);
    SumIsSumAlong(ks, m);
    SumIsSumAlong(ks, n);
  }

  lemma {:induction false} DivideAlong<K>(ks: seq<K>, m: map<K, real>, b: real, n: map<K, real>)
    requires b != 0.0
    requires forall k :: k in ks ==> k in m && k in n && n[k] == m[k] / b
    ensures SumAlong(ks, n) == SumAlong(ks, m) / b
  {
    if ks != [] {
      DivideAlong(ks[..|ks| - 1], m, b, n);
      DivAdd(SumAlong(ks[..|ks| - 1], m), m[ks[|ks| - 1]], b);
    }
  }

  lemma DivAdd(x: real, y: real, b: real)
    requires b != 0.0
    ensures x / b + y / b == (x + y) / b
  {
  }

  lemma DividedAlong<K>(ks: seq<K>, m: map<K, real>, b: real, n: map<K, real>)
    requires b != 0.0
    requires forall k :: k in ks ==> k in m && k in n && n[k] == m[k] / b
    requires SumAlong(ks, m) == Sum(m) && SumAlong(ks, n) == Sum(n)
    ensures Sum(n) == Sum(m) / b
  {
    DivideAlong(ks, m, b, n);
  }

  /** Dividing every value by `b` divides the sum by `b`. */
  lemma SumDivide<K(!new)>(m: map<K, real>, b: real, n: map<K, real>)
    requires b != 0.0
    requires n.Keys == m.Keys
    requires forall k :: k in m ==> n[k] == m[k] / b
    ensures Sum(n) == Sum(m) / b
  {
    var ks := CommonEnumeration(m, n);
    DividedAlong(ks, m, b, n);
  }

  /** Dividing every value by the (positive) total makes them sum to 1. */
  lemma SumNormalized<K(!new)>(m: map<K, real>, total: real, n: map<K, real>)
    requires total == Sum(m) && total > 0.0
    requires n.Keys == m.Keys
    requires forall k :: k in m ==> n[k] == m[k] / total
    ensures Sum(n) == 1.0
  {
    SumDivide(m, total, n);
    DivSelf(Sum(m), total);
  }

  lemma DivSelf(x: real, y: real)
    requires x == y && y != 0.0
    ensures x / y == 1.0
  {
  }

  /** Non-negative values give a non-negative sum; positive values and a key give a positive one. */
  lemma {:induction false} SumSign<K>(m: map<K, real>)
    requires forall k :: k in m ==> m[k] >= 0.0
    ensures Sum(m) >= 0.0
    ensures (exists k :: k in m && m[k] > 0.0) ==> Sum(m) > 0.0
    decreases |m.Keys|
  {
    if m.Keys != {} {
      var k :| k in m.Keys;
      SumRemove(m, k);
      assert (m - {k}).Keys == m.Keys - {k};
      SumSign(m - {k});
      if exists j :: j in m && m[j] > 0.0 {
        var j :| j in m && m[j] > 0.0;
        if j != k {
          assert j in m - {k};
        }
      }
    }
  }

  /** A sum of zeros is zero. */
  lemma {:induction false} SumZero<K>(m: map<K, real>)
    requires forall k :: k in m ==> m[k] == 0.0
    ensures Sum(m) == 0.0
    decreases |m.Keys|
  {
    if m.Keys != {} {
      var k :| k in m.Keys;
      SumRemove(m, k);
      assert (m - {k}).Keys == m.Keys - {k};
      SumZero(m - {k});
    }
  }
}
