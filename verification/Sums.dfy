/** Counting: sums over finite maps and sizes of finite sets. */
module Sums {

  ghost function Sum(m: map<nat, nat>): nat {
    if m == map[] then 0
    else
      var k :| k in m;
      m[k] + Sum(m - {k})
  }

  /** The order in which the entries are added does not matter. */
  lemma {:induction false} SumLess(m: map<nat, nat>, k: nat)
    requires k in m
    ensures Sum(m) == m[k] + Sum(m - {k})
    decreases |m|
  {
    var j :| j in m && Sum(m) == m[j] + Sum(m - {j});
    if j != k {
      SumLess(m - {j}, k);
      SumLess(m - {k}, j);
      assert m - {j} - {k} == m - {k} - {j};
    }
  }

  lemma SumAdd(m: map<nat, nat>, k: nat, v: nat)
    requires k !in m
    ensures Sum(m[k := v]) == Sum(m) + v
  {
    SumLess(m[k := v], k);
    assert m[k := v] - {k} == m;
  }

  lemma CardLe(a: set<nat>, b: set<nat>)
    requires a <= b
    ensures |a| <= |b|
  {
    assert b == a + (b - a);
  }

  lemma CardSplit(a: set<nat>, b: set<nat>)
    requires a <= b
    ensures |b| == |a| + |b - a|
  {
    assert b == a + (b - a);
  }

  /** The numbers from a up to a + n. */
  function Range(a: nat, n: nat): (r: set<nat>)
    ensures forall x :: x in r <==> a <= x < a + n
    ensures |r| == n
  {
    if n == 0 then {} else Range(a, n - 1) + {a + n - 1}
  }

  /** A set that is reached from every key of a map has no more elements. */
  lemma {:induction false} ImageLe(m: map<nat, nat>, img: set<nat>)
    requires forall y :: y in img ==> exists x :: x in m && m[x] == y
    ensures |img| <= |m|
    decreases |m|
  {
    if m == map[] {
      assert img == {};
    } else {
      var k :| k in m;
      var m' := m - {k};
      forall y | y in img - {m[k]}
        ensures exists x :: x in m' && m'[x] == y
      {
        var x :| x in m && m[x] == y;
        assert x in m';
      }
      ImageLe(m', img - {m[k]});
      CardLe(img, img - {m[k]} + {m[k]});
      assert |m| == |m'| + 1;
    }
  }

  lemma {:induction false} OneToOne<K>(m: map<nat, K>)
    requires forall x, z :: x in m && z in m && m[x] == m[z] ==> x == z
    ensures |m.Values| == |m.Keys|
    decreases |m|
  {
    if m == map[] {
      assert m.Values == {};
    } else {
      var k :| k in m;
      var m' := m - {k};
      OneToOne(m');
      assert m.Values - {m[k]} == m'.Values by {
        assert forall x :: x in m && x != k ==> x in m' && m'[x] == m[x];
      }
      assert m[k] in m.Values;
      assert m.Keys - {k} == m'.Keys;
    }
  }
}
