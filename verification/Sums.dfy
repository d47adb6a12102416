/** Sums over finite maps of counts. */
module Sums {

  lemma NonEmpty(ks: set<int>)
    requires ks != {}
    ensures exists k :: k in ks
  {
    assert (forall k :: k !in ks) ==> ks == {};
  }

  ghost function SumOn(ks: set<int>, m: map<int, nat>): nat
    requires ks <= m.Keys
  {
    if ks == {} then 0
    else
      NonEmpty(ks);
      var k :| k in ks;
      m[k] + SumOn(ks - {k}, m)
  }

  ghost function Sum(m: map<int, nat>): nat {
    SumOn(m.Keys, m)
  }

  lemma {:induction false} SumOnAt(ks: set<int>, m: map<int, nat>, k: int)
    requires ks <= m.Keys && k in ks
    ensures SumOn(ks, m) == m[k] + SumOn(ks - {k}, m)
  {
    var c :| c in ks && SumOn(ks, m) == m[c] + SumOn(ks - {c}, m);
    if c != k {
      SumOnAt(ks - {c}, m, k);
      SumOnAt(ks - {k}, m, c);
      assert ks - {c} - {k} == ks - {k} - {c};
    }
  }

  lemma {:induction false} SumOnSame(ks: set<int>, m: map<int, nat>, m': map<int, nat>)
    requires ks <= m.Keys && ks <= m'.Keys && forall k :: k in ks ==> m[k] == m'[k]
    ensures SumOn(ks, m) == SumOn(ks, m')
  {
    if ks != {} {
      NonEmpty(ks);
      var c :| c in ks;
      SumOnAt(ks, m, c);
      SumOnAt(ks, m', c);
      SumOnSame(ks - {c}, m, m');
    }
  }

  lemma SumAt(m: map<int, nat>, k: int)
    requires k in m
    ensures Sum(m) == m[k] + Sum(m - {k})
  {
    SumOnAt(m.Keys, m, k);
    assert (m - {k}).Keys == m.Keys - {k};
    SumOnSame(m.Keys - {k}, m, m - {k});
  }

  lemma SumSet(m: map<int, nat>, k: int, v: nat)
    ensures Sum(m[k := v]) == Sum(m - {k}) + v
  {
    SumAt(m[k := v], k);
    assert m[k := v] - {k} == m - {k};
  }

  lemma CountRemove(m: map<int, nat>, k: int)
    requires k in m
    ensures |m - {k}| == |m| - 1
  {
    assert (m - {k}).Keys == m.Keys - {k};
  }

  lemma {:induction false} SumBound(m: map<int, nat>, cap: nat)
    requires forall p :: p in m ==> m[p] <= cap
    ensures Sum(m) <= cap * |m|
    decreases |m|
  {
    if m.Keys != {} {
      var ks := m.Keys;
      NonEmpty(ks);
      var c :| c in ks;
      SumAt(m, c);
      CountRemove(m, c);
      SumBound(m - {c}, cap);
      assert cap * |m| == cap * (|m| - 1) + cap;
    }
  }
}
