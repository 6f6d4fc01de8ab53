/** Sums over the threads of a system. */
module Totals {

  ghost function Total(w: map<nat, nat>): nat
    decreases |w|
  {
    if w == map[] then 0 else var t :| t in w; w[t] + Total(w - {t})
  }

  lemma {:induction false} TotalWithout(w: map<nat, nat>, t: nat)
    requires t in w
    ensures Total(w) == w[t] + Total(w - {t})
    decreases |w|
  {
    var u :| u in w && Total(w) == w[u] + Total(w - {u});
    if u != t {
      TotalWithout(w - {u}, t);
      TotalWithout(w - {t}, u);
      assert w - {u} - {t} == w - {t} - {u};
    }
  }

  lemma TotalUpdate(w: map<nat, nat>, t: nat, v: nat)
    requires t in w
    ensures Total(w[t := v]) == Total(w) - w[t] + v
  {
    TotalWithout(w, t);
    TotalWithout(w[t := v], t);
    assert w[t := v] - {t} == w - {t};
  }

  lemma SizeWithout(w: map<nat, nat>, t: nat)
    requires t in w
    ensures |w - {t}| == |w| - 1 && (w - {t}).Keys == w.Keys - {t}
  {
    assert (w - {t}).Keys == w.Keys - {t};
    assert |w| == |w.Keys| && |w - {t}| == |(w - {t}).Keys|;
  }

  lemma OneMore(c: nat, n: int)
    ensures c * n == c * (n - 1) + c
  {
  }

  /** If no thread's share grows by more than c, the sum grows by at most c for each of them. */
  lemma {:induction false} TotalGrowth(a: map<nat, nat>, b: map<nat, nat>, c: nat)
    requires a.Keys == b.Keys && forall t <- a :: b[t] <= a[t] + c
    ensures Total(b) <= Total(a) + c * |a|
    decreases |a|
  {
    if a == map[] {
      assert b == map[];
    } else {
      var t :| t in a;
      TotalWithout(a, t);
      TotalWithout(b, t);
      SizeWithout(a, t);
      SizeWithout(b, t);
      OneMore(c, |a|);
      TotalGrowth(a - {t}, b - {t}, c);
    }
  }

  lemma {:induction false} TotalBounded(w: map<nat, nat>, c: nat)
    requires forall t <- w :: w[t] <= c
    ensures Total(w) <= c * |w|
    decreases |w|
  {
    if w != map[] {
      var t :| t in w;
      TotalWithout(w, t);
      SizeWithout(w, t);
      OneMore(c, |w|);
      TotalBounded(w - {t}, c);
    }
  }
}
