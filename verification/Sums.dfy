/** Sums over finite sets, independent of the order of summation. */
module Sums {

  ghost function Sum<K(!new)>(s: set<K>, f: K -> int): int {
    if s == {} then 0
    else
      var k :| k in s;
      f(k) + Sum(s - {k}, f)
  }

  /** Any member can be taken out first. */
  lemma {:induction false} TakeOut<K(!new)>(s: set<K>, f: K -> int, k: K)
    requires k in s
    ensures Sum(s, f) == f(k) + Sum(s - {k}, f)
  {
    var j :| j in s && Sum(s, f) == f(j) + Sum(s - {j}, f);
    if j != k {
      TakeOut(s - {j}, f, k);
      TakeOut(s - {k}, f, j);
      assert s - {j} - {k} == s - {k} - {j};
    }
  }

  lemma {:induction false} Agree<K(!new)>(s: set<K>, f: K -> int, g: K -> int)
    requires forall k <- s :: f(k) == g(k)
    ensures Sum(s, f) == Sum(s, g)
  {
    if s != {} {
      var k :| k in s;
      TakeOut(s, f, k);
      TakeOut(s, g, k);
      Agree(s - {k}, f, g);
    }
  }

  /** Changing, adding or dropping one summand. */
  lemma Change<K(!new)>(s: set<K>, t: set<K>, f: K -> int, g: K -> int, k: K)
    requires forall j: K :: j != k ==> (j in s <==> j in t)
    requires forall j <- s :: j != k ==> f(j) == g(j)
    requires (k !in s ==> f(k) == 0) && (k !in t ==> g(k) == 0)
    ensures Sum(t, g) == Sum(s, f) - f(k) + g(k)
  {
    if k in s { TakeOut(s, f, k); } else { assert s - {k} == s; }
    if k in t { TakeOut(t, g, k); } else { assert t - {k} == t; }
    assert s - {k} == t - {k};
    Agree(s - {k}, f, g);
  }

  lemma {:induction false} AtMost<K(!new)>(s: set<K>, f: K -> int, g: K -> int)
    requires forall k <- s :: f(k) <= g(k)
    ensures Sum(s, f) <= Sum(s, g)
  {
    if s != {} {
      var k :| k in s;
      TakeOut(s, f, k);
      TakeOut(s, g, k);
      AtMost(s - {k}, f, g);
    }
  }

  lemma {:induction false} NonNegative<K(!new)>(s: set<K>, f: K -> int)
    requires forall k <- s :: f(k) >= 0
    ensures Sum(s, f) >= 0 && forall k <- s :: f(k) <= Sum(s, f)
  {
    if s != {} {
      forall k <- s ensures Sum(s, f) >= f(k) >= 0 {
        TakeOut(s, f, k);
        NonNegative(s - {k}, f);
      }
      var k :| k in s;
    }
  }

  /** `n` is `m` but for the row `k`. */
  ghost predicate Differs<K(!new), V>(m: map<K, V>, n: map<K, V>, k: K) {
    forall j: K :: j != k ==> (j in m <==> j in n) && (j in m ==> m[j] == n[j])
  }
}
