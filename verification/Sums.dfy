/** Finite sums over sets, used for balances, slots and queue lengths. */
module Sums {

  ghost function Sum<K>(s: set<K>, f: K -> int): int
    decreases |s|
  {
    if s == {} then 0
    else
      var k :| k in s;
      f(k) + Sum(s - {k}, f)
  }

  /** Any element may be summed first. */
  lemma {:induction false} SumTake<K>(s: set<K>, f: K -> int, k: K)
    requires k in s
    ensures Sum(s, f) == f(k) + Sum(s - {k}, f)
    decreases |s|
  {
    var first :| first in s && Sum(s, f) == f(first) + Sum(s - {first}, f);
    if first != k {
      SumTake(s - {first}, f, k);
      SumTake(s - {k}, f, first);
      assert s - {first} - {k} == s - {k} - {first};
    }
  }

  lemma SumPut<K>(s: set<K>, f: K -> int, k: K)
    requires k !in s
    ensures Sum(s + {k}, f) == f(k) + Sum(s, f)
  {
    SumTake(s + {k}, f, k);
    assert s + {k} - {k} == s;
  }

  lemma {:induction false} SumSame<K>(s: set<K>, f: K -> int, g: K -> int)
    requires forall k | k in s :: f(k) == g(k)
    ensures Sum(s, f) == Sum(s, g)
    decreases |s|
  {
    if s != {} {
      var k :| k in s;
      SumTake(s, f, k);
      SumTake(s, g, k);
      SumSame(s - {k}, f, g);
    }
  }

  lemma {:induction false} SumAtMost<K>(s: set<K>, f: K -> int, g: K -> int)
    requires forall k | k in s :: f(k) <= g(k)
    ensures Sum(s, f) <= Sum(s, g)
    decreases |s|
  {
    if s != {} {
      var k :| k in s;
      SumTake(s, f, k);
      SumTake(s, g, k);
      SumAtMost(s - {k}, f, g);
    }
  }

  /** Changing the summand at one element changes the sum by the difference. */
  lemma SumChange<K>(s: set<K>, f: K -> int, g: K -> int, k: K)
    requires k in s && forall x | x in s && x != k :: f(x) == g(x)
    ensures Sum(s, g) == Sum(s, f) - f(k) + g(k)
  {
    SumTake(s, f, k);
    SumTake(s, g, k);
    SumSame(s - {k}, f, g);
  }

  lemma {:induction false} SumMinus<K>(s: set<K>, f: K -> int, t: set<K>)
    requires t <= s
    ensures Sum(s - t, f) == Sum(s, f) - Sum(t, f)
    decreases |t|
  {
    if t == {} {
      assert s - t == s;
    } else {
      var k :| k in t;
      SumTake(t, f, k);
      SumTake(s, f, k);
      SumMinus(s - {k}, f, t - {k});
      assert s - t == (s - {k}) - (t - {k});
    }
  }

  lemma SubsetSize<T>(s: set<T>, t: set<T>)
    requires s <= t
    ensures |s| <= |t|
  {
    assert t == s + (t - s);
  }

  // ---------- counting in sequences ----------

  lemma CountTwice<T>(s: seq<T>, i: nat, j: nat)
    requires i < j < |s| && s[i] == s[j]
    ensures multiset(s)[s[i]] >= 2
  {
    assert s == s[..j] + s[j..];
    assert s[..j][i] == s[i] && s[j..][0] == s[j];
    assert multiset(s[..j])[s[i]] >= 1 && multiset(s[j..])[s[i]] >= 1;
  }
}
