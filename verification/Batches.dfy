/** Records batched under keys: the dictionary operations that the accumulators
    of both clients are made of. */
module Batches {
  import opened Sequences

  function Of<K, R>(m: map<K, seq<R>>, k: K): seq<R> {
    if k in m then m[k] else []
  }

  function Push<K, R>(m: map<K, seq<R>>, k: K, r: R): map<K, seq<R>> {
    m[k := Of(m, k) + [r]]
  }

  function Only<K, V>(m: map<K, V>, ks: set<K>): map<K, V> {
    map k | k in m && k in ks :: m[k]
  }

  /** Appends the batches taken to what was taken before. */
  function Merge<K, R>(before: map<K, seq<R>>, taken: map<K, seq<R>>): map<K, seq<R>> {
    map k | k in before.Keys + taken.Keys :: Of(before, k) + Of(taken, k)
  }

  lemma OfMerge<K, R>(before: map<K, seq<R>>, taken: map<K, seq<R>>, k: K)
    ensures Of(Merge(before, taken), k) == Of(before, k) + Of(taken, k)
  {
  }

  lemma SameLists<K, R>(l: map<K, seq<R>>, r: map<K, seq<R>>)
    requires l.Keys == r.Keys && forall k :: Of(l, k) == Of(r, k)
    ensures l == r
  {
    forall k | k in l ensures l[k] == r[k] {
      assert Of(l, k) == Of(r, k);
    }
  }

  /** Taking some batches moves them, whole, from what is pending to what was
      taken. */
  lemma TakenThenLeft<K, R>(before: map<K, seq<R>>, m: map<K, seq<R>>, ks: set<K>, k: K)
    ensures Of(Merge(before, Only(m, ks)), k) + Of(m - ks, k) == Of(before, k) + Of(m, k)
  {
    OfMerge(before, Only(m, ks), k);
    OfSplit(m, ks, k);
    if k in ks { ThenNothing(Of(before, k) + Of(m, k)); } else { ThenNothing(Of(before, k)); }
  }

  lemma OfSplit<K, R>(m: map<K, seq<R>>, ks: set<K>, k: K)
    ensures Of(Only(m, ks), k) == if k in ks then Of(m, k) else []
    ensures Of(m - ks, k) == if k in ks then [] else Of(m, k)
  {
  }

  lemma TakeNothing<K, V>(m: map<K, V>)
    ensures m - {} == m && Only(m, {}) == map[]
  {
  }

  /** The sum of the values of a dictionary. */
  ghost function Sum<K>(m: map<K, nat>): nat {
    if m == map[] then 0
    else
      var k :| k in m;
      m[k] + Sum(m - {k})
  }

  lemma {:induction false} SumRemove<K>(m: map<K, nat>, k: K)
    requires k in m
    ensures Sum(m) == m[k] + Sum(m - {k})
    decreases |m|
  {
    var j :| j in m && Sum(m) == m[j] + Sum(m - {j});
    if j != k {
      SumRemove(m - {j}, k);
      SumRemove(m - {k}, j);
      assert m - {j} - {k} == m - {k} - {j};
    }
  }

  lemma SumUpdate<K>(m: map<K, nat>, k: K, v: nat)
    ensures Sum(m[k := v]) == v + Sum(m - {k})
    ensures Sum(m) == (if k in m then m[k] else 0) + Sum(m - {k})
  {
    SumRemove(m[k := v], k);
    assert m[k := v] - {k} == m - {k};
    if k in m { SumRemove(m, k); } else { assert m - {k} == m; }
  }

  lemma {:induction false} SumSplit<K>(m: map<K, nat>, ks: set<K>)
    ensures Sum(m) == Sum(m - ks) + Sum(Only(m, ks))
    decreases |m|
  {
    if m == map[] {
      assert m - ks == map[] && Only(m, ks) == map[];
    } else {
      var k :| k in m;
      SumRemove(m, k);
      SumSplit(m - {k}, ks);
      SumSplitStep(m, ks, k);
    }
  }

  lemma SumSplitStep<K>(m: map<K, nat>, ks: set<K>, k: K)
    requires k in m
    ensures Sum(m - ks) + Sum(Only(m, ks)) == m[k] + Sum((m - {k}) - ks) + Sum(Only(m - {k}, ks))
  {
    if k in ks {
      SumRemove(Only(m, ks), k);
      assert Only(m, ks) - {k} == Only(m - {k}, ks);
      assert m - ks == (m - {k}) - ks;
    } else {
      SumRemove(m - ks, k);
      assert (m - ks) - {k} == (m - {k}) - ks;
      assert Only(m, ks) == Only(m - {k}, ks);
    }
  }
}
