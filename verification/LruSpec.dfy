/** What an LRU cache is (include/torrent/common/lru_cache.h): a list of
    entries, most recently used first, and the traces of operations on it. */
module LruSpec {
  import Sets
  import opened Wrappers

  datatype Op<K, V> = Get(key: K) | Put(key: K, value: V) | Erase(key: K) | Clear

  type Entries<!K, V> = seq<(K, V)>

  ghost function Keys<K, V>(l: Entries<K, V>): set<K> {
    set e | e in l :: e.0
  }

  ghost predicate DistinctKeys<K, V>(l: Entries<K, V>) {
    forall i, j :: 0 <= i < j < |l| ==> l[i].0 != l[j].0
  }

  /** The entries whose keys are in `keep`, in the same order. */
  ghost function Restrict<K, V>(l: Entries<K, V>, keep: set<K>): Entries<K, V> {
    if l == [] then []
    else
      var rest := Restrict(l[..|l| - 1], keep);
      if l[|l| - 1].0 in keep then rest + [l[|l| - 1]] else rest
  }

  ghost function Without<K, V>(l: Entries<K, V>, k: K): Entries<K, V> {
    Restrict(l, Keys(l) - {k})
  }

  ghost function Lookup<K, V>(l: Entries<K, V>, k: K): Option<V> {
    if exists i :: 0 <= i < |l| && l[i].0 == k then
      var i :| 0 <= i < |l| && l[i].0 == k;
      Some(l[i].1)
    else None
  }

  ghost function Promote<K, V>(l: Entries<K, V>, k: K, v: V): Entries<K, V> {
    [(k, v)] + Without(l, k)
  }

  /** One operation on a cache of capacity c. */
  ghost function Apply<K, V>(c: nat, l: Entries<K, V>, op: Op<K, V>): Entries<K, V> {
    match op
    case Get(k) => if Lookup(l, k).Some? then Promote(l, k, Lookup(l, k).value) else l
    case Put(k, v) =>
      if Lookup(l, k).Some? then Promote(l, k, v)
      else if |l| >= c && l != [] then [(k, v)] + l[..|l| - 1]
      else [(k, v)] + l
    case Erase(k) => Without(l, k)
    case Clear => []
  }

  ghost function RunFrom<K, V>(c: nat, l: Entries<K, V>, ops: seq<Op<K, V>>): Entries<K, V> {
    if ops == [] then l else Apply(c, RunFrom(c, l, ops[..|ops| - 1]), ops[|ops| - 1])
  }

  ghost function Run<K, V>(c: nat, ops: seq<Op<K, V>>): Entries<K, V> {
    RunFrom(c, [], ops)
  }

  // ---------------------------------------------------------------------
  // Restriction
  // ---------------------------------------------------------------------

  lemma {:induction false} RestrictElements<K, V>(l: Entries<K, V>, keep: set<K>)
    ensures forall e :: e in Restrict(l, keep) <==> e in l && e.0 in keep
    ensures Keys(Restrict(l, keep)) == Keys(l) * keep
  {
    if l != [] {
      var front, last := l[..|l| - 1], l[|l| - 1];
      RestrictElements(front, keep);
      assert l == front + [last];
      assert forall e :: e in Restrict(l, keep) <==> e in l && e.0 in keep;
    }
    var r := Restrict(l, keep);
    forall k | k in Keys(l) * keep ensures k in Keys(r) {
      var e :| e in l && e.0 == k;
      assert e in r;
    }
    forall k | k in Keys(r) ensures k in Keys(l) * keep {
      var e :| e in r && e.0 == k;
      assert e in l;
    }
  }

  lemma {:induction false} RestrictAt<K, V>(l: Entries<K, V>, keep: set<K>, i: nat) returns (j: nat)
    requires i < |Restrict(l, keep)|
    ensures j < |l| && l[j] == Restrict(l, keep)[i]
  {
    var rest := Restrict(l[..|l| - 1], keep);
    if i < |rest| {
      j := RestrictAt(l[..|l| - 1], keep, i);
    } else {
      j := |l| - 1;
    }
  }

  lemma {:induction false} RestrictDistinct<K, V>(l: Entries<K, V>, keep: set<K>)
    requires DistinctKeys(l)
    ensures DistinctKeys(Restrict(l, keep))
  {
    if l != [] {
      var front, last := l[..|l| - 1], l[|l| - 1];
      RestrictDistinct(front, keep);
      var r := Restrict(front, keep);
      forall i | 0 <= i < |r| ensures r[i].0 != last.0 {
        var j := RestrictAt(front, keep, i);
        assert l[j].0 != l[|l| - 1].0;
      }
    }
  }

  lemma {:induction false} RestrictAgree<K, V>(l: Entries<K, V>, a: set<K>, b: set<K>)
    requires forall e :: e in l ==> (e.0 in a <==> e.0 in b)
    ensures Restrict(l, a) == Restrict(l, b)
  {
    if l != [] {
      assert l[|l| - 1] in l;
      RestrictAgree(l[..|l| - 1], a, b);
    }
  }

  lemma {:induction false} RestrictAll<K, V>(l: Entries<K, V>, keep: set<K>)
    requires Keys(l) <= keep
    ensures Restrict(l, keep) == l
  {
    if l != [] {
      var front, last := l[..|l| - 1], l[|l| - 1];
      assert l == front + [last];
      assert last in l && last.0 in Keys(l);
      forall k | k in Keys(front) ensures k in keep {
        var e :| e in front && e.0 == k;
        assert e in l;
      }
      RestrictAll(front, keep);
    }
  }

  lemma {:induction false} RestrictTwice<K, V>(l: Entries<K, V>, a: set<K>, b: set<K>)
    ensures Restrict(Restrict(l, a), b) == Restrict(l, a * b)
  {
    if l != [] {
      var front, last := l[..|l| - 1], l[|l| - 1];
      RestrictTwice(front, a, b);
      if last.0 in a {
        var r := Restrict(front, a);
        assert (r + [last])[..|r|] == r;
      }
    }
  }

  lemma {:induction false} RestrictConcat<K, V>(a: Entries<K, V>, b: Entries<K, V>, keep: set<K>)
    ensures Restrict(a + b, keep) == Restrict(a, keep) + Restrict(b, keep)
    decreases |b|
  {
    if b == [] {
      assert a + b == a;
    } else {
      var front := b[..|b| - 1];
      RestrictConcat(a, front, keep);
      assert (a + b)[..|a + b| - 1] == a + front;
    }
  }

  lemma RestrictCons<K, V>(e: (K, V), l: Entries<K, V>, keep: set<K>)
    ensures Restrict([e] + l, keep) == (if e.0 in keep then [e] else []) + Restrict(l, keep)
  {
    RestrictConcat([e], l, keep);
    assert [e][..0] == [];
    assert Restrict([e], keep) == if e.0 in keep then [e] else [];
  }

  lemma KeysSize<K, V>(l: Entries<K, V>)
    requires DistinctKeys(l)
    ensures |Keys(l)| == |l|
  {
    var keys := seq(|l|, i requires 0 <= i < |l| => l[i].0);
    forall k | k in Keys(l) ensures k in keys {
      var e :| e in l && e.0 == k;
      var i :| 0 <= i < |l| && l[i] == e;
      assert keys[i] == k;
    }
    assert Keys(l) == Sets.SetOf(keys);
    Sets.DistinctSize(keys);
  }

  lemma LookupIs<K, V>(l: Entries<K, V>, k: K, v: V)
    requires DistinctKeys(l)
    ensures Lookup(l, k) == Some(v) <==> (k, v) in l
    ensures Lookup(l, k).Some? <==> k in Keys(l)
  {
    if (k, v) in l {
      var j :| 0 <= j < |l| && l[j] == (k, v);
      assert l[j].0 == k;
    }
    if k in Keys(l) {
      var e :| e in l && e.0 == k;
      var j :| 0 <= j < |l| && l[j] == e;
      assert l[j].0 == k;
    }
  }

  /** Dropping the last entry is removing its key. */
  lemma DropLast<K, V>(l: Entries<K, V>)
    requires DistinctKeys(l) && l != []
    ensures Without(l, l[|l| - 1].0) == l[..|l| - 1]
  {
    var front, last := l[..|l| - 1], l[|l| - 1];
    assert l == front + [last];
    forall k | k in Keys(front) ensures k in Keys(l) - {last.0} {
      var e :| e in front && e.0 == k;
      assert e in l;
    }
    RestrictAll(front, Keys(l) - {last.0});
  }

  lemma ConsKeys<K, V>(e: (K, V), l: Entries<K, V>)
    ensures Keys([e] + l) == {e.0} + Keys(l)
    ensures DistinctKeys(l) && e.0 !in Keys(l) ==> DistinctKeys([e] + l)
  {
    var c := [e] + l;
    forall k | k in {e.0} + Keys(l) ensures k in Keys(c) {
      if k == e.0 {
        assert c[0] == e && e in c;
      } else {
        var x :| x in l && x.0 == k;
        assert x in c;
      }
    }
    if DistinctKeys(l) && e.0 !in Keys(l) {
      forall i, j | 0 <= i < j < |c| ensures c[i].0 != c[j].0 {
        assert c[j] == l[j - 1] && l[j - 1] in l;
      }
    }
  }

  /** Every insertion or promotion puts one entry in front of what remains of
      the list after at most one key left it. */
  ghost function Leaves<K, V>(c: nat, l: Entries<K, V>, k: K): set<K> {
    if Lookup(l, k).Some? then {k}
    else if |l| >= c && l != [] then {l[|l| - 1].0}
    else {}
  }

  lemma PutForm<K, V>(c: nat, l: Entries<K, V>, k: K, v: V)
    requires DistinctKeys(l)
    ensures Apply(c, l, Put(k, v)) == [(k, v)] + Restrict(l, Keys(l) - Leaves(c, l, k))
  {
    LookupIs(l, k, v);
    if Lookup(l, k).None? {
      if |l| >= c && l != [] {
        DropLast(l);
      } else {
        RestrictAll(l, Keys(l));
        assert Keys(l) - {} == Keys(l);
      }
    }
  }

  // ---------------------------------------------------------------------
  // Every reachable list
  // ---------------------------------------------------------------------

  ghost predicate Sound<K, V>(c: nat, l: Entries<K, V>) {
    DistinctKeys(l) && |l| <= c
  }

  lemma FrontSound<K, V>(l: Entries<K, V>, k: K, v: V, gone: set<K>)
    requires DistinctKeys(l) && (k in Keys(l) ==> k in gone)
    ensures DistinctKeys([(k, v)] + Restrict(l, Keys(l) - gone))
    ensures Keys([(k, v)] + Restrict(l, Keys(l) - gone)) == {k} + (Keys(l) - gone)
    ensures |[(k, v)] + Restrict(l, Keys(l) - gone)| == 1 + |Keys(l) - gone|
  {
    var r := Restrict(l, Keys(l) - gone);
    RestrictDistinct(l, Keys(l) - gone);
    RestrictElements(l, Keys(l) - gone);
    assert Keys(l) * (Keys(l) - gone) == Keys(l) - gone;
    ConsKeys((k, v), r);
    KeysSize(r);
  }

  lemma LeavesSize<K, V>(c: nat, l: Entries<K, V>, k: K)
    requires DistinctKeys(l)
    ensures Leaves(c, l, k) <= Keys(l)
    ensures |Keys(l) - Leaves(c, l, k)| == |l| - |Leaves(c, l, k)|
    ensures k in Keys(l) ==> k in Leaves(c, l, k)
  {
    KeysSize(l);
    if k in Keys(l) {
      var e :| e in l && e.0 == k;
      LookupIs(l, k, e.1);
    } else if Lookup(l, k).Some? {
      LookupIs(l, k, Lookup(l, k).value);
    }
    if Lookup(l, k).None? && |l| >= c && l != [] {
      assert l[|l| - 1] in l;
    }
  }

  lemma ApplySound<K, V>(c: nat, l: Entries<K, V>, op: Op<K, V>)
    requires c > 0 && Sound(c, l)
    ensures Sound(c, Apply(c, l, op))
  {
    match op {
      case Get(k) =>
        if Lookup(l, k).Some? {
          LeavesSize(c, l, k);
          FrontSound(l, k, Lookup(l, k).value, {k});
        }
      case Put(k, v) =>
        PutForm(c, l, k, v);
        LeavesSize(c, l, k);
        FrontSound(l, k, v, Leaves(c, l, k));
      case Erase(k) =>
        KeysSize(l);
        RestrictDistinct(l, Keys(l) - {k});
        RestrictElements(l, Keys(l) - {k});
        assert Keys(l) * (Keys(l) - {k}) == Keys(l) - {k};
        KeysSize(Without(l, k));
      case Clear =>
    }
  }

  /** Whatever the trace, keys are distinct and the capacity is respected. */
  lemma {:induction false} RunSound<K, V>(c: nat, l: Entries<K, V>, ops: seq<Op<K, V>>)
    requires c > 0 && Sound(c, l)
    ensures Sound(c, RunFrom(c, l, ops))
  {
    if ops != [] {
      RunSound(c, l, ops[..|ops| - 1]);
      ApplySound(c, RunFrom(c, l, ops[..|ops| - 1]), ops[|ops| - 1]);
    }
  }
}
