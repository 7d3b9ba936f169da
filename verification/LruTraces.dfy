/** Theorems about whole traces of operations on LRU caches. */
module LruTraces {
  import opened Sets
  import opened Wrappers
  import opened LruSpec

  // ---------------------------------------------------------------------
  // Inclusion between capacities
  // ---------------------------------------------------------------------

  /** s is l with some entries left out. */
  ghost predicate IsSubsequence<K, V>(s: Entries<K, V>, l: Entries<K, V>) {
    if s == [] then true
    else if l == [] then false
    else if s[|s| - 1] == l[|l| - 1] && IsSubsequence(s[..|s| - 1], l[..|l| - 1]) then true
    else IsSubsequence(s, l[..|l| - 1])
  }

  lemma {:induction false} RestrictIsSubsequence<K, V>(l: Entries<K, V>, keep: set<K>)
    ensures IsSubsequence(Restrict(l, keep), l)
  {
    if l != [] {
      var rest := Restrict(l[..|l| - 1], keep);
      RestrictIsSubsequence(l[..|l| - 1], keep);
      if l[|l| - 1].0 in keep {
        assert (rest + [l[|l| - 1]])[..|rest|] == rest;
      }
    }
  }

  /** The small cache is the large one restricted to the keys it holds, and it
      has no more free room. */
  ghost predicate Included<K, V>(c: nat, c': nat, s: Entries<K, V>, l: Entries<K, V>) {
    && Sound(c, s) && Sound(c', l)
    && s == Restrict(l, Keys(s)) && Keys(s) <= Keys(l)
    && |l| - |s| <= c' - c
  }

  lemma SameLookup<K, V>(c: nat, c': nat, s: Entries<K, V>, l: Entries<K, V>, k: K)
    requires Included(c, c', s, l) && k in Keys(s)
    ensures Lookup(s, k) == Lookup(l, k) && Lookup(s, k).Some?
  {
    var e :| e in s && e.0 == k;
    RestrictElements(l, Keys(s));
    LookupIs(s, k, e.1);
    LookupIs(l, k, e.1);
  }

  /** Putting the same entry in front of both keeps the restriction, if what
      left the large list is not still in the small one. */
  lemma FrontIncluded<K, V>(s: Entries<K, V>, l: Entries<K, V>, k: K, v: V, outS: set<K>, outL: set<K>)
    requires DistinctKeys(s) && DistinctKeys(l) && s == Restrict(l, Keys(s)) && Keys(s) <= Keys(l)
    requires (k in Keys(s) ==> k in outS) && (k in Keys(l) ==> k in outL)
    requires (Keys(s) - outS) * outL == {}
    ensures var s', l' := [(k, v)] + Restrict(s, Keys(s) - outS), [(k, v)] + Restrict(l, Keys(l) - outL);
            s' == Restrict(l', Keys(s')) && Keys(s') <= Keys(l')
  {
    var restS, restL := Restrict(s, Keys(s) - outS), Restrict(l, Keys(l) - outL);
    FrontSound(s, k, v, outS);
    FrontSound(l, k, v, outL);
    var keep := {k} + (Keys(s) - outS);
    RestrictCons((k, v), restL, keep);
    RestrictTwice(l, Keys(l) - outL, keep);
    RestrictTwice(l, Keys(s), Keys(s) - outS);
    forall e | e in l ensures e.0 in (Keys(l) - outL) * keep <==> e.0 in Keys(s) * (Keys(s) - outS) {
      assert e.0 in Keys(l);
    }
    RestrictAgree(l, (Keys(l) - outL) * keep, Keys(s) * (Keys(s) - outS));
  }

  /** The oldest entry of the large cache, if the small one has it, is the oldest there too. */
  lemma SameLast<K, V>(c: nat, c': nat, s: Entries<K, V>, l: Entries<K, V>)
    requires Included(c, c', s, l) && l != [] && l[|l| - 1].0 in Keys(s)
    ensures s != [] && s[|s| - 1] == l[|l| - 1]
  {
  }

  lemma ProperKeys<K, V>(s: Entries<K, V>, l: Entries<K, V>, k: K)
    requires DistinctKeys(s) && DistinctKeys(l) && Keys(s) <= Keys(l) && k in Keys(l) && k !in Keys(s)
    ensures |s| < |l|
  {
    KeysSize(s);
    KeysSize(l);
    SubsetSize(Keys(s), Keys(l) - {k});
  }

  lemma GetIncluded<K, V>(c: nat, c': nat, s: Entries<K, V>, l: Entries<K, V>, k: K)
    requires 0 < c <= c' && Included(c, c', s, l)
    ensures Included(c, c', Apply(c, s, Get(k)), Apply(c', l, Get(k)))
  {
    ApplySound(c, s, Get(k));
    ApplySound(c', l, Get(k));
    LeavesSize(c', l, k);
    LeavesSize(c, s, k);
    if k in Keys(s) {
      SameLookup(c, c', s, l, k);
      var v := Lookup(s, k).value;
      FrontIncluded(s, l, k, v, {k}, {k});
      FrontSound(s, k, v, {k});
      FrontSound(l, k, v, {k});
    } else if k in Keys(l) {
      var e :| e in l && e.0 == k;
      LookupIs(l, k, e.1);
      if Lookup(s, k).Some? { LookupIs(s, k, Lookup(s, k).value); }
      var l' := Promote(l, k, e.1);
      FrontSound(l, k, e.1, {k});
      RestrictCons((k, e.1), Without(l, k), Keys(s));
      RestrictTwice(l, Keys(l) - {k}, Keys(s));
      assert (Keys(l) - {k}) * Keys(s) == Keys(s);
    } else {
      if Lookup(l, k).Some? { LookupIs(l, k, Lookup(l, k).value); }
      if Lookup(s, k).Some? { LookupIs(s, k, Lookup(s, k).value); }
    }
  }

  lemma PutIncluded<K, V>(c: nat, c': nat, s: Entries<K, V>, l: Entries<K, V>, k: K, v: V)
    requires 0 < c <= c' && Included(c, c', s, l)
    ensures Included(c, c', Apply(c, s, Put(k, v)), Apply(c', l, Put(k, v)))
  {
    ApplySound(c, s, Put(k, v));
    ApplySound(c', l, Put(k, v));
    var outS, outL := Leaves(c, s, k), Leaves(c', l, k);
    PutForm(c, s, k, v);
    PutForm(c', l, k, v);
    LeavesSize(c, s, k);
    LeavesSize(c', l, k);
    if Lookup(s, k).Some? { LookupIs(s, k, Lookup(s, k).value); }
    if Lookup(l, k).Some? { LookupIs(l, k, Lookup(l, k).value); }
    if Lookup(l, k).None? && |l| >= c' && l[|l| - 1].0 in Keys(s) {
      SameLast(c, c', s, l);
    }
    assert (Keys(s) - outS) * outL == {};
    FrontIncluded(s, l, k, v, outS, outL);
    FrontSound(s, k, v, outS);
    FrontSound(l, k, v, outL);
    if k in Keys(l) && k !in Keys(s) { ProperKeys(s, l, k); }
  }

  lemma EraseIncluded<K, V>(c: nat, c': nat, s: Entries<K, V>, l: Entries<K, V>, k: K)
    requires 0 < c <= c' && Included(c, c', s, l)
    ensures Included(c, c', Apply(c, s, Erase(k)), Apply(c', l, Erase(k)))
  {
    ApplySound(c, s, Erase(k));
    ApplySound(c', l, Erase(k));
    var s', l' := Without(s, k), Without(l, k);
    RestrictElements(s, Keys(s) - {k});
    RestrictElements(l, Keys(l) - {k});
    RestrictTwice(l, Keys(s), Keys(s) - {k});
    RestrictTwice(l, Keys(l) - {k}, Keys(s'));
    assert Keys(s) * (Keys(s) - {k}) == (Keys(l) - {k}) * Keys(s');
    KeysSize(s);
    KeysSize(l);
    KeysSize(s');
    KeysSize(l');
    assert Keys(s') == Keys(s) - {k} && Keys(l') == Keys(l) - {k};
    assert |Keys(s) - {k}| == |Keys(s)| - if k in Keys(s) then 1 else 0;
    assert |Keys(l) - {k}| == |Keys(l)| - if k in Keys(l) then 1 else 0;
  }

  lemma {:induction false} RunsIncluded<K, V>(c: nat, c': nat, ops: seq<Op<K, V>>)
    requires 0 < c <= c'
    ensures Included(c, c', Run(c, ops), Run(c', ops))
  {
    if ops == [] {
      RestrictAll<K, V>([], {});
    } else {
      var front, last := ops[..|ops| - 1], ops[|ops| - 1];
      RunsIncluded(c, c', front);
      var s, l := Run(c, front), Run(c', front);
      match last {
        case Get(k) => GetIncluded(c, c', s, l, k);
        case Put(k, v) => PutIncluded(c, c', s, l, k, v);
        case Erase(k) => EraseIncluded(c, c', s, l, k);
        case Clear => RestrictAll<K, V>([], {});
      }
    }
  }

  /** Inclusion: run on one trace, the smaller of two caches is a subsequence
      of the larger, so whatever it would return the larger would too. */
  lemma Inclusion<K, V>(c: nat, c': nat, ops: seq<Op<K, V>>, k: K)
    requires 0 < c <= c'
    ensures IsSubsequence(Run(c, ops), Run(c', ops))
    ensures Lookup(Run(c, ops), k).Some? ==> Lookup(Run(c', ops), k) == Lookup(Run(c, ops), k)
  {
    RunsIncluded(c, c', ops);
    var s, l := Run(c, ops), Run(c', ops);
    RestrictIsSubsequence(l, Keys(s));
    if Lookup(s, k).Some? {
      LookupIs(s, k, Lookup(s, k).value);
      SameLookup(c, c', s, l, k);
    }
  }

  // ---------------------------------------------------------------------
  // Values
  // ---------------------------------------------------------------------

  /** The value last put for k, unless erased or cleared since. */
  ghost function LastValue<K, V>(ops: seq<Op<K, V>>, k: K): Option<V> {
    if ops == [] then None
    else
      var front, last := ops[..|ops| - 1], ops[|ops| - 1];
      match last
      case Put(x, v) => if x == k then Some(v) else LastValue(front, k)
      case Erase(x) => if x == k then None else LastValue(front, k)
      case Clear => None
      case Get(_) => LastValue(front, k)
  }

  /** Where an entry of the new list came from. */
  lemma ApplyEntries<K, V>(c: nat, l: Entries<K, V>, op: Op<K, V>, e: (K, V))
    requires c > 0 && Sound(c, l) && e in Apply(c, l, op)
    ensures e in l || op == Put(e.0, e.1)
    ensures !op.Clear? && op != Erase(e.0)
    ensures op.Put? && op.key == e.0 ==> op.value == e.1
  {
    match op {
      case Get(k) =>
        if Lookup(l, k).Some? {
          LookupIs(l, k, Lookup(l, k).value);
          RestrictElements(l, Keys(l) - {k});
        }
      case Put(k, v) =>
        PutForm(c, l, k, v);
        LeavesSize(c, l, k);
        RestrictElements(l, Keys(l) - Leaves(c, l, k));
        assert e == (k, v) || e in Restrict(l, Keys(l) - Leaves(c, l, k));
      case Erase(k) => RestrictElements(l, Keys(l) - {k});
      case Clear =>
    }
  }

  /** A hit returns exactly the value last put since any erase or clear. */
  lemma {:induction false} HitsAreFresh<K, V>(c: nat, ops: seq<Op<K, V>>, e: (K, V))
    requires c > 0 && e in Run(c, ops)
    ensures LastValue(ops, e.0) == Some(e.1)
  {
    if ops != [] {
      var front, last := ops[..|ops| - 1], ops[|ops| - 1];
      RunSound<K, V>(c, [], front);
      ApplyEntries(c, Run(c, front), last, e);
      if e in Run(c, front) { HitsAreFresh(c, front, e); }
    }
  }

  // ---------------------------------------------------------------------
  // Retention
  // ---------------------------------------------------------------------

  /** The keys other than k that `ops`, run from l, put or hit. */
  ghost function Touched<K, V>(c: nat, l: Entries<K, V>, ops: seq<Op<K, V>>, k: K): set<K> {
    if ops == [] then {}
    else
      var front, last := ops[..|ops| - 1], ops[|ops| - 1];
      var before := Touched(c, l, front, k);
      match last
      case Put(x, _) => before + ({x} - {k})
      case Get(x) => if Lookup(RunFrom(c, l, front), x).Some? then before + ({x} - {k}) else before
      case _ => before
  }

  /** k is in the list, and only keys in t are younger. */
  ghost predicate Youngest<K, V>(l: Entries<K, V>, k: K, t: set<K>) {
    exists i :: 0 <= i < |l| && l[i].0 == k && Keys(l[..i]) <= t
  }

  lemma RestrictYoungest<K, V>(l: Entries<K, V>, k: K, t: set<K>, keep: set<K>)
    requires Youngest(l, k, t) && k in keep
    ensures Youngest(Restrict(l, keep), k, t)
  {
    var i :| 0 <= i < |l| && l[i].0 == k && Keys(l[..i]) <= t;
    var a, b := l[..i], l[i..];
    assert l == a + b;
    RestrictConcat(a, b, keep);
    assert b == [l[i]] + l[i + 1..];
    RestrictCons(l[i], l[i + 1..], keep);
    RestrictElements(a, keep);
    var r, j := Restrict(l, keep), |Restrict(a, keep)|;
    assert r[j] == l[i] && r[..j] == Restrict(a, keep);
  }

  lemma ConsYoungest<K, V>(e: (K, V), l: Entries<K, V>, k: K, t: set<K>)
    requires Youngest(l, k, t) && e.0 in t
    ensures Youngest([e] + l, k, t)
  {
    var i :| 0 <= i < |l| && l[i].0 == k && Keys(l[..i]) <= t;
    ConsKeys(e, l[..i]);
    assert ([e] + l)[..i + 1] == [e] + l[..i] && ([e] + l)[i + 1] == l[i];
  }

  lemma FirstIsYoungest<K, V>(e: (K, V), l: Entries<K, V>, t: set<K>)
    ensures Youngest([e] + l, e.0, t)
  {
    assert ([e] + l)[0] == e && ([e] + l)[..0] == [];
  }

  lemma MoreYoungest<K, V>(l: Entries<K, V>, k: K, t: set<K>, t': set<K>)
    requires Youngest(l, k, t) && t <= t'
    ensures Youngest(l, k, t')
  {
    var i :| 0 <= i < |l| && l[i].0 == k && Keys(l[..i]) <= t;
    assert Keys(l[..i]) <= t';
  }

  /** Inserting x in front, dropping keys other than k. */
  lemma FrontYoungest<K, V>(l: Entries<K, V>, k: K, t: set<K>, x: K, v: V, keep: set<K>)
    requires Youngest(l, k, t) && (x == k || k in keep)
    ensures Youngest([(x, v)] + Restrict(l, keep), k, t + ({x} - {k}))
  {
    if x == k {
      FirstIsYoungest((x, v), Restrict(l, keep), t + ({x} - {k}));
    } else {
      RestrictYoungest(l, k, t, keep);
      MoreYoungest(Restrict(l, keep), k, t, t + {x});
      ConsYoungest((x, v), Restrict(l, keep), k, t + {x});
      assert {x} - {k} == {x};
    }
  }

  /** k is evicted only by the c-th distinct other key. */
  lemma NotEvicted<K, V>(c: nat, l: Entries<K, V>, k: K, t: set<K>, x: K)
    requires c > 0 && Sound(c, l) && Youngest(l, k, t) && x != k && k !in t
    requires |t + {x}| < c
    ensures k !in Leaves(c, l, x)
  {
    if Lookup(l, x).None? && |l| >= c && l[|l| - 1].0 == k {
      LeavesSize(c, l, x);
      var n := |l| - 1;
      var i :| 0 <= i < |l| && l[i].0 == k && Keys(l[..i]) <= t;
      assert i == n;
      var front := l[..n];
      KeysSize(front);
      LookupIs(l, x, l[n].1);
      assert x !in Keys(front);
      assert |Keys(front) + {x}| == |l|;
      SubsetSize(Keys(front) + {x}, t + {x});
      assert false;
    }
  }

  lemma InKeys<K, V>(l: Entries<K, V>, k: K, t: set<K>)
    requires Youngest(l, k, t)
    ensures k in Keys(l)
  {
    var i :| 0 <= i < |l| && l[i].0 == k && Keys(l[..i]) <= t;
    assert l[i] in l;
  }

  lemma {:induction false} TouchedOthers<K, V>(c: nat, l: Entries<K, V>, ops: seq<Op<K, V>>, k: K)
    ensures k !in Touched(c, l, ops, k)
  {
    if ops != [] { TouchedOthers(c, l, ops[..|ops| - 1], k); }
  }

  lemma TouchedStep<K, V>(c: nat, l: Entries<K, V>, ops: seq<Op<K, V>>, k: K)
    requires ops != []
    ensures |Touched(c, l, ops[..|ops| - 1], k)| <= |Touched(c, l, ops, k)|
  {
    SubsetSize(Touched(c, l, ops[..|ops| - 1], k), Touched(c, l, ops, k));
  }

  lemma {:induction false} StaysYoungest<K, V>(c: nat, l: Entries<K, V>, ops: seq<Op<K, V>>, k: K)
    requires c > 0 && Sound(c, l) && Youngest(l, k, {})
    requires forall op :: op in ops ==> op != Clear && op != Erase(k)
    requires |Touched(c, l, ops, k)| < c
    ensures Youngest(RunFrom(c, l, ops), k, Touched(c, l, ops, k))
  {
    if ops != [] {
      var front, last := ops[..|ops| - 1], ops[|ops| - 1];
      var m, t := RunFrom(c, l, front), Touched(c, l, front, k);
      TouchedStep(c, l, ops, k);
      forall op | op in front ensures op != Clear && op != Erase(k) {
        assert op in ops;
      }
      StaysYoungest(c, l, front, k);
      RunSound(c, l, front);
      InKeys(m, k, t);
      TouchedOthers(c, l, front, k);
      assert last in ops;
      match last {
        case Get(x) =>
          if Lookup(m, x).Some? { FrontYoungest(m, k, t, x, Lookup(m, x).value, Keys(m) - {x}); }
        case Put(x, v) =>
          PutForm(c, m, x, v);
          if x != k {
            assert {x} - {k} == {x};
            NotEvicted(c, m, k, t, x);
          }
          FrontYoungest(m, k, t, x, v, Keys(m) - Leaves(c, m, x));
        case Erase(x) => RestrictYoungest(m, k, t, Keys(m) - {x});
        case Clear =>
      }
    }
  }

  /** Retention: a key that was put or hit, and since then neither erased nor
      cleared, is still there as long as fewer than c distinct other keys were
      put or hit. */
  lemma Retention<K, V>(c: nat, before: seq<Op<K, V>>, touch: Op<K, V>, after: seq<Op<K, V>>, k: K)
    requires c > 0
    requires match touch
             case Put(x, _) => x == k
             case Get(x) => x == k && Lookup(Run(c, before), k).Some?
             case _ => false
    requires forall op :: op in after ==> op != Clear && op != Erase(k)
    requires |Touched(c, Run(c, before + [touch]), after, k)| < c
    ensures Lookup(RunFrom(c, Run(c, before + [touch]), after), k).Some?
  {
    var l := Run(c, before + [touch]);
    assert (before + [touch])[..|before|] == before;
    RunSound<K, V>(c, [], before);
    RunSound<K, V>(c, [], before + [touch]);
    if touch.Put? { PutForm(c, Run(c, before), k, touch.value); }
    assert l[0].0 == k && Keys(l[..0]) == {};
    StaysYoungest(c, l, after, k);
    RunSound(c, l, after);
    var m := RunFrom(c, l, after);
    InKeys(m, k, Touched(c, l, after, k));
    var e :| e in m && e.0 == k;
    LookupIs(m, k, e.1);
  }
}
