/** The cache as it is kept (include/torrent/common/lru_cache.h): a linked list
    of nodes and a hash map from keys to list positions.  A list iterator is
    the handle of its node, which moving a node does not change. */
module LruCache {
  import opened Wrappers
  import opened LruSpec

  type Handle = nat

  function Unlink(list: seq<Handle>, h: Handle): seq<Handle> {
    if list == [] then []
    else
      var rest := Unlink(list[..|list| - 1], h);
      if list[|list| - 1] == h then rest else rest + [list[|list| - 1]]
  }

  /** The entries of the nodes, in list order. */
  ghost function View<K, V>(list: seq<Handle>, nodes: map<Handle, (K, V)>): Entries<K, V>
    requires forall h :: h in list ==> h in nodes
  {
    seq(|list|, (i: nat) requires i < |list| => assert list[i] in list; nodes[list[i]])
  }

  ghost predicate NoRepeats(list: seq<Handle>) {
    forall i, j :: 0 <= i < j < |list| ==> list[i] != list[j]
  }

  /** List and map agree. */
  ghost predicate Agree<K, V>(list: seq<Handle>, nodes: map<Handle, (K, V)>, index: map<K, Handle>) {
    && NoRepeats(list)
    && (forall h :: h in list <==> h in nodes)
    && (forall k :: k in index ==> index[k] in nodes && nodes[index[k]].0 == k)
    && (forall h :: h in nodes ==> nodes[h].0 in index && index[nodes[h].0] == h)
  }

  lemma {:induction false} UnlinkElements(list: seq<Handle>, h: Handle)
    ensures forall x :: x in Unlink(list, h) <==> x in list && x != h
    ensures NoRepeats(list) ==> NoRepeats(Unlink(list, h))
  {
    if list != [] {
      var front, last := list[..|list| - 1], list[|list| - 1];
      UnlinkElements(front, h);
      assert list == front + [last];
      if NoRepeats(list) {
        var rest := Unlink(front, h);
        forall i | 0 <= i < |rest| ensures rest[i] != last {
          assert rest[i] in rest && rest[i] in front;
        }
      }
    }
  }

  lemma SnocView<K, V>(front: seq<Handle>, last: Handle, nodes: map<Handle, (K, V)>)
    requires last in nodes && forall x :: x in front ==> x in nodes
    ensures forall x :: x in front + [last] ==> x in nodes
    ensures View(front + [last], nodes) == View(front, nodes) + [nodes[last]]
  {
  }

  /** Unlinking a node takes its key out of the entries. */
  lemma {:induction false} UnlinkView<K, V>(list: seq<Handle>, nodes: map<Handle, (K, V)>, h: Handle, keep: set<K>)
    requires forall x :: x in list ==> x in nodes && (x == h <==> nodes[x].0 !in keep)
    ensures forall x :: x in Unlink(list, h) ==> x in nodes
    ensures View(Unlink(list, h), nodes) == Restrict(View(list, nodes), keep)
  {
    UnlinkElements(list, h);
    if list != [] {
      var front, last := list[..|list| - 1], list[|list| - 1];
      assert list == front + [last];
      UnlinkView(front, nodes, h, keep);
      SnocView(front, last, nodes);
      UnlinkElements(front, h);
      if last != h { SnocView(Unlink(front, h), last, nodes); }
    }
  }

  lemma ViewDistinct<K, V>(list: seq<Handle>, nodes: map<Handle, (K, V)>, index: map<K, Handle>)
    requires Agree(list, nodes, index)
    ensures DistinctKeys(View(list, nodes)) && Keys(View(list, nodes)) == index.Keys
  {
    var l := View(list, nodes);
    forall i, j | 0 <= i < j < |l| ensures l[i].0 != l[j].0 {
      assert list[i] in list && list[j] in list;
    }
    forall k | k in index ensures k in Keys(l) {
      var i :| 0 <= i < |list| && list[i] == index[k];
      assert l[i] in l;
    }
    forall k | k in Keys(l) ensures k in index {
      var e :| e in l && e.0 == k;
      var i :| 0 <= i < |l| && l[i] == e;
      assert list[i] in list;
    }
  }

  lemma NodeEntry<K, V>(list: seq<Handle>, nodes: map<Handle, (K, V)>, index: map<K, Handle>, k: K)
    requires Agree(list, nodes, index)
    ensures Lookup(View(list, nodes), k) == if k in index then Some(nodes[index[k]].1) else None
  {
    var l := View(list, nodes);
    ViewDistinct(list, nodes, index);
    if k in index {
      var i :| 0 <= i < |list| && list[i] == index[k];
      assert l[i] == (k, nodes[index[k]].1) && l[i] in l;
      LookupIs(l, k, nodes[index[k]].1);
    } else if Lookup(l, k).Some? {
      LookupIs(l, k, Lookup(l, k).value);
    }
  }

  /** Unlinking the node of k from the list leaves everything but k. */
  lemma UnlinkKey<K, V>(list: seq<Handle>, nodes: map<Handle, (K, V)>, index: map<K, Handle>, k: K)
    requires Agree(list, nodes, index) && k in index
    ensures var rest := Unlink(list, index[k]);
            && NoRepeats(rest) && (forall h :: h in rest <==> h in nodes && h != index[k])
            && View(rest, nodes) == Without(View(list, nodes), k)
  {
    var l := View(list, nodes);
    ViewDistinct(list, nodes, index);
    UnlinkElements(list, index[k]);
    UnlinkView(list, nodes, index[k], Keys(l) - {k});
  }

  lemma ConsView<K, V>(h: Handle, list: seq<Handle>, nodes: map<Handle, (K, V)>, nodes': map<Handle, (K, V)>)
    requires h in nodes' && forall x :: x in list ==> x in nodes && x in nodes' && nodes'[x] == nodes[x]
    ensures forall x :: x in [h] + list ==> x in nodes'
    ensures View([h] + list, nodes') == [nodes'[h]] + View(list, nodes)
  {
  }

  /** A new node in front. */
  lemma InsertAgrees<K, V>(list: seq<Handle>, nodes: map<Handle, (K, V)>, index: map<K, Handle>, h: Handle, k: K, v: V)
    requires Agree(list, nodes, index) && h !in nodes && k !in index
    ensures Agree([h] + list, nodes[h := (k, v)], index[k := h])
    ensures View([h] + list, nodes[h := (k, v)]) == [(k, v)] + View(list, nodes)
  {
    var nodes', index', list' := nodes[h := (k, v)], index[k := h], [h] + list;
    assert forall x :: x in list' <==> x == h || x in list;
    forall i, j | 0 <= i < j < |list'| ensures list'[i] != list'[j] {
      assert list'[j] in list;
    }
    ConsView(h, list, nodes, nodes');
  }

  /** The node of k moved to the front, with a value stored in it. */
  lemma PromoteAgrees<K, V>(list: seq<Handle>, nodes: map<Handle, (K, V)>, index: map<K, Handle>, k: K, v: V)
    requires Agree(list, nodes, index) && k in index
    ensures var h := index[k];
            var list', nodes' := [h] + Unlink(list, h), nodes[h := (k, v)];
            Agree(list', nodes', index) && View(list', nodes') == Promote(View(list, nodes), k, v)
    ensures |[index[k]] + Unlink(list, index[k])| == |list|
  {
    var h := index[k];
    var rest, nodes' := Unlink(list, h), nodes[h := (k, v)];
    UnlinkKey(list, nodes, index, k);
    ViewDistinct(list, nodes, index);
    WithoutSize(View(list, nodes), k);
    ConsView(h, rest, nodes, nodes');
    FrontAgrees(h, rest, nodes, nodes', index);
  }

  lemma FrontAgrees<K, V>(h: Handle, rest: seq<Handle>, nodes: map<Handle, (K, V)>, nodes': map<Handle, (K, V)>,
                          index: map<K, Handle>)
    requires h in nodes && h !in rest && NoRepeats(rest) && forall x :: x == h || x in rest <==> x in nodes
    requires nodes'.Keys == nodes.Keys && forall x :: x in nodes ==> nodes'[x].0 == nodes[x].0
    requires forall k :: k in index ==> index[k] in nodes && nodes[index[k]].0 == k
    requires forall x :: x in nodes ==> nodes[x].0 in index && index[nodes[x].0] == x
    ensures Agree([h] + rest, nodes', index)
  {
    var list' := [h] + rest;
    forall i, j | 0 <= i < j < |list'| ensures list'[i] != list'[j] {
      assert list'[j] in rest;
    }
  }

  lemma WithoutSize<K, V>(l: Entries<K, V>, k: K)
    requires DistinctKeys(l) && k in Keys(l)
    ensures |Without(l, k)| == |l| - 1
  {
    KeysSize(l);
    RestrictDistinct(l, Keys(l) - {k});
    RestrictElements(l, Keys(l) - {k});
    assert Keys(l) * (Keys(l) - {k}) == Keys(l) - {k};
    KeysSize(Without(l, k));
  }

  /** A node freed, with its key. */
  lemma FreeAgrees<K, V>(list: seq<Handle>, nodes: map<Handle, (K, V)>, index: map<K, Handle>, h: Handle,
                         rest: seq<Handle>)
    requires Agree(list, nodes, index) && h in nodes && NoRepeats(rest)
    requires forall x :: x in rest <==> x in nodes && x != h
    ensures Agree(rest, nodes - {h}, index - {nodes[h].0})
    ensures View(rest, nodes - {h}) == View(rest, nodes)
  {
    var nodes', index' := nodes - {h}, index - {nodes[h].0};
    forall k | k in index' ensures index'[k] in nodes' && nodes'[index'[k]].0 == k {
      assert k in index && k != nodes[h].0;
    }
    forall x | x in nodes' ensures nodes'[x].0 in index' && index'[nodes'[x].0] == x {
      assert x in nodes && x != h;
    }
    forall i | 0 <= i < |rest| ensures View(rest, nodes')[i] == View(rest, nodes)[i] {
      assert rest[i] in rest;
    }
  }

  lemma LastNode<K, V>(list: seq<Handle>, nodes: map<Handle, (K, V)>, index: map<K, Handle>)
    requires Agree(list, nodes, index) && list != []
    ensures var front, last := list[..|list| - 1], list[|list| - 1];
            && last in nodes && NoRepeats(front) && (forall h :: h in front <==> h in nodes && h != last)
            && View(front, nodes) == View(list, nodes)[..|list| - 1]
  {
    var front, last := list[..|list| - 1], list[|list| - 1];
    assert list == front + [last];
    assert last in list;
  }

  /** The last node freed, with its key. */
  lemma EvictAgrees<K, V>(list: seq<Handle>, nodes: map<Handle, (K, V)>, index: map<K, Handle>)
    requires Agree(list, nodes, index) && list != []
    ensures var front, last := list[..|list| - 1], list[|list| - 1];
            && last in nodes
            && Agree(front, nodes - {last}, index - {nodes[last].0})
            && View(front, nodes - {last}) == View(list, nodes)[..|list| - 1]
  {
    LastNode(list, nodes, index);
    FreeAgrees(list, nodes, index, list[|list| - 1], list[..|list| - 1]);
  }

  /** The node of k unlinked and freed. */
  lemma EraseAgrees<K, V>(list: seq<Handle>, nodes: map<Handle, (K, V)>, index: map<K, Handle>, k: K)
    requires Agree(list, nodes, index) && k in index
    ensures var h := index[k];
            var rest := Unlink(list, h);
            && Agree(rest, nodes - {h}, index - {k})
            && View(rest, nodes - {h}) == Without(View(list, nodes), k)
            && |rest| <= |list|
  {
    var h := index[k];
    UnlinkKey(list, nodes, index, k);
    FreeAgrees(list, nodes, index, h, Unlink(list, h));
    UnlinkSize(list, h);
  }

  lemma {:induction false} UnlinkSize(list: seq<Handle>, h: Handle)
    ensures |Unlink(list, h)| <= |list|
  {
    if list != [] { UnlinkSize(list[..|list| - 1], h); }
  }

  /** Erasing an absent key changes nothing. */
  lemma NothingErased<K, V>(list: seq<Handle>, nodes: map<Handle, (K, V)>, index: map<K, Handle>, k: K)
    requires Agree(list, nodes, index) && k !in index
    ensures Without(View(list, nodes), k) == View(list, nodes)
  {
    ViewDistinct(list, nodes, index);
    RestrictAll(View(list, nodes), Keys(View(list, nodes)) - {k});
  }

  class LruCache<K(==), V> {
    const maxEntries: nat
    var lruList: seq<Handle>
    var nodes: map<Handle, (K, V)>
    var index: map<K, Handle>
    var nextHandle: Handle

    ghost predicate Valid()
      reads this
    {
      && maxEntries > 0
      && Agree(lruList, nodes, index)
      && (forall h :: h in nodes ==> h < nextHandle)
      && |lruList| <= maxEntries
    }

    ghost function Contents(): Entries<K, V>
      reads this
      requires Valid()
    {
      View(lruList, nodes)
    }

    constructor (max: nat)
      ensures Valid() && Contents() == [] && maxEntries == if max > 1 then max else 1
    {
      maxEntries := if max > 1 then max else 1;
      lruList, nodes, index, nextHandle := [], map[], map[], 0;
    }

    /** What every method keeps: within capacity, keys distinct, and the map
        holding exactly the keys of the list. */
    lemma ContentsSound()
      requires Valid()
      ensures Sound(maxEntries, Contents()) && |Contents()| == |lruList| && Keys(Contents()) == index.Keys
    {
      ViewDistinct(lruList, nodes, index);
    }

    method Get(k: K) returns (r: Option<V>)
      requires Valid()
      modifies `lruList
      ensures Valid()
      ensures Contents() == Apply(maxEntries, old(Contents()), LruSpec.Get(k))
      ensures r == Lookup(old(Contents()), k)
    {
      NodeEntry(lruList, nodes, index, k);
      if k !in index { return None; }
      var h := index[k];
      PromoteAgrees(lruList, nodes, index, k, nodes[h].1);
      assert nodes[h := (k, nodes[h].1)] == nodes;
      lruList := [h] + Unlink(lruList, h);
      r := Some(nodes[h].1);
    }

    method Put(k: K, v: V)
      requires Valid()
      modifies this
      ensures Valid()
      ensures Contents() == Apply(maxEntries, old(Contents()), LruSpec.Put(k, v))
    {
      NodeEntry(lruList, nodes, index, k);
      if k in index {
        Replace(k, v);
        return;
      }
      if |lruList| >= maxEntries {
        EvictLast();
      }
      InsertFront(k, v);
    }

    /** A present key's value stored and its node moved to the front. */
    method Replace(k: K, v: V)
      requires Valid() && k in index
      modifies this
      ensures Valid() && Contents() == Promote(old(Contents()), k, v)
    {
      var h := index[k];
      PromoteAgrees(lruList, nodes, index, k, v);
      nodes := nodes[h := (k, v)];
      lruList := [h] + Unlink(lruList, h);
    }

    /** A new node in front, for a key that is not there. */
    method InsertFront(k: K, v: V)
      requires Valid() && k !in index && |lruList| < maxEntries
      modifies this
      ensures Valid() && Contents() == [(k, v)] + old(Contents())
    {
      var h := nextHandle;
      InsertAgrees(lruList, nodes, index, h, k, v);
      nodes := nodes[h := (k, v)];
      lruList := [h] + lruList;
      index := index[k := h];
      nextHandle := nextHandle + 1;
    }

    /** Drops the least recently used entry. */
    method EvictLast()
      requires Valid() && lruList != []
      modifies `lruList, `nodes, `index
      ensures Valid() && |lruList| == |old(lruList)| - 1
      ensures Contents() == old(Contents())[..|old(Contents())| - 1]
      ensures index.Keys <= old(index).Keys
    {
      var last := lruList[|lruList| - 1];
      EvictAgrees(lruList, nodes, index);
      index := index - {nodes[last].0};
      nodes := nodes - {last};
      lruList := lruList[..|lruList| - 1];
    }

    method Contains(k: K) returns (r: bool)
      requires Valid()
      ensures r <==> Lookup(Contents(), k).Some?
    {
      NodeEntry(lruList, nodes, index, k);
      r := k in index;
    }

    method Erase(k: K) returns (found: bool)
      requires Valid()
      modifies `lruList, `nodes, `index
      ensures Valid()
      ensures found <==> Lookup(old(Contents()), k).Some?
      ensures Contents() == Apply(maxEntries, old(Contents()), LruSpec.Erase(k))
    {
      NodeEntry(lruList, nodes, index, k);
      if k !in index {
        NothingErased(lruList, nodes, index, k);
        return false;
      }
      var h := index[k];
      EraseAgrees(lruList, nodes, index, k);
      lruList := Unlink(lruList, h);
      nodes := nodes - {h};
      index := index - {k};
      found := true;
    }

    method Clear()
      requires Valid()
      modifies `lruList, `nodes, `index
      ensures Valid() && Contents() == Apply(maxEntries, old(Contents()), LruSpec.Clear)
    {
      lruList, nodes, index := [], map[], map[];
    }
  }
}
