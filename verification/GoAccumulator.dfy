/** topicAccumulator of the Go producer (clients/go/torrentmq/producer.go). */
module GoAccumulator {
  import opened Sets
  import opened Batches

  /** A record: its size in bytes and the channel that its sender waits on. */
  datatype Rec = Rec(size: nat, future: nat)

  /** Times are in nanoseconds. */
  datatype Acc = Acc(batches: map<int, seq<Rec>>, sizeBytes: int, lingerCh: map<int, int>)

  const LINGER: int := 5_000_000

  function SizeOf(rs: seq<Rec>): nat {
    if rs == [] then 0 else SizeOf(rs[..|rs| - 1]) + rs[|rs| - 1].size
  }

  function Sizes(batches: map<int, seq<Rec>>): map<int, nat> {
    map p | p in batches :: SizeOf(batches[p])
  }

  const EMPTY := Acc(map[], 0, map[])

  /** The byte count is exact, no batch is empty, and each has a start time. */
  ghost predicate Consistent(a: Acc) {
    && a.sizeBytes == Sum(Sizes(a.batches))
    && a.lingerCh.Keys == a.batches.Keys
    && forall p :: p in a.batches ==> a.batches[p] != []
  }

  function WithRecord(a: Acc, p: int, r: Rec, now: int): Acc {
    Acc(Push(a.batches, p, r), a.sizeBytes + r.size,
        if p in a.lingerCh then a.lingerCh else a.lingerCh[p := now])
  }

  /** Whether drainReady takes a batch that it looks at when the clock shows `now`. */
  predicate IsReady(a: Acc, batchSize: int, now: int, p: int)
    requires p in a.batches
  {
    && a.batches[p] != []
    && (SizeOf(a.batches[p]) >= batchSize || (p in a.lingerCh && now - a.lingerCh[p] >= LINGER))
  }

  /** The batches it takes; the clock is read anew for each partition. */
  function ReadyKeys(a: Acc, batchSize: int, clock: int -> int): set<int> {
    set p | p in a.batches && IsReady(a, batchSize, clock(p), p)
  }

  ghost function Remove(a: Acc, ps: set<int>): Acc {
    Acc(a.batches - ps, a.sizeBytes - Sum(Sizes(Only(a.batches, ps))), a.lingerCh - ps)
  }

  lemma SizeOfPush(rs: seq<Rec>, r: Rec)
    ensures SizeOf(rs + [r]) == SizeOf(rs) + r.size
  {
    assert (rs + [r])[..|rs|] == rs;
  }

  lemma SizesPush(m: map<int, seq<Rec>>, p: int, r: Rec)
    ensures Sum(Sizes(Push(m, p, r))) == Sum(Sizes(m)) + r.size
  {
    SizeOfPush(Of(m, p), r);
    SizesSet(m, p, Of(m, p) + [r]);
    SumGrows(Sizes(m), p, SizeOf(Of(m, p)), r.size);
  }

  lemma SumGrows(sizes: map<int, nat>, p: int, size: nat, more: nat)
    requires size == if p in sizes then sizes[p] else 0
    ensures Sum(sizes[p := size + more]) == Sum(sizes) + more
  {
    SumUpdate(sizes, p, size + more);
  }

  lemma SizesSet(m: map<int, seq<Rec>>, p: int, rs: seq<Rec>)
    ensures Sizes(m[p := rs]) == Sizes(m)[p := SizeOf(rs)]
  {
  }

  lemma AppendKeeps(a: Acc, p: int, r: Rec, now: int)
    requires Consistent(a)
    ensures Consistent(WithRecord(a, p, r, now))
  {
    SizesPush(a.batches, p, r);
  }

  /** The linger clock of a partition starts with the first record of its batch; later
      records and other partitions leave it alone. */
  lemma ClockStartsOnce(a: Acc, p: int, r: Rec, now: int, q: int)
    requires Consistent(a)
    ensures var a' := WithRecord(a, p, r, now);
            && (q == p && p !in a.batches ==> q in a'.lingerCh && a'.lingerCh[q] == now)
            && (q in a.batches ==> q in a'.lingerCh && a'.lingerCh[q] == a.lingerCh[q])
            && (q != p && q !in a.batches ==> q !in a'.lingerCh)
  {
  }

  lemma SizesSplit(m: map<int, seq<Rec>>, ps: set<int>)
    ensures Sum(Sizes(m)) == Sum(Sizes(m - ps)) + Sum(Sizes(Only(m, ps)))
  {
    SumSplit(Sizes(m), ps);
    assert Sizes(m) - ps == Sizes(m - ps);
    assert Only(Sizes(m), ps) == Sizes(Only(m, ps));
  }

  lemma RemoveKeeps(a: Acc, ps: set<int>)
    requires Consistent(a)
    ensures Consistent(Remove(a, ps))
    ensures ps >= a.batches.Keys ==> Remove(a, ps) == EMPTY
  {
    SizesSplit(a.batches, ps);
    if ps >= a.batches.Keys {
      assert a.batches - ps == map[] && a.lingerCh - ps == map[];
      assert Sizes(map[]) == map[];
    }
  }

  lemma RemoveOne(a: Acc, ps: set<int>, p: int)
    requires p in a.batches && p !in ps
    ensures Remove(a, ps + {p}) ==
            Acc(Remove(a, ps).batches - {p}, Remove(a, ps).sizeBytes - SizeOf(a.batches[p]),
                Remove(a, ps).lingerCh - {p})
    ensures Only(a.batches, ps + {p}) == Only(a.batches, ps)[p := a.batches[p]]
  {
    var taken, more := Only(a.batches, ps), Only(a.batches, ps + {p});
    assert more == taken[p := a.batches[p]];
    assert Sizes(more) == Sizes(taken)[p := SizeOf(a.batches[p])];
    SumUpdate(Sizes(taken), p, SizeOf(a.batches[p]));
    assert a.batches - (ps + {p}) == a.batches - ps - {p};
    assert a.lingerCh - (ps + {p}) == a.lingerCh - ps - {p};
  }

  /** Whether a partition is ready does not depend on the others. */
  lemma NotTaken(a: Acc, batchSize: int, clock: int -> int, taken: set<int>, p: int)
    requires p in a.batches && p !in taken
    ensures p in Remove(a, taken).batches && Remove(a, taken).batches[p] == a.batches[p]
    ensures IsReady(Remove(a, taken), batchSize, clock(p), p) <==> p in ReadyKeys(a, batchSize, clock)
  {
  }

  /** What looking at one partition makes of the accumulator and the result. */
  function Looked(a: Acc, batchSize: int, now: int, p: int, result: map<int, seq<Rec>>): (Acc, map<int, seq<Rec>>)
    requires p in a.batches
  {
    if IsReady(a, batchSize, now, p)
    then (Acc(a.batches - {p}, a.sizeBytes - SizeOf(a.batches[p]), a.lingerCh - {p}), result[p := a.batches[p]])
    else (a, result)
  }

  /** Of the ready batches all are taken but those still to be looked at. */
  ghost predicate DrainedBut(a: Acc, ready: set<int>, keys: set<int>, cur: Acc, result: map<int, seq<Rec>>) {
    keys <= cur.batches.Keys && keys <= a.batches.Keys
    && cur == Remove(a, ready - keys) && result == Only(a.batches, ready - keys)
  }

  lemma TakeNext(a: Acc, batchSize: int, clock: int -> int, keys: set<int>, p: int, cur: Acc,
                 result: map<int, seq<Rec>>)
    requires DrainedBut(a, ReadyKeys(a, batchSize, clock), keys, cur, result) && p in keys
    ensures var (cur', result') := Looked(cur, batchSize, clock(p), p, result);
            DrainedBut(a, ReadyKeys(a, batchSize, clock), keys - {p}, cur', result')
  {
    var all := ReadyKeys(a, batchSize, clock);
    NextKey(all, keys, p);
    NotTaken(a, batchSize, clock, all - keys, p);
    RemoveOne(a, all - keys, p);
  }

  lemma TakeFirst(a: Acc, ready: set<int>)
    requires ready <= a.batches.Keys
    ensures DrainedBut(a, ready, a.batches.Keys, a, map[])
  {
    assert ready - a.batches.Keys == {};
    RemoveNothing(a);
  }

  lemma TookAll(a: Acc, ready: set<int>, cur: Acc, result: map<int, seq<Rec>>)
    requires Consistent(a) && DrainedBut(a, ready, {}, cur, result)
    ensures cur == Remove(a, ready) && result == Only(a.batches, ready) && Consistent(cur)
  {
    assert ready - {} == ready;
    RemoveKeeps(a, ready);
  }

  /** A batch is full, or has lingered for 5 ms. */
  ghost predicate Due(a: Acc, batchSize: int, now: int, p: int)
    requires p in a.batches && p in a.lingerCh
  {
    SizeOf(a.batches[p]) >= batchSize || now - a.lingerCh[p] >= 5_000_000
  }

  lemma DrainTakesDue(a: Acc, batchSize: int, clock: int -> int)
    requires Consistent(a)
    ensures forall p :: p in Only(a.batches, ReadyKeys(a, batchSize, clock)) <==>
              p in a.batches && Due(a, batchSize, clock(p), p)
  {
  }

  /** A batch goes if its records add up to the batch size or 5 ms have passed since its
      linger clock started, and stays, untouched, otherwise. */
  lemma DrainReadyTakes(a: Acc, batchSize: int, clock: int -> int, p: int)
    requires Consistent(a) && p in a.batches
    ensures var taken := Only(a.batches, ReadyKeys(a, batchSize, clock));
            var left := Remove(a, ReadyKeys(a, batchSize, clock));
            if Due(a, batchSize, clock(p), p)
            then p in taken && taken[p] == a.batches[p] && p !in left.batches && p !in left.lingerCh
            else p !in taken && p in left.batches && left.batches[p] == a.batches[p]
                 && p in left.lingerCh && left.lingerCh[p] == a.lingerCh[p]
  {
  }

  lemma RemoveNothing(a: Acc)
    ensures Remove(a, {}) == a && Only(a.batches, {}) == map[]
  {
    TakeNothing(a.batches);
    TakeNothing(a.lingerCh);
    assert Sizes(map[]) == map[];
  }

  class TopicAccumulator {
    var batches: map<int, seq<Rec>>
    var sizeBytes: int
    var lingerCh: map<int, int>

    ghost function Value(): Acc
      reads this
    {
      Acc(batches, sizeBytes, lingerCh)
    }

    constructor ()
      ensures Value() == EMPTY && Consistent(Value())
    {
      batches, sizeBytes, lingerCh := map[], 0, map[];
    }

    method Append(p: int, r: Rec, now: int)
      requires Consistent(Value())
      modifies this
      ensures Consistent(Value()) && Value() == WithRecord(old(Value()), p, r, now)
    {
      ghost var was := Value();
      batches := Push(batches, p, r);
      sizeBytes := sizeBytes + r.size;
      if p !in lingerCh { lingerCh := lingerCh[p := now]; }
      assert Value() == WithRecord(was, p, r, now);
      AppendKeeps(was, p, r, now);
    }

    method PartSize(p: int) returns (size: nat)
      requires p in batches
      ensures size == SizeOf(batches[p])
    {
      size := 0;
      for i := 0 to |batches[p]|
        invariant size == SizeOf(batches[p][..i])
      {
        assert batches[p][..i + 1][..i] == batches[p][..i];
        size := size + batches[p][i].size;
      }
      assert batches[p][..|batches[p]|] == batches[p];
    }

    /** The body of the loop of drainReady. */
    method TakeIfReady(p: int, batchSize: int, now: int,
                       result0: map<int, seq<Rec>>) returns (result: map<int, seq<Rec>>)
      requires p in batches
      modifies this
      ensures (Value(), result) == Looked(old(Value()), batchSize, now, p, result0)
    {
      result := result0;
      if batches[p] == [] { return; }
      var partSize := PartSize(p);
      if partSize >= batchSize || (p in lingerCh && now - lingerCh[p] >= LINGER) {
        result := result[p := batches[p]];
        batches := batches - {p};
        lingerCh := lingerCh - {p};
        sizeBytes := sizeBytes - partSize;
      }
    }

    method DrainReady(batchSize: int, clock: int -> int) returns (result: map<int, seq<Rec>>)
      requires Consistent(Value())
      modifies this
      ensures Consistent(Value())
      ensures var ps := ReadyKeys(old(Value()), batchSize, clock);
              Value() == Remove(old(Value()), ps) && result == Only(old(batches), ps)
      ensures forall p :: p in result <==> p in old(batches) && Due(old(Value()), batchSize, clock(p), p)
    {
      DrainTakesDue(Value(), batchSize, clock);
      ghost var a, ready := Value(), ReadyKeys(Value(), batchSize, clock);
      result := map[];
      var keys := batches.Keys;
      TakeFirst(a, ready);
      while keys != {}
        invariant DrainedBut(a, ready, keys, Value(), result)
        decreases |keys|
      {
        var p := Choose(keys);
        TakeNext(a, batchSize, clock, keys, p, Value(), result);
        result := TakeIfReady(p, batchSize, clock(p), result);
        keys := keys - {p};
      }
      TookAll(a, ready, Value(), result);
    }

    method DrainAll() returns (result: map<int, seq<Rec>>)
      requires Consistent(Value())
      modifies this
      ensures Consistent(Value()) && Value() == EMPTY && result == old(batches)
    {
      result := batches;
      batches, lingerCh, sizeBytes := map[], map[], 0;
    }
  }
}
