/** RecordAccumulator of the Python producer
    (clients/python/torrent_mq/producer.py): its critical sections as functions,
    interleaved in any order, and the class itself. */
module PythonAccumulator {
  import opened Sequences
  import opened Sets
  import opened WireBytes
  import opened Batches

  type Key = (string, int)

  datatype Payload = Absent | Present(data: Bytes) {
    function Length(): nat { if Present? then |data| else 0 }
  }

  /** A record, its future's identity and the clock reading of its append. */
  datatype Rec = Rec(value: Payload, key: Payload, future: nat, at: real) {
    function Size(): nat { value.Length() + key.Length() + 50 }
  }

  /** batch_size in bytes, linger in seconds, buffer_memory in bytes. */
  datatype Config = Config(batchSize: int, linger: real, bufferMemory: nat)

  /** _batches, _batch_size_bytes and _batch_first_ts. */
  datatype Acc = Acc(batches: map<Key, seq<Rec>>, sizes: map<Key, nat>, firstTs: map<Key, real>)

  function SizeOf(rs: seq<Rec>): nat {
    if rs == [] then 0 else SizeOf(rs[..|rs| - 1]) + rs[|rs| - 1].Size()
  }

  // ---------------------------------------------------------------------
  // Critical sections
  // ---------------------------------------------------------------------

  function WithRecord(a: Acc, k: Key, r: Rec): Acc {
    Acc(Push(a.batches, k, r),
        a.sizes[k := (if k in a.sizes then a.sizes[k] else 0) + r.Size()],
        if k in a.firstTs then a.firstTs else a.firstTs[k := r.at])
  }

  predicate IsReady(c: Config, a: Acc, now: real, k: Key) {
    && k in a.batches && a.batches[k] != []
    && ((if k in a.sizes then a.sizes[k] else 0) >= c.batchSize
        || now - (if k in a.firstTs then a.firstTs[k] else now) >= c.linger)
  }

  function ReadyKeys(c: Config, a: Acc, now: real): set<Key> {
    set k | k in a.batches && IsReady(c, a, now, k)
  }

  /** The keys the second section takes, given those the first one took. */
  function OtherKeys(a: Acc, ready: set<Key>): set<Key> {
    set k | k in a.batches && k !in ready && a.batches[k] != []
  }

  function Remove(a: Acc, ks: set<Key>): Acc {
    Acc(a.batches - ks, a.sizes - ks, a.firstTs - ks)
  }

  /** The records of every key that has some. */
  function NonEmpty(a: Acc): map<Key, seq<Rec>> {
    Only(a.batches, OtherKeys(a, {}))
  }

  const EMPTY := Acc(map[], map[], map[])

  // ---------------------------------------------------------------------
  // Every interleaving
  // ---------------------------------------------------------------------

  /** One critical section of some thread.  The second section of a drain comes
      with the keys that its own first section took, and may come at any time:
      its memory test is made outside the lock. */
  datatype Event = Append(k: Key, r: Rec) | DrainReady(now: real) | DrainOthers(ready: set<Key>) | FlushAll

  /** The accumulator, with what was ever appended and drained. */
  datatype State = State(acc: Acc, appended: map<Key, seq<Rec>>, drained: map<Key, seq<Rec>>)

  function Step(c: Config, s: State, e: Event): State {
    match e
    case Append(k, r) => State(WithRecord(s.acc, k, r), Push(s.appended, k, r), s.drained)
    case DrainReady(now) => Drain(s, ReadyKeys(c, s.acc, now))
    case DrainOthers(ready) => Drain(s, OtherKeys(s.acc, ready))
    case FlushAll => State(EMPTY, s.appended, Merge(s.drained, NonEmpty(s.acc)))
  }

  function Drain(s: State, ks: set<Key>): State {
    State(Remove(s.acc, ks), s.appended, Merge(s.drained, Only(s.acc.batches, ks)))
  }

  function Run(c: Config, events: seq<Event>): State {
    if events == [] then State(EMPTY, map[], map[])
    else Step(c, Run(c, events[..|events| - 1]), events[|events| - 1])
  }

  /** The three dictionaries agree: the same keys, no empty batch, exact byte
      counts, and the clock reading of each batch's first record. */
  ghost predicate Consistent(a: Acc) {
    && a.batches.Keys == a.sizes.Keys == a.firstTs.Keys
    && forall k :: k in a.batches ==>
         a.batches[k] != [] && a.sizes[k] == SizeOf(a.batches[k]) && a.firstTs[k] == a.batches[k][0].at
  }

  /** Drained batches followed by pending records are the append sequence. */
  ghost predicate Conserved(s: State) {
    forall k :: Of(s.drained, k) + Of(s.acc.batches, k) == Of(s.appended, k)
  }

  lemma SizeOfPush(rs: seq<Rec>, r: Rec)
    ensures SizeOf(rs + [r]) == SizeOf(rs) + r.Size()
  {
    assert (rs + [r])[..|rs|] == rs;
  }

  lemma AppendConsistent(a: Acc, k: Key, r: Rec)
    requires Consistent(a)
    ensures Consistent(WithRecord(a, k, r))
  {
    SizeOfPush(Of(a.batches, k), r);
  }

  lemma AppendConserves(s: State, k: Key, r: Rec)
    requires Conserved(s)
    ensures Conserved(State(WithRecord(s.acc, k, r), Push(s.appended, k, r), s.drained))
  {
    var s' := State(WithRecord(s.acc, k, r), Push(s.appended, k, r), s.drained);
    forall j ensures Of(s'.drained, j) + Of(s'.acc.batches, j) == Of(s'.appended, j) {
      assert Of(s.drained, j) + Of(s.acc.batches, j) == Of(s.appended, j);
      if j == k {
        assert Of(s.drained, k) + (Of(s.acc.batches, k) + [r]) == Of(s.appended, k) + [r];
      }
    }
  }

  lemma TakeConserves(s: State, ks: set<Key>, left: Acc)
    requires Conserved(s) && left.batches == s.acc.batches - ks
    ensures Conserved(State(left, s.appended, Merge(s.drained, Only(s.acc.batches, ks))))
  {
    forall j ensures Of(Merge(s.drained, Only(s.acc.batches, ks)), j) + Of(left.batches, j) == Of(s.appended, j) {
      assert Of(s.drained, j) + Of(s.acc.batches, j) == Of(s.appended, j);
      TakenThenLeft(s.drained, s.acc.batches, ks, j);
    }
  }

  lemma StepKeeps(c: Config, s: State, e: Event)
    requires Consistent(s.acc) && Conserved(s)
    ensures Consistent(Step(c, s, e).acc) && Conserved(Step(c, s, e))
  {
    match e {
      case Append(k, r) =>
        AppendConsistent(s.acc, k, r);
        AppendConserves(s, k, r);
      case DrainReady(now) =>
        TakeConserves(s, ReadyKeys(c, s.acc, now), Remove(s.acc, ReadyKeys(c, s.acc, now)));
      case DrainOthers(ready) =>
        TakeConserves(s, OtherKeys(s.acc, ready), Remove(s.acc, OtherKeys(s.acc, ready)));
      case FlushAll =>
        assert s.acc.batches - OtherKeys(s.acc, {}) == map[];
        TakeConserves(s, OtherKeys(s.acc, {}), EMPTY);
    }
  }

  /** After every interleaving of appends, drains and flushes, whatever the
      configuration: nothing is lost, duplicated or reordered within a
      partition, and every counter is exact. */
  lemma {:induction false} Conservation(c: Config, events: seq<Event>)
    ensures Consistent(Run(c, events).acc) && Conserved(Run(c, events))
  {
    if events != [] {
      Conservation(c, events[..|events| - 1]);
      StepKeeps(c, Run(c, events[..|events| - 1]), events[|events| - 1]);
    }
  }

  // ---------------------------------------------------------------------
  // One drain among others
  // ---------------------------------------------------------------------

  function RunFrom(c: Config, s: State, events: seq<Event>): State {
    if events == [] then s
    else Step(c, RunFrom(c, s, events[..|events| - 1]), events[|events| - 1])
  }

  /** What was appended to k during some events. */
  function AppendedIn(events: seq<Event>, k: Key): seq<Rec> {
    if events == [] then []
    else
      var e := events[|events| - 1];
      AppendedIn(events[..|events| - 1], k) + if e.Append? && e.k == k then [e.r] else []
  }

  lemma AppendedOnce(c: Config, s: State, e: Event, k: Key)
    ensures Of(Step(c, s, e).appended, k) == Of(s.appended, k) + if e.Append? && e.k == k then [e.r] else []
  {
    assert Of(s.appended, k) + [] == Of(s.appended, k);
  }

  lemma {:induction false} AppendedGrows(c: Config, s: State, events: seq<Event>, k: Key)
    ensures Of(RunFrom(c, s, events).appended, k) == Of(s.appended, k) + AppendedIn(events, k)
  {
    if events != [] {
      AppendedGrows(c, s, events[..|events| - 1], k);
      AppendedOnce(c, RunFrom(c, s, events[..|events| - 1]), events[|events| - 1], k);
    }
  }

  lemma {:induction false} DrainedGrows(c: Config, s: State, events: seq<Event>, k: Key)
    ensures |Of(s.drained, k)| <= |Of(RunFrom(c, s, events).drained, k)|
  {
    if events != [] {
      DrainedGrows(c, s, events[..|events| - 1], k);
    }
  }

  lemma {:induction false} RunFromKeeps(c: Config, s: State, events: seq<Event>)
    requires Consistent(s.acc) && Conserved(s)
    ensures Consistent(RunFrom(c, s, events).acc) && Conserved(RunFrom(c, s, events))
  {
    if events != [] {
      RunFromKeeps(c, s, events[..|events| - 1]);
      StepKeeps(c, RunFrom(c, s, events[..|events| - 1]), events[|events| - 1]);
    }
  }

  /** The state after one thread's drain, second section included, with any events
      of other threads before and between its sections. */
  function AfterDrain(c: Config, before: seq<Event>, now: real, between: seq<Event>): State {
    var s := Run(c, before);
    Step(c, RunFrom(c, Step(c, s, DrainReady(now)), between), DrainOthers(ReadyKeys(c, s.acc, now)))
  }

  ghost predicate IsEnd(left: seq<Rec>, more: seq<Rec>) {
    |left| <= |more| && left == more[|more| - |left|..]
  }

  /** In every interleaving, what is pending after the second section of a drain is
      pending under keys that its first section took, and is the end of what other
      threads appended there in between. */
  lemma InterruptedDrainLeaves(c: Config, before: seq<Event>, now: real, between: seq<Event>, k: Key)
    requires k in AfterDrain(c, before, now, between).acc.batches
    ensures k in ReadyKeys(c, Run(c, before).acc, now)
    ensures AfterDrain(c, before, now, between).acc.batches[k] != []
    ensures IsEnd(AfterDrain(c, before, now, between).acc.batches[k], AppendedIn(between, k))
  {
    var s := Run(c, before);
    Conservation(c, before);
    StepKeeps(c, s, DrainReady(now));
    ReadyTaken(c, s, now);
    OthersLeave(c, Step(c, s, DrainReady(now)), ReadyKeys(c, s.acc, now), between, k);
  }

  lemma ReadyTaken(c: Config, s: State, now: real)
    ensures ReadyKeys(c, s.acc, now) !! Step(c, s, DrainReady(now)).acc.batches.Keys
  {
  }

  /** From any consistent state in which nothing is pending under the keys `ready`. */
  lemma OthersLeave(c: Config, s: State, ready: set<Key>, between: seq<Event>, k: Key)
    requires Consistent(s.acc) && Conserved(s) && ready !! s.acc.batches.Keys
    requires k in Step(c, RunFrom(c, s, between), DrainOthers(ready)).acc.batches
    ensures k in ready
    ensures Step(c, RunFrom(c, s, between), DrainOthers(ready)).acc.batches[k] != []
    ensures IsEnd(Step(c, RunFrom(c, s, between), DrainOthers(ready)).acc.batches[k], AppendedIn(between, k))
  {
    var last := RunFrom(c, s, between);
    RunFromKeeps(c, s, between);
    LeftByOthers(c, last, ready, k);
    EndOfRun(c, s, between, k);
  }

  /** The second section leaves only what is under the keys it was given. */
  lemma LeftByOthers(c: Config, s: State, ready: set<Key>, k: Key)
    requires Consistent(s.acc) && k in Step(c, s, DrainOthers(ready)).acc.batches
    ensures k in ready && Step(c, s, DrainOthers(ready)).acc.batches[k] == Of(s.acc.batches, k) != []
  {
  }

  /** What is pending under k after some events is the end of what they appended,
      if nothing was pending before. */
  lemma EndOfRun(c: Config, s: State, between: seq<Event>, k: Key)
    requires Consistent(s.acc) && Conserved(s) && k !in s.acc.batches
    ensures IsEnd(Of(RunFrom(c, s, between).acc.batches, k), AppendedIn(between, k))
  {
    RunFromKeeps(c, s, between);
    AppendedGrows(c, s, between, k);
    DrainedGrows(c, s, between, k);
    ConservedAt(s, k);
    ConservedAt(RunFrom(c, s, between), k);
    ThenNothing(Of(s.drained, k));
    var last := RunFrom(c, s, between);
    EndOfAppended(Of(s.appended, k), AppendedIn(between, k), Of(last.drained, k), Of(last.acc.batches, k));
  }

  lemma ConservedAt(s: State, k: Key)
    requires Conserved(s)
    ensures Of(s.drained, k) + Of(s.acc.batches, k) == Of(s.appended, k)
  {
  }

  /** Of two ways to cut a list in two, the one with the longer front has the
      shorter end. */
  lemma EndOfAppended(a: seq<Rec>, more: seq<Rec>, drained: seq<Rec>, left: seq<Rec>)
    requires drained + left == a + more && |drained| >= |a|
    ensures IsEnd(left, more)
  {
    assert left == (drained + left)[|drained|..];
  }

  // ---------------------------------------------------------------------
  // One drain, uninterrupted
  // ---------------------------------------------------------------------

  ghost predicate OverMemory(c: Config, a: Acc) {
    10 * Sum(a.sizes) > 9 * c.bufferMemory
  }

  ghost function DrainedKeys(c: Config, a: Acc, now: real): set<Key> {
    var ready := ReadyKeys(c, a, now);
    if OverMemory(c, Remove(a, ready)) then ready + OtherKeys(Remove(a, ready), ready) else ready
  }

  /** What an uninterrupted drain leaves: batches that are neither full nor
      overdue, and at most nine tenths of the memory.  What it returns and what
      it leaves are the batches there were, each whole. */
  lemma DrainLeaves(c: Config, a: Acc, now: real)
    requires Consistent(a)
    ensures var left := Remove(a, DrainedKeys(c, a, now));
            && Consistent(left)
            && 10 * Sum(left.sizes) <= 9 * c.bufferMemory
            && (forall k :: k in left.batches ==>
                  SizeOf(left.batches[k]) < c.batchSize && now - left.batches[k][0].at < c.linger)
            && (forall k :: k in a.batches ==>
                  (k in Only(a.batches, DrainedKeys(c, a, now))) != (k in left.batches))
  {
    var ready := ReadyKeys(c, a, now);
    var first := Remove(a, ready);
    if OverMemory(c, first) {
      var left := Remove(a, ready + OtherKeys(first, ready));
      assert left.sizes.Keys == {};
      assert left.sizes == map[];
    }
  }

  /** The bytes of the values and keys of some records. */
  function PayloadBytes(rs: seq<Rec>): nat {
    if rs == [] then 0
    else
      var r := rs[|rs| - 1];
      PayloadBytes(rs[..|rs| - 1])
      + (if r.value.Present? then |r.value.data| else 0) + (if r.key.Present? then |r.key.data| else 0)
  }

  /** A batch counts the bytes it carries and 50 for each record. */
  lemma {:induction false} SizeOfIs(rs: seq<Rec>)
    ensures SizeOf(rs) == PayloadBytes(rs) + 50 * |rs|
  {
    if rs != [] { SizeOfIs(rs[..|rs| - 1]); }
  }

  /** A batch is due when it is full, or its first record has lingered. */
  ghost predicate Due(c: Config, rs: seq<Rec>, now: real)
    requires rs != []
  {
    PayloadBytes(rs) + 50 * |rs| >= c.batchSize || now - rs[0].at >= c.linger
  }

  /** The bytes of the batches that are not due. */
  ghost function NotDueBytes(c: Config, a: Acc, now: real): nat
    requires forall k :: k in a.batches ==> a.batches[k] != []
  {
    Sum(map k | k in a.batches && !Due(c, a.batches[k], now) :: PayloadBytes(a.batches[k]) + 50 * |a.batches[k]|)
  }

  lemma ReadyIsDue(c: Config, a: Acc, now: real, k: Key)
    requires Consistent(a) && k in a.batches
    ensures k in ReadyKeys(c, a, now) <==> Due(c, a.batches[k], now)
  {
    SizeOfIs(a.batches[k]);
  }

  lemma LeftSizes(c: Config, a: Acc, now: real)
    requires Consistent(a)
    ensures Sum(Remove(a, ReadyKeys(c, a, now)).sizes) == NotDueBytes(c, a, now)
  {
    var left := Remove(a, ReadyKeys(c, a, now)).sizes;
    var bytes := map k | k in a.batches && !Due(c, a.batches[k], now) ::
                   PayloadBytes(a.batches[k]) + 50 * |a.batches[k]|;
    forall k ensures k in left <==> k in bytes {
      if k in a.batches { ReadyIsDue(c, a, now, k); }
    }
    forall k | k in left ensures left[k] == bytes[k] {
      SizeOfIs(a.batches[k]);
    }
    assert left == bytes;
  }

  /** What an uninterrupted drain takes: the batches that are due and no other, as
      long as those not due make up at most nine tenths of the memory, and otherwise
      all there are. */
  lemma DrainTakesIff(c: Config, a: Acc, now: real, k: Key)
    requires Consistent(a)
    ensures k in DrainedKeys(c, a, now) <==>
            k in a.batches && (Due(c, a.batches[k], now) || 10 * NotDueBytes(c, a, now) > 9 * c.bufferMemory)
  {
    LeftSizes(c, a, now);
    if k in a.batches { ReadyIsDue(c, a, now, k); }
  }

  lemma DrainTakes(c: Config, a: Acc, now: real)
    ensures Consistent(a) ==>
              forall k :: k in Only(a.batches, DrainedKeys(c, a, now)) <==>
                k in a.batches && (Due(c, a.batches[k], now) || 10 * NotDueBytes(c, a, now) > 9 * c.bufferMemory)
  {
    if Consistent(a) {
      forall k ensures k in Only(a.batches, DrainedKeys(c, a, now)) <==>
                       k in a.batches
                       && (Due(c, a.batches[k], now) || 10 * NotDueBytes(c, a, now) > 9 * c.bufferMemory) {
        DrainTakesIff(c, a, now, k);
      }
    }
  }

  /** A fresh small batch stays. */
  lemma FreshBatchStays(c: Config, a: Acc, now: real, k: Key)
    requires Consistent(a) && k in a.batches && 10 * Sum(a.sizes) <= 9 * c.bufferMemory
    requires PayloadBytes(a.batches[k]) + 50 * |a.batches[k]| < c.batchSize && now < a.batches[k][0].at + c.linger
    ensures k !in DrainedKeys(c, a, now)
  {
    DrainTakesIff(c, a, now, k);
    LeftSizes(c, a, now);
    SumSplit(a.sizes, ReadyKeys(c, a, now));
  }

  // ---------------------------------------------------------------------
  // The class
  // ---------------------------------------------------------------------

  method SumValues<K(==)>(m: map<K, nat>) returns (total: nat)
    ensures total == Sum(m)
  {
    total := 0;
    var left := m;
    while left != map[]
      invariant total + Sum(left) == Sum(m)
      decreases |left|
    {
      var k :| k in left;
      SumRemove(left, k);
      total := total + left[k];
      left := left - {k};
    }
  }

  lemma RemoveNothing(a: Acc)
    ensures Remove(a, {}) == a && Only(a.batches, {}) == map[]
  {
    TakeNothing(a.batches);
    TakeNothing(a.sizes);
    TakeNothing(a.firstTs);
  }

  /** Whether a key is ready does not depend on the others. */
  lemma NotTaken(c: Config, a: Acc, now: real, taken: set<Key>, k: Key)
    requires k in a.batches && k !in taken
    ensures IsReady(c, Remove(a, taken), now, k) <==> k in ReadyKeys(c, a, now)
  {
  }

  lemma StillThere(a: Acc, taken: set<Key>, k: Key, ready: set<Key>)
    requires k in a.batches && k !in taken
    ensures k in Remove(a, taken).batches && Remove(a, taken).batches[k] == a.batches[k]
    ensures k in OtherKeys(a, ready) <==> k !in ready && a.batches[k] != []
  {
  }

  lemma RemoveTwice(a: Acc, ks: set<Key>, js: set<Key>)
    ensures Remove(Remove(a, ks), js) == Remove(a, ks + js)
  {
    var l, r := Remove(Remove(a, ks), js), Remove(a, ks + js);
    assert l.batches == r.batches;
    assert l.sizes == r.sizes;
    assert l.firstTs == r.firstTs;
  }

  lemma TakeOne(a: Acc, taken: set<Key>, k: Key)
    requires k in a.batches && k !in taken
    ensures Remove(Remove(a, taken), {k}) == Remove(a, taken + {k})
    ensures Only(a.batches, taken)[k := a.batches[k]] == Only(a.batches, taken + {k})
  {
    RemoveTwice(a, taken, {k});
  }

  lemma OnlyJoin(a: Acc, ks: set<Key>, js: set<Key>)
    requires ks !! js
    ensures Only(a.batches, ks) + Only(a.batches - ks, js) == Only(a.batches, ks + js)
  {
  }

  /** With no other thread in between, the two sections make up one drain: they
      leave what it leaves and take what it takes. */
  lemma DrainIsTwoSections(c: Config, s: State, now: real)
    ensures var ready, ks := ReadyKeys(c, s.acc, now), DrainedKeys(c, s.acc, now);
            var first := Step(c, s, DrainReady(now));
            var last := if OverMemory(c, first.acc) then Step(c, first, DrainOthers(ready)) else first;
            last == State(Remove(s.acc, ks), s.appended, Merge(s.drained, Only(s.acc.batches, ks)))
  {
    var ready := ReadyKeys(c, s.acc, now);
    var others := OtherKeys(Remove(s.acc, ready), ready);
    RemoveTwice(s.acc, ready, others);
    MergeTwice(s.drained, s.acc.batches, ready, others);
  }

  lemma MergeTwice(before: map<Key, seq<Rec>>, m: map<Key, seq<Rec>>, ks: set<Key>, js: set<Key>)
    requires ks !! js
    ensures Merge(Merge(before, Only(m, ks)), Only(m - ks, js)) == Merge(before, Only(m, ks + js))
  {
    var mid := Merge(before, Only(m, ks));
    var l, r := Merge(mid, Only(m - ks, js)), Merge(before, Only(m, ks + js));
    assert l.Keys == r.Keys;
    forall k ensures Of(l, k) == Of(r, k) {
      OfMerge(before, Only(m, ks), k);
      OfMerge(mid, Only(m - ks, js), k);
      OfMerge(before, Only(m, ks + js), k);
      MergedOnce(before, m, ks, js, k);
    }
    SameLists(l, r);
  }

  lemma MergedOnce(before: map<Key, seq<Rec>>, m: map<Key, seq<Rec>>, ks: set<Key>, js: set<Key>, k: Key)
    requires ks !! js
    ensures Of(before, k) + Of(Only(m, ks), k) + Of(Only(m - ks, js), k) == Of(before, k) + Of(Only(m, ks + js), k)
  {
    var a := Of(before, k);
    if k in ks {
      assert Of(Only(m - ks, js), k) == [] && Of(Only(m, ks), k) == Of(Only(m, ks + js), k);
      assert a + Of(Only(m, ks), k) + [] == a + Of(Only(m, ks), k);
    } else {
      assert Of(Only(m, ks), k) == [] && Of(Only(m - ks, js), k) == Of(Only(m, ks + js), k);
      assert a + [] == a;
    }
  }

  class RecordAccumulator {
    const config: Config
    var batches: map<Key, seq<Rec>>
    var sizes: map<Key, nat>
    var firstTs: map<Key, real>

    ghost function Value(): Acc
      reads this
    {
      Acc(batches, sizes, firstTs)
    }

    constructor (config: Config)
      ensures this.config == config && Value() == EMPTY
    {
      this.config := config;
      batches, sizes, firstTs := map[], map[], map[];
    }

    method Append(k: Key, r: Rec)
      modifies this
      ensures Value() == WithRecord(old(Value()), k, r)
    {
      batches := Push(batches, k, r);
      sizes := sizes[k := (if k in sizes then sizes[k] else 0) + r.Size()];
      if k !in firstTs { firstTs := firstTs[k := r.at]; }
    }

    /** Moves one batch out. */
    method Take(k: Key, ready0: map<Key, seq<Rec>>) returns (ready: map<Key, seq<Rec>>)
      requires k in batches
      modifies this
      ensures Value() == Remove(old(Value()), {k}) && ready == ready0[k := old(batches[k])]
    {
      ready := ready0[k := batches[k]];
      batches := batches - {k};
      sizes := sizes - {k};
      firstTs := firstTs - {k};
    }

    /** The first section of drain. */
    method TakeReady(now: real) returns (ready: map<Key, seq<Rec>>)
      modifies this
      ensures var ks := ReadyKeys(config, old(Value()), now);
              Value() == Remove(old(Value()), ks) && ready == Only(old(batches), ks)
    {
      ghost var a, all := Value(), ReadyKeys(config, Value(), now);
      ready := map[];
      var keys := batches.Keys;
      assert all - keys == {};
      RemoveNothing(a);
      while keys != {}
        invariant keys <= a.batches.Keys
        invariant Value() == Remove(a, all - keys) && ready == Only(a.batches, all - keys)
        decreases |keys|
      {
        var k :| k in keys;
        ghost var taken := all - keys;
        NotTaken(config, a, now, taken, k);
        NextKey(all, keys, k);
        if IsReady(config, Acc(batches, sizes, firstTs), now, k) {
          TakeOne(a, taken, k);
          ready := Take(k, ready);
        }
        keys := keys - {k};
      }
      assert all - keys == all;
    }

    /** The second section: what it adds to the keys already taken.  Each key is
        visited once, so the batches it adds itself do not matter to its test. */
    method TakeOthers(ready: set<Key>) returns (more: map<Key, seq<Rec>>)
      modifies this
      ensures var ks := OtherKeys(old(Value()), ready);
              Value() == Remove(old(Value()), ks) && more == Only(old(batches), ks)
    {
      ghost var a, all := Value(), OtherKeys(Value(), ready);
      more := map[];
      var keys := batches.Keys;
      assert all - keys == {};
      RemoveNothing(a);
      while keys != {}
        invariant keys <= a.batches.Keys
        invariant Value() == Remove(a, all - keys) && more == Only(a.batches, all - keys)
        decreases |keys|
      {
        var k :| k in keys;
        StillThere(a, all - keys, k, ready);
        NextKey(all, keys, k);
        if k !in ready && batches[k] != [] {
          TakeOne(a, all - keys, k);
          more := Take(k, more);
        }
        keys := keys - {k};
      }
      assert all - keys == all;
    }

    method Drain(now: real) returns (ready: map<Key, seq<Rec>>)
      modifies this
      ensures var ks := DrainedKeys(config, old(Value()), now);
              Value() == Remove(old(Value()), ks) && ready == Only(old(batches), ks)
      ensures Consistent(old(Value())) ==>
                forall k :: k in ready <==>
                  k in old(batches)
                  && (Due(config, old(batches)[k], now)
                      || 10 * NotDueBytes(config, old(Value()), now) > 9 * config.bufferMemory)
    {
      DrainTakes(config, Value(), now);
      ready := TakeReady(now);
      ghost var a, ks := old(Value()), ReadyKeys(config, old(Value()), now);
      assert ready.Keys == ks;
      var total := SumValues(sizes);
      if 10 * total > 9 * config.bufferMemory {
        ghost var js := OtherKeys(Value(), ks);
        var more := TakeOthers(ready.Keys);
        ready := ready + more;
        RemoveTwice(a, ks, js);
        OnlyJoin(a, ks, js);
      }
    }

    method FlushAll() returns (ready: map<Key, seq<Rec>>)
      modifies this
      ensures Value() == EMPTY && ready == NonEmpty(old(Value()))
    {
      ready := map k | k in batches && batches[k] != [] :: batches[k];
      batches, sizes, firstTs := map[], map[], map[];
    }

    method PendingCount() returns (n: nat)
      ensures n == Sum(map k | k in batches :: |batches[k]|)
    {
      n := SumValues(map k | k in batches :: |batches[k]|);
    }
  }
}
