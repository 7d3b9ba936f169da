/** The Go producer around its accumulators
    (clients/go/torrentmq/producer.go): records are sent, drained by the sender
    goroutine or by Flush, and their futures completed by sendBatch. */
module GoProducer {
  import opened Sequences
  import opened Batches
  import opened GoAccumulator

  type Topic = string

  /** A future is a channel of capacity one, completed by one send and a close. */
  datatype Future = Open | Nil | Metadata(offset: int)

  /** What became of a batch: not yet sent, failed on any of the error paths, or
      stored from a base offset on. */
  datatype Outcome = Waiting | Failed | Stored(base: int)

  datatype Batch = Batch(topic: Topic, partition: int, records: seq<Rec>, outcome: Outcome)

  /** The accumulators, every batch ever drained in the order of draining, the
      futures by number, the append sequence of each partition, and whether some
      goroutine sent on a closed channel. */
  datatype Producer = Producer(
    accs: map<Topic, Acc>, batches: seq<Batch>, futures: seq<Future>,
    appended: map<(Topic, int), seq<Rec>>, panicked: bool)

  const INITIAL := Producer(map[], [], [], map[], false)

  /** One critical section, or one sendBatch.  `order` is the order in which the
      caller ranges over the map of drained batches. */
  datatype Event =
    | Send(topic: Topic, partition: int, size: nat, now: int)
    | DrainReady(topic: Topic, batchSize: int, clock: int -> int, order: seq<int>)
    | DrainAll(topic: Topic, order: seq<int>)
    | SendBatch(b: nat, outcome: Outcome)

  ghost predicate Enumerates(order: seq<int>, ps: set<int>) {
    && (forall i, j :: 0 <= i < j < |order| ==> order[i] != order[j])
    && (forall p :: p in ps <==> p in order)
  }

  /** Every batch drained is passed to sendBatch once. */
  ghost predicate Enabled(s: Producer, e: Event) {
    match e
    case Send(_, _, _, _) => true
    case DrainReady(t, batchSize, clock, order) =>
      t in s.accs && Enumerates(order, ReadyKeys(s.accs[t], batchSize, clock))
    case DrainAll(t, order) => t in s.accs && Enumerates(order, s.accs[t].batches.Keys)
    case SendBatch(b, outcome) => b < |s.batches| && s.batches[b].outcome == Waiting && outcome != Waiting
  }

  function AccOf(s: Producer, t: Topic): Acc {
    if t in s.accs then s.accs[t] else EMPTY
  }

  function Collect(t: Topic, m: map<int, seq<Rec>>, order: seq<int>): (r: seq<Batch>)
    ensures |r| == |order|
    ensures forall i :: 0 <= i < |order| ==> r[i] == Batch(t, order[i], Of(m, order[i]), Waiting)
  {
    if order == [] then [] else [Batch(t, order[0], Of(m, order[0]), Waiting)] + Collect(t, m, order[1..])
  }

  function ResultOf(outcome: Outcome, i: nat): Future {
    match outcome
    case Waiting => Open
    case Failed => Nil
    case Stored(base) => Metadata(base + i)
  }

  /** The loop that completes the futures of a batch, from record i on; the flag
      tells whether a future was complete already. */
  function Complete(fs: seq<Future>, rs: seq<Rec>, outcome: Outcome, i: nat): (seq<Future>, bool)
    requires i <= |rs| && forall j :: 0 <= j < |rs| ==> rs[j].future < |fs|
    decreases |rs| - i
  {
    if i == |rs| then (fs, false)
    else
      var f := rs[i].future;
      var (fs', panicked) := Complete(fs[f := ResultOf(outcome, i)], rs, outcome, i + 1);
      (fs', panicked || fs[f] != Open)
  }

  ghost function AfterSend(s: Producer, t: Topic, p: int, size: nat, now: int): Producer {
    var r := Rec(size, |s.futures|);
    Producer(s.accs[t := WithRecord(AccOf(s, t), p, r, now)], s.batches, s.futures + [Open],
             Push(s.appended, (t, p), r), s.panicked)
  }

  ghost function AfterDrain(s: Producer, t: Topic, left: Acc, order: seq<int>): Producer
    requires t in s.accs
  {
    Producer(s.accs[t := left], s.batches + Collect(t, s.accs[t].batches, order), s.futures, s.appended, s.panicked)
  }

  ghost function AfterSendBatch(s: Producer, b: nat, outcome: Outcome): Producer
    requires b < |s.batches| &&
             (forall j :: 0 <= j < |s.batches[b].records| ==> s.batches[b].records[j].future < |s.futures|)
  {
    var batch := s.batches[b];
    var (futures, panicked) := Complete(s.futures, batch.records, outcome, 0);
    Producer(s.accs, s.batches[b := batch.(outcome := outcome)], futures, s.appended, s.panicked || panicked)
  }

  ghost predicate Next(s: Producer, e: Event, s': Producer) {
    Enabled(s, e) &&
    match e
    case Send(t, p, size, now) => s' == AfterSend(s, t, p, size, now)
    case DrainReady(t, batchSize, clock, order) =>
      s' == AfterDrain(s, t, Remove(s.accs[t], ReadyKeys(s.accs[t], batchSize, clock)), order)
    case DrainAll(t, order) => s' == AfterDrain(s, t, EMPTY, order)
    case SendBatch(b, outcome) =>
      && (forall j :: 0 <= j < |s.batches[b].records| ==> s.batches[b].records[j].future < |s.futures|)
      && s' == AfterSendBatch(s, b, outcome)
  }

  /** A run: states linked by events. */
  ghost predicate IsRun(states: seq<Producer>, events: seq<Event>) {
    && |states| == |events| + 1 && states[0] == INITIAL
    && forall i :: 0 <= i < |events| ==> Next(states[i], events[i], states[i + 1])
  }

  // ---------------------------------------------------------------------
  // Where records are
  // ---------------------------------------------------------------------

  datatype Place = Buffered(t: Topic, p: int, i: nat) | Drained(b: nat, i: nat)

  ghost predicate Has(s: Producer, at: Place) {
    match at
    case Buffered(t, p, i) => t in s.accs && p in s.accs[t].batches && i < |s.accs[t].batches[p]|
    case Drained(b, i) => b < |s.batches| && i < |s.batches[b].records|
  }

  ghost function RecAt(s: Producer, at: Place): Rec
    requires Has(s, at)
  {
    match at
    case Buffered(t, p, i) => s.accs[t].batches[p][i]
    case Drained(b, i) => s.batches[b].records[i]
  }

  /** What its future should be: open until its batch is sent, and then the
      batch's outcome for its place in the batch. */
  ghost function Due(s: Producer, at: Place): Future
    requires Has(s, at)
  {
    match at
    case Buffered(_, _, _) => Open
    case Drained(b, i) => ResultOf(s.batches[b].outcome, i)
  }

  ghost predicate FutureIsDue(s: Producer, at: Place)
    requires Has(s, at)
  {
    var f := RecAt(s, at).future;
    f < |s.futures| && s.futures[f] == Due(s, at)
  }

  ghost predicate FuturesAreDue(s: Producer) {
    forall at {:trigger Has(s, at)} :: Has(s, at) ==> FutureIsDue(s, at)
  }

  ghost predicate OnePlaceEach(s: Producer) {
    forall a, b {:trigger Has(s, a), Has(s, b)} ::
      Has(s, a) && Has(s, b) && RecAt(s, a).future == RecAt(s, b).future ==> a == b
  }

  ghost predicate Somewhere(s: Producer, f: nat) {
    exists at :: Has(s, at) && RecAt(s, at).future == f
  }

  ghost predicate AllSomewhere(s: Producer) {
    forall f :: 0 <= f < |s.futures| ==> Somewhere(s, f)
  }

  ghost predicate AccsConsistent(s: Producer) {
    forall t :: t in s.accs ==> Consistent(s.accs[t])
  }

  /** The records of the drained batches of one partition, in drain order. */
  function DrainedOf(bs: seq<Batch>, t: Topic, p: int): seq<Rec> {
    if bs == [] then []
    else DrainedOf(bs[..|bs| - 1], t, p)
         + (var b := bs[|bs| - 1]; if b.topic == t && b.partition == p then b.records else [])
  }

  ghost predicate Conserved(s: Producer) {
    forall t, p :: DrainedOf(s.batches, t, p) + Of(AccOf(s, t).batches, p) == Of(s.appended, (t, p))
  }

  ghost predicate Inv(s: Producer) {
    && AccsConsistent(s) && Conserved(s)
    && FuturesAreDue(s) && OnePlaceEach(s) && AllSomewhere(s)
    && !s.panicked
  }

  // ---------------------------------------------------------------------
  // Send
  // ---------------------------------------------------------------------

  /** Every place after a send is an old one or the new record's. */
  lemma SendPlaces(s: Producer, t: Topic, p: int, size: nat, now: int, at: Place)
    requires Has(AfterSend(s, t, p, size, now), at)
    ensures var s', latest := AfterSend(s, t, p, size, now), Buffered(t, p, |Of(AccOf(s, t).batches, p)|);
            if at == latest then RecAt(s', at).future == |s.futures| && Due(s', at) == Open
            else Has(s, at) && RecAt(s', at) == RecAt(s, at) && Due(s', at) == Due(s, at)
  {
  }

  lemma SendKeepsPlaces(s: Producer, t: Topic, p: int, size: nat, now: int, at: Place)
    requires Has(s, at)
    ensures var s' := AfterSend(s, t, p, size, now);
            Has(s', at) && RecAt(s', at) == RecAt(s, at)
  {
  }

  lemma SendInv(s: Producer, t: Topic, p: int, size: nat, now: int)
    requires Inv(s)
    ensures Inv(AfterSend(s, t, p, size, now))
  {
    var s' := AfterSend(s, t, p, size, now);
    SendFutures(s, t, p, size, now);
    SendCoverage(s, t, p, size, now);
    SendConserves(s, t, p, size, now);
    AppendKeeps(AccOf(s, t), p, Rec(size, |s.futures|), now);
  }

  lemma SendFutures(s: Producer, t: Topic, p: int, size: nat, now: int)
    requires FuturesAreDue(s) && OnePlaceEach(s)
    ensures var s' := AfterSend(s, t, p, size, now); FuturesAreDue(s') && OnePlaceEach(s')
  {
    var s' := AfterSend(s, t, p, size, now);
    forall at | Has(s', at) ensures FutureIsDue(s', at) {
      SendPlaces(s, t, p, size, now, at);
      if Has(s, at) { assert FutureIsDue(s, at); }
    }
    forall a, b | Has(s', a) && Has(s', b) && RecAt(s', a).future == RecAt(s', b).future ensures a == b {
      SendPlaces(s, t, p, size, now, a);
      SendPlaces(s, t, p, size, now, b);
      if Has(s, a) { assert FutureIsDue(s, a); }
      if Has(s, b) { assert FutureIsDue(s, b); }
    }
  }

  lemma SendCoverage(s: Producer, t: Topic, p: int, size: nat, now: int)
    requires AllSomewhere(s)
    ensures AllSomewhere(AfterSend(s, t, p, size, now))
  {
    var s' := AfterSend(s, t, p, size, now);
    forall f | 0 <= f < |s'.futures| ensures Somewhere(s', f) {
      if f < |s.futures| {
        assert Somewhere(s, f);
        var at :| Has(s, at) && RecAt(s, at).future == f;
        SendKeepsPlaces(s, t, p, size, now, at);
      } else {
        var at := Buffered(t, p, |Of(AccOf(s, t).batches, p)|);
        assert Has(s', at) && RecAt(s', at).future == f;
      }
    }
  }

  lemma SendConserves(s: Producer, t: Topic, p: int, size: nat, now: int)
    requires Conserved(s)
    ensures Conserved(AfterSend(s, t, p, size, now))
  {
    var s', r := AfterSend(s, t, p, size, now), Rec(size, |s.futures|);
    forall u, q ensures DrainedOf(s'.batches, u, q) + Of(AccOf(s', u).batches, q) == Of(s'.appended, (u, q)) {
      var drained, pending := DrainedOf(s.batches, u, q), Of(AccOf(s, u).batches, q);
      assert drained + pending == Of(s.appended, (u, q));
      if u == t && q == p {
        assert drained + (pending + [r]) == (drained + pending) + [r];
      }
    }
  }

  // ---------------------------------------------------------------------
  // Drain
  // ---------------------------------------------------------------------

  /** What a drain of the partitions in `order` asks of the accumulator left. */
  ghost predicate Takes(s: Producer, t: Topic, ps: set<int>, left: Acc, order: seq<int>) {
    t in s.accs && ps <= s.accs[t].batches.Keys && Enumerates(order, ps) && left.batches == s.accs[t].batches - ps
  }

  /** Where a record was before the drain. */
  ghost function Back(s: Producer, t: Topic, order: seq<int>, at: Place): Place {
    match at
    case Buffered(_, _, _) => at
    case Drained(b, i) =>
      if |s.batches| <= b < |s.batches| + |order| then Buffered(t, order[b - |s.batches|], i) else at
  }

  lemma DrainPlaces(s: Producer, t: Topic, ps: set<int>, left: Acc, order: seq<int>, at: Place)
    requires Takes(s, t, ps, left, order) && Has(AfterDrain(s, t, left, order), at)
    ensures var s', was := AfterDrain(s, t, left, order), Back(s, t, order, at);
            Has(s, was) && RecAt(s', at) == RecAt(s, was) && Due(s', at) == Due(s, was)
  {
    if at.Drained? && at.b >= |s.batches| {
      assert order[at.b - |s.batches|] in ps;
    }
  }

  lemma DrainDistinct(s: Producer, t: Topic, ps: set<int>, left: Acc, order: seq<int>, a: Place, b: Place)
    requires Takes(s, t, ps, left, order)
    requires Has(AfterDrain(s, t, left, order), a) && Has(AfterDrain(s, t, left, order), b)
    requires Back(s, t, order, a) == Back(s, t, order, b)
    ensures a == b
  {
    if a.Drained? && a.b >= |s.batches| { assert order[a.b - |s.batches|] in ps; }
    if b.Drained? && b.b >= |s.batches| { assert order[b.b - |s.batches|] in ps; }
  }

  lemma DrainForward(s: Producer, t: Topic, ps: set<int>, left: Acc, order: seq<int>, at: Place) returns (to: Place)
    requires Takes(s, t, ps, left, order) && Has(s, at)
    ensures var s' := AfterDrain(s, t, left, order); Has(s', to) && RecAt(s', to) == RecAt(s, at)
  {
    to := at;
    if at.Buffered? && at.t == t && at.p in ps {
      assert at.p in order;
      var j :| 0 <= j < |order| && order[j] == at.p;
      to := Drained(|s.batches| + j, at.i);
    }
  }

  lemma DrainFutures(s: Producer, t: Topic, ps: set<int>, left: Acc, order: seq<int>)
    requires Takes(s, t, ps, left, order) && FuturesAreDue(s) && OnePlaceEach(s)
    ensures var s' := AfterDrain(s, t, left, order); FuturesAreDue(s') && OnePlaceEach(s')
  {
    var s' := AfterDrain(s, t, left, order);
    forall at | Has(s', at) ensures FutureIsDue(s', at) {
      DrainPlaces(s, t, ps, left, order, at);
      assert FutureIsDue(s, Back(s, t, order, at));
    }
    forall a, b | Has(s', a) && Has(s', b) && RecAt(s', a).future == RecAt(s', b).future ensures a == b {
      DrainPlaces(s, t, ps, left, order, a);
      DrainPlaces(s, t, ps, left, order, b);
      DrainDistinct(s, t, ps, left, order, a, b);
    }
  }

  lemma DrainCoverage(s: Producer, t: Topic, ps: set<int>, left: Acc, order: seq<int>)
    requires Takes(s, t, ps, left, order) && AllSomewhere(s)
    ensures AllSomewhere(AfterDrain(s, t, left, order))
  {
    var s' := AfterDrain(s, t, left, order);
    forall f | 0 <= f < |s'.futures| ensures Somewhere(s', f) {
      assert Somewhere(s, f);
      var at :| Has(s, at) && RecAt(s, at).future == f;
      var to := DrainForward(s, t, ps, left, order, at);
    }
  }

  /** The batches just drained, partition by partition. */
  lemma {:induction false} DrainedConcat(a: seq<Batch>, b: seq<Batch>, t: Topic, p: int)
    ensures DrainedOf(a + b, t, p) == DrainedOf(a, t, p) + DrainedOf(b, t, p)
    decreases |b|
  {
    if b == [] {
      assert a + b == a;
    } else {
      var front, last := b[..|b| - 1], b[|b| - 1];
      DrainedConcat(a, front, t, p);
      assert a + b == a + front + [last];
      DrainedPush(a + front, last, t, p);
      Regroup(DrainedOf(a, t, p), DrainedOf(front, t, p), DrainedOf(b, t, p)[|DrainedOf(front, t, p)|..]);
    }
  }

  lemma DrainedPush(bs: seq<Batch>, b: Batch, t: Topic, p: int)
    ensures DrainedOf(bs + [b], t, p) ==
            DrainedOf(bs, t, p) + if b.topic == t && b.partition == p then b.records else []
  {
    assert (bs + [b])[..|bs|] == bs;
  }

  lemma CollectPush(u: Topic, m: map<int, seq<Rec>>, order: seq<int>, q: int)
    ensures Collect(u, m, order + [q]) == Collect(u, m, order) + [Batch(u, q, Of(m, q), Waiting)]
  {
  }

  lemma NotAgain(order: seq<int>, front: seq<int>, q: int, p: int)
    requires order != [] && front == order[..|order| - 1] && q == order[|order| - 1]
    requires forall i, j :: 0 <= i < j < |order| ==> order[i] != order[j]
    ensures order == front + [q] && q !in front && (p in order <==> p in front || p == q)
  {
    assert order == front + [q];
  }

  lemma {:induction false} CollectedOf(u: Topic, m: map<int, seq<Rec>>, order: seq<int>, t: Topic, p: int)
    requires forall i, j :: 0 <= i < j < |order| ==> order[i] != order[j]
    ensures DrainedOf(Collect(u, m, order), t, p) == if t == u && p in order then Of(m, p) else []
    decreases |order|
  {
    if order != [] {
      var front, q := order[..|order| - 1], order[|order| - 1];
      NotAgain(order, front, q, p);
      CollectedOf(u, m, front, t, p);
      CollectPush(u, m, front, q);
      DrainedPush(Collect(u, m, front), Batch(u, q, Of(m, q), Waiting), t, p);
      if p == q { ThenNothing(Of(m, p)); } else { ThenNothing(DrainedOf(Collect(u, m, front), t, p)); }
    }
  }

  lemma DrainedAfter(s: Producer, t: Topic, ps: set<int>, left: Acc, order: seq<int>, u: Topic, q: int)
    requires Takes(s, t, ps, left, order)
    ensures DrainedOf(AfterDrain(s, t, left, order).batches, u, q) ==
            DrainedOf(s.batches, u, q) + if u == t && q in ps then Of(s.accs[t].batches, q) else []
  {
    DrainedConcat(s.batches, Collect(t, s.accs[t].batches, order), u, q);
    CollectedOf(t, s.accs[t].batches, order, u, q);
  }

  lemma PendingAfter(s: Producer, t: Topic, ps: set<int>, left: Acc, order: seq<int>, u: Topic, q: int)
    requires Takes(s, t, ps, left, order)
    ensures Of(AccOf(AfterDrain(s, t, left, order), u).batches, q) ==
            if u == t && q in ps then [] else Of(AccOf(s, u).batches, q)
  {
  }

  lemma DrainConserves(s: Producer, t: Topic, ps: set<int>, left: Acc, order: seq<int>)
    requires Takes(s, t, ps, left, order) && Conserved(s)
    ensures Conserved(AfterDrain(s, t, left, order))
  {
    var s' := AfterDrain(s, t, left, order);
    forall u, q ensures DrainedOf(s'.batches, u, q) + Of(AccOf(s', u).batches, q) == Of(s'.appended, (u, q)) {
      assert DrainedOf(s.batches, u, q) + Of(AccOf(s, u).batches, q) == Of(s.appended, (u, q));
      DrainedAfter(s, t, ps, left, order, u, q);
      PendingAfter(s, t, ps, left, order, u, q);
    }
  }

  lemma DrainInv(s: Producer, t: Topic, ps: set<int>, left: Acc, order: seq<int>)
    requires Inv(s) && Takes(s, t, ps, left, order) && Consistent(left)
    ensures Inv(AfterDrain(s, t, left, order))
  {
    DrainFutures(s, t, ps, left, order);
    DrainCoverage(s, t, ps, left, order);
    DrainConserves(s, t, ps, left, order);
  }

  // ---------------------------------------------------------------------
  // sendBatch
  // ---------------------------------------------------------------------

  /** Completing distinct open futures completes each as it is due, touches no
      other, and never finds one complete. */
  lemma {:induction false} CompleteEach(fs: seq<Future>, rs: seq<Rec>, outcome: Outcome, i: nat)
    requires i <= |rs| && forall j :: 0 <= j < |rs| ==> rs[j].future < |fs|
    requires forall j, k :: 0 <= j < k < |rs| ==> rs[j].future != rs[k].future
    requires forall j :: i <= j < |rs| ==> fs[rs[j].future] == Open
    ensures var (fs', panicked) := Complete(fs, rs, outcome, i);
            && |fs'| == |fs| && !panicked
            && (forall j :: i <= j < |rs| ==> fs'[rs[j].future] == ResultOf(outcome, j))
            && (forall f :: 0 <= f < |fs| && (forall j :: i <= j < |rs| ==> rs[j].future != f) ==> fs'[f] == fs[f])
    decreases |rs| - i
  {
    if i < |rs| {
      CompleteEach(fs[rs[i].future := ResultOf(outcome, i)], rs, outcome, i + 1);
    }
  }

  lemma BatchFutures(s: Producer, b: nat)
    requires FuturesAreDue(s) && OnePlaceEach(s) && b < |s.batches| && s.batches[b].outcome == Waiting
    ensures var rs := s.batches[b].records;
            && (forall j :: 0 <= j < |rs| ==> rs[j].future < |s.futures| && s.futures[rs[j].future] == Open)
            && (forall j, k :: 0 <= j < k < |rs| ==> rs[j].future != rs[k].future)
  {
    var rs := s.batches[b].records;
    forall j | 0 <= j < |rs| ensures rs[j].future < |s.futures| && s.futures[rs[j].future] == Open {
      assert Has(s, Drained(b, j));
      assert FutureIsDue(s, Drained(b, j));
    }
    forall j, k | 0 <= j < k < |rs| ensures rs[j].future != rs[k].future {
      assert Has(s, Drained(b, j)) && Has(s, Drained(b, k));
      assert RecAt(s, Drained(b, j)) == rs[j] && RecAt(s, Drained(b, k)) == rs[k];
    }
  }

  /** A batch changes only its outcome. */
  lemma SentPlaces(s: Producer, b: nat, outcome: Outcome, s': Producer, at: Place)
    requires b < |s.batches| && s'.accs == s.accs && s'.batches == s.batches[b := s.batches[b].(outcome := outcome)]
    ensures Has(s', at) <==> Has(s, at)
    ensures Has(s, at) ==> RecAt(s', at) == RecAt(s, at)
    ensures Has(s, at) ==> Due(s', at) == if at.Drained? && at.b == b then ResultOf(outcome, at.i) else Due(s, at)
  {
  }

  lemma SentFutures(s: Producer, b: nat, outcome: Outcome)
    requires FuturesAreDue(s) && OnePlaceEach(s) && AllSomewhere(s)
    requires b < |s.batches| && s.batches[b].outcome == Waiting
    requires forall j :: 0 <= j < |s.batches[b].records| ==> s.batches[b].records[j].future < |s.futures|
    ensures var s' := AfterSendBatch(s, b, outcome);
            FuturesAreDue(s') && OnePlaceEach(s') && AllSomewhere(s') && s'.panicked == s.panicked
  {
    var s', rs := AfterSendBatch(s, b, outcome), s.batches[b].records;
    BatchFutures(s, b);
    CompleteEach(s.futures, rs, outcome, 0);
    forall at | Has(s', at) ensures FutureIsDue(s', at) {
      SentPlaces(s, b, outcome, s', at);
      SentFuture(s, b, outcome, at);
    }
    forall x, y | Has(s', x) && Has(s', y) && RecAt(s', x).future == RecAt(s', y).future ensures x == y {
      SentPlaces(s, b, outcome, s', x);
      SentPlaces(s, b, outcome, s', y);
    }
    forall f | 0 <= f < |s'.futures| ensures Somewhere(s', f) {
      assert Somewhere(s, f);
      var at :| Has(s, at) && RecAt(s, at).future == f;
      SentPlaces(s, b, outcome, s', at);
    }
  }

  lemma SentFuture(s: Producer, b: nat, outcome: Outcome, at: Place)
    requires FuturesAreDue(s) && OnePlaceEach(s) && Has(s, at)
    requires b < |s.batches| && s.batches[b].outcome == Waiting
    requires forall j :: 0 <= j < |s.batches[b].records| ==> s.batches[b].records[j].future < |s.futures|
    ensures var (fs, _) := Complete(s.futures, s.batches[b].records, outcome, 0);
            && RecAt(s, at).future < |fs|
            && fs[RecAt(s, at).future] == if at.Drained? && at.b == b then ResultOf(outcome, at.i) else Due(s, at)
  {
    var rs, f := s.batches[b].records, RecAt(s, at).future;
    assert FutureIsDue(s, at);
    BatchFutures(s, b);
    CompleteEach(s.futures, rs, outcome, 0);
    if !(at.Drained? && at.b == b) {
      forall j | 0 <= j < |rs| ensures rs[j].future != f {
        assert Has(s, Drained(b, j)) && RecAt(s, Drained(b, j)) == rs[j];
      }
    }
  }

  lemma {:induction false} SentDrainedOf(bs: seq<Batch>, b: nat, outcome: Outcome, t: Topic, p: int)
    requires b < |bs|
    ensures DrainedOf(bs[b := bs[b].(outcome := outcome)], t, p) == DrainedOf(bs, t, p)
    decreases |bs|
  {
    var n, bs' := |bs| - 1, bs[b := bs[b].(outcome := outcome)];
    if b == n {
      assert bs'[..n] == bs[..n];
    } else {
      SentDrainedOf(bs[..n], b, outcome, t, p);
      assert bs'[..n] == bs[..n][b := bs[b].(outcome := outcome)];
    }
  }

  lemma SentInv(s: Producer, b: nat, outcome: Outcome)
    requires Inv(s) && b < |s.batches| && s.batches[b].outcome == Waiting
    requires forall j :: 0 <= j < |s.batches[b].records| ==> s.batches[b].records[j].future < |s.futures|
    ensures Inv(AfterSendBatch(s, b, outcome))
  {
    var s' := AfterSendBatch(s, b, outcome);
    SentFutures(s, b, outcome);
    forall t, p ensures DrainedOf(s'.batches, t, p) + Of(AccOf(s', t).batches, p) == Of(s'.appended, (t, p)) {
      assert DrainedOf(s.batches, t, p) + Of(AccOf(s, t).batches, p) == Of(s.appended, (t, p));
      SentDrainedOf(s.batches, b, outcome, t, p);
    }
  }

  // ---------------------------------------------------------------------
  // Runs
  // ---------------------------------------------------------------------

  lemma StepInv(s: Producer, e: Event, s': Producer)
    requires Inv(s) && Next(s, e, s')
    ensures Inv(s')
  {
    match e {
      case Send(t, p, size, now) => SendInv(s, t, p, size, now);
      case DrainReady(t, batchSize, clock, order) =>
        var ps := ReadyKeys(s.accs[t], batchSize, clock);
        RemoveKeeps(s.accs[t], ps);
        DrainInv(s, t, ps, Remove(s.accs[t], ps), order);
      case DrainAll(t, order) =>
        var ps := s.accs[t].batches.Keys;
        RemoveKeeps(s.accs[t], ps);
        assert s.accs[t].batches - ps == map[];
        DrainInv(s, t, ps, EMPTY, order);
      case SendBatch(b, outcome) => SentInv(s, b, outcome);
    }
  }

  lemma InitialInv()
    ensures Inv(INITIAL)
  {
    forall t, p ensures DrainedOf([], t, p) + Of(AccOf(INITIAL, t).batches, p) == Of(INITIAL.appended, (t, p)) {
    }
  }

  lemma {:induction false} RunInv(states: seq<Producer>, events: seq<Event>, n: nat)
    requires IsRun(states, events) && n < |states|
    ensures Inv(states[n])
  {
    if n == 0 {
      InitialInv();
    } else {
      RunInv(states, events, n - 1);
      StepInv(states[n - 1], events[n - 1], states[n]);
    }
  }

  /** Conservation over every run: of each partition, the drained batches in
      drain order followed by the pending records are the append sequence, and
      each accumulator's byte count is the sum of its pending records. */
  lemma RunConserves(states: seq<Producer>, events: seq<Event>, n: nat, t: Topic, p: int)
    requires IsRun(states, events) && n < |states|
    ensures var s := states[n];
            && DrainedOf(s.batches, t, p) + Of(AccOf(s, t).batches, p) == Of(s.appended, (t, p))
            && AccOf(s, t).sizeBytes == Sum(Sizes(AccOf(s, t).batches))
  {
    RunInv(states, events, n);
    assert Sizes(map[]) == map[];
  }

  /** Over every run no send hits a closed channel, every future belongs to
      exactly one record, and it is complete exactly when that record's batch
      has been through sendBatch, with that batch's outcome. */
  lemma FuturesCompleteOnce(states: seq<Producer>, events: seq<Event>, n: nat, f: nat)
    requires IsRun(states, events) && n < |states| && f < |states[n].futures|
    ensures var s := states[n];
            && !s.panicked
            && exists at :: Has(s, at) && RecAt(s, at).future == f && s.futures[f] == Due(s, at)
                            && forall other :: Has(s, other) && RecAt(s, other).future == f ==> other == at
  {
    var s := states[n];
    RunInv(states, events, n);
    assert Somewhere(s, f);
    var at :| Has(s, at) && RecAt(s, at).future == f;
    assert FutureIsDue(s, at);
  }

  /** What each record's future holds over every run: nothing while the record is
      buffered or its batch not sent, nil if the batch failed, and if it was stored
      from a base offset on, that offset plus the record's place in the batch. */
  lemma FuturesHoldOffsets(states: seq<Producer>, events: seq<Event>, n: nat, b: nat, i: nat)
    requires IsRun(states, events) && n < |states| && b < |states[n].batches| && i < |states[n].batches[b].records|
    ensures var s, batch := states[n], states[n].batches[b];
            var f := batch.records[i].future;
            && f < |s.futures|
            && (batch.outcome == Waiting ==> s.futures[f] == Open)
            && (batch.outcome == Failed ==> s.futures[f] == Nil)
            && (batch.outcome.Stored? ==> s.futures[f] == Metadata(batch.outcome.base + i))
  {
    RunInv(states, events, n);
    assert Has(states[n], Drained(b, i));
    assert FutureIsDue(states[n], Drained(b, i));
  }

  lemma BufferedFuturesAreOpen(states: seq<Producer>, events: seq<Event>, n: nat, t: Topic, p: int, i: nat)
    requires IsRun(states, events) && n < |states| && t in states[n].accs && p in states[n].accs[t].batches
    requires i < |states[n].accs[t].batches[p]|
    ensures var f := states[n].accs[t].batches[p][i].future; f < |states[n].futures| && states[n].futures[f] == Open
  {
    RunInv(states, events, n);
    assert Has(states[n], Buffered(t, p, i));
    assert FutureIsDue(states[n], Buffered(t, p, i));
  }

  /** Once complete, a future never changes. */
  lemma CompletionIsFinal(s: Producer, e: Event, s': Producer, f: nat)
    requires Inv(s) && Next(s, e, s') && f < |s.futures| && s.futures[f] != Open
    ensures f < |s'.futures| && s'.futures[f] == s.futures[f]
  {
    if e.SendBatch? {
      var rs := s.batches[e.b].records;
      BatchFutures(s, e.b);
      CompleteEach(s.futures, rs, e.outcome, 0);
      forall j | 0 <= j < |rs| ensures rs[j].future != f {
        assert s.futures[rs[j].future] == Open;
      }
    }
  }

  /** Nor along any run. */
  lemma {:induction false} CompletionIsFinalInRuns(states: seq<Producer>, events: seq<Event>, n: nat, m: nat, f: nat)
    requires IsRun(states, events) && n <= m < |states| && f < |states[n].futures| && states[n].futures[f] != Open
    ensures f < |states[m].futures| && states[m].futures[f] == states[n].futures[f]
    decreases m
  {
    if n < m {
      CompletionIsFinalInRuns(states, events, n, m - 1, f);
      CompletionStays(states, events, m - 1, f);
    }
  }

  lemma CompletionStays(states: seq<Producer>, events: seq<Event>, i: nat, f: nat)
    requires IsRun(states, events) && i + 1 < |states| && f < |states[i].futures| && states[i].futures[f] != Open
    ensures f < |states[i + 1].futures| && states[i + 1].futures[f] == states[i].futures[f]
  {
    RunInv(states, events, i);
    CompletionIsFinal(states[i], events[i], states[i + 1], f);
  }

  // ---------------------------------------------------------------------
  // After Close
  // ---------------------------------------------------------------------

  /** Close marks the producer closed before it calls Flush, which then returns at
      once, and stops the sender goroutine: from then on nothing is drained. */
  predicate Drains(e: Event) { e.DrainReady? || e.DrainAll? }

  /** How things may go on from s without a drain. */
  ghost predicate Undrained(s: Producer, states: seq<Producer>, events: seq<Event>) {
    && |states| == |events| + 1 && states[0] == s
    && (forall i :: 0 <= i < |events| ==> Next(states[i], events[i], states[i + 1]) && !Drains(events[i]))
  }

  /** The future is open for ever once nothing is drained any more. */
  ghost predicate NeverCompletes(s: Producer, f: nat) {
    forall states: seq<Producer>, events: seq<Event> :: Undrained(s, states, events) ==>
      f < |states[|events|].futures| && states[|events|].futures[f] == Open
  }

  /** The record that waits on f is still in an accumulator. */
  ghost predicate StillBuffered(s: Producer, f: nat) {
    exists at :: Has(s, at) && RecAt(s, at).future == f && at.Buffered?
  }

  lemma BufferedStays(s: Producer, e: Event, s': Producer, at: Place)
    requires Next(s, e, s') && !Drains(e) && Has(s, at) && at.Buffered?
    ensures Has(s', at) && RecAt(s', at) == RecAt(s, at)
  {
    if e.Send? {
      SendKeepsPlaces(s, e.topic, e.partition, e.size, e.now, at);
    } else {
      SentPlaces(s, e.b, e.outcome, s', at);
    }
  }

  lemma {:induction false} BufferedStaysInRuns(s: Producer, states: seq<Producer>, events: seq<Event>, n: nat,
                                               at: Place)
    requires Inv(s) && Undrained(s, states, events) && n <= |events| && Has(s, at) && at.Buffered?
    ensures Inv(states[n]) && Has(states[n], at) && RecAt(states[n], at) == RecAt(s, at)
  {
    if n > 0 {
      BufferedStaysInRuns(s, states, events, n - 1, at);
      StaysOneStep(s, states, events, n - 1, at);
    }
  }

  lemma StaysOneStep(s: Producer, states: seq<Producer>, events: seq<Event>, i: nat, at: Place)
    requires Undrained(s, states, events) && i < |events| && Inv(states[i]) && Has(states[i], at) && at.Buffered?
    ensures Inv(states[i + 1]) && Has(states[i + 1], at) && RecAt(states[i + 1], at) == RecAt(states[i], at)
  {
    StepInv(states[i], events[i], states[i + 1]);
    BufferedStays(states[i], events[i], states[i + 1], at);
  }

  /** A batch that waits can always still be sent. */
  lemma WaitingCompletes(s: Producer, b: nat, i: nat)
    requires Inv(s) && b < |s.batches| && i < |s.batches[b].records| && s.batches[b].outcome == Waiting
    ensures !NeverCompletes(s, s.batches[b].records[i].future)
  {
    var rs := s.batches[b].records;
    BatchFutures(s, b);
    CompleteEach(s.futures, rs, Failed, 0);
    var s' := AfterSendBatch(s, b, Failed);
    assert Next(s, SendBatch(b, Failed), s');
    assert Undrained(s, [s, s'], [SendBatch(b, Failed)]);
  }

  /** Once nothing is drained any more, a future stays open for ever if and only if
      its record is still buffered: what is pending at Close is never sent. */
  lemma NeverCompletesIff(s: Producer, f: nat)
    requires Inv(s) && f < |s.futures|
    ensures NeverCompletes(s, f) <==> StillBuffered(s, f)
  {
    if StillBuffered(s, f) {
      var at :| Has(s, at) && RecAt(s, at).future == f && at.Buffered?;
      forall states: seq<Producer>, events: seq<Event> | Undrained(s, states, events)
        ensures f < |states[|events|].futures| && states[|events|].futures[f] == Open
      {
        BufferedStaysInRuns(s, states, events, |events|, at);
        assert FutureIsDue(states[|events|], at);
      }
    } else {
      assert Somewhere(s, f);
      var at :| Has(s, at) && RecAt(s, at).future == f;
      assert FutureIsDue(s, at);
      if s.batches[at.b].outcome == Waiting {
        WaitingCompletes(s, at.b, at.i);
      } else {
        assert Undrained(s, [s], []);
      }
    }
  }

  // ---------------------------------------------------------------------
  // The loop of sendBatch
  // ---------------------------------------------------------------------

  /** The records wait on futures of their own, none of them complete. */
  ghost predicate OpenAndDistinct(fs: seq<Future>, rs: seq<Rec>) {
    && (forall j :: 0 <= j < |rs| ==> rs[j].future < |fs| && fs[rs[j].future] == Open)
    && (forall j, k :: 0 <= j < k < |rs| ==> rs[j].future != rs[k].future)
  }

  /** Record j of a stored batch gets the base offset plus j, of a failed one nil; no
      other future changes. */
  ghost predicate CompletedWith(fs: seq<Future>, fs': seq<Future>, rs: seq<Rec>, outcome: Outcome)
    requires forall j :: 0 <= j < |rs| ==> rs[j].future < |fs|
  {
    && |fs'| == |fs|
    && (forall j :: 0 <= j < |rs| ==>
          && (outcome.Stored? ==> fs'[rs[j].future] == Metadata(outcome.base + j))
          && (outcome.Failed? ==> fs'[rs[j].future] == Nil))
    && (forall f :: 0 <= f < |fs| && (forall j :: 0 <= j < |rs| ==> rs[j].future != f) ==> fs'[f] == fs[f])
  }

  lemma CompletesWith(fs: seq<Future>, rs: seq<Rec>, outcome: Outcome)
    requires OpenAndDistinct(fs, rs)
    ensures var (fs', panicked) := Complete(fs, rs, outcome, 0); !panicked && CompletedWith(fs, fs', rs, outcome)
  {
    CompleteEach(fs, rs, outcome, 0);
  }

  /** Completes the futures of a batch in place, record by record; a send on a
      completed future would panic. */
  method CompleteFutures(futures: array<Future>, rs: seq<Rec>, outcome: Outcome) returns (panicked: bool)
    requires forall j :: 0 <= j < |rs| ==> rs[j].future < futures.Length
    modifies futures
    ensures (futures[..], panicked) == Complete(old(futures[..]), rs, outcome, 0)
    ensures OpenAndDistinct(old(futures[..]), rs) ==>
              !panicked && CompletedWith(old(futures[..]), futures[..], rs, outcome)
  {
    if OpenAndDistinct(futures[..], rs) { CompletesWith(futures[..], rs, outcome); }
    panicked := false;
    for i := 0 to |rs|
      invariant var (fs, flag) := Complete(futures[..], rs, outcome, i);
                Complete(old(futures[..]), rs, outcome, 0) == (fs, panicked || flag)
    {
      var f := rs[i].future;
      if futures[f] != Open { panicked := true; }
      ghost var before := futures[..];
      futures[f] := ResultOf(outcome, i);
      assert futures[..] == before[f := ResultOf(outcome, i)];
    }
  }
}
