/** The lock-free single-producer single-consumer ring
    (include/torrent/common/circular_buffer.h) as two threads interleaved at
    every atomic load, atomic store and slot access. */
module SpscRing {
  import opened Wrappers
  import opened Bits

  /** Where the producer is inside try_push. */
  datatype Producer<T> =
    | Outside
    | LoadedHead(item: T, head: nat)
    | MayWrite(item: T, head: nat)       // saw a free slot, about to write it
    | Wrote(item: T, head: nat)          // about to publish it

  /** Where the consumer is inside try_pop. */
  datatype Consumer<T> =
    | Away
    | LoadedTail(tail: nat)
    | MayRead(tail: nat)                 // saw an element, about to move it out
    | Took(item: T, tail: nat)           // about to release the slot

  /** `pushed` and `popped` record the items of the successful calls, in order. */
  datatype Ring<T> = Ring(
    bits: nat, buffer: seq<T>, head: nat, tail: nat,
    producer: Producer<T>, consumer: Consumer<T>,
    pushed: seq<T>, popped: seq<T>)
  {
    /** The power of two next_power_of_2 returned. */
    function Slots(): nat { Pow2(bits) }

    function Next(i: nat): nat { And(i + 1, Slots() - 1) }

    function Length(): int { |pushed| - |popped| }
  }

  datatype Step<T> =
    | PushLoadHead(item: T)
    | PushLoadTail
    | PushWrite
    | PushPublish
    | PopLoadTail
    | PopLoadHead
    | PopTake(left: T)                   // a moved-from slot may hold anything
    | PopRelease

  ghost predicate Init<T>(s: Ring<T>) {
    && |s.buffer| == s.Slots()
    && s.head == s.tail == 0
    && s.producer == Outside && s.consumer == Away
    && s.pushed == s.popped == []
  }

  predicate ProducerStep<T>(step: Step<T>) {
    step.PushLoadHead? || step.PushLoadTail? || step.PushWrite? || step.PushPublish?
  }

  predicate Enabled<T>(s: Ring<T>, step: Step<T>) {
    match step
    case PushLoadHead(_) => s.producer.Outside?
    case PushLoadTail => s.producer.LoadedHead?
    case PushWrite => s.producer.MayWrite? && s.producer.head < |s.buffer|
    case PushPublish => s.producer.Wrote?
    case PopLoadTail => s.consumer.Away?
    case PopLoadHead => s.consumer.LoadedTail?
    case PopTake(_) => s.consumer.MayRead? && s.consumer.tail < |s.buffer|
    case PopRelease => s.consumer.Took?
  }

  /** try_push gives up when the slot after its head is the tail it loads. */
  predicate PushFails<T>(s: Ring<T>)
    requires s.producer.LoadedHead?
  {
    s.Next(s.producer.head) == s.tail
  }

  /** try_pop gives up when its tail is the head it loads. */
  predicate PopFails<T>(s: Ring<T>)
    requires s.consumer.LoadedTail?
  {
    s.consumer.tail == s.head
  }

  function Perform<T>(s: Ring<T>, step: Step<T>): Ring<T>
    requires Enabled(s, step)
  {
    match step
    case PushLoadHead(item) => s.(producer := LoadedHead(item, s.head))
    case PushLoadTail =>
      s.(producer := if PushFails(s) then Outside else MayWrite(s.producer.item, s.producer.head))
    case PushWrite =>
      s.(producer := Wrote(s.producer.item, s.producer.head),
         buffer := s.buffer[s.producer.head := s.producer.item])
    case PushPublish =>
      s.(producer := Outside, head := s.Next(s.producer.head), pushed := s.pushed + [s.producer.item])
    case PopLoadTail => s.(consumer := LoadedTail(s.tail))
    case PopLoadHead => s.(consumer := if PopFails(s) then Away else MayRead(s.consumer.tail))
    case PopTake(left) =>
      s.(consumer := Took(s.buffer[s.consumer.tail], s.consumer.tail),
         buffer := s.buffer[s.consumer.tail := left])
    case PopRelease =>
      s.(consumer := Away, tail := s.Next(s.consumer.tail), popped := s.popped + [s.consumer.item])
  }

  /** size(), given the head and the tail it loaded. */
  function Size<T>(s: Ring<T>, head: nat, tail: nat): int {
    if head >= tail then head - tail else s.Slots() - tail + head
  }

  // ---------------------------------------------------------------------
  // The invariant
  // ---------------------------------------------------------------------

  /** The slot of the i-th item. */
  function Slot<T>(s: Ring<T>, i: nat): nat { i % s.Slots() }

  /** Item i is published and still in its slot. */
  ghost predicate Stored<T>(s: Ring<T>, i: nat)
    requires |s.buffer| == s.Slots() && i < |s.pushed|
  {
    s.buffer[Slot(s, i)] == s.pushed[i]
  }

  ghost predicate Inv<T>(s: Ring<T>) {
    var p, c := |s.pushed|, |s.popped|;
    && |s.buffer| == s.Slots()
    && c <= p < c + s.Slots()
    && s.head == Slot(s, p) && s.tail == Slot(s, c)
    && s.popped <= s.pushed
    && (forall i: nat :: c <= i < p && (s.consumer.Took? ==> i != c) ==> Stored(s, i))
    && (match s.producer
        case Outside => true
        case LoadedHead(_, h) => h == s.head
        case MayWrite(_, h) => h == s.head && p + 1 < c + s.Slots()
        case Wrote(item, h) => h == s.head && p + 1 < c + s.Slots() && s.buffer[h] == item)
    && (match s.consumer
        case Away => true
        case LoadedTail(t) => t == s.tail
        case MayRead(t) => t == s.tail && c < p
        case Took(item, t) => t == s.tail && c < p && item == s.pushed[c])
  }

  lemma NextIsSuccessor<T>(s: Ring<T>, i: nat)
    ensures s.Next(Slot(s, i)) == Slot(s, i + 1)
  {
    var m := s.Slots();
    AndMask(i % m + 1, s.bits);
    if m > 1 {
      ModAdd(i, 1, m);
      ModAdd(i % m, 1, m);
      DivModUnique(i % m, m, 0, i % m);
    }
  }

  /** Fewer than Slots() items apart, items have different slots. */
  lemma SlotsDiffer<T>(s: Ring<T>, i: nat, j: nat)
    requires i < j < i + s.Slots()
    ensures Slot(s, i) != Slot(s, j)
  {
    ModAdd(i, j - i, s.Slots());
  }

  /** Exactly Slots() items apart, the slot comes round again. */
  lemma SlotsRepeat<T>(s: Ring<T>, i: nat)
    ensures Slot(s, i + s.Slots()) == Slot(s, i)
  {
    var m := s.Slots();
    var q, r := i / m, i % m;
    assert i + m == (q + 1) * m + r by { assert (q + 1) * m == q * m + m; }
    DivModUnique(i + m, m, q + 1, r);
  }

  /** A push gives up exactly when, at the instant it loads the tail, the ring
      holds its capacity of Slots() - 1 items. */
  lemma PushFailsIffFull<T>(s: Ring<T>)
    requires Inv(s) && s.producer.LoadedHead?
    ensures PushFails(s) <==> s.Length() == s.Slots() - 1
  {
    var p, c := |s.pushed|, |s.popped|;
    NextIsSuccessor(s, p);
    if p + 1 == c + s.Slots() {
      SlotsRepeat(s, c);
    } else {
      SlotsDiffer(s, c, p + 1);
    }
  }

  /** A pop gives up exactly when, at the instant it loads the head, the ring is empty. */
  lemma PopFailsIffEmpty<T>(s: Ring<T>)
    requires Inv(s) && s.consumer.LoadedTail?
    ensures PopFails(s) <==> s.Length() == 0
  {
    if |s.popped| < |s.pushed| {
      SlotsDiffer(s, |s.popped|, |s.pushed|);
    }
  }

  /** The slot being written is never the slot being read. */
  lemma SlotsAreExclusive<T>(s: Ring<T>)
    requires Inv(s)
    requires s.producer.MayWrite? || s.producer.Wrote?
    requires s.consumer.MayRead? || s.consumer.Took?
    ensures s.producer.head != s.consumer.tail
    ensures s.producer.head < |s.buffer| && s.consumer.tail < |s.buffer|
  {
    SlotsDiffer(s, |s.popped|, |s.pushed|);
  }

  lemma WriteKeeps<T>(s: Ring<T>)
    requires Inv(s) && Enabled(s, PushWrite)
    ensures Inv(Perform(s, PushWrite))
  {
    var s' := Perform(s, PushWrite);
    var p, c := |s.pushed|, |s.popped|;
    forall i: nat | c <= i < p && (s.consumer.Took? ==> i != c) ensures Stored(s', i) {
      SlotsDiffer(s, i, p);
      assert Stored(s, i);
    }
  }

  lemma TakeKeeps<T>(s: Ring<T>, left: T)
    requires Inv(s) && Enabled(s, PopTake(left))
    ensures Inv(Perform(s, PopTake(left)))
  {
    var s' := Perform(s, PopTake(left));
    var p, c := |s.pushed|, |s.popped|;
    assert Stored(s, c);
    forall i: nat | c < i < p ensures Stored(s', i) {
      SlotsDiffer(s, c, i);
      assert Stored(s, i);
    }
    if s.producer.Wrote? { SlotsDiffer(s, c, p); }
  }

  lemma PublishKeeps<T>(s: Ring<T>)
    requires Inv(s) && Enabled(s, PushPublish)
    ensures Inv(Perform(s, PushPublish))
  {
    var s' := Perform(s, PushPublish);
    var p, c := |s.pushed|, |s.popped|;
    NextIsSuccessor(s, p);
    forall i: nat | c <= i < p + 1 && (s.consumer.Took? ==> i != c) ensures Stored(s', i) {
      if i < p { assert Stored(s, i); }
    }
  }

  lemma ReleaseKeeps<T>(s: Ring<T>)
    requires Inv(s) && Enabled(s, PopRelease)
    ensures Inv(Perform(s, PopRelease))
  {
    var s' := Perform(s, PopRelease);
    var p, c := |s.pushed|, |s.popped|;
    NextIsSuccessor(s, c);
    forall i: nat | c + 1 <= i < p ensures Stored(s', i) {
      assert Stored(s, i);
    }
  }

  lemma StepKeeps<T>(s: Ring<T>, step: Step<T>)
    requires Inv(s) && Enabled(s, step)
    ensures Inv(Perform(s, step))
  {
    match step {
      case PushWrite => WriteKeeps(s);
      case PushPublish => PublishKeeps(s);
      case PopTake(left) => TakeKeeps(s, left);
      case PopRelease => ReleaseKeeps(s);
      case _ =>
        if step.PushLoadTail? { PushFailsIffFull(s); }
        if step.PopLoadHead? { PopFailsIffEmpty(s); }
        assert forall i: nat :: i < |s.pushed| && Stored(s, i) ==> Stored(Perform(s, step), i);
    }
  }

  // ---------------------------------------------------------------------
  // Every interleaving
  // ---------------------------------------------------------------------

  ghost predicate StepAt<T>(run: seq<Ring<T>>, steps: seq<Step<T>>, i: nat)
    requires i < |steps| < |run|
  {
    Enabled(run[i], steps[i]) && run[i + 1] == Perform(run[i], steps[i])
  }

  ghost predicate IsRun<T>(run: seq<Ring<T>>, steps: seq<Step<T>>) {
    && |run| == |steps| + 1
    && Init(run[0])
    && forall i: nat :: i < |steps| ==> StepAt(run, steps, i)
  }

  lemma {:induction false} RunInv<T>(run: seq<Ring<T>>, steps: seq<Step<T>>, i: nat)
    requires IsRun(run, steps) && i < |run|
    ensures Inv(run[i])
  {
    if i == 0 {
      DivModUnique(0, run[0].Slots(), 0, 0);
    } else {
      RunInv(run, steps, i - 1);
      assert StepAt(run, steps, i - 1);
      StepKeeps(run[i - 1], steps[i - 1]);
    }
  }

  /** First in, first out: in every interleaving, the items popped are always a
      prefix of the items pushed, no more than the capacity lie between, and
      the two threads never touch one slot at a time. */
  lemma Fifo<T>(run: seq<Ring<T>>, steps: seq<Step<T>>, i: nat)
    requires IsRun(run, steps) && i < |run|
    ensures run[i].popped <= run[i].pushed
    ensures 0 <= run[i].Length() <= run[i].Slots() - 1
    ensures ((run[i].producer.MayWrite? || run[i].producer.Wrote?)
             && (run[i].consumer.MayRead? || run[i].consumer.Took?))
            ==> run[i].producer.head != run[i].consumer.tail
    ensures run[i].producer.LoadedHead? ==> (PushFails(run[i]) <==> run[i].Length() == run[i].Slots() - 1)
    ensures run[i].consumer.LoadedTail? ==> (PopFails(run[i]) <==> run[i].Length() == 0)
  {
    var s := run[i];
    RunInv(run, steps, i);
    if s.producer.LoadedHead? { PushFailsIffFull(s); }
    if s.consumer.LoadedTail? { PopFailsIffEmpty(s); }
    if (s.producer.MayWrite? || s.producer.Wrote?) && (s.consumer.MayRead? || s.consumer.Took?) {
      SlotsAreExclusive(s);
    }
  }

  /** A thread that passed its check is never blocked: its slot access and its
      index store are always possible. */
  lemma ChecksSuffice<T>(run: seq<Ring<T>>, steps: seq<Step<T>>, i: nat, left: T)
    requires IsRun(run, steps) && i < |run|
    ensures run[i].producer.MayWrite? ==> Enabled(run[i], PushWrite)
    ensures run[i].consumer.MayRead? ==> Enabled(run[i], PopTake(left))
  {
    RunInv(run, steps, i);
  }

  /** The indices determine the length. */
  lemma SizeIsLength<T>(s: Ring<T>)
    requires Inv(s)
    ensures Size(s, s.head, s.tail) == s.Length()
  {
    ModAdd(|s.popped|, s.Length(), s.Slots());
  }

  lemma {:induction false} OnlyOwnerMoves<T>(run: seq<Ring<T>>, steps: seq<Step<T>>, i: nat, j: nat)
    requires IsRun(run, steps) && i <= j < |run|
    ensures run[j].bits == run[i].bits
    ensures (forall k: nat :: i <= k < j ==> !ProducerStep(steps[k])) ==> run[j].head == run[i].head
    ensures (forall k: nat :: i <= k < j ==> ProducerStep(steps[k])) ==> run[j].tail == run[i].tail
    decreases j
  {
    if i < j {
      OnlyOwnerMoves(run, steps, i, j - 1);
      assert StepAt(run, steps, j - 1);
    }
  }

  /** size() loads the head, then the tail.  Called by the producer, with any
      number of consumer steps between the two loads, it is the true length at
      the load of the tail. */
  lemma SizeFromProducer<T>(run: seq<Ring<T>>, steps: seq<Step<T>>, i: nat, j: nat)
    requires IsRun(run, steps) && i <= j < |run|
    requires forall k: nat :: i <= k < j ==> !ProducerStep(steps[k])
    ensures Size(run[j], run[i].head, run[j].tail) == run[j].Length()
    ensures 0 <= Size(run[j], run[i].head, run[j].tail) <= run[j].Slots() - 1
  {
    OnlyOwnerMoves(run, steps, i, j);
    RunInv(run, steps, j);
    SizeIsLength(run[j]);
  }

  /** Called by the consumer, with any number of producer steps between the two
      loads, size() is the true length at the load of the head. */
  lemma SizeFromConsumer<T>(run: seq<Ring<T>>, steps: seq<Step<T>>, i: nat, j: nat)
    requires IsRun(run, steps) && i <= j < |run|
    requires forall k: nat :: i <= k < j ==> ProducerStep(steps[k])
    ensures Size(run[i], run[i].head, run[j].tail) == run[i].Length()
    ensures 0 <= Size(run[i], run[i].head, run[j].tail) <= run[i].Slots() - 1
  {
    OnlyOwnerMoves(run, steps, i, j);
    RunInv(run, steps, i);
    SizeIsLength(run[i]);
  }
}
