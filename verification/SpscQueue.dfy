/** The queue as an object, for calls that run without interference
    (include/torrent/common/circular_buffer.h).  Each method is the sequence of
    its micro-steps in SpscRing. */
module SpscQueue {
  import opened Wrappers
  import opened Bits
  import opened SpscRing
  import RingArithmetic

  /** The micro-steps of a push without interference. */
  lemma PushIs<T>(s: Ring<T>, item: T)
    requires Inv(s) && s.producer.Outside? && s.consumer.Away?
    ensures s.Next(s.head) == s.tail <==> s.Length() == s.Slots() - 1
    ensures s.head < |s.buffer|
    ensures s.Next(s.head) != s.tail ==>
              Inv(s.(buffer := s.buffer[s.head := item], head := s.Next(s.head), pushed := s.pushed + [item]))
  {
    var s1 := Perform(s, PushLoadHead(item));
    StepKeeps(s, PushLoadHead(item));
    PushFailsIffFull(s1);
    if !PushFails(s1) {
      StepKeeps(s1, PushLoadTail);
      var s2 := Perform(s1, PushLoadTail);
      StepKeeps(s2, PushWrite);
      var s3 := Perform(s2, PushWrite);
      StepKeeps(s3, PushPublish);
    }
  }

  /** The micro-steps of a pop without interference. */
  lemma PopIs<T>(s: Ring<T>)
    requires Inv(s) && s.producer.Outside? && s.consumer.Away?
    ensures s.tail == s.head <==> s.Length() == 0
    ensures s.tail < |s.buffer|
    ensures s.tail != s.head ==>
              Inv(s.(tail := s.Next(s.tail), popped := s.popped + [s.buffer[s.tail]]))
              && s.buffer[s.tail] == s.pushed[|s.popped|]
  {
    var s1 := Perform(s, PopLoadTail);
    StepKeeps(s, PopLoadTail);
    PopFailsIffEmpty(s1);
    if !PopFails(s1) {
      StepKeeps(s1, PopLoadHead);
      var s2 := Perform(s1, PopLoadHead);
      var item := s.buffer[s.tail];
      StepKeeps(s2, PopTake(item));
      var s3 := Perform(s2, PopTake(item));
      StepKeeps(s3, PopRelease);
      assert s.buffer[s.tail := item] == s.buffer;
    }
  }

  class SpscQueue<T(0)> {
    ghost const bits: nat
    const mask: nat
    const buffer: array<T>
    var head: nat
    var tail: nat
    ghost var pushed: seq<T>
    ghost var popped: seq<T>

    ghost function State(): Ring<T>
      reads this, buffer
    {
      Ring(bits, buffer[..], head, tail, Outside, Away, pushed, popped)
    }

    ghost predicate Valid()
      reads this, buffer
    {
      Inv(State()) && mask + 1 == Pow2(bits)
    }

    /** What is in the queue, oldest first. */
    ghost function Contents(): seq<T>
      reads this, buffer
      requires Valid()
    {
      pushed[|popped|..]
    }

    /** Above 2^63 the rounding wraps to 0: no slots, and a mask of all ones, on
        which every slot access would be out of bounds. */
    constructor (capacity: nat)
      requires capacity < WORD_MODULUS
      ensures fresh(buffer)
      ensures capacity <= WORD_MODULUS / 2 ==> Valid() && Contents() == [] && buffer.Length >= capacity
      ensures capacity > WORD_MODULUS / 2 ==> buffer.Length == 0 && mask == WORD_MODULUS - 1
    {
      var slots := RingArithmetic.NextPowerOf2(capacity);
      ghost var k: nat := 1;
      if 0 < capacity <= WORD_MODULUS / 2 {
        k :| k < 64 && RingArithmetic.LeastPower(capacity, slots, k);
      }
      assert capacity <= WORD_MODULUS / 2 ==> slots == Pow2(k);
      bits := k;
      mask := if slots == 0 then WORD_MODULUS - 1 else slots - 1;
      buffer := new T[slots];
      head, tail := 0, 0;
      pushed, popped := [], [];
      new;
      if slots > 0 { DivModUnique(0, slots, 0, 0); }
    }

    method TryPush(item: T) returns (ok: bool)
      requires Valid()
      modifies this, buffer
      ensures Valid() && popped == old(popped)
      ensures ok <==> |old(Contents())| < mask
      ensures Contents() == old(Contents()) + if ok then [item] else []
    {
      var next := And(head + 1, mask);
      PushIs(State(), item);
      if next == tail { return false; }
      buffer[head] := item;
      head := next;
      pushed := pushed + [item];
      ok := true;
    }

    method TryPop() returns (r: Option<T>)
      requires Valid()
      modifies this
      ensures Valid() && pushed == old(pushed)
      ensures old(Contents()) == [] ==> r == None && Contents() == []
      ensures old(Contents()) != [] ==> r == Some(old(Contents())[0]) && Contents() == old(Contents())[1..]
    {
      PopIs(State());
      if tail == head { return None; }
      r := Some(buffer[tail]);
      tail := And(tail + 1, mask);
      popped := popped + [r.value];
    }

    method Count() returns (n: nat)
      requires Valid()
      ensures n == |Contents()| <= mask
    {
      SizeIsLength(State());
      n := if head >= tail then head - tail else buffer.Length - tail + head;
    }

    method Full() returns (full: bool)
      requires Valid()
      ensures full <==> |Contents()| == mask
    {
      ghost var s: Ring<T> := State().(producer := LoadedHead(buffer[0], head));
      assert forall i: nat :: i < |pushed| && Stored(State(), i) ==> Stored(s, i);
      PushFailsIffFull(s);
      full := And(head + 1, mask) == tail;
    }

    method Empty() returns (empty: bool)
      requires Valid()
      ensures empty <==> Contents() == []
    {
      ghost var s: Ring<T> := State().(consumer := LoadedTail(tail));
      assert forall i: nat :: i < |pushed| && Stored(State(), i) ==> Stored(s, i);
      PopFailsIffEmpty(s);
      empty := head == tail;
    }

    method Clear()
      requires Valid()
      modifies this
      ensures Valid() && Contents() == []
    {
      head, tail := 0, 0;
      pushed, popped := [], [];
      DivModUnique(0, mask + 1, 0, 0);
    }
  }
}
