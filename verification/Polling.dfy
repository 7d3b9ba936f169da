/** Polls of the Python consumer (clients/python/torrent_mq/consumer.py). */
module Polling {
  import opened Sequences
  import opened Positions
  import Commits

  // ---------------------------------------------------------------------
  // Polling one partition
  // ---------------------------------------------------------------------

  /** Offsets that come in order. */
  ghost predicate Increasing(offsets: seq<int>) {
    forall i, j :: 0 <= i < j < |offsets| ==> offsets[i] < offsets[j]
  }

  /** The position after the records with these offsets were returned. */
  function PositionAfter(position: int, offsets: seq<int>): int
    decreases |offsets|
  {
    if offsets == [] then position
    else
      var before := PositionAfter(position, offsets[..|offsets| - 1]);
      var last := offsets[|offsets| - 1];
      if last >= before then last + 1 else before
  }

  lemma {:induction false} PositionIs(position: int, offsets: seq<int>)
    requires Increasing(offsets)
    ensures PositionAfter(position, offsets) ==
            if offsets != [] && offsets[|offsets| - 1] >= position then offsets[|offsets| - 1] + 1 else position
    decreases |offsets|
  {
    if offsets != [] { PositionIs(position, offsets[..|offsets| - 1]); }
  }

  /** When a fetch is cut after n records, no record at or past the fetch
      position is skipped: it was returned, or it is at or past the new
      position; and every record returned lies behind the new position. */
  lemma CutSkipsNothing(position: int, fetched: seq<int>, n: nat, j: nat)
    requires Increasing(fetched) && n <= |fetched| && j < |fetched|
    ensures var after := PositionAfter(position, fetched[..n]);
            && position <= after
            && (fetched[j] >= position ==> (j < n <==> fetched[j] < after))
  {
    PositionIs(position, fetched[..n]);
  }

  /** The records of a log from offset a up to offset b. */
  function Between(log: seq<int>, a: int, b: int): seq<int> {
    if log == [] then [] else If(a <= log[0] < b, log[0]) + Between(log[1..], a, b)
  }

  function If(c: bool, x: int): seq<int> {
    if c then [x] else []
  }

  lemma {:induction false} BetweenJoin(log: seq<int>, a: int, b: int, c: int)
    requires Increasing(log) && a <= b <= c
    ensures Between(log, a, b) + Between(log, b, c) == Between(log, a, c)
  {
    if log != [] {
      assert Increasing(log[1..]);
      BetweenJoin(log[1..], a, b, c);
      var one, two := If(a <= log[0] < b, log[0]), If(b <= log[0] < c, log[0]);
      if b <= log[0] { BetweenNone(log, a, b); }
      JoinParts(one, Between(log[1..], a, b), two, Between(log[1..], b, c));
    }
  }

  lemma JoinParts<T>(one: seq<T>, a: seq<T>, two: seq<T>, b: seq<T>)
    requires two == [] || one + a == []
    ensures (one + a) + (two + b) == one + two + (a + b)
  {
    if two == [] { Regroup(one, a, b); }
  }

  lemma {:induction false} BetweenNone(log: seq<int>, a: int, b: int)
    requires Increasing(log) && log != [] && b <= log[0]
    ensures Between(log, a, b) == []
  {
    if |log| > 1 {
      assert log[0] < log[1];
      BetweenNone(log[1..], a, b);
    }
  }

  lemma {:induction false} BetweenFacts(log: seq<int>, a: int, b: int)
    requires Increasing(log)
    ensures Increasing(Between(log, a, b))
    ensures forall x :: x in Between(log, a, b) <==> x in log && a <= x < b
  {
    if log != [] {
      assert Increasing(log[1..]);
      BetweenFacts(log[1..], a, b);
      assert log == [log[0]] + log[1..];
      var rest := Between(log[1..], a, b);
      forall i | 0 <= i < |rest| ensures log[0] < rest[i] {
        assert rest[i] in rest;
        var j :| 0 <= j < |log[1..]| && log[1..][j] == rest[i];
        assert log[j + 1] == rest[i];
      }
    }
  }

  function FromPosition(offsets: seq<int>, position: int): seq<int> {
    if offsets == [] then []
    else If(offsets[0] >= position, offsets[0]) + FromPosition(offsets[1..], position)
  }

  /** A cut slice of the log is a shorter slice. */
  lemma CutIsSlice(log: seq<int>, a: int, b: int, n: nat) returns (c: int)
    requires Increasing(log) && n <= |Between(log, a, b)|
    ensures c <= b && Between(log, a, b)[..n] == Between(log, a, c)
    ensures n < |Between(log, a, b)| ==> c == Between(log, a, b)[n]
  {
    var all := Between(log, a, b);
    if n == |all| {
      c := b;
      assert all[..n] == all;
    } else {
      c := all[n];
      BetweenFacts(log, a, b);
      assert all[n] in all;
      BetweenJoin(log, a, c, b);
      CutAt(all, Between(log, a, c), Between(log, c, b), n, c, log, a, b);
    }
  }

  lemma CutAt(all: seq<int>, x: seq<int>, y: seq<int>, n: nat, c: int, log: seq<int>, a: int, b: int)
    requires Increasing(log) && a <= c < b && n < |all| && all[n] == c
    requires all == Between(log, a, b) && x == Between(log, a, c) && y == Between(log, c, b) && all == x + y
    ensures all[..n] == x
  {
    BetweenFacts(log, a, b);
    BetweenFacts(log, a, c);
    BetweenFacts(log, c, b);
    forall i | 0 <= i < |x| ensures all[i] < c {
      assert x[i] in x;
    }
    assert all[|x|] == y[0] && y[0] in y;
  }

  lemma FromPositionFirst(c: bool, x: int, rest: seq<int>, position: int)
    ensures FromPosition(If(c, x) + rest, position) == If(c && x >= position, x) + FromPosition(rest, position)
  {
    if c {
      assert ([x] + rest)[1..] == rest;
    } else {
      NothingThen(If(c, x), rest);
      NothingThen(If(c, x), FromPosition(rest, position));
    }
  }

  lemma {:induction false} FromPositionIs(log: seq<int>, a: int, c: int, position: int)
    requires Increasing(log) && a <= position
    ensures FromPosition(Between(log, a, c), position) == Between(log, position, c)
  {
    if log != [] {
      assert Increasing(log[1..]);
      FromPositionIs(log[1..], a, c, position);
      FromPositionFirst(a <= log[0] < c, log[0], Between(log[1..], a, c), position);
    }
  }

  /** What a poll delivers of a fetch is the log between the old and the new
      position, wherever max_poll_records cuts it. */
  lemma PrefixDelivers(log: seq<int>, low: int, high: int, taken: seq<int>, position: int)
    requires Increasing(log) && taken <= Between(log, low, high) && low <= position
    ensures var after := PositionAfter(position, taken);
            position <= after && FromPosition(taken, position) == Between(log, position, after)
  {
    var c := CutIsSlice(log, low, high, |taken|);
    assert taken == Between(log, low, c);
    FromPositionIs(log, low, c, position);
    AfterSlice(log, low, c, position);
    SamePart(log, low, c, position, PositionAfter(position, taken));
  }

  lemma AfterSlice(log: seq<int>, low: int, c: int, position: int)
    requires Increasing(log)
    ensures var r, after := Between(log, low, c), PositionAfter(position, Between(log, low, c));
            position <= after == if r != [] && r[|r| - 1] >= position then r[|r| - 1] + 1 else position
  {
    BetweenFacts(log, low, c);
    PositionIs(position, Between(log, low, c));
  }

  lemma SamePart(log: seq<int>, a: int, c: int, position: int, after: int)
    requires Increasing(log) && a <= position
    requires var r := Between(log, a, c);
             after == if r != [] && r[|r| - 1] >= position then r[|r| - 1] + 1 else position
    ensures Between(log, position, c) == Between(log, position, after)
  {
    BetweenFacts(log, position, c);
    BetweenFacts(log, position, after);
    forall x ensures x in Between(log, position, c) <==> x in Between(log, position, after) {
      InSamePart(log, a, c, position, after, x);
    }
    IncreasingUnique(Between(log, position, c), Between(log, position, after));
  }

  lemma InSamePart(log: seq<int>, a: int, c: int, position: int, after: int, x: int)
    requires Increasing(log) && a <= position
    requires var r := Between(log, a, c);
             after == if r != [] && r[|r| - 1] >= position then r[|r| - 1] + 1 else position
    ensures x in log && position <= x < c <==> x in log && position <= x < after
  {
    var r := Between(log, a, c);
    BetweenFacts(log, a, c);
    if x in log && position <= x < c {
      assert x in r;
      LastIsLargest(r, x);
    }
    if r != [] { assert r[|r| - 1] in r; }
  }

  lemma LastIsLargest(r: seq<int>, x: int)
    requires Increasing(r) && x in r
    ensures x <= r[|r| - 1]
  {
    var i :| 0 <= i < |r| && r[i] == x;
    assert i < |r| - 1 ==> r[i] < r[|r| - 1];
  }

  lemma {:induction false} IncreasingUnique(a: seq<int>, b: seq<int>)
    requires Increasing(a) && Increasing(b) && forall x :: x in a <==> x in b
    ensures a == b
    decreases |a|
  {
    assert a == [] <==> b == [] by {
      if a != [] { assert a[0] in b; }
      if b != [] { assert b[0] in a; }
    }
    if a != [] {
      var m, n := |a| - 1, |b| - 1;
      assert a[m] in b && b[n] in a;
      LastIsLargest(b, a[m]);
      LastIsLargest(a, b[n]);
      assert a == a[..m] + [a[m]] && b == b[..n] + [b[n]];
      forall x ensures x in a[..m] <==> x in b[..n] {
        FrontHas(a, x);
        FrontHas(b, x);
      }
      IncreasingUnique(a[..m], b[..n]);
    }
  }

  lemma FrontHas(a: seq<int>, x: int)
    requires Increasing(a) && a != []
    ensures x in a[..|a| - 1] <==> x in a && x != a[|a| - 1]
  {
    assert a == a[..|a| - 1] + [a[|a| - 1]];
  }

  lemma {:induction false} BetweenEmpty(log: seq<int>, a: int)
    ensures Between(log, a, a) == []
  {
    if log != [] { BetweenEmpty(log[1..], a); }
  }

  // ---------------------------------------------------------------------
  // A poll of every assigned partition
  // ---------------------------------------------------------------------

  /** A record returned to the caller. */
  datatype Rec = Rec(k: Key, offset: int)

  function Tagged(k: Key, offsets: seq<int>): (r: seq<Rec>)
    ensures |r| == |offsets| && forall i :: 0 <= i < |r| ==> r[i] == Rec(k, offsets[i])
  {
    if offsets == [] then [] else [Rec(k, offsets[0])] + Tagged(k, offsets[1..])
  }

  function AdvancedBy(o: Offsets, k: Key, offsets: seq<int>): Offsets
    decreases |offsets|
  {
    if offsets == [] then o
    else Advanced(AdvancedBy(o, k, offsets[..|offsets| - 1]), k, offsets[|offsets| - 1])
  }

  /** As many as there is room for. */
  function Cut(offsets: seq<int>, room: int): seq<int>
    requires room > 0
  {
    if room < |offsets| then offsets[..room] else offsets
  }

  /** The rest of a poll, from partition i on with `count` records so far.
      fetched[i] is what the fetch for assignment[i] gives, nothing if it fails. */
  function PollFrom(o: Offsets, assignment: seq<Key>, fetched: seq<seq<int>>, max: int, i: nat,
                    count: nat): (seq<Rec>, Offsets)
    requires i <= |assignment| == |fetched|
    decreases |assignment| - i
  {
    if i == |assignment| || count >= max then ([], o)
    else
      var k := assignment[i];
      if k !in o.positions then PollFrom(o, assignment, fetched, max, i + 1, count)
      else
        var taken := Cut(fetched[i], max - count);
        var (rest, last) := PollFrom(AdvancedBy(o, k, taken), assignment, fetched, max, i + 1, count + |taken|);
        (Tagged(k, taken) + rest, last)
  }

  /** The offsets returned for one partition. */
  function OffsetsOf(rs: seq<Rec>, k: Key): seq<int> {
    if rs == [] then []
    else (if rs[0].k == k then [rs[0].offset] else []) + OffsetsOf(rs[1..], k)
  }

  lemma {:induction false} OffsetsConcat(a: seq<Rec>, b: seq<Rec>, k: Key)
    ensures OffsetsOf(a + b, k) == OffsetsOf(a, k) + OffsetsOf(b, k)
  {
    if a == [] {
      assert a + b == b;
    } else {
      OffsetsConcat(a[1..], b, k);
      assert (a + b)[1..] == a[1..] + b;
      Regroup(if a[0].k == k then [a[0].offset] else [], OffsetsOf(a[1..], k), OffsetsOf(b, k));
    }
  }

  lemma {:induction false} OffsetsOfTagged(k: Key, offsets: seq<int>, j: Key)
    ensures OffsetsOf(Tagged(k, offsets), j) == if j == k then offsets else []
  {
    if offsets != [] { OffsetsOfTagged(k, offsets[1..], j); }
  }

  lemma {:induction false} AdvancedByIs(o: Offsets, k: Key, offsets: seq<int>)
    requires k in o.positions
    ensures AdvancedBy(o, k, offsets) ==
            Offsets(o.committed, o.positions[k := PositionAfter(o.positions[k], offsets)])
    decreases |offsets|
  {
    if offsets == [] {
      assert o.positions[k := o.positions[k]] == o.positions;
    } else {
      AdvancedByIs(o, k, offsets[..|offsets| - 1]);
    }
  }

  ghost predicate DistinctFrom(assignment: seq<Key>, i: nat) {
    forall a, b :: i <= a < b < |assignment| ==> assignment[a] != assignment[b]
  }

  /** What a poll does to one partition: a prefix of its fetch is returned and
      its position moves past that prefix; a partition not polled is untouched. */
  ghost predicate PolledWell(o: Offsets, k: Key, fetched: seq<int>, rs: seq<Rec>, last: Offsets) {
    && OffsetsOf(rs, k) <= fetched
    && (if k in o.positions
        then k in last.positions && last.positions[k] == PositionAfter(o.positions[k], OffsetsOf(rs, k))
        else k !in last.positions && OffsetsOf(rs, k) == [])
  }

  ghost predicate Untouched(o: Offsets, k: Key, rs: seq<Rec>, last: Offsets) {
    && OffsetsOf(rs, k) == [] && (k in o.positions <==> k in last.positions)
    && (k in o.positions ==> last.positions[k] == o.positions[k])
  }

  lemma {:induction false} PollUntouched(o: Offsets, assignment: seq<Key>, fetched: seq<seq<int>>, max: int, i: nat,
                                         count: nat, k: Key)
    requires i <= |assignment| == |fetched| && (forall a :: i <= a < |assignment| ==> assignment[a] != k)
    ensures var (rs, last) := PollFrom(o, assignment, fetched, max, i, count); Untouched(o, k, rs, last)
    decreases |assignment| - i
  {
    if i < |assignment| && count < max {
      var j := assignment[i];
      if j !in o.positions {
        PollUntouched(o, assignment, fetched, max, i + 1, count, k);
      } else {
        var taken := Cut(fetched[i], max - count);
        PollUntouched(AdvancedBy(o, j, taken), assignment, fetched, max, i + 1, count + |taken|, k);
        UntouchedBoth(o, j, taken, k,
                      PollFrom(AdvancedBy(o, j, taken), assignment, fetched, max, i + 1, count + |taken|));
      }
    }
  }

  lemma UntouchedBoth(o: Offsets, j: Key, taken: seq<int>, k: Key, rest: (seq<Rec>, Offsets))
    requires j != k && j in o.positions && Untouched(AdvancedBy(o, j, taken), k, rest.0, rest.1)
    ensures Untouched(o, k, Tagged(j, taken) + rest.0, rest.1)
  {
    AdvancedByIs(o, j, taken);
    OffsetsConcat(Tagged(j, taken), rest.0, k);
    OffsetsOfTagged(j, taken, k);
  }

  /** The partition polled first. */
  lemma PollNow(o: Offsets, k: Key, taken: seq<int>, rest: (seq<Rec>, Offsets), fetched: seq<int>)
    requires k in o.positions && taken <= fetched && Untouched(AdvancedBy(o, k, taken), k, rest.0, rest.1)
    ensures PolledWell(o, k, fetched, Tagged(k, taken) + rest.0, rest.1)
  {
    AdvancedByIs(o, k, taken);
    OffsetsConcat(Tagged(k, taken), rest.0, k);
    OffsetsOfTagged(k, taken, k);
    assert taken + [] == taken;
  }

  lemma PollFirst(o: Offsets, assignment: seq<Key>, fetched: seq<seq<int>>, max: int, i: nat, count: nat)
    requires i < |assignment| == |fetched| && DistinctFrom(assignment, i) && count < max && assignment[i] in o.positions
    ensures var (rs, last) := PollFrom(o, assignment, fetched, max, i, count);
            PolledWell(o, assignment[i], fetched[i], rs, last)
  {
    var k, taken := assignment[i], Cut(fetched[i], max - count);
    var o1 := AdvancedBy(o, k, taken);
    PollUntouched(o1, assignment, fetched, max, i + 1, count + |taken|, k);
    PollNow(o, k, taken, PollFrom(o1, assignment, fetched, max, i + 1, count + |taken|), fetched[i]);
  }

  /** Polling one partition does not disturb another polled later. */
  lemma PollLater(o: Offsets, k: Key, taken: seq<int>, rest: (seq<Rec>, Offsets), j: Key, fetched: seq<int>)
    requires k in o.positions && j != k && PolledWell(AdvancedBy(o, k, taken), j, fetched, rest.0, rest.1)
    ensures PolledWell(o, j, fetched, Tagged(k, taken) + rest.0, rest.1)
  {
    AdvancedByIs(o, k, taken);
    OffsetsConcat(Tagged(k, taken), rest.0, j);
    OffsetsOfTagged(k, taken, j);
    assert [] + OffsetsOf(rest.0, j) == OffsetsOf(rest.0, j);
  }

  /** Every partition of a poll, for any fetches and any max_poll_records. */
  lemma {:induction false} PollEach(o: Offsets, assignment: seq<Key>, fetched: seq<seq<int>>, max: int, i: nat,
                                    count: nat, m: nat)
    requires i <= m < |assignment| == |fetched| && DistinctFrom(assignment, i)
    ensures var (rs, last) := PollFrom(o, assignment, fetched, max, i, count);
            PolledWell(o, assignment[m], fetched[m], rs, last)
    decreases |assignment| - i
  {
    var k := assignment[i];
    if count < max {
      if k !in o.positions {
        if m > i {
          PollEach(o, assignment, fetched, max, i + 1, count, m);
        } else {
          PollUntouched(o, assignment, fetched, max, i + 1, count, k);
        }
      } else if m == i {
        PollFirst(o, assignment, fetched, max, i, count);
      } else {
        var taken := Cut(fetched[i], max - count);
        PollEach(AdvancedBy(o, k, taken), assignment, fetched, max, i + 1, count + |taken|, m);
        PollLater(o, assignment[i], taken,
                  PollFrom(AdvancedBy(o, k, taken), assignment, fetched, max, i + 1, count + |taken|),
                  assignment[m], fetched[m]);
      }
    }
  }

  /** No partition of a poll skips a record: each fetched record at or past the
      fetch position is returned, or is at or past the new position. */
  lemma PollSkipsNothing(o: Offsets, assignment: seq<Key>, fetched: seq<seq<int>>, max: int, m: nat, j: nat)
    requires m < |assignment| == |fetched| && DistinctFrom(assignment, 0)
    requires assignment[m] in o.positions && Increasing(fetched[m]) && j < |fetched[m]|
    ensures var (rs, last) := PollFrom(o, assignment, fetched, max, 0, 0);
            var k := assignment[m];
            && k in last.positions && o.positions[k] <= last.positions[k]
            && (fetched[m][j] >= o.positions[k] ==>
                  (j < |OffsetsOf(rs, k)| && OffsetsOf(rs, k)[j] == fetched[m][j])
                  || fetched[m][j] >= last.positions[k])
  {
    var (rs, last) := PollFrom(o, assignment, fetched, max, 0, 0);
    var k := assignment[m];
    PollEach(o, assignment, fetched, max, 0, 0, m);
    var n := |OffsetsOf(rs, k)|;
    assert OffsetsOf(rs, k) == fetched[m][..n];
    CutSkipsNothing(o.positions[k], fetched[m], n, j);
  }

  lemma {:induction false} PollLimit(o: Offsets, assignment: seq<Key>, fetched: seq<seq<int>>, max: int, i: nat,
                                     count: nat)
    requires i <= |assignment| == |fetched|
    ensures var (rs, _) := PollFrom(o, assignment, fetched, max, i, count);
            count + |rs| <= if count > max then count else if max < 0 then 0 else max
    decreases |assignment| - i
  {
    if i < |assignment| && count < max {
      var k := assignment[i];
      if k !in o.positions {
        PollLimit(o, assignment, fetched, max, i + 1, count);
      } else {
        var taken := Cut(fetched[i], max - count);
        PollLimit(AdvancedBy(o, k, taken), assignment, fetched, max, i + 1, count + |taken|);
      }
    }
  }

  // ---------------------------------------------------------------------
  // All that fits is returned
  // ---------------------------------------------------------------------

  /** The records fetched for the partitions from i on that have a position, in the
      order of the assignment. */
  function AllFetched(positioned: set<Key>, assignment: seq<Key>, fetched: seq<seq<int>>, i: nat): seq<Rec>
    requires i <= |assignment| == |fetched|
    decreases |assignment| - i
  {
    if i == |assignment| then []
    else
      (if assignment[i] in positioned then Tagged(assignment[i], fetched[i]) else [])
      + AllFetched(positioned, assignment, fetched, i + 1)
  }

  function FirstOf<T>(s: seq<T>, n: int): seq<T> {
    if n <= 0 then [] else if n < |s| then s[..n] else s
  }

  lemma FirstOfConcat<T>(a: seq<T>, b: seq<T>, n: int)
    requires n > 0
    ensures FirstOf(a + b, n) == FirstOf(a, n) + FirstOf(b, n - |FirstOf(a, n)|)
  {
    if n < |a| {
      assert (a + b)[..n] == a[..n];
    } else if n < |a| + |b| {
      assert (a + b)[..n] == a + b[..n - |a|];
    }
  }

  lemma TaggedCut(k: Key, offsets: seq<int>, room: int)
    requires room > 0
    ensures Tagged(k, Cut(offsets, room)) == FirstOf(Tagged(k, offsets), room)
  {
  }

  lemma {:induction false} PollFromIs(o: Offsets, assignment: seq<Key>, fetched: seq<seq<int>>, max: int, i: nat,
                                      count: nat)
    requires i <= |assignment| == |fetched|
    ensures PollFrom(o, assignment, fetched, max, i, count).0 ==
            FirstOf(AllFetched(o.positions.Keys, assignment, fetched, i), max - count)
    decreases |assignment| - i
  {
    if i < |assignment| && count < max {
      var k, room, keys := assignment[i], max - count, o.positions.Keys;
      var rest := AllFetched(keys, assignment, fetched, i + 1);
      if k !in keys {
        PollFromIs(o, assignment, fetched, max, i + 1, count);
        NothingThen([], rest);
      } else {
        var taken := Cut(fetched[i], room);
        AdvancedByIs(o, k, taken);
        assert AdvancedBy(o, k, taken).positions.Keys == keys;
        PollFromIs(AdvancedBy(o, k, taken), assignment, fetched, max, i + 1, count + |taken|);
        TaggedCut(k, fetched[i], room);
        FirstOfConcat(Tagged(k, fetched[i]), rest, room);
      }
    }
  }

  /** A poll returns the first max_poll_records of all that the fetches give for the
      partitions with a position, repeated ones too. */
  lemma PollIsFirst(o: Offsets, assignment: seq<Key>, fetched: seq<seq<int>>, max: int)
    requires |assignment| == |fetched|
    ensures PollFrom(o, assignment, fetched, max, 0, 0).0 ==
            FirstOf(AllFetched(o.positions.Keys, assignment, fetched, 0), max)
  {
    PollFromIs(o, assignment, fetched, max, 0, 0);
  }

  /** How many records the fetches from i on give for partitions with a position. */
  function FetchedCount(o: Offsets, assignment: seq<Key>, fetched: seq<seq<int>>, i: nat): nat
    requires i <= |assignment| == |fetched|
    decreases |assignment| - i
  {
    if i == |assignment| then 0
    else (if assignment[i] in o.positions then |fetched[i]| else 0) + FetchedCount(o, assignment, fetched, i + 1)
  }

  lemma {:induction false} AllFetchedSize(o: Offsets, assignment: seq<Key>, fetched: seq<seq<int>>, i: nat)
    requires i <= |assignment| == |fetched|
    ensures |AllFetched(o.positions.Keys, assignment, fetched, i)| == FetchedCount(o, assignment, fetched, i)
    decreases |assignment| - i
  {
    if i < |assignment| { AllFetchedSize(o, assignment, fetched, i + 1); }
  }

  lemma {:induction false} AllFetchedNone(keys: set<Key>, assignment: seq<Key>, fetched: seq<seq<int>>, i: nat, k: Key)
    requires i <= |assignment| == |fetched| && forall a :: i <= a < |assignment| ==> assignment[a] != k
    ensures OffsetsOf(AllFetched(keys, assignment, fetched, i), k) == []
    decreases |assignment| - i
  {
    if i < |assignment| {
      var first := if assignment[i] in keys then Tagged(assignment[i], fetched[i]) else [];
      AllFetchedNone(keys, assignment, fetched, i + 1, k);
      OffsetsConcat(first, AllFetched(keys, assignment, fetched, i + 1), k);
      OffsetsOfTagged(assignment[i], fetched[i], k);
    }
  }

  lemma {:induction false} AllFetchedOf(keys: set<Key>, assignment: seq<Key>, fetched: seq<seq<int>>, i: nat, m: nat)
    requires i <= m < |assignment| == |fetched| && DistinctFrom(assignment, i) && assignment[m] in keys
    ensures OffsetsOf(AllFetched(keys, assignment, fetched, i), assignment[m]) == fetched[m]
    decreases |assignment| - i
  {
    var k, rest := assignment[m], AllFetched(keys, assignment, fetched, i + 1);
    var first := if assignment[i] in keys then Tagged(assignment[i], fetched[i]) else [];
    OffsetsConcat(first, rest, k);
    OffsetsOfTagged(assignment[i], fetched[i], k);
    if i == m {
      AllFetchedNone(keys, assignment, fetched, i + 1, k);
      ThenNothing(fetched[m]);
    } else {
      AllFetchedOf(keys, assignment, fetched, i + 1, m);
      NothingThen(OffsetsOf(first, k), OffsetsOf(rest, k));
    }
  }

  /** No partition starves: a poll returns max_poll_records, or all that the fetches
      give; and when it returns fewer, then of every assigned partition with a
      position the whole fetch. */
  lemma PollReturnsAllThatFits(o: Offsets, assignment: seq<Key>, fetched: seq<seq<int>>, max: nat)
    requires |assignment| == |fetched|
    ensures var rs := PollFrom(o, assignment, fetched, max, 0, 0).0;
            && |rs| == (if FetchedCount(o, assignment, fetched, 0) < max then FetchedCount(o, assignment, fetched, 0)
                        else max)
            && (|rs| < max && DistinctFrom(assignment, 0) ==>
                  forall m :: 0 <= m < |assignment| && assignment[m] in o.positions ==>
                    OffsetsOf(rs, assignment[m]) == fetched[m])
  {
    var rs := PollFrom(o, assignment, fetched, max, 0, 0).0;
    PollIsFirst(o, assignment, fetched, max);
    AllFetchedSize(o, assignment, fetched, 0);
    if |rs| < max && DistinctFrom(assignment, 0) {
      forall m | 0 <= m < |assignment| && assignment[m] in o.positions
        ensures OffsetsOf(rs, assignment[m]) == fetched[m]
      {
        AllFetchedOf(o.positions.Keys, assignment, fetched, 0, m);
      }
    }
  }

  // ---------------------------------------------------------------------
  // A series of polls
  // ---------------------------------------------------------------------

  /** One poll: the broker answers the fetch for partition m with the records of
      that partition's log from offset lows[m] up to highs[m]. */
  datatype Round = Round(lows: seq<int>, highs: seq<int>, max: int)

  ghost predicate Fits(assignment: seq<Key>, logs: seq<seq<int>>, r: Round) {
    |logs| == |assignment| == |r.lows| == |r.highs|
  }

  function Fetched(logs: seq<seq<int>>, r: Round): (f: seq<seq<int>>)
    requires |logs| == |r.lows| == |r.highs|
    ensures |f| == |logs|
  {
    seq(|logs|, m requires 0 <= m < |logs| => Between(logs[m], r.lows[m], r.highs[m]))
  }

  function Polled(o: Offsets, assignment: seq<Key>, logs: seq<seq<int>>, rounds: seq<Round>): Offsets
    requires forall i :: 0 <= i < |rounds| ==> Fits(assignment, logs, rounds[i])
    decreases |rounds|
  {
    if rounds == [] then o
    else
      var n := |rounds| - 1;
      assert Fits(assignment, logs, rounds[n]);
      PollFrom(Polled(o, assignment, logs, rounds[..n]), assignment, Fetched(logs, rounds[n]), rounds[n].max, 0, 0).1
  }

  /** The records of partition m that the polls return at or past the position
      their fetch was made for. */
  function Delivered(o: Offsets, assignment: seq<Key>, logs: seq<seq<int>>, rounds: seq<Round>, m: nat): seq<int>
    requires (forall i :: 0 <= i < |rounds| ==> Fits(assignment, logs, rounds[i])) && m < |assignment|
    decreases |rounds|
  {
    if rounds == [] then []
    else
      var n, k := |rounds| - 1, assignment[m];
      assert Fits(assignment, logs, rounds[n]);
      var before := Polled(o, assignment, logs, rounds[..n]);
      var (rs, _) := PollFrom(before, assignment, Fetched(logs, rounds[n]), rounds[n].max, 0, 0);
      Delivered(o, assignment, logs, rounds[..n], m) + FromPosition(OffsetsOf(rs, k), PositionOr(before, k, 0))
  }

  /** Each fetch of partition m starts at or before the position it was made for. */
  ghost predicate Honest(o: Offsets, assignment: seq<Key>, logs: seq<seq<int>>, rounds: seq<Round>, m: nat)
    requires (forall i :: 0 <= i < |rounds| ==> Fits(assignment, logs, rounds[i])) && m < |assignment|
    decreases |rounds|
  {
    rounds == [] ||
    (var n := |rounds| - 1;
     assert Fits(assignment, logs, rounds[n]);
     && rounds[n].lows[m] <= PositionOr(Polled(o, assignment, logs, rounds[..n]), assignment[m], 0)
     && Honest(o, assignment, logs, rounds[..n], m))
  }

  /** Lossless polling: over any series of polls of an assignment that no seek or
      rebalance interrupts, with any cuts by max_poll_records, the records of each
      partition delivered at or past the fetch positions are exactly its log
      between its first and its last position, each once and in order. */
  lemma {:induction false} LosslessPolling(o: Offsets, assignment: seq<Key>, logs: seq<seq<int>>, rounds: seq<Round>,
                                           m: nat)
    requires DistinctFrom(assignment, 0) && m < |assignment| == |logs|
    requires forall i :: 0 <= i < |rounds| ==> Fits(assignment, logs, rounds[i])
    requires Increasing(logs[m]) && assignment[m] in o.positions && Honest(o, assignment, logs, rounds, m)
    ensures var k, last := assignment[m], Polled(o, assignment, logs, rounds);
            && k in last.positions && o.positions[k] <= last.positions[k]
            && Delivered(o, assignment, logs, rounds, m) == Between(logs[m], o.positions[k], last.positions[k])
    decreases |rounds|
  {
    var k := assignment[m];
    if rounds == [] {
      BetweenEmpty(logs[m], o.positions[k]);
    } else {
      var n := |rounds| - 1;
      LosslessPolling(o, assignment, logs, rounds[..n], m);
      RoundDelivers(Polled(o, assignment, logs, rounds[..n]), assignment, logs, rounds[n], m);
      BetweenJoin(logs[m], o.positions[k], Polled(o, assignment, logs, rounds[..n]).positions[k],
                  Polled(o, assignment, logs, rounds).positions[k]);
    }
  }

  lemma RoundDelivers(o: Offsets, assignment: seq<Key>, logs: seq<seq<int>>, r: Round, m: nat)
    requires DistinctFrom(assignment, 0) && m < |assignment| && Fits(assignment, logs, r)
    requires Increasing(logs[m]) && assignment[m] in o.positions && r.lows[m] <= o.positions[assignment[m]]
    ensures var k, (rs, last) := assignment[m], PollFrom(o, assignment, Fetched(logs, r), r.max, 0, 0);
            && k in last.positions && o.positions[k] <= last.positions[k]
            && FromPosition(OffsetsOf(rs, k), o.positions[k]) == Between(logs[m], o.positions[k], last.positions[k])
  {
    var k := assignment[m];
    var (rs, last) := PollFrom(o, assignment, Fetched(logs, r), r.max, 0, 0);
    PollEach(o, assignment, Fetched(logs, r), r.max, 0, 0, m);
    PrefixDelivers(logs[m], r.lows[m], r.highs[m], OffsetsOf(rs, k), o.positions[k]);
  }

  // ---------------------------------------------------------------------
  // The end of a commit
  // ---------------------------------------------------------------------

  /** The marks that a response stands for. */
  function MarksOf(answers: seq<(Key, int)>): seq<Commits.Event> {
    if answers == [] then []
    else
      var (k, errorCode) := answers[|answers| - 1];
      MarksOf(answers[..|answers| - 1]) + if errorCode == 0 then [Commits.Mark(0, k)] else []
  }

  /** A commit just begun, alone. */
  function Fresh(o: Offsets, asked: map<Key, int>): Commits.State {
    Commits.State(o, [Commits.Commit(asked, {}, true)], [])
  }

  /** After the marks of some answers the commit is as it should be. */
  ghost predicate MarkedBy(o: Offsets, asked: map<Key, int>, answers: seq<(Key, int)>, o': Offsets) {
    && Commits.Legal(Fresh(o, asked), MarksOf(answers))
    && var s := Commits.RunFrom(Fresh(o, asked), MarksOf(answers));
       && s.o == o' && |s.commits| == 1 && s.commits[0].open && s.commits[0].asked == asked
       && forall k :: k in s.commits[0].marked ==> exists i :: 0 <= i < |answers| && answers[i].0 == k
  }

  lemma NextMark(o: Offsets, asked: map<Key, int>, answers: seq<(Key, int)>, n: nat, o': Offsets)
    requires n < |answers| && MarkedBy(o, asked, answers[..n], o')
    requires forall i :: 0 <= i < n ==> answers[i].0 != answers[n].0
    ensures var (k, errorCode) := answers[n];
            MarkedBy(o, asked, answers[..n + 1],
                     if errorCode == 0 then o'.(committed := o'.committed[k := if k in asked then asked[k] else 0])
                     else o')
  {
    var before, after := answers[..n], answers[..n + 1];
    assert after[..n] == before;
    var s := Commits.RunFrom(Fresh(o, asked), MarksOf(before));
    var (k, errorCode) := answers[n];
    if errorCode == 0 {
      assert k !in s.commits[0].marked;
      Commits.OneMoreStep(Fresh(o, asked), MarksOf(before), Commits.Mark(0, k));
    } else {
      assert MarksOf(before) + [] == MarksOf(before);
    }
    var t := Commits.RunFrom(Fresh(o, asked), MarksOf(after));
    forall j | j in t.commits[0].marked ensures exists i :: 0 <= i < |after| && after[i].0 == j {
      if j != k {
        var i :| 0 <= i < |before| && before[i].0 == j;
        assert after[i].0 == j;
      } else {
        assert after[n].0 == k;
      }
    }
  }

  /** After the first n answers: each partition answered with 0 is committed up to what
      was asked for it, or at 0 if nothing was; every other keeps its committed
      offset, and no position moves. */
  ghost predicate Settled(o: Offsets, asked: map<Key, int>, answers: seq<(Key, int)>, n: nat, o': Offsets)
    requires n <= |answers|
  {
    && o'.positions == o.positions
    && (forall i :: 0 <= i < n && answers[i].1 == 0 ==> CommittedAt(o', answers[i].0, asked))
    && (forall k {:trigger SameCommitted(o, o', k)} :: (k, 0) !in answers[..n] ==> SameCommitted(o, o', k))
  }

  ghost predicate CommittedAt(o: Offsets, k: Key, asked: map<Key, int>) {
    k in o.committed && (k in asked ==> o.committed[k] == asked[k]) && (k !in asked ==> o.committed[k] == 0)
  }

  ghost predicate SameCommitted(o: Offsets, o': Offsets, k: Key) {
    (k in o.committed <==> k in o'.committed) && (k in o.committed ==> o'.committed[k] == o.committed[k])
  }

  lemma NextSettled(o: Offsets, asked: map<Key, int>, answers: seq<(Key, int)>, n: nat, o': Offsets)
    requires n < |answers| && Settled(o, asked, answers, n, o')
    ensures var (k, errorCode) := answers[n];
            Settled(o, asked, answers, n + 1,
                    if errorCode == 0 then o'.(committed := o'.committed[k := if k in asked then asked[k] else 0])
                    else o')
  {
    var (k, errorCode) := answers[n];
    var o1 := if errorCode == 0 then o'.(committed := o'.committed[k := if k in asked then asked[k] else 0]) else o';
    assert answers[..n + 1] == answers[..n] + [answers[n]];
    forall i | 0 <= i < n + 1 && answers[i].1 == 0 ensures CommittedAt(o1, answers[i].0, asked) {
      if i < n { assert CommittedAt(o', answers[i].0, asked); }
    }
    forall j | (j, 0) !in answers[..n + 1] ensures SameCommitted(o, o1, j) {
      assert (j, 0) !in answers[..n] && SameCommitted(o, o', j);
    }
  }

  // ---------------------------------------------------------------------
  // Joining a group
  // ---------------------------------------------------------------------

  /** What installing the offsets of the first n partitions amounts to: a fetched
      offset is restored in two sections, position first; without one the position
      moves to where the reset policy says. */
  function InitEvents(assignment: seq<Key>, fetched: map<Key, int>, starts: seq<int>, n: nat): seq<Commits.Event>
    requires n <= |assignment| == |starts|
  {
    if n == 0 then []
    else
      var k := assignment[n - 1];
      InitEvents(assignment, fetched, starts, n - 1)
      + if k in fetched then
          [Commits.BeginRestore(k, fetched[k]), Commits.EndRestore(Restores(assignment, fetched, n - 1))]
        else [Commits.Move(k, starts[n - 1])]
  }

  /** How many of the first n partitions have a fetched offset. */
  function Restores(assignment: seq<Key>, fetched: map<Key, int>, n: nat): nat
    requires n <= |assignment|
  {
    if n == 0 then 0 else Restores(assignment, fetched, n - 1) + if assignment[n - 1] in fetched then 1 else 0
  }

  /** What is left in the end, partition by partition: one with a fetched offset has
      it both as committed offset and as position; another has its start as
      position, the last one given, and keeps its committed offset; the rest keep
      both. */
  ghost predicate Installed(o: Offsets, assignment: seq<Key>, fetched: map<Key, int>, starts: seq<int>, n: nat,
                            o': Offsets)
    requires n <= |assignment| == |starts|
  {
    && (forall i :: 0 <= i < n && assignment[i] in fetched ==> Restored(o', assignment[i], fetched[assignment[i]]))
    && (forall i :: 0 <= i < n && assignment[i] !in fetched && IsLast(assignment, i, n) ==>
          StartsAt(o', assignment[i], starts[i]))
    && (forall k {:trigger SameCommitted(o, o', k)} ::
          k !in assignment[..n] || k !in fetched ==> SameCommitted(o, o', k))
    && (forall k {:trigger SamePosition(o, o', k)} :: k !in assignment[..n] ==> SamePosition(o, o', k))
  }

  ghost predicate IsLast(assignment: seq<Key>, i: nat, n: nat)
    requires i < n <= |assignment|
  {
    forall l :: i < l < n ==> assignment[l] != assignment[i]
  }

  ghost predicate Restored(o: Offsets, k: Key, offset: int) {
    k in o.committed && o.committed[k] == offset && StartsAt(o, k, offset)
  }

  ghost predicate StartsAt(o: Offsets, k: Key, offset: int) {
    k in o.positions && o.positions[k] == offset
  }

  ghost predicate SamePosition(o: Offsets, o': Offsets, k: Key) {
    (k in o.positions <==> k in o'.positions) && (k in o.positions ==> o'.positions[k] == o.positions[k])
  }

  lemma RestoredNext(o: Offsets, assignment: seq<Key>, fetched: map<Key, int>, starts: seq<int>, n: nat, o': Offsets)
    requires n < |assignment| == |starts| && Installed(o, assignment, fetched, starts, n, o')
    requires assignment[n] in fetched
    ensures var k := assignment[n];
            Installed(o, assignment, fetched, starts, n + 1,
                      Offsets(o'.committed[k := fetched[k]], o'.positions[k := fetched[k]]))
  {
    var k := assignment[n];
    var o1 := Offsets(o'.committed[k := fetched[k]], o'.positions[k := fetched[k]]);
    InFront(assignment, n);
    forall i | 0 <= i < n + 1 && assignment[i] in fetched ensures Restored(o1, assignment[i], fetched[assignment[i]]) {
      if i < n { assert Restored(o', assignment[i], fetched[assignment[i]]); }
    }
    forall i | 0 <= i < n + 1 && assignment[i] !in fetched && IsLast(assignment, i, n + 1)
      ensures StartsAt(o1, assignment[i], starts[i])
    {
      assert IsLast(assignment, i, n) && StartsAt(o', assignment[i], starts[i]);
    }
    forall j ensures j !in assignment[..n + 1] || j !in fetched ==> SameCommitted(o, o1, j)
             ensures j !in assignment[..n + 1] ==> SamePosition(o, o1, j) {
      if j != k {
        assert j !in assignment[..n] || j !in fetched ==> SameCommitted(o, o', j);
        assert j !in assignment[..n] ==> SamePosition(o, o', j);
      }
    }
  }

  lemma InFront(assignment: seq<Key>, n: nat)
    requires n < |assignment|
    ensures forall k :: k in assignment[..n + 1] <==> k in assignment[..n] || k == assignment[n]
  {
    assert assignment[..n + 1] == assignment[..n] + [assignment[n]];
  }

  lemma MovedNext(o: Offsets, assignment: seq<Key>, fetched: map<Key, int>, starts: seq<int>, n: nat, o': Offsets)
    requires n < |assignment| == |starts| && Installed(o, assignment, fetched, starts, n, o')
    requires assignment[n] !in fetched
    ensures Installed(o, assignment, fetched, starts, n + 1, o'.(positions := o'.positions[assignment[n] := starts[n]]))
  {
    var k := assignment[n];
    var o1 := o'.(positions := o'.positions[k := starts[n]]);
    InFront(assignment, n);
    forall i | 0 <= i < n + 1 && assignment[i] in fetched ensures Restored(o1, assignment[i], fetched[assignment[i]]) {
      assert Restored(o', assignment[i], fetched[assignment[i]]);
    }
    forall i | 0 <= i < n + 1 && assignment[i] !in fetched && IsLast(assignment, i, n + 1)
      ensures StartsAt(o1, assignment[i], starts[i])
    {
      if i < n { assert IsLast(assignment, i, n) && StartsAt(o', assignment[i], starts[i]); }
    }
    forall j ensures j !in assignment[..n + 1] || j !in fetched ==> SameCommitted(o, o1, j)
             ensures j !in assignment[..n + 1] ==> SamePosition(o, o1, j) {
      assert j !in assignment[..n] || j !in fetched ==> SameCommitted(o, o', j);
      assert j !in assignment[..n] ==> SamePosition(o, o', j);
    }
  }

  /** No commit or restore under way. */
  function Idle(o: Offsets): Commits.State { Commits.State(o, [], []) }

  /** The offsets o' after the events, with every restore ended. */
  ghost predicate InitBy(o: Offsets, events: seq<Commits.Event>, restores: nat, o': Offsets) {
    && Commits.Legal(Idle(o), events)
    && var s := Commits.RunFrom(Idle(o), events);
       && s.o == o' && s.commits == [] && |s.restores| == restores
       && forall i :: 0 <= i < restores ==> !s.restores[i].pending
  }

  lemma NextMove(o: Offsets, events: seq<Commits.Event>, restores: nat, o': Offsets, k: Key, offset: int)
    requires InitBy(o, events, restores, o')
    ensures InitBy(o, events + [Commits.Move(k, offset)], restores, o'.(positions := o'.positions[k := offset]))
  {
    Commits.OneMoreStep(Idle(o), events, Commits.Move(k, offset));
  }

  lemma NextRestore(o: Offsets, events: seq<Commits.Event>, restores: nat, o': Offsets, k: Key, offset: int)
    requires InitBy(o, events, restores, o')
    ensures InitBy(o, events + [Commits.BeginRestore(k, offset), Commits.EndRestore(restores)], restores + 1,
                   Offsets(o'.committed[k := offset], o'.positions[k := offset]))
  {
    var begin, end := Commits.BeginRestore(k, offset), Commits.EndRestore(restores);
    Commits.OneMoreStep(Idle(o), events, begin);
    Commits.OneMoreStep(Idle(o), events + [begin], end);
    assert events + [begin] + [end] == events + [begin, end];
  }

  /** After the first n partitions: by the moves and restores of the commit model, and
      what is left. */
  ghost predicate JoinedBy(o: Offsets, assignment: seq<Key>, fetched: map<Key, int>, starts: seq<int>, n: nat,
                           o': Offsets)
    requires n <= |assignment| == |starts|
  {
    && InitBy(o, InitEvents(assignment, fetched, starts, n), Restores(assignment, fetched, n), o')
    && Installed(o, assignment, fetched, starts, n, o')
  }

  lemma JoinedNext(o: Offsets, assignment: seq<Key>, fetched: map<Key, int>, starts: seq<int>, n: nat, o': Offsets)
    requires n < |assignment| == |starts| && JoinedBy(o, assignment, fetched, starts, n, o')
    ensures var k := assignment[n];
            JoinedBy(o, assignment, fetched, starts, n + 1,
                     if k in fetched then Offsets(o'.committed[k := fetched[k]], o'.positions[k := fetched[k]])
                     else Offsets(o'.committed, o'.positions[k := starts[n]]))
  {
    var k := assignment[n];
    var events, restores := InitEvents(assignment, fetched, starts, n), Restores(assignment, fetched, n);
    if k in fetched {
      NextRestore(o, events, restores, o', k, fetched[k]);
      RestoredNext(o, assignment, fetched, starts, n, o');
    } else {
      NextMove(o, events, restores, o', k, starts[n]);
      MovedNext(o, assignment, fetched, starts, n, o');
    }
  }

  // ---------------------------------------------------------------------
  // The offset manager
  // ---------------------------------------------------------------------

  class OffsetManager {
    var committed: map<Key, int>
    var positions: map<Key, int>

    ghost function Value(): Offsets
      reads this
    {
      Offsets(committed, positions)
    }

    constructor ()
      ensures Value() == Offsets(map[], map[])
    {
      committed, positions := map[], map[];
    }

    method SetCommitted(k: Key, offset: int)
      modifies `committed
      ensures committed == old(committed)[k := offset]
    {
      committed := committed[k := offset];
    }

    method SetPosition(k: Key, offset: int)
      modifies `positions
      ensures positions == old(positions)[k := offset]
    {
      positions := positions[k := offset];
    }

    /** _init_offsets, with the offsets fetched and the starts that the reset policy
        gives; under the policy `none` it raises at the first partition without a
        fetched offset, after the partitions before it. */
    method InitOffsets(assignment: seq<Key>, fetched: map<Key, int>, none: bool, starts: seq<int>)
      returns (ok: bool, ghost n: nat)
      requires |starts| == |assignment|
      modifies `positions, `committed
      ensures n <= |assignment| && (ok <==> n == |assignment|)
      ensures none ==> forall i :: 0 <= i < n ==> assignment[i] in fetched
      ensures !ok ==> none && assignment[n] !in fetched
      ensures InitBy(old(Value()), InitEvents(assignment, fetched, starts, n), Restores(assignment, fetched, n),
                     Value())
      ensures Installed(old(Value()), assignment, fetched, starts, n, Value())
    {
      n := 0;
      for i := 0 to |assignment|
        invariant n == i && (none ==> forall j :: 0 <= j < i ==> assignment[j] in fetched)
        invariant JoinedBy(old(Value()), assignment, fetched, starts, i, Value())
      {
        JoinedNext(old(Value()), assignment, fetched, starts, i, Value());
        var k := assignment[i];
        if k in fetched {
          SetPosition(k, fetched[k]);
          SetCommitted(k, fetched[k]);
        } else if none {
          return false, n;
        } else {
          SetPosition(k, starts[i]);
        }
        n := n + 1;
      }
      ok := true;
    }

    method AdvancePosition(k: Key, offset: int)
      modifies `positions
      ensures Value() == Advanced(old(Value()), k, offset)
    {
      var current := if k in positions then positions[k] else 0;
      if offset >= current { positions := positions[k := offset + 1]; }
    }

    /** uncommitted_offsets, visiting the positions in any order. */
    method UncommittedOffsets() returns (result: map<Key, int>)
      ensures result == Uncommitted(Value())
      ensures forall k :: k in result <==>
                k in positions && (if k in committed then committed[k] else -1) < positions[k]
      ensures forall k :: k in result ==> result[k] == positions[k]
    {
      result := map[];
      var keys := positions.Keys;
      ghost var all := Uncommitted(Value());
      while keys != {}
        invariant keys <= positions.Keys
        invariant result == all - keys
        decreases |keys|
      {
        var k :| k in keys;
        var mark := if k in committed then committed[k] else -1;
        if positions[k] > mark {
          result := result[k := positions[k]];
        }
        keys := keys - {k};
      }
    }

    /** The end of commit: the partitions answered with error code 0 are marked
        with what was asked for them, or 0 if nothing was.  A response is a
        dictionary, so it answers a partition once. */
    method MarkCommitted(asked: map<Key, int>, answers: seq<(Key, int)>)
      requires forall i, j :: 0 <= i < j < |answers| ==> answers[i].0 != answers[j].0
      modifies `committed
      ensures MarkedBy(old(Value()), asked, answers, Value())
      ensures Settled(old(Value()), asked, answers, |answers|, Value())
    {
      ghost var o := Value();
      for i := 0 to |answers|
        invariant MarkedBy(o, asked, answers[..i], Value())
        invariant Settled(o, asked, answers, i, Value())
      {
        var (k, errorCode) := answers[i];
        NextMark(o, asked, answers, i, Value());
        NextSettled(o, asked, answers, i, Value());
        if errorCode == 0 {
          SetCommitted(k, if k in asked then asked[k] else 0);
        }
      }
      assert answers[..|answers|] == answers;
    }

    /** The inner loop of poll: append, advance, stop when full. */
    method Consume(k: Key, fetched: seq<int>, records0: seq<Rec>, max: int) returns (records: seq<Rec>)
      requires |records0| < max
      modifies `positions
      ensures var taken := Cut(fetched, max - |records0|);
              records == records0 + Tagged(k, taken) && Value() == AdvancedBy(old(Value()), k, taken)
    {
      records := records0;
      assert records == records0 + Tagged(k, fetched[..0]);
      ghost var o := Value();
      var j := 0;
      while j < |fetched|
        invariant j <= |fetched| && |records| == |records0| + j < max
        invariant Consumed(o, k, fetched[..j], records0, Value(), records)
      {
        ConsumedNext(o, k, fetched, j, records0, Value(), records);
        var rec := Rec(k, fetched[j]);
        records := records + [rec];
        AdvancePosition(k, rec.offset);
        j := j + 1;
        if |records| >= max { break; }
      }
      CutIs(fetched, max - |records0|, j);
    }

    /** poll, with the results of the fetches given. */
    method Poll(assignment: seq<Key>, fetched: seq<seq<int>>, max: int) returns (records: seq<Rec>)
      requires |fetched| == |assignment|
      modifies `positions
      ensures (records, Value()) == PollFrom(old(Value()), assignment, fetched, max, 0, 0)
    {
      records := [];
      var i := 0;
      JoinedEnds([], Value(), PollFrom(Value(), assignment, fetched, max, 0, 0));
      while i < |assignment|
        invariant i <= |assignment|
        invariant Joined(records, PollFrom(Value(), assignment, fetched, max, i, |records|))
                  == PollFrom(old(Value()), assignment, fetched, max, 0, 0)
      {
        if |records| >= max { break; }
        var k := assignment[i];
        if k in positions {
          ghost var taken := Cut(fetched[i], max - |records|);
          JoinedStep(records, Tagged(k, taken),
                     PollFrom(AdvancedBy(Value(), k, taken), assignment, fetched, max, i + 1, |records| + |taken|));
          records := Consume(k, fetched[i], records, max);
        }
        i := i + 1;
      }
      JoinedEnds(records, Value(), ([], Value()));
    }
  }

  lemma CutIs(offsets: seq<int>, room: int, j: nat)
    requires 0 < room && j <= |offsets| && (j == room || (j == |offsets| && j < room))
    ensures Cut(offsets, room) == offsets[..j]
  {
    assert offsets[..|offsets|] == offsets;
  }

  ghost predicate Consumed(o: Offsets, k: Key, offsets: seq<int>, before: seq<Rec>, o': Offsets, after: seq<Rec>) {
    after == before + Tagged(k, offsets) && o' == AdvancedBy(o, k, offsets)
  }

  lemma ConsumedNext(o: Offsets, k: Key, offsets: seq<int>, j: nat, before: seq<Rec>, o': Offsets, after: seq<Rec>)
    requires j < |offsets| && Consumed(o, k, offsets[..j], before, o', after)
    ensures Consumed(o, k, offsets[..j + 1], before, Advanced(o', k, offsets[j]), after + [Rec(k, offsets[j])])
  {
    var done, x := offsets[..j], offsets[j];
    assert offsets[..j + 1] == done + [x];
    TaggedNext(k, done, x);
    AdvancedNext(o, k, done, x);
    Regroup(before, Tagged(k, done), [Rec(k, x)]);
  }

  lemma TaggedNext(k: Key, offsets: seq<int>, x: int)
    ensures Tagged(k, offsets + [x]) == Tagged(k, offsets) + [Rec(k, x)]
  {
  }

  lemma AdvancedNext(o: Offsets, k: Key, offsets: seq<int>, x: int)
    ensures AdvancedBy(o, k, offsets + [x]) == Advanced(AdvancedBy(o, k, offsets), k, x)
  {
    assert (offsets + [x])[..|offsets|] == offsets;
  }

  ghost function Joined(records: seq<Rec>, rest: (seq<Rec>, Offsets)): (seq<Rec>, Offsets) {
    (records + rest.0, rest.1)
  }

  lemma JoinedStep(records: seq<Rec>, more: seq<Rec>, rest: (seq<Rec>, Offsets))
    ensures Joined(records + more, rest) == Joined(records, (more + rest.0, rest.1))
  {
    assert records + more + rest.0 == records + (more + rest.0);
  }

  lemma JoinedEnds(records: seq<Rec>, o: Offsets, rest: (seq<Rec>, Offsets))
    ensures Joined(records, ([], o)) == (records, o)
    ensures Joined([], rest) == rest
  {
    assert records + [] == records && [] + rest.0 == rest.0;
  }
}
