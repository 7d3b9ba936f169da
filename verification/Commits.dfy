/** Commits, rebalances and seeks of the Python consumer, overlapping with each
    other and with polls (clients/python/torrent_mq/consumer.py). */
module Commits {
  import opened Positions

  /** A commit: what it asked for, which partitions it has marked, and whether it
      is still at work. */
  datatype Commit = Commit(asked: map<Key, int>, marked: set<Key>, open: bool)

  /** A fetched offset installed as position and not yet as committed offset. */
  datatype Restore = Restore(k: Key, offset: int, pending: bool)

  datatype State = State(o: Offsets, commits: seq<Commit>, restores: seq<Restore>)

  const INITIAL := State(Offsets(map[], map[]), [], [])

  /** One critical section of some thread, or the end of a commit.  A commit takes
      a snapshot and then marks the partitions answered with error code 0, each at
      most once, also those it did not ask for.  Joining a group restores a fetched
      offset in two sections, position first; without one it moves the position
      alone, as a seek does. */
  datatype Event =
    | Advance(k: Key, offset: int)
    | BeginCommit
    | Mark(commit: nat, k: Key)
    | EndCommit(commit: nat)
    | Move(k: Key, offset: int)
    | BeginRestore(k: Key, offset: int)
    | EndRestore(restore: nat)

  predicate Enabled(s: State, e: Event) {
    match e
    case Advance(_, _) => true
    case BeginCommit => Uncommitted(s.o) != map[]
    case Mark(c, k) => c < |s.commits| && s.commits[c].open && k !in s.commits[c].marked
    case EndCommit(c) => c < |s.commits| && s.commits[c].open
    case Move(_, _) => true
    case BeginRestore(_, _) => true
    case EndRestore(r) => r < |s.restores| && s.restores[r].pending
  }

  /** What a commit marks a partition with. */
  function AskedOr0(c: Commit, k: Key): int {
    if k in c.asked then c.asked[k] else 0
  }

  function Marked(s: State, c: nat, k: Key): State
    requires c < |s.commits|
  {
    var commit := s.commits[c];
    State(s.o.(committed := s.o.committed[k := AskedOr0(commit, k)]),
          s.commits[c := commit.(marked := commit.marked + {k})], s.restores)
  }

  function Step(s: State, e: Event): State
    requires Enabled(s, e)
  {
    match e
    case Advance(k, offset) => s.(o := Advanced(s.o, k, offset))
    case BeginCommit => s.(commits := s.commits + [Commit(Uncommitted(s.o), {}, true)])
    case Mark(c, k) => Marked(s, c, k)
    case EndCommit(c) => s.(commits := s.commits[c := s.commits[c].(open := false)])
    case Move(k, offset) => s.(o := s.o.(positions := s.o.positions[k := offset]))
    case BeginRestore(k, offset) =>
      State(s.o.(positions := s.o.positions[k := offset]), s.commits, s.restores + [Restore(k, offset, true)])
    case EndRestore(r) =>
      var restore := s.restores[r];
      State(s.o.(committed := s.o.committed[restore.k := restore.offset]), s.commits,
            s.restores[r := restore.(pending := false)])
  }

  /** The events can happen one after another. */
  predicate Legal(s: State, events: seq<Event>)
    decreases |events|
  {
    events == [] || (Enabled(s, events[0]) && Legal(Step(s, events[0]), events[1..]))
  }

  function RunFrom(s: State, events: seq<Event>): State
    requires Legal(s, events)
    decreases |events|
  {
    if events == [] then s else RunFrom(Step(s, events[0]), events[1..])
  }

  lemma {:induction false} OneMoreStep(s: State, events: seq<Event>, e: Event)
    requires Legal(s, events) && Enabled(RunFrom(s, events), e)
    ensures Legal(s, events + [e]) && RunFrom(s, events + [e]) == Step(RunFrom(s, events), e)
    decreases |events|
  {
    if events == [] {
      assert [] + [e] == [e] && [e][1..] == [];
    } else {
      OneMoreStep(Step(s, events[0]), events[1..], e);
      assert (events + [e])[1..] == events[1..] + [e];
    }
  }

  // ---------------------------------------------------------------------
  // The guard
  // ---------------------------------------------------------------------

  /** No committed offset is past the current position. */
  ghost predicate Bounded(o: Offsets) {
    forall k :: k in o.positions && k in o.committed ==> o.committed[k] <= o.positions[k]
  }

  /** The committed offset of k may yet become v: a commit at work has not marked
      k, or a restore is half done. */
  predicate OwedBy(c: Commit, k: Key, v: int) {
    c.open && k !in c.marked && v == AskedOr0(c, k)
  }

  predicate OwedToo(r: Restore, k: Key, v: int) {
    r.pending && r.k == k && r.offset == v
  }

  ghost predicate Owed(s: State, k: Key, v: int) {
    || (exists c :: 0 <= c < |s.commits| && OwedBy(s.commits[c], k, v))
    || (exists r :: 0 <= r < |s.restores| && OwedToo(s.restores[r], k, v))
  }

  /** A position may go to `offset` only if that is not negative, not behind the
      committed offset, not behind what a commit at work asked for, and not behind
      another restore half done. */
  ghost predicate Guard(s: State, k: Key, offset: int) {
    && 0 <= offset
    && CommittedOr(s.o, k, offset) <= offset
    && (forall v :: Owed(s, k, v) ==> v <= offset)
  }

  predicate Moves(e: Event) { e.Move? || e.BeginRestore? }

  ghost predicate Guarded(s: State, e: Event) {
    Moves(e) ==> Guard(s, e.k, e.offset)
  }

  /** Every move of a run passes the guard where it happens. */
  ghost predicate AllGuarded(s: State, events: seq<Event>)
    requires Legal(s, events)
    decreases |events|
  {
    events == [] || (Guarded(s, events[0]) && AllGuarded(Step(s, events[0]), events[1..]))
  }

  // ---------------------------------------------------------------------
  // Guarded runs are bounded
  // ---------------------------------------------------------------------

  /** No offset that is or may yet be committed for k is negative or past its
      position, or past 0 where there is none. */
  ghost predicate KeyInv(s: State, k: Key) {
    && PositionOr(s.o, k, 0) >= 0
    && 0 <= CommittedOr(s.o, k, 0) <= PositionOr(s.o, k, 0)
    && (forall v :: Owed(s, k, v) ==> 0 <= v <= PositionOr(s.o, k, 0))
  }

  ghost predicate Inv(s: State) {
    forall k :: KeyInv(s, k)
  }

  /** What a step adds to what is owed. */
  ghost predicate NewlyOwed(s: State, e: Event, k: Key, v: int) {
    match e
    case BeginCommit => v == if k in Uncommitted(s.o) then Uncommitted(s.o)[k] else 0
    case BeginRestore(j, offset) => j == k && v == offset
    case _ => false
  }

  lemma OwedAfter(s: State, e: Event, k: Key, v: int)
    requires Enabled(s, e) && Owed(Step(s, e), k, v)
    ensures Owed(s, k, v) || NewlyOwed(s, e, k, v)
  {
    var s' := Step(s, e);
    if c :| 0 <= c < |s'.commits| && OwedBy(s'.commits[c], k, v) {
      if c < |s.commits| { assert OwedBy(s.commits[c], k, v); }
    } else {
      var r :| 0 <= r < |s'.restores| && OwedToo(s'.restores[r], k, v);
      if r < |s.restores| { assert OwedToo(s.restores[r], k, v); }
    }
  }

  lemma MarkIsOwed(s: State, c: nat, k: Key)
    requires Enabled(s, Mark(c, k))
    ensures Owed(s, k, AskedOr0(s.commits[c], k))
  {
    assert OwedBy(s.commits[c], k, AskedOr0(s.commits[c], k));
  }

  lemma RestoreIsOwed(s: State, r: nat)
    requires Enabled(s, EndRestore(r))
    ensures Owed(s, s.restores[r].k, s.restores[r].offset)
  {
    assert OwedToo(s.restores[r], s.restores[r].k, s.restores[r].offset);
  }

  lemma StepKeepsKey(s: State, e: Event, k: Key)
    requires KeyInv(s, k) && Enabled(s, e) && Guarded(s, e)
    ensures KeyInv(Step(s, e), k)
  {
    var s' := Step(s, e);
    if e.Mark? { MarkIsOwed(s, e.commit, e.k); }
    if e.EndRestore? { RestoreIsOwed(s, e.restore); }
    forall v | Owed(s', k, v) ensures 0 <= v <= PositionOr(s'.o, k, 0) {
      OwedAfter(s, e, k, v);
    }
  }

  lemma InvIsBounded(s: State)
    requires Inv(s)
    ensures Bounded(s.o)
  {
    forall k | k in s.o.positions && k in s.o.committed ensures s.o.committed[k] <= s.o.positions[k] {
      assert KeyInv(s, k);
    }
  }

  lemma StepKeeps(s: State, e: Event)
    requires Inv(s) && Enabled(s, e) && Guarded(s, e)
    ensures Inv(Step(s, e))
  {
    forall k ensures KeyInv(Step(s, e), k) {
      StepKeepsKey(s, e, k);
    }
  }

  lemma {:induction false} GuardedRunKeeps(s: State, events: seq<Event>)
    requires Inv(s) && Legal(s, events) && AllGuarded(s, events)
    ensures Inv(RunFrom(s, events)) && Bounded(RunFrom(s, events).o)
    decreases |events|
  {
    if events == [] {
      InvIsBounded(s);
    } else {
      StepKeeps(s, events[0]);
      GuardedRunKeeps(Step(s, events[0]), events[1..]);
    }
  }

  lemma InitialInv()
    ensures Inv(INITIAL)
  {
  }

  // ---------------------------------------------------------------------
  // Unguarded moves break the bound
  // ---------------------------------------------------------------------

  ghost predicate NoMoves(events: seq<Event>) {
    forall i :: 0 <= i < |events| ==> !Moves(events[i])
  }

  /** However the threads go on, as long as no position is moved, the bound holds. */
  ghost predicate BoundedOnwards(s: State) {
    forall events :: NoMoves(events) && Legal(s, events) ==> Bounded(RunFrom(s, events).o)
  }

  lemma {:induction false} NoMovesGuarded(s: State, events: seq<Event>)
    requires NoMoves(events) && Legal(s, events)
    ensures AllGuarded(s, events)
    decreases |events|
  {
    if events != [] {
      assert NoMoves(events[1..]);
      NoMovesGuarded(Step(s, events[0]), events[1..]);
    }
  }

  lemma InvIsBoundedOnwards(s: State)
    requires Inv(s)
    ensures BoundedOnwards(s)
  {
    forall events | NoMoves(events) && Legal(s, events) ensures Bounded(RunFrom(s, events).o) {
      NoMovesGuarded(s, events);
      GuardedRunKeeps(s, events);
    }
  }

  lemma OneMore(s: State, e: Event)
    requires Enabled(s, e) && !Moves(e)
    ensures NoMoves([e]) && Legal(s, [e]) && RunFrom(s, [e]) == Step(s, e)
  {
    assert [e][1..] == [];
  }

  /** What is owed and past the position will break the bound. */
  lemma OwedBreaks(s: State, k: Key, v: int)
    requires Owed(s, k, v) && k in s.o.positions && v > s.o.positions[k]
    ensures !BoundedOnwards(s)
  {
    if c :| 0 <= c < |s.commits| && OwedBy(s.commits[c], k, v) {
      OneMore(s, Mark(c, k));
      assert Step(s, Mark(c, k)).o.committed[k] == v;
    } else {
      var r :| 0 <= r < |s.restores| && OwedToo(s.restores[r], k, v);
      OneMore(s, EndRestore(r));
      assert Step(s, EndRestore(r)).o.committed[k] == v;
    }
  }

  lemma BreaksLater(s: State, e: Event)
    requires Enabled(s, e) && !Moves(e) && !BoundedOnwards(Step(s, e))
    ensures !BoundedOnwards(s)
  {
    var events :| NoMoves(events) && Legal(Step(s, e), events) && !Bounded(RunFrom(Step(s, e), events).o);
    var all := [e] + events;
    assert all[1..] == events;
    assert NoMoves(all) && Legal(s, all) && RunFrom(s, all) == RunFrom(Step(s, e), events);
  }

  /** A negative position is behind the 0 that a commit marks a partition with
      that it did not ask for. */
  lemma NegativeBreaks(s: State, k: Key)
    requires k in s.o.positions && s.o.positions[k] < 0 <= CommittedOr(s.o, k, 0)
    ensures !BoundedOnwards(s)
  {
    var j: Key := if k == ("", 0) then ("", 1) else ("", 0);
    var high := Highest(PositionOr(s.o, j, 0), CommittedOr(s.o, j, 0));
    var s1 := Step(s, Advance(j, high));
    assert j in Uncommitted(s1.o);
    var s2 := Step(s1, BeginCommit);
    assert k !in Uncommitted(s1.o);
    assert OwedBy(s2.commits[|s1.commits|], k, 0);
    OwedBreaks(s2, k, 0);
    BreaksLater(s1, BeginCommit);
    BreaksLater(s, Advance(j, high));
  }

  function Highest(a: int, b: int): int { if a < b then b else a }

  lemma UnguardedBreaks(s: State, e: Event)
    requires Inv(s) && Moves(e) && !Guard(s, e.k, e.offset)
    ensures !BoundedOnwards(Step(s, e))
  {
    var s' := Step(s, e);
    assert KeyInv(s, e.k);
    if e.offset < 0 {
      NegativeBreaks(s', e.k);
    } else if CommittedOr(s.o, e.k, e.offset) > e.offset {
      assert Legal(s', []) && NoMoves([]) && RunFrom(s', []) == s';
      assert s'.o.committed[e.k] > s'.o.positions[e.k];
    } else {
      var v :| Owed(s, e.k, v) && v > e.offset;
      StillOwed(s, e, e.k, v);
      OwedBreaks(s', e.k, v);
    }
  }

  lemma StillOwed(s: State, e: Event, k: Key, v: int)
    requires Moves(e) && Owed(s, k, v)
    ensures Owed(Step(s, e), k, v)
  {
    var s' := Step(s, e);
    if c :| 0 <= c < |s.commits| && OwedBy(s.commits[c], k, v) {
      assert OwedBy(s'.commits[c], k, v);
    } else {
      var r :| 0 <= r < |s.restores| && OwedToo(s.restores[r], k, v);
      assert OwedToo(s'.restores[r], k, v);
    }
  }

  // ---------------------------------------------------------------------
  // The exact condition
  // ---------------------------------------------------------------------

  /** One move: it keeps the bound, at once and however the threads go on, if and
      only if it passes the guard. */
  lemma MoveIff(s: State, e: Event)
    requires Inv(s) && Moves(e)
    ensures Guard(s, e.k, e.offset) <==> BoundedOnwards(Step(s, e))
  {
    if Guard(s, e.k, e.offset) {
      StepKeeps(s, e);
      InvIsBoundedOnwards(Step(s, e));
    } else {
      UnguardedBreaks(s, e);
    }
  }

  /** At each state of a run the bound holds however the threads go on from it. */
  ghost predicate BoundedThroughout(s: State, events: seq<Event>)
    requires Legal(s, events)
    decreases |events|
  {
    BoundedOnwards(s) && (events == [] || BoundedThroughout(Step(s, events[0]), events[1..]))
  }

  lemma {:induction false} GuardedIffBounded(s: State, events: seq<Event>)
    requires Inv(s) && Legal(s, events)
    ensures AllGuarded(s, events) <==> BoundedThroughout(s, events)
    decreases |events|
  {
    InvIsBoundedOnwards(s);
    if events != [] {
      var e := events[0];
      if Guarded(s, e) {
        StepKeeps(s, e);
        GuardedIffBounded(Step(s, e), events[1..]);
      } else {
        UnguardedBreaks(s, e);
      }
    }
  }

  /** Over every run with any number of overlapping commits, rebalances and seeks:
      no committed offset exceeds its position, at any time and in any
      continuation, if and only if every move of a position passes the guard. */
  lemma CommittedNeverAheadIff(events: seq<Event>)
    requires Legal(INITIAL, events)
    ensures AllGuarded(INITIAL, events) <==> BoundedThroughout(INITIAL, events)
  {
    InitialInv();
    GuardedIffBounded(INITIAL, events);
  }

  /** In particular the run itself is bounded at its end. */
  lemma CommittedNeverAhead(events: seq<Event>)
    requires Legal(INITIAL, events) && AllGuarded(INITIAL, events)
    ensures Bounded(RunFrom(INITIAL, events).o)
  {
    InitialInv();
    GuardedRunKeeps(INITIAL, events);
  }

  /** A rebalance between a commit and its answer can leave the committed offset
      ahead of the position: the restore goes behind what the commit asked for. */
  lemma RebalanceDuringCommit(s: State, k: Key, offset: int)
    requires Inv(s) && k in Uncommitted(s.o) && 0 <= offset < s.o.positions[k]
    ensures !BoundedOnwards(Step(Step(s, BeginCommit), BeginRestore(k, offset)))
  {
    var committing := Step(s, BeginCommit);
    StepKeeps(s, BeginCommit);
    assert OwedBy(committing.commits[|s.commits|], k, s.o.positions[k]);
    assert Owed(committing, k, s.o.positions[k]);
    MoveIff(committing, BeginRestore(k, offset));
  }

  /** The shortest such run: offset 0 restored, records up to offset 9 consumed, a
      commit begun, offset 0 restored again, and the commit answered. */
  lemma RebalanceDuringCommitExample(k: Key)
    ensures var consumed := Step(Step(Step(INITIAL, BeginRestore(k, 0)), EndRestore(0)), Advance(k, 9));
            && Enabled(consumed, BeginCommit)
            && var rebalanced := Step(Step(consumed, BeginCommit), BeginRestore(k, 0));
               Enabled(rebalanced, Mark(0, k)) && !Bounded(Step(rebalanced, Mark(0, k)).o)
  {
    var consumed := Step(Step(Step(INITIAL, BeginRestore(k, 0)), EndRestore(0)), Advance(k, 9));
    assert k in Uncommitted(consumed.o);
    var last := Step(Step(Step(consumed, BeginCommit), BeginRestore(k, 0)), Mark(0, k));
    assert last.o.committed[k] == 10 && last.o.positions[k] == 0;
  }

  /** Once a commit has ended or marked a partition, it no longer stands in the
      way of a restore of it. */
  lemma AnsweredCommitsDoNotCount(s: State, k: Key, offset: int)
    requires Inv(s) && 0 <= offset && CommittedOr(s.o, k, offset) <= offset
    requires forall c :: 0 <= c < |s.commits| ==> !s.commits[c].open || k in s.commits[c].marked
    requires forall r :: 0 <= r < |s.restores| && s.restores[r].k == k ==> !s.restores[r].pending
    ensures BoundedOnwards(Step(s, BeginRestore(k, offset)))
  {
    forall v ensures !Owed(s, k, v) {
      NothingOwed(s, k, v);
    }
    MoveIff(s, BeginRestore(k, offset));
  }

  lemma NothingOwed(s: State, k: Key, v: int)
    requires forall c :: 0 <= c < |s.commits| ==> !s.commits[c].open || k in s.commits[c].marked
    requires forall r :: 0 <= r < |s.restores| && s.restores[r].k == k ==> !s.restores[r].pending
    ensures !Owed(s, k, v)
  {
  }

  // ---------------------------------------------------------------------
  // Positions
  // ---------------------------------------------------------------------

  /** Positions only grow, except where a move sets them. */
  lemma PositionsGrow(s: State, e: Event, k: Key)
    requires Enabled(s, e) && k in s.o.positions && !(Moves(e) && e.k == k)
    ensures k in Step(s, e).o.positions && s.o.positions[k] <= Step(s, e).o.positions[k]
  {
  }

  /** Over every run in which k is not moved, its position never decreases. */
  lemma {:induction false} PositionsNeverDecrease(s: State, events: seq<Event>, k: Key)
    requires Legal(s, events) && k in s.o.positions
    requires forall i :: 0 <= i < |events| ==> !(Moves(events[i]) && events[i].k == k)
    ensures k in RunFrom(s, events).o.positions && s.o.positions[k] <= RunFrom(s, events).o.positions[k]
    decreases |events|
  {
    if events != [] {
      PositionsGrow(s, events[0], k);
      PositionsNeverDecrease(Step(s, events[0]), events[1..], k);
    }
  }
}
