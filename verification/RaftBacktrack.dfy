/** How a leader finds the point up to which a follower agrees with it
    (include/torrent/consensus/raft.h): probe at next_index, and after a failure
    go back to the follower's hint. */
module RaftBacktrack {
  import opened RaftQuorum
  import opened RaftNode
  import opened RaftCluster
  import opened RaftInvariant
  import opened RaftReplication
  import opened RaftSafety

  /** The hint is the start of the run of the conflicting term: all of it has that
      term, and the entry before does not. */
  lemma {:induction false} FirstOfTermIs(log: Log, index: nat)
    requires 0 < index <= |log|
    ensures var c := FirstOfTerm(log, index);
            && 0 < c <= index
            && (forall i :: c <= i <= index ==> TermAt(log, i) == TermAt(log, index))
            && (c > 1 ==> TermAt(log, c - 1) != TermAt(log, index))
  {
    if index > 1 && TermAt(log, index - 1) == TermAt(log, index) { FirstOfTermIs(log, index - 1); }
  }

  lemma BackOffIsBack(next: nat, conflict: nat)
    requires next > 1
    ensures 0 < BackOff(next, conflict) < next
  {
  }

  /** Where probing from next_index ends, for a follower log f and a leader log l
      that stay as they are. */
  function Backtrack(f: Log, l: Log, next: nat): (p: nat)
    requires 0 < next <= |l| + 1
    ensures p < next
    decreases next
  {
    var prev := next - 1;
    if Matches(f, prev, TermAt(l, prev)) then prev
    else
      BackOffIsBack(next, ConflictIndex(f, prev));
      Backtrack(f, l, BackOff(next, ConflictIndex(f, prev)))
  }

  /** What a leader sends to a peer from next_index on: up to `limit` entries. */
  function ProbeRequest(leader: Node, self: NodeId, from: NodeId, limit: nat): AppendRequest
    requires from in leader.nextIndex && 0 < leader.nextIndex[from] <= |leader.log| + 1
  {
    var prev := leader.nextIndex[from] - 1;
    AppendRequest(leader.term, self, prev, TermAt(leader.log, prev),
                  leader.log[prev..Min(prev + limit, |leader.log|)], leader.commitIndex)
  }

  /** A leader that can probe this follower. */
  predicate CanProbe(leader: Node, follower: Node, from: NodeId) {
    && leader.role == Leader && leader.term >= follower.term
    && from in leader.nextIndex && 0 < leader.nextIndex[from] <= |leader.log| + 1
  }

  /** One exchange: the request, its handling, and the handling of the reply. */
  function Exchange(leader: Node, follower: Node, self: NodeId, from: NodeId, limit: nat,
                    concede: bool): (Node, Node, bool)
    requires CanProbe(leader, follower, from)
  {
    var (f, reply) := HandleAppendRequest(follower, ProbeRequest(leader, self, from, limit), concede);
    (HandleAppendReply(leader, from, reply), f, reply.success)
  }

  /** A probe is accepted exactly at a match; otherwise next_index goes to the next
      point that Backtrack tries. */
  lemma ExchangeIs(leader: Node, follower: Node, self: NodeId, from: NodeId, limit: nat, concede: bool)
    requires CanProbe(leader, follower, from)
    ensures var (l, f, ok) := Exchange(leader, follower, self, from, limit, concede);
            var next := leader.nextIndex[from];
            && (ok <==> Matches(follower.log, next - 1, TermAt(leader.log, next - 1)))
            && (!ok ==>
                  && f.log == follower.log && f.term <= leader.term && next > 1
                  && l == leader.(nextIndex := leader.nextIndex[from :=
                          BackOff(next, ConflictIndex(follower.log, next - 1))]))
  {
  }

  /** After a probe that fails at an entry the follower has, the leader goes back to
      just where that entry's term begins in the follower's log, and after any other
      by one. */
  lemma FailedProbe(leader: Node, follower: Node, self: NodeId, from: NodeId, limit: nat, concede: bool)
    requires CanProbe(leader, follower, from) && !Exchange(leader, follower, self, from, limit, concede).2
    ensures var (l, _, _) := Exchange(leader, follower, self, from, limit, concede);
            var prev, log := leader.nextIndex[from] - 1, follower.log;
            && prev > 0 && from in l.nextIndex
            && (prev > |log| ==> l.nextIndex[from] == prev)
            && (prev <= |log| ==>
                  var c := l.nextIndex[from];
                  && 0 < c <= prev
                  && (forall i :: c <= i <= prev ==> TermAt(log, i) == TermAt(log, prev))
                  && (c > 1 ==> TermAt(log, c - 1) != TermAt(log, prev)))
  {
    var prev := leader.nextIndex[from] - 1;
    ExchangeIs(leader, follower, self, from, limit, concede);
    if 0 < prev <= |follower.log| { FirstOfTermIs(follower.log, prev); }
  }

  /** Exchanges until one succeeds. */
  function Probe(leader: Node, follower: Node, self: NodeId, from: NodeId, limit: nat, concede: bool): (Node, Node)
    requires CanProbe(leader, follower, from)
    decreases leader.nextIndex[from]
  {
    var (l, f, ok) := Exchange(leader, follower, self, from, limit, concede);
    ExchangeIs(leader, follower, self, from, limit, concede);
    if ok then (l, f)
    else
      BackOffIsBack(leader.nextIndex[from], ConflictIndex(follower.log, leader.nextIndex[from] - 1));
      Probe(l, f, self, from, limit, concede)
  }

  /** The exchange that ends the probing at p: the entries from there on are merged
      into the follower's log, and match_index and next_index are just past them. */
  ghost predicate EndsAt(leader: Node, log: Log, from: NodeId, limit: nat, p: nat, l: Node, f: Node) {
    var end := Min(p + limit, |leader.log|);
    && p <= end && p <= |log|
    && f.log == MergeLog(log, p, leader.log[p..end])
    && l == leader.(matchIndex := leader.matchIndex[from := end], nextIndex := leader.nextIndex[from := end + 1])
  }

  /** Repeated exchanges through the handlers end at Backtrack. */
  lemma {:induction false} ProbeEnds(leader: Node, follower: Node, self: NodeId, from: NodeId, limit: nat,
                                     concede: bool)
    requires CanProbe(leader, follower, from)
    ensures var (l, f) := Probe(leader, follower, self, from, limit, concede);
            EndsAt(leader, follower.log, from, limit, Backtrack(follower.log, leader.log, leader.nextIndex[from]), l, f)
    decreases leader.nextIndex[from]
  {
    var next := leader.nextIndex[from];
    var (l, f, ok) := Exchange(leader, follower, self, from, limit, concede);
    ExchangeIs(leader, follower, self, from, limit, concede);
    if ok {
      AcceptedExchange(leader, follower, self, from, limit, concede);
    } else {
      var back := BackOff(next, ConflictIndex(follower.log, next - 1));
      BackOffIsBack(next, ConflictIndex(follower.log, next - 1));
      ProbeEnds(l, f, self, from, limit, concede);
      var (l', f') := Probe(l, f, self, from, limit, concede);
      EndsAtEarlier(leader, follower.log, from, limit, back, Backtrack(follower.log, leader.log, back), l, l', f');
    }
  }

  /** The next_index that probing started from does not matter to its end. */
  lemma EndsAtEarlier(leader: Node, log: Log, from: NodeId, limit: nat, next: nat, p: nat, l: Node, l': Node, f: Node)
    requires l == leader.(nextIndex := leader.nextIndex[from := next]) && EndsAt(l, log, from, limit, p, l', f)
    ensures EndsAt(leader, log, from, limit, p, l', f)
  {
    var end := Min(p + limit, |leader.log|);
    assert leader.nextIndex[from := next][from := end + 1] == leader.nextIndex[from := end + 1];
  }

  lemma AcceptedExchange(leader: Node, follower: Node, self: NodeId, from: NodeId, limit: nat, concede: bool)
    requires CanProbe(leader, follower, from) && Exchange(leader, follower, self, from, limit, concede).2
    ensures var (l, f, _) := Exchange(leader, follower, self, from, limit, concede);
            EndsAt(leader, follower.log, from, limit, leader.nextIndex[from] - 1, l, f)
  {
    var r := ProbeRequest(leader, self, from, limit);
    ProbeSends(leader, self, from, limit);
    SuccessIs(follower, r, concede);
    SuccessCounts(leader, from, HandleAppendRequest(follower, r, concede).1);
  }

  lemma ProbeSends(leader: Node, self: NodeId, from: NodeId, limit: nat)
    requires from in leader.nextIndex && 0 < leader.nextIndex[from] <= |leader.log| + 1
    ensures var r, end := ProbeRequest(leader, self, from, limit),
                              Min(leader.nextIndex[from] - 1 + limit, |leader.log|);
            && r.prevLogIndex == leader.nextIndex[from] - 1 <= end && r.prevLogIndex + |r.entries| == end
            && r.entries == leader.log[r.prevLogIndex..end] && r.term == leader.term
  {
  }

  lemma SuccessCounts(leader: Node, from: NodeId, r: AppendReply)
    requires leader.role == Leader && r.term == leader.term && r.success
    ensures HandleAppendReply(leader, from, r) ==
            leader.(matchIndex := leader.matchIndex[from := r.matched],
                    nextIndex := leader.nextIndex[from := r.matched + 1])
  {
  }

  /** f and l agree up to i. */
  ghost predicate Shares(f: Log, l: Log, i: nat) {
    i <= |f| && i <= |l| && f[..i] == l[..i]
  }

  /** Backtracking ends where the logs agree, and what they share beyond that, up
      to where it began, is the work of a single term. */
  lemma {:induction false} BacktrackFinds(h: History, f: Log, l: Log, next: nat, i: nat, j: nat)
    requires LogOk(h, f) && LogOk(h, l) && 0 < next <= |l| + 1
    ensures var p := Backtrack(f, l, next);
            && Shares(f, l, p)
            && (p < i < next && p < j < next && Shares(f, l, i) && Shares(f, l, j) ==> TermAt(f, i) == TermAt(f, j))
    decreases next
  {
    var prev := next - 1;
    if Matches(f, prev, TermAt(l, prev)) {
      CheckIsPrefix(h, f, l, prev);
    } else {
      BackOffIsBack(next, ConflictIndex(f, prev));
      BacktrackFinds(h, f, l, BackOff(next, ConflictIndex(f, prev)), i, j);
      if prev <= |f| {
        FirstOfTermIs(f, prev);
        StopsBelow(f, l, FirstOfTerm(f, prev), i);
        StopsBelow(f, l, FirstOfTerm(f, prev), j);
      }
    }
  }

  /** If the logs share an entry at or past c, probing at c ends at c - 1. */
  lemma StopsBelow(f: Log, l: Log, c: nat, i: nat)
    requires 0 < c <= |l| + 1
    ensures c <= i && Shares(f, l, i) ==> Backtrack(f, l, c) == c - 1
  {
    if c <= i && Shares(f, l, i) && c > 1 {
      assert f[c - 2] == f[..i][c - 2] == l[..i][c - 2] == l[c - 2];
    }
  }

  /** In every state of every run, for every leader and follower: probing ends
      where the logs agree, stepping over shared entries of one term at most. */
  lemma BacktrackInRuns(m: Membership, run: seq<Cluster>, steps: seq<Step>, n: nat, a: NodeId, b: NodeId, next: nat,
                        i: nat, j: nat)
    requires IsRun(m, run, steps) && n < |run| && a in run[n].nodes && b in run[n].nodes
    requires 0 < next <= |run[n].nodes[a].log| + 1
    ensures var l, f := run[n].nodes[a].log, run[n].nodes[b].log;
            var p := Backtrack(f, l, next);
            && Shares(f, l, p)
            && (p < i < next && p < j < next && Shares(f, l, i) && Shares(f, l, j) ==> TermAt(f, i) == TermAt(f, j))
  {
    RunLogs(m, run, steps, n, a);
    RunLogs(m, run, steps, n, b);
    BacktrackFinds(run[n].hist, run[n].nodes[b].log, run[n].nodes[a].log, next, i, j);
  }

  lemma EndMatches(leader: Node, log: Log, from: NodeId, limit: nat, p: nat, l: Node, f: Node)
    requires EndsAt(leader, log, from, limit, p, l, f)
    ensures var end := Min(p + limit, |leader.log|);
            && l.log == leader.log && from in l.matchIndex && l.matchIndex[from] == end
            && f.log == MergeLog(log, p, leader.log[p..end])
  {
  }

  lemma ProbeShares(h: History, leader: Node, follower: Node, self: NodeId, from: NodeId, limit: nat, concede: bool)
    requires LogOk(h, leader.log) && LogOk(h, follower.log) && CanProbe(leader, follower, from)
    ensures var (l, f) := Probe(leader, follower, self, from, limit, concede);
            from in l.matchIndex && Shares(f.log, l.log, l.matchIndex[from])
  {
    var p := Backtrack(follower.log, leader.log, leader.nextIndex[from]);
    ProbeEnds(leader, follower, self, from, limit, concede);
    BacktrackFinds(h, follower.log, leader.log, leader.nextIndex[from], 0, 0);
    MergeShares(h, follower.log, leader.log, p, Min(p + limit, |leader.log|));
    var (l, f) := Probe(leader, follower, self, from, limit, concede);
    EndMatches(leader, follower.log, from, limit, p, l, f);
  }

  lemma MergeShares(h: History, f: Log, l: Log, p: nat, end: nat)
    requires LogOk(h, f) && LogOk(h, l) && Shares(f, l, p) && p <= end <= |l|
    ensures Shares(MergeLog(f, p, l[p..end]), l, end)
  {
    MergeIsPrefix(h, f, l, p, l[p..end]);
  }

  /** And what the leader sends from there on ends up in the follower's log: it
      then holds the leader's log up to the new match_index. */
  lemma ProbeInRuns(m: Membership, run: seq<Cluster>, steps: seq<Step>, n: nat, a: NodeId, b: NodeId, limit: nat,
                    concede: bool)
    requires IsRun(m, run, steps) && n < |run| && a in run[n].nodes && b in run[n].nodes
    requires CanProbe(run[n].nodes[a], run[n].nodes[b], b)
    ensures var (l, f) := Probe(run[n].nodes[a], run[n].nodes[b], a, b, limit, concede);
            b in l.matchIndex && Shares(f.log, l.log, l.matchIndex[b])
  {
    RunLogs(m, run, steps, n, a);
    RunLogs(m, run, steps, n, b);
    ProbeShares(run[n].hist, run[n].nodes[a], run[n].nodes[b], a, b, limit, concede);
  }
}
