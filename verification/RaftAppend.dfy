/** A follower's handling of AppendEntries, and the invariant over all steps. */
module RaftAppend {
  import opened Wrappers
  import opened RaftQuorum
  import opened RaftNode
  import opened RaftCluster
  import opened RaftInvariant
  import opened RaftProof
  import opened RaftSteps
  import opened RaftReplication

  // ---------------------------------------------------------------------
  // Committed entries are in every later leader's log
  // ---------------------------------------------------------------------

  /** A committed index can no longer be blocked: the two quorums share a node. */
  lemma CommittedNotBlocked(m: Membership, s: Cluster, t: nat, k: nat)
    requires Committed(m, s.hist, t, k)
    ensures !IsQuorum(m, Blockers(s, t, k))
  {
    if IsQuorum(m, Blockers(s, t, k)) {
      var x := QuorumsMeet(m, Blockers(s, t, k), Holders(m, s.hist, t, k));
      assert false;
    }
  }

  lemma CommittedInTermLog(m: Membership, s: Cluster, hi: nat, p: Log, u: nat)
    requires SafeInv(m, s) && CommittedPrefix(m, s.hist, hi, p) && hi <= u && u in s.hist.termLog
    ensures p <= s.hist.termLog[u]
  {
    if p != [] {
      var t: nat, k: nat :| t <= hi && CommittedVia(m, s.hist, p, t, k);
      CommittedNotBlocked(m, s, t, k);
      if t < u { assert Safe(m, s, u, t, k); }
      PrefixThrough(p, s.hist.termLog[t], k, s.hist.termLog[u]);
    }
  }

  lemma PrefixThrough(p: Log, a: Log, k: nat, b: Log)
    requires k <= |a| && p <= a[..k] && (a[..k] <= b || a == b)
    ensures p <= b
  {
  }

  lemma ShorterIsCommitted(m: Membership, h: History, hi: nat, p: Log, q: Log)
    requires CommittedPrefix(m, h, hi, p) && q <= p
    ensures CommittedPrefix(m, h, hi, q)
  {
    if q != [] {
      var t: nat, k: nat :| t <= hi && CommittedVia(m, h, p, t, k);
      assert CommittedVia(m, h, q, t, k);
    }
  }

  // ---------------------------------------------------------------------
  // AppendEntries
  // ---------------------------------------------------------------------

  lemma PrefixLogOk(h: History, log: Log, k: nat, t: nat)
    requires LogOk(h, log) && TermsUpTo(log, t) && k <= |log|
    ensures LogOk(h, log[..k]) && TermsUpTo(log[..k], t)
  {
    forall i: nat | i < k ensures EntryOk(h, log[..k], i) {
      assert EntryOk(h, log, i);
      assert log[..k][..i + 1] == log[..i + 1];
    }
  }

  /** The node after a successful AppendEntries, apart from its commit index. */
  ghost predicate Accepts(m: Membership, s: Cluster, s': Cluster, id: NodeId, r: AppendRequest) {
    && id in s.nodes && id in s'.nodes && s'.nodes == s.nodes[id := s'.nodes[id]] && s'.applied == s.applied
    && MsgOk(m, s, Append(r)) && r.leader != id
    && var last := r.prevLogIndex + |r.entries|;
       var n, n' := s.nodes[id], s'.nodes[id];
       && s'.hist == RecordAck(s.hist, id, r.term, last)
       && Merged(n, n', r.term, s.hist.termLog[r.term][..last])
       && n'.commitIndex == Max(n.commitIndex, Min(r.leaderCommit, last))
       && n'.lastApplied == n.lastApplied
       && (n'.role == Follower || (n'.role == n.role && n.term == r.term))
       && n'.votes == n.votes
       && n'.votedFor == (if n.term == r.term then n.votedFor else None)
  }

  lemma AcceptAcks(m: Membership, s: Cluster, s': Cluster, id: NodeId, r: AppendRequest)
    requires Accepts(m, s, s', id, r)
    ensures forall v: NodeId, t: nat :: v != id || t != r.term ==> AckLen(s'.hist, v, t) == AckLen(s.hist, v, t)
    ensures AckLen(s'.hist, id, r.term) == Max(AckLen(s.hist, id, r.term), r.prevLogIndex + |r.entries|)
    ensures Extends(s.hist, s'.hist)
  {
    RecordAckExtends(s.hist, id, r.term, r.prevLogIndex + |r.entries|);
  }

  lemma AcceptNodeEvolves(m: Membership, s: Cluster, s': Cluster, id: NodeId, r: AppendRequest)
    requires Accepts(m, s, s', id, r)
    ensures NodeEvolves(s'.hist, s.nodes[id], s'.nodes[id]) && s'.nodes[id].term == r.term
  {
  }

  lemma AcceptEvolves(m: Membership, s: Cluster, s': Cluster, id: NodeId, r: AppendRequest)
    requires Accepts(m, s, s', id, r)
    ensures Evolves(s, s', id)
  {
    AcceptAcks(m, s, s', id, r);
    AcceptNodeEvolves(m, s, s', id, r);
  }

  /** A leader receives no entries of its own term from another. */
  lemma AcceptorIsNotLeader(m: Membership, s: Cluster, s': Cluster, id: NodeId, r: AppendRequest)
    requires Accepts(m, s, s', id, r) && NodeInv(m, s, id)
    ensures s'.nodes[id].role != Leader
  {
  }

  lemma AcceptCommit(m: Membership, s: Cluster, s': Cluster, id: NodeId, r: AppendRequest)
    requires Accepts(m, s, s', id, r) && NodeInv(m, s, id) && SafeInv(m, s)
    ensures s'.nodes[id].commitIndex <= |s'.nodes[id].log|
    ensures CommittedPrefix(m, s.hist, r.term, s'.nodes[id].log[..s'.nodes[id].commitIndex])
  {
    if s'.nodes[id].commitIndex == s.nodes[id].commitIndex {
      OldCommitKept(m, s, s', id, r);
    } else {
      LeaderCommitTaken(m, s, s', id, r);
    }
  }

  /** A merge never cuts into what the node has committed. */
  lemma OldCommitKept(m: Membership, s: Cluster, s': Cluster, id: NodeId, r: AppendRequest)
    requires Accepts(m, s, s', id, r) && NodeInv(m, s, id) && SafeInv(m, s)
    ensures var i := s.nodes[id].commitIndex;
            && i <= |s'.nodes[id].log| && s'.nodes[id].log[..i] == s.nodes[id].log[..i]
            && CommittedPrefix(m, s.hist, r.term, s'.nodes[id].log[..i])
  {
    var last := r.prevLogIndex + |r.entries|;
    CommitSurvives(m, s, s.nodes[id], s'.nodes[id], r.term, last);
  }

  lemma CommitSurvives(m: Membership, s: Cluster, n: Node, n': Node, t: nat, last: nat)
    requires SafeInv(m, s) && t in s.hist.termLog && last <= |s.hist.termLog[t]|
    requires Merged(n, n', t, s.hist.termLog[t][..last])
    requires n.commitIndex <= |n.log| && CommittedPrefix(m, s.hist, n.term, n.log[..n.commitIndex])
    ensures n.commitIndex <= |n'.log| && n'.log[..n.commitIndex] == n.log[..n.commitIndex]
    ensures CommittedPrefix(m, s.hist, t, n'.log[..n.commitIndex])
  {
    var c := n.log[..n.commitIndex];
    CommittedPrefixLater(m, s.hist, n.term, t, c);
    CommittedInTermLog(m, s, t, c, t);
    MergeKeeps(n, n', t, s.hist.termLog[t], last, c);
  }

  lemma MergedHolds(n: Node, n': Node, t: nat, full: Log, last: nat, i: nat)
    requires i <= last <= |full| && Merged(n, n', t, full[..last])
    ensures i <= |n'.log| && n'.log[..i] == full[..i]
  {
    assert full[..last][..i] == full[..i];
  }

  lemma LeaderCommitTaken(m: Membership, s: Cluster, s': Cluster, id: NodeId, r: AppendRequest)
    requires Accepts(m, s, s', id, r) && s'.nodes[id].commitIndex > s.nodes[id].commitIndex
    ensures s'.nodes[id].commitIndex <= |s'.nodes[id].log|
    ensures CommittedPrefix(m, s.hist, r.term, s'.nodes[id].log[..s'.nodes[id].commitIndex])
  {
    CommitTaken(m, s.hist, s.nodes[id], s'.nodes[id], r.term, r.prevLogIndex + |r.entries|, r.leaderCommit);
  }

  lemma CommitTaken(m: Membership, h: History, n: Node, n': Node, t: nat, last: nat, leaderCommit: nat)
    requires t in h.termLog && last <= |h.termLog[t]| && leaderCommit <= |h.termLog[t]|
    requires Merged(n, n', t, h.termLog[t][..last]) && n'.commitIndex == Min(leaderCommit, last)
    requires CommittedPrefix(m, h, t, h.termLog[t][..leaderCommit])
    ensures n'.commitIndex <= |n'.log| && CommittedPrefix(m, h, t, n'.log[..n'.commitIndex])
  {
    var full, i := h.termLog[t], n'.commitIndex;
    MergedHolds(n, n', t, full, last, i);
    assert full[..i] == full[..leaderCommit][..i];
    ShorterIsCommitted(m, h, t, full[..leaderCommit], n'.log[..i]);
  }

  lemma AcceptNodeOk(m: Membership, s: Cluster, s': Cluster, id: NodeId, r: AppendRequest)
    requires Accepts(m, s, s', id, r) && NodeInv(m, s, id) && Evolves(s, s', id) && s'.nodes[id].role != Leader
    requires TermLogOk(s.hist, r.term)
    requires r.term > s.nodes[id].term ==> (id, r.term) !in s.hist.voted
    requires s'.nodes[id].commitIndex <= |s'.nodes[id].log|
    requires CommittedPrefix(m, s.hist, r.term, s'.nodes[id].log[..s'.nodes[id].commitIndex])
    ensures NodeInv(m, s', id)
  {
    var n', h, h' := s'.nodes[id], s.hist, s'.hist;
    AcceptLogOk(m, s, s', id, r);
    CommittedPrefixStable(m, h, h', r.term, r.term, n'.log[..n'.commitIndex]);
    assert h'.voted == h.voted;
  }

  lemma AcceptLogOk(m: Membership, s: Cluster, s': Cluster, id: NodeId, r: AppendRequest)
    requires Accepts(m, s, s', id, r) && NodeInv(m, s, id) && Evolves(s, s', id) && TermLogOk(s.hist, r.term)
    ensures LogOk(s'.hist, s'.nodes[id].log) && TermsUpTo(s'.nodes[id].log, r.term)
  {
    MergedLogOk(s.hist, s.nodes[id], s'.nodes[id], r.term, s.hist.termLog[r.term], r.prevLogIndex + |r.entries|);
    LogOkStable(s.hist, s'.hist, s'.nodes[id].log);
  }

  lemma MergedLogOk(h: History, n: Node, n': Node, t: nat, full: Log, last: nat)
    requires LogOk(h, n.log) && TermsUpTo(n.log, n.term) && LogOk(h, full) && TermsUpTo(full, t)
    requires last <= |full| && Merged(n, n', t, full[..last])
    ensures LogOk(h, n'.log) && TermsUpTo(n'.log, t)
  {
    PrefixLogOk(h, full, last, t);
  }

  /** What the node had confirmed survives the merge, or this very leader lacks it. */
  lemma AcceptKeeps(m: Membership, s: Cluster, s': Cluster, id: NodeId, r: AppendRequest, t: nat, k: nat)
    requires Accepts(m, s, s', id, r) && Evolves(s, s', id)
    requires t in s.hist.termLog && TermLogOk(s.hist, t) && t <= s.nodes[id].term && Kept(s, id, t, k)
    ensures Kept(s', id, t, k)
  {
    var n, n', h, h' := s.nodes[id], s'.nodes[id], s.hist, s'.hist;
    assert LogExtends(t, h.termLog[t], h'.termLog[t]);
    if Broken(h, t, k, n.term) {
      BrokenStable(h, h', t, k, n.term, n'.term);
    } else if Lacks(h, t, k, r.term) {
      assert t < r.term;
      LacksStable(h, h', t, k, r.term);
      assert Lacks(h', t, k, r.term);
    } else {
      MergeKeeps(n, n', r.term, h.termLog[r.term], r.prevLogIndex + |r.entries|, Chunk(h, t, k));
    }
  }

  lemma AcceptKeepInv(m: Membership, s: Cluster, s': Cluster, id: NodeId, r: AppendRequest)
    requires Accepts(m, s, s', id, r) && Evolves(s, s', id) && HistInv(m, s) && KeepInv(s, id)
    ensures KeepInv(s', id)
  {
    forall t: nat, k: nat | 0 < k <= AckLen(s'.hist, id, t) ensures Kept(s', id, t, k) {
      if t == r.term && k <= r.prevLogIndex + |r.entries| {
        NewlyKept(m, s, s', id, r, k);
      } else {
        AcceptAcks(m, s, s', id, r);
        assert AckedOk(s, id, t) && ElectedOk(m, s, t) && Kept(s, id, t, k);
        AcceptKeeps(m, s, s', id, r, t, k);
      }
    }
  }

  /** What it confirms now is in its log. */
  lemma NewlyKept(m: Membership, s: Cluster, s': Cluster, id: NodeId, r: AppendRequest, k: nat)
    requires Accepts(m, s, s', id, r) && k <= r.prevLogIndex + |r.entries|
    ensures Kept(s', id, r.term, k)
  {
    var last := r.prevLogIndex + |r.entries|;
    assert Chunk(s'.hist, r.term, k) <= s.hist.termLog[r.term][..last] <= s'.nodes[id].log;
  }

  /** The only message of the step is the acknowledgement of the request. */
  ghost predicate Acknowledges(s: Cluster, s': Cluster, id: NodeId, r: AppendRequest, reply: AppendReply) {
    && s'.net == s.net + {Ack(id, r.leader, reply)}
    && reply.term == r.term && reply.matched == r.prevLogIndex + |r.entries|
  }

  lemma AcceptStep(m: Membership, s: Cluster, s': Cluster, id: NodeId, r: AppendRequest, reply: AppendReply)
    requires Inv(m, s) && Accepts(m, s, s', id, r) && Acknowledges(s, s', id, r, reply)
    ensures Inv(m, s')
  {
    assert NodeInv(m, s, id) && KeepInv(s, id) && ElectedOk(m, s, r.term) && AckedOk(s, id, r.term);
    AcceptEvolves(m, s, s', id, r);
    AcceptorIsNotLeader(m, s, s', id, r);
    if r.term > s.nodes[id].term { NoVoteAhead(m, s, id, r.term); }
    AcceptCommit(m, s, s', id, r);
    AcceptNodeOk(m, s, s', id, r);
    AcceptKeepInv(m, s, s', id, r);
    AcceptRecords(m, s, s', id, r, reply);
    NothingElected(m, s, s', id);
    Assemble(m, s, s', id);
  }

  /** No vote is cast, and what is confirmed lies within the leader's log. */
  lemma AcceptRecords(m: Membership, s: Cluster, s': Cluster, id: NodeId, r: AppendRequest, reply: AppendReply)
    requires Accepts(m, s, s', id, r) && Evolves(s, s', id) && Acknowledges(s, s', id, r, reply)
    requires AckedOk(s, id, r.term)
    ensures NewVotesOk(s, s', id)
    ensures forall t: nat :: AckLen(s'.hist, id, t) != AckLen(s.hist, id, t) ==> AckedOk(s', id, t)
    ensures forall msg :: msg in s'.net && msg !in s.net ==> MsgOk(m, s', msg)
  {
    AcceptAcks(m, s, s', id, r);
  }

  lemma SuccessAccepts(m: Membership, s: Cluster, id: NodeId, r: AppendRequest, concede: bool)
    requires id in s.nodes && MsgOk(m, s, Append(r)) && r.leader != id
    requires LogOk(s.hist, s.nodes[id].log) && LogOk(s.hist, s.hist.termLog[r.term])
    requires HandleAppendRequest(s.nodes[id], r, concede).1.success
    ensures Accepts(m, s, ReceiveAppend(s, id, r, concede), id, r)
    ensures Acknowledges(s, ReceiveAppend(s, id, r, concede), id, r, HandleAppendRequest(s.nodes[id], r, concede).1)
  {
    SuccessIs(s.nodes[id], r, concede);
    AppendMerges(s.hist, s.nodes[id], r, concede);
  }

  ghost predicate Rejects(s: Cluster, s': Cluster, id: NodeId, r: AppendRequest)
    requires id in s.nodes
  {
    exists reply: AppendReply ::
      && !reply.success
      && (|| s' == Put(s, id, s.nodes[id], {Ack(id, r.leader, reply)}, s.hist)
          || s' == Put(s, id, BecomeFollower(s.nodes[id], r.term), {Ack(id, r.leader, reply)}, s.hist))
  }

  lemma FailureRejects(s: Cluster, id: NodeId, r: AppendRequest, concede: bool)
    requires id in s.nodes && !HandleAppendRequest(s.nodes[id], r, concede).1.success
    ensures Rejects(s, ReceiveAppend(s, id, r, concede), id, r)
  {
    var reply := HandleAppendRequest(s.nodes[id], r, concede).1;
    assert !reply.success;
  }

  lemma AppendStep(m: Membership, s: Cluster, id: NodeId, r: AppendRequest, concede: bool)
    requires Inv(m, s) && id in s.nodes && Append(r) in s.net && r.leader != id
    ensures Inv(m, ReceiveAppend(s, id, r, concede))
  {
    assert NodeInv(m, s, id) && MsgOk(m, s, Append(r)) && ElectedOk(m, s, r.term);
    AcceptsOrRejects(m, s, id, r, concede);
    if Rejects(s, ReceiveAppend(s, id, r, concede), id, r) {
      RejectStep(m, s, ReceiveAppend(s, id, r, concede), id, r);
    } else {
      AcceptStep(m, s, ReceiveAppend(s, id, r, concede), id, r, HandleAppendRequest(s.nodes[id], r, concede).1);
    }
  }

  lemma AcceptsOrRejects(m: Membership, s: Cluster, id: NodeId, r: AppendRequest, concede: bool)
    requires id in s.nodes && MsgOk(m, s, Append(r)) && r.leader != id
    requires LogOk(s.hist, s.nodes[id].log) && LogOk(s.hist, s.hist.termLog[r.term])
    ensures var s' := ReceiveAppend(s, id, r, concede);
            || Rejects(s, s', id, r)
            || (&& Accepts(m, s, s', id, r)
                && Acknowledges(s, s', id, r, HandleAppendRequest(s.nodes[id], r, concede).1))
  {
    if HandleAppendRequest(s.nodes[id], r, concede).1.success {
      SuccessAccepts(m, s, id, r, concede);
    } else {
      FailureRejects(s, id, r, concede);
    }
  }

  lemma RejectStep(m: Membership, s: Cluster, s': Cluster, id: NodeId, r: AppendRequest)
    requires Inv(m, s) && id in s.nodes && Rejects(s, s', id, r)
    ensures Inv(m, s')
  {
    assert NodeInv(m, s, id);
    if s'.nodes[id] == s.nodes[id] {
      RefuseOk(m, s, s', id);
    } else {
      FollowerOk(m, s, s', id, r.term);
    }
    QuietStep(m, s, s', id);
  }

  // ---------------------------------------------------------------------
  // The invariant over runs
  // ---------------------------------------------------------------------

  lemma InitInv(m: Membership, s: Cluster)
    requires Init(m, s)
    ensures Inv(m, s)
  {
    forall id | id in s.nodes ensures NodeInv(m, s, id) && KeepInv(s, id) {
      assert s.nodes[id].log[..0] == [];
    }
  }

  lemma ReceiveStep(m: Membership, s: Cluster, step: Step)
    requires Inv(m, s) && Enabled(m, s, step) && step.Receive?
    ensures Inv(m, Perform(m, s, step))
  {
    var s', id := Perform(m, s, step), step.id;
    match step.msg {
      case VoteAsk(r) => VoteAskStep(m, s, id, r);
      case VoteAnswer(from, _, r) => CountVoteStep(m, s, s', id, from, r);
      case Append(r) => AppendStep(m, s, id, r, step.concede);
      case Ack(from, _, r) => AckStep(m, s, s', id, from, r);
    }
  }

  lemma StepInv(m: Membership, s: Cluster, step: Step)
    requires Inv(m, s) && Enabled(m, s, step)
    ensures Inv(m, Perform(m, s, step))
  {
    var s' := Perform(m, s, step);
    match step {
      case Probe(id) => ProbeStep(m, s, id);
      case Elect(id) => ElectStep(m, s, id);
      case Tally(id) => TallyStep(m, s, id);
      case Receive(_, _, _) => ReceiveStep(m, s, step);
      case ClientPropose(id, payload) => ProposeStep(m, s, id, payload);
      case Replicate(id, prev, count) => ReplicateStep(m, s, id, prev, count);
      case Commit(id) => CommitStep(m, s, s', id);
      case Apply(id) => ApplyStep(m, s, id);
      case StepDown(id) => StepDownStep(m, s, s', id);
      case Crash(id) => CrashStep(m, s, s', id);
    }
  }

  /** Every state of every run satisfies the invariant. */
  lemma {:induction false} RunInv(m: Membership, run: seq<Cluster>, steps: seq<Step>, i: nat)
    requires IsRun(m, run, steps) && i < |run|
    ensures Inv(m, run[i])
  {
    if i == 0 {
      InitInv(m, run[0]);
    } else {
      RunInv(m, run, steps, i - 1);
      assert StepAt(m, run, steps, i - 1);
      StepInv(m, run[i - 1], steps[i - 1]);
    }
  }
}
