/** Every step of the cluster keeps the invariant. */
module RaftProof {
  import opened RaftQuorum
  import opened RaftNode
  import opened RaftCluster
  import opened RaftInvariant

  ghost predicate NewElectedOk(m: Membership, s: Cluster, s': Cluster, id: NodeId)
    requires s.hist.termLog.Keys == s.hist.elected.Keys
    requires Extends(s.hist, s'.hist)
  {
    && s'.hist.termLog.Keys == s'.hist.elected.Keys
    && (forall t: nat :: t in s.hist.elected && s.hist.elected[t] != id ==> s'.hist.termLog[t] == s.hist.termLog[t])
    && (forall t: nat :: t in s'.hist.elected && (t in s.hist.elected ==> s'.hist.termLog[t] != s.hist.termLog[t]) ==>
          ElectedOk(m, s', t))
  }

  ghost predicate NewVotesOk(s: Cluster, s': Cluster, id: NodeId)
    requires id in s'.nodes
  {
    forall v: NodeId, t: nat :: (v, t) in s'.hist.voted && (v, t) !in s.hist.voted ==>
      && v == id && t == s'.nodes[id].term && VotedOk(s', v, t)
      && forall t0: nat, k: nat ::
           Pending(s', v, t) && t0 < t && k <= AckLen(s'.hist, v, t0) && Marks(s'.hist, t0, k) ==>
             VoteSafe(s', v, t, t0, k)
  }

  ghost predicate NewMarksOk(m: Membership, s: Cluster, s': Cluster) {
    forall u: nat, t: nat, k: nat {:trigger Safe(m, s', u, t, k)} ::
      u in s'.hist.termLog && t < u && Marks(s'.hist, t, k) && (u !in s.hist.termLog || !Marks(s.hist, t, k)) ==>
        Safe(m, s', u, t, k)
  }

  /** A step that elects nobody and adds to no leader's log. */
  lemma NothingElected(m: Membership, s: Cluster, s': Cluster, id: NodeId)
    requires s.hist.termLog.Keys == s.hist.elected.Keys && Extends(s.hist, s'.hist)
    requires s'.hist.elected == s.hist.elected && s'.hist.termLog == s.hist.termLog
    ensures NewElectedOk(m, s, s', id) && NewMarksOk(m, s, s')
  {
  }

  /** What a step must establish for the invariant: only what it changed. */
  lemma Assemble(m: Membership, s: Cluster, s': Cluster, id: NodeId)
    requires Inv(m, s) && Evolves(s, s', id)
    requires NewElectedOk(m, s, s', id) && NewVotesOk(s, s', id) && NewMarksOk(m, s, s')
    requires forall t: nat :: AckLen(s'.hist, id, t) != AckLen(s.hist, id, t) ==> AckedOk(s', id, t)
    requires forall a :: a in s'.applied && a !in s.applied ==> AppliedOk(m, s'.hist, a.index, a.entry)
    requires NodeInv(m, s', id) && KeepInv(s', id)
    requires forall msg :: msg in s'.net && msg !in s.net ==> MsgOk(m, s', msg)
    ensures Inv(m, s')
  {
    AssembleHist(m, s, s', id);
    forall other | other in s'.nodes ensures NodeInv(m, s', other) && KeepInv(s', other) {
      if other != id { AssembleNode(m, s, s', id, other); }
    }
    forall msg | msg in s'.net ensures MsgOk(m, s', msg) {
      if msg in s.net { MsgOkStable(m, s, s', id, msg); }
    }
    forall v: NodeId, u: nat, t: nat, k: nat
      | Pending(s', v, u) && t < u && k <= AckLen(s'.hist, v, t) && Marks(s'.hist, t, k)
      ensures VoteSafe(s', v, u, t, k)
    {
      if (v, u) in s.hist.voted { VoteSafeStable(m, s, s', id, v, u, t, k); }
    }
    forall u: nat, t: nat, k: nat | u in s'.hist.termLog && t < u && Marks(s'.hist, t, k)
      ensures Safe(m, s', u, t, k)
    {
      if u in s.hist.termLog && Marks(s.hist, t, k) { SafeStable(m, s, s', id, u, t, k); }
    }
  }

  lemma AssembleHist(m: Membership, s: Cluster, s': Cluster, id: NodeId)
    requires Inv(m, s) && Evolves(s, s', id)
    requires NewElectedOk(m, s, s', id) && NewVotesOk(s, s', id)
    requires forall t: nat :: AckLen(s'.hist, id, t) != AckLen(s.hist, id, t) ==> AckedOk(s', id, t)
    requires forall a :: a in s'.applied && a !in s.applied ==> AppliedOk(m, s'.hist, a.index, a.entry)
    ensures HistInv(m, s')
  {
    assert s'.nodes.Keys == m.Ids();
    forall t: nat | t in s'.hist.elected ensures ElectedOk(m, s', t) {
      if t in s.hist.elected && s'.hist.termLog[t] == s.hist.termLog[t] {
        assert ElectedOk(m, s, t);
        ElectedOkStable(m, s, s', id, t);
      }
    }
    AssembleAcks(m, s, s', id);
    forall v: NodeId, t: nat | (v, t) in s'.hist.voted ensures VotedOk(s', v, t) {
      if (v, t) in s.hist.voted { assert VotedOk(s, v, t); }
    }
    forall a | a in s'.applied ensures AppliedOk(m, s'.hist, a.index, a.entry) {
      if a in s.applied { AppliedStable(m, s.hist, s'.hist, a.index, a.entry); }
    }
  }

  lemma AssembleAcks(m: Membership, s: Cluster, s': Cluster, id: NodeId)
    requires HistInv(m, s) && Evolves(s, s', id)
    requires forall t: nat :: AckLen(s'.hist, id, t) != AckLen(s.hist, id, t) ==> AckedOk(s', id, t)
    ensures forall v: NodeId, t: nat :: AckedOk(s', v, t)
  {
    forall v: NodeId, t: nat ensures AckedOk(s', v, t) {
      assert AckedOk(s, v, t);
      if AckLen(s'.hist, v, t) == AckLen(s.hist, v, t) && AckLen(s.hist, v, t) > 0 {
        assert LogExtends(t, s.hist.termLog[t], s'.hist.termLog[t]);
      }
    }
  }

  lemma AssembleNode(m: Membership, s: Cluster, s': Cluster, id: NodeId, other: NodeId)
    requires Inv(m, s) && Evolves(s, s', id) && other in s.nodes && other != id
    requires NewElectedOk(m, s, s', id) && NewVotesOk(s, s', id)
    ensures NodeInv(m, s', other) && KeepInv(s', other)
  {
    assert NodeInv(m, s, other);
    NodeInvStable(m, s, s', id, other);
    KeepInvStable(m, s, s', id, other);
  }

  /** A log that only grew keeps all that its node ever confirmed before. */
  lemma KeepInvStable(m: Membership, s: Cluster, s': Cluster, id: NodeId, other: NodeId)
    requires Inv(m, s) && Evolves(s, s', id) && other in s.nodes
    requires s.nodes[other].log <= s'.nodes[other].log
    ensures forall t: nat, k: nat :: 0 < k <= AckLen(s.hist, other, t) ==> Kept(s', other, t, k)
    ensures other != id || s.hist.acked == s'.hist.acked ==> KeepInv(s', other)
  {
    forall t: nat, k: nat | 0 < k <= AckLen(s.hist, other, t) ensures Kept(s', other, t, k) {
      assert KeepInv(s, other);
      assert Kept(s, other, t, k);
      assert ElectedOk(m, s, t);
      KeptStable(s, s', id, other, t, k);
    }
  }

  // ---------------------------------------------------------------------
  // Steps that add no record
  // ---------------------------------------------------------------------

  /** A step that leaves the history and the node's log alone. */
  lemma QuietStep(m: Membership, s: Cluster, s': Cluster, id: NodeId)
    requires Inv(m, s) && id in s.nodes && id in s'.nodes
    requires s'.nodes == s.nodes[id := s'.nodes[id]]
    requires s'.hist == s.hist && s.applied <= s'.applied
    requires forall a :: a in s'.applied && a !in s.applied ==> AppliedOk(m, s'.hist, a.index, a.entry)
    requires NodeEvolves(s'.hist, s.nodes[id], s'.nodes[id]) && s'.nodes[id].log == s.nodes[id].log
    requires NodeInv(m, s', id)
    requires forall msg :: msg in s'.net && msg !in s.net ==> MsgOk(m, s', msg)
    ensures Inv(m, s')
  {
    assert Evolves(s, s', id);
    KeepInvStable(m, s, s', id, id);
    Assemble(m, s, s', id);
  }

  lemma CommittedPrefixLater(m: Membership, h: History, hi: nat, hi': nat, p: Log)
    requires CommittedPrefix(m, h, hi, p) && hi <= hi'
    ensures CommittedPrefix(m, h, hi', p)
  {
    if p != [] {
      var t: nat, k: nat :| t <= hi && CommittedVia(m, h, p, t, k);
      assert t <= hi' && CommittedVia(m, h, p, t, k);
    }
  }

  lemma NoVoteAhead(m: Membership, s: Cluster, id: NodeId, t: nat)
    requires Inv(m, s) && id in s.nodes && t > s.nodes[id].term
    ensures (id, t) !in s.hist.voted
  {
    assert (id, t) in s.hist.voted ==> VotedOk(s, id, t);
  }

  /** Falling back to follower, in the same term or a later one, is always sound. */
  lemma FollowerOk(m: Membership, s: Cluster, s': Cluster, id: NodeId, t: nat)
    requires Inv(m, s) && id in s.nodes
    requires s'.nodes == s.nodes[id := BecomeFollower(s.nodes[id], t)] && s'.hist == s.hist
    ensures NodeInv(m, s', id) && NodeEvolves(s'.hist, s.nodes[id], s'.nodes[id])
  {
    var n, n' := s.nodes[id], s'.nodes[id];
    assert NodeInv(m, s, id);
    if t > n.term { NoVoteAhead(m, s, id, t); }
    CommittedPrefixLater(m, s.hist, n.term, n'.term, n.log[..n.commitIndex]);
  }

  lemma ProbeStep(m: Membership, s: Cluster, id: NodeId)
    requires Inv(m, s) && id in s.nodes && s.nodes[id].role != Leader
    ensures Inv(m, DoProbe(s, id))
  {
    assert NodeInv(m, s, id);
    QuietStep(m, s, DoProbe(s, id), id);
  }

  lemma StepDownStep(m: Membership, s: Cluster, s': Cluster, id: NodeId)
    requires Inv(m, s) && id in s.nodes && s' == Put(s, id, BecomeFollower(s.nodes[id], s.nodes[id].term), {}, s.hist)
    ensures Inv(m, s')
  {
    FollowerOk(m, s, s', id, s.nodes[id].term);
    QuietStep(m, s, s', id);
  }

  lemma CrashStep(m: Membership, s: Cluster, s': Cluster, id: NodeId)
    requires Inv(m, s) && id in s.nodes && s' == Put(s, id, Restarted(s.nodes[id]), {}, s.hist)
    ensures Inv(m, s')
  {
    assert NodeInv(m, s, id);
    assert s'.nodes[id].log[..0] == [];
    QuietStep(m, s, s', id);
  }

  lemma ReplicateStep(m: Membership, s: Cluster, id: NodeId, prev: nat, count: nat)
    requires Inv(m, s) && id in s.nodes && s.nodes[id].role == Leader && prev + count <= |s.nodes[id].log|
    ensures Inv(m, DoReplicate(s, id, prev, count))
  {
    var s' := DoReplicate(s, id, prev, count);
    assert NodeInv(m, s, id);
    SameButNet(m, s, s', id);
    ReplicateOk(m, s', id, prev, count);
    QuietStep(m, s, s', id);
  }

  lemma SameButNet(m: Membership, s: Cluster, s': Cluster, id: NodeId)
    requires id in s.nodes && s'.nodes == s.nodes && s'.hist == s.hist && NodeInv(m, s, id)
    ensures NodeInv(m, s', id)
  {
  }

  lemma ReplicateOk(m: Membership, s: Cluster, id: NodeId, prev: nat, count: nat)
    requires id in s.nodes && NodeInv(m, s, id) && s.nodes[id].role == Leader && prev + count <= |s.nodes[id].log|
    ensures var n := s.nodes[id];
            MsgOk(m, s, Append(AppendRequest(n.term, id, prev, TermAt(n.log, prev),
                                             n.log[prev..prev + count], n.commitIndex)))
  {
  }

  lemma CountVoteStep(m: Membership, s: Cluster, s': Cluster, id: NodeId, from: NodeId, r: VoteReply)
    requires Inv(m, s) && id in s.nodes && VoteAnswer(from, id, r) in s.net
    requires s' == Put(s, id, CountVote(s.nodes[id], from, r), {}, s.hist)
    ensures Inv(m, s')
  {
    assert NodeInv(m, s, id) && MsgOk(m, s, VoteAnswer(from, id, r));
    if r.term > s.nodes[id].term {
      FollowerOk(m, s, s', id, r.term);
    } else {
      CountVoteOk(m, s, s', id, from, r);
    }
    QuietStep(m, s, s', id);
  }

  /** A counted vote was really cast: pre-vote grants never carry the term a
      candidate is running in. */
  lemma CountVoteOk(m: Membership, s: Cluster, s': Cluster, id: NodeId, from: NodeId, r: VoteReply)
    requires id in s.nodes && NodeInv(m, s, id) && MsgOk(m, s, VoteAnswer(from, id, r)) && r.term <= s.nodes[id].term
    requires s.nodes.Keys == m.Ids()
    requires s'.nodes == s.nodes[id := CountVote(s.nodes[id], from, r)] && s'.hist == s.hist
    ensures NodeInv(m, s', id)
  {
  }

  lemma AckStep(m: Membership, s: Cluster, s': Cluster, id: NodeId, from: NodeId, r: AppendReply)
    requires Inv(m, s) && id in s.nodes && Ack(from, id, r) in s.net
    requires s' == Put(s, id, HandleAppendReply(s.nodes[id], from, r), {}, s.hist)
    ensures Inv(m, s')
  {
    assert NodeInv(m, s, id) && MsgOk(m, s, Ack(from, id, r));
    if r.term > s.nodes[id].term {
      FollowerOk(m, s, s', id, r.term);
    } else {
      AckOk(m, s, s', id, from, r);
    }
    QuietStep(m, s, s', id);
  }

  lemma AckOk(m: Membership, s: Cluster, s': Cluster, id: NodeId, from: NodeId, r: AppendReply)
    requires id in s.nodes && NodeInv(m, s, id) && MsgOk(m, s, Ack(from, id, r)) && r.term <= s.nodes[id].term
    requires s.nodes.Keys == m.Ids() && s' == Put(s, id, HandleAppendReply(s.nodes[id], from, r), {}, s.hist)
    ensures NodeInv(m, s', id)
  {
  }

  lemma CommitStep(m: Membership, s: Cluster, s': Cluster, id: NodeId)
    requires Inv(m, s) && id in s.nodes && s.nodes[id].role == Leader
    requires s' == Put(s, id, AdvanceCommit(s.nodes[id], m, id), {}, s.hist)
    ensures Inv(m, s')
  {
    assert NodeInv(m, s, id);
    CommitOk(m, s, s', id);
    QuietStep(m, s, s', id);
  }

  lemma CommitOk(m: Membership, s: Cluster, s': Cluster, id: NodeId)
    requires id in s.nodes && NodeInv(m, s, id) && s.nodes.Keys == m.Ids() && s.nodes[id].role == Leader
    requires s'.nodes == s.nodes[id := AdvanceCommit(s.nodes[id], m, id)] && s'.hist == s.hist
    ensures NodeInv(m, s', id)
  {
    var n, h := s.nodes[id], s.hist;
    var c := HighestCommittable(n, m, id, n.commitIndex, |n.log|);
    HighestCommittableIsHighest(n, m, id, n.commitIndex, |n.log|);
    if c != n.commitIndex {
      MayCommitIsCommitted(m, s, id, c);
      assert CommittedVia(m, h, n.log[..c], n.term, c);
    }
  }

  /** The commitment rule, applied by a leader, commits. */
  lemma MayCommitIsCommitted(m: Membership, s: Cluster, id: NodeId, index: nat)
    requires id in s.nodes && NodeInv(m, s, id) && s.nodes.Keys == m.Ids() && s.nodes[id].role == Leader
    requires MayCommit(s.nodes[id], m, id, index)
    ensures Committed(m, s.hist, s.nodes[id].term, index)
  {
    var n, h := s.nodes[id], s.hist;
    forall x | x in Replicated(n, id, index) ensures x in Holders(m, h, n.term, index) {
    }
    QuorumGrows(m, Replicated(n, id, index), Holders(m, h, n.term, index));
  }

  lemma ApplyStep(m: Membership, s: Cluster, id: NodeId)
    requires Inv(m, s) && id in s.nodes && s.nodes[id].lastApplied < s.nodes[id].commitIndex <= |s.nodes[id].log|
    ensures Inv(m, DoApply(s, id))
  {
    assert NodeInv(m, s, id);
    ApplyOk(m, s, id);
    ApplyAdds(m, s, id);
    QuietStep(m, s, DoApply(s, id), id);
  }

  /** What an application adds, and what it leaves. */
  lemma ApplyAdds(m: Membership, s: Cluster, id: NodeId)
    requires id in s.nodes && s.nodes[id].lastApplied < |s.nodes[id].log|
    requires AppliedOk(m, s.hist, s.nodes[id].lastApplied + 1, s.nodes[id].log[s.nodes[id].lastApplied])
    ensures var s' := DoApply(s, id);
            && s'.nodes == s.nodes[id := s'.nodes[id]] && s'.hist == s.hist
            && s.applied <= s'.applied && s'.net == s.net
            && NodeEvolves(s'.hist, s.nodes[id], s'.nodes[id]) && s'.nodes[id].log == s.nodes[id].log
            && forall a :: a in s'.applied && a !in s.applied ==> AppliedOk(m, s.hist, a.index, a.entry)
  {
  }

  lemma ApplyOk(m: Membership, s: Cluster, id: NodeId)
    requires id in s.nodes && NodeInv(m, s, id) && s.nodes[id].lastApplied < s.nodes[id].commitIndex
    ensures NodeInv(m, DoApply(s, id), id)
    ensures AppliedOk(m, s.hist, s.nodes[id].lastApplied + 1, s.nodes[id].log[s.nodes[id].lastApplied])
  {
    var n := s.nodes[id];
    var p, i := n.log[..n.commitIndex], n.lastApplied + 1;
    assert CommittedPrefix(m, s.hist, n.term, p) && 0 < i <= |p| && p[i - 1] == n.log[i - 1];
  }
}
