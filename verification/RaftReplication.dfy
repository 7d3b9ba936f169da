/** Taking leadership, extending a leader's log, and merging it into followers. */
module RaftReplication {
  import opened Wrappers
  import opened RaftQuorum
  import opened RaftNode
  import opened RaftCluster
  import opened RaftInvariant
  import opened RaftProof

  // ---------------------------------------------------------------------
  // A leader's log grows by one entry of its own term
  // ---------------------------------------------------------------------

  /** Node `id` goes on, or starts, as the leader of its term with one more
      entry.  Covers both taking leadership (the no-op) and a proposal. */
  ghost predicate LeaderGrows(m: Membership, s: Cluster, s': Cluster, id: NodeId) {
    id in s.nodes && id in m.Ids() && Lengthens(s, s', id) && MayLead(m, s, s', id)
  }

  /** One entry of its term more in the node's log, which is the log of that term. */
  ghost predicate Lengthens(s: Cluster, s': Cluster, id: NodeId)
    requires id in s.nodes
  {
    var n, h := s.nodes[id], s.hist;
    && s'.net == s.net && s'.applied == s.applied
    && id in s'.nodes && s'.nodes == s.nodes[id := s'.nodes[id]]
    && var n' := s'.nodes[id];
       && s'.hist == RecordLeaderLog(h, id, n.term, n'.log)
       && n'.term == n.term && n'.role == Leader && n'.votedFor == n.votedFor
       && n'.commitIndex == n.commitIndex && n'.lastApplied == n.lastApplied
       && |n'.log| == |n.log| + 1 && n.log <= n'.log && n'.log[|n.log|].term == n.term
  }

  /** The node leads its term, or has the votes to do so. */
  ghost predicate MayLead(m: Membership, s: Cluster, s': Cluster, id: NodeId)
    requires id in s.nodes && id in s'.nodes
  {
    var n, n', h := s.nodes[id], s'.nodes[id], s.hist;
    var u := n.term;
    && (n.role == Candidate || n.role == Leader)
    && (u in h.elected ==> h.elected[u] == id && u in h.termLog && h.termLog[u] == n.log)
    && AckLen(h, id, u) <= |n.log|
    && (forall p :: p in n'.matchIndex ==> p in m.Ids() && n'.matchIndex[p] <= AckLen(h, p, u))
    && IsQuorum(m, set v | v in m.Ids() && (v, u) in h.voted && h.voted[(v, u)] == id)
  }

  lemma LeaderEvolves(m: Membership, s: Cluster, s': Cluster, id: NodeId)
    requires LeaderGrows(m, s, s', id) && s.hist.termLog.Keys == s.hist.elected.Keys
    ensures Evolves(s, s', id)
  {
    LeaderRecordExtends(s.hist, id, s.nodes[id].term, s.nodes[id].log, s'.nodes[id].log);
  }

  lemma GrownLogOk(h: History, h': History, u: nat, log: Log, log': Log)
    requires Extends(h, h') && LogOk(h, log) && TermsUpTo(log, u)
    requires log <= log' && |log'| == |log| + 1 && log'[|log|].term == u
    requires u in h'.termLog && h'.termLog[u] == log'
    ensures LogOk(h', log') && TermsUpTo(log', u)
  {
    forall i: nat | i < |log'| ensures EntryOk(h', log', i) {
      if i < |log| {
        assert EntryOk(h, log, i);
        var t := log[i].term;
        assert LogExtends(t, h.termLog[t], h'.termLog[t]);
        assert log'[..i + 1] == log[..i + 1] == h.termLog[t][..i + 1] == h'.termLog[t][..i + 1];
      }
    }
  }

  lemma LeaderNodeOk(m: Membership, s: Cluster, s': Cluster, id: NodeId)
    requires LeaderGrows(m, s, s', id) && Evolves(s, s', id) && NodeInv(m, s, id)
    ensures NodeInv(m, s', id)
  {
    var n, n', h, h' := s.nodes[id], s'.nodes[id], s.hist, s'.hist;
    GrownLogOk(h, h', n.term, n.log, n'.log);
    CommittedPrefixStable(m, h, h', n.term, n.term, n.log[..n.commitIndex]);
    assert n'.log[..n.commitIndex] == n.log[..n.commitIndex];
  }

  lemma LeaderElectedOk(m: Membership, s: Cluster, s': Cluster, id: NodeId)
    requires LeaderGrows(m, s, s', id) && Evolves(s, s', id)
    requires LogOk(s.hist, s.nodes[id].log) && TermsUpTo(s.nodes[id].log, s.nodes[id].term)
    requires s.hist.termLog.Keys == s.hist.elected.Keys
    ensures NewElectedOk(m, s, s', id)
  {
    var n, n', h, h' := s.nodes[id], s'.nodes[id], s.hist, s'.hist;
    GrownLogOk(h, h', n.term, n.log, n'.log);
    assert h'.voted == h.voted;
    assert ElectedOk(m, s', n.term);
  }

  lemma LeaderKeeps(m: Membership, s: Cluster, s': Cluster, id: NodeId)
    requires Inv(m, s) && LeaderGrows(m, s, s', id) && Evolves(s, s', id)
    ensures KeepInv(s', id)
  {
    var u := s.nodes[id].term;
    KeepInvStable(m, s, s', id, id);
    forall t: nat, k: nat | 0 < k <= AckLen(s'.hist, id, t) ensures Kept(s', id, t, k) {
      if t == u {
        assert Chunk(s'.hist, u, k) <= s'.nodes[id].log;
      } else {
        assert AckLen(s'.hist, id, t) == AckLen(s.hist, id, t);
      }
    }
  }

  /** The new entry, at index k of term u, cannot be confirmed by a quorum if a
      later leader exists: that leader's voters have all left the term. */
  lemma NewEntryBlocked(m: Membership, s: Cluster, s': Cluster, id: NodeId, u: nat, k: nat, w: nat)
    requires HistInv(m, s) && Evolves(s, s', id) && s'.nodes[id].term == u
    requires u in s.hist.termLog ==> |s.hist.termLog[u]| < k
    requires k > 0 && w in s.hist.elected && w > u
    ensures IsQuorum(m, Blockers(s', u, k))
  {
    var h := s.hist;
    var c := h.elected[w];
    assert ElectedOk(m, s, w);
    var q := set v | v in m.Ids() && (v, w) in h.voted && h.voted[(v, w)] == c;
    forall v | v in q ensures v in Blockers(s', u, k) {
      assert VotedOk(s, v, w) && AckedOk(s, v, u);
      VoterBlocks(s, s', id, u, k, v);
    }
    QuorumGrows(m, q, Blockers(s', u, k));
  }

  lemma VoterBlocks(s: Cluster, s': Cluster, id: NodeId, u: nat, k: nat, v: NodeId)
    requires Evolves(s, s', id) && s'.nodes[id].term == u && k > 0
    requires u in s.hist.termLog ==> |s.hist.termLog[u]| < k
    requires v in s.nodes && s.nodes[v].term > u && AckedOk(s, v, u)
    ensures v in Blockers(s', u, k)
  {
    assert AckLen(s'.hist, v, u) == AckLen(s.hist, v, u);
  }

  lemma OldEntriesMark(m: Membership, s: Cluster, s': Cluster, id: NodeId, k: nat)
    requires LeaderGrows(m, s, s', id) && LogOk(s.hist, s.nodes[id].log)
    requires s.hist.termLog.Keys == s.hist.elected.Keys
    requires 0 < k <= |s.nodes[id].log| && s.nodes[id].log[k - 1].term == s.nodes[id].term
    ensures Marks(s.hist, s.nodes[id].term, k)
  {
    assert EntryOk(s.hist, s.nodes[id].log, k - 1);
  }

  /** In the grown log, only the new entry is a mark that was not there before. */
  lemma NewMark(m: Membership, s: Cluster, s': Cluster, id: NodeId, t: nat, k: nat)
    requires LeaderGrows(m, s, s', id) && LogOk(s.hist, s.nodes[id].log)
    requires s.hist.termLog.Keys == s.hist.elected.Keys
    requires Marks(s'.hist, t, k) && !(t == s.nodes[id].term && k == |s'.nodes[id].log|)
    ensures Marks(s.hist, t, k)
  {
    if t == s.nodes[id].term {
      OldEntriesMark(m, s, s', id, k);
    }
  }

  lemma LeaderMarks(m: Membership, s: Cluster, s': Cluster, id: NodeId)
    requires HistInv(m, s) && LeaderGrows(m, s, s', id) && Evolves(s, s', id) && LogOk(s.hist, s.nodes[id].log)
    requires WinnerSafe(m, s, s', s.nodes[id].term)
    ensures NewMarksOk(m, s, s')
  {
    var u := s.nodes[id].term;
    forall w: nat, t: nat, k: nat
      | w in s'.hist.termLog && t < w && Marks(s'.hist, t, k) && (w !in s.hist.termLog || !Marks(s.hist, t, k))
      ensures Safe(m, s', w, t, k)
    {
      if t == u && k == |s'.nodes[id].log| {
        NewEntryBlocked(m, s, s', id, u, k, w);
      } else {
        NewMark(m, s, s', id, t, k);
      }
    }
  }

  /** If term u had no leader before, its leader has all that may still be committed. */
  ghost predicate WinnerSafe(m: Membership, s: Cluster, s': Cluster, u: nat)
    requires u in s'.hist.termLog
  {
    u !in s.hist.elected ==>
      forall t: nat, k: nat {:trigger Safe(m, s', u, t, k)} ::
        t < u && Marks(s.hist, t, k) ==> Marks(s'.hist, t, k) && Safe(m, s', u, t, k)
  }

  lemma LeaderStep(m: Membership, s: Cluster, s': Cluster, id: NodeId)
    requires Inv(m, s) && LeaderGrows(m, s, s', id) && WinnerSafe(m, s, s', s.nodes[id].term)
    ensures Inv(m, s')
  {
    LeaderEvolves(m, s, s', id);
    assert NodeInv(m, s, id);
    LeaderNodeOk(m, s, s', id);
    LeaderElectedOk(m, s, s', id);
    LeaderKeeps(m, s, s', id);
    LeaderMarks(m, s, s', id);
    Assemble(m, s, s', id);
  }

  // ---------------------------------------------------------------------
  // Taking leadership
  // ---------------------------------------------------------------------

  /** Election safety, at the step that could break it: a candidate with a
      quorum of votes runs in a term that elected nobody. */
  lemma NotYetElected(m: Membership, s: Cluster, id: NodeId)
    requires Inv(m, s) && id in s.nodes && s.nodes[id].role == Candidate && IsQuorum(m, s.nodes[id].votes)
    ensures s.nodes[id].term !in s.hist.elected
  {
    var u, h := s.nodes[id].term, s.hist;
    assert NodeInv(m, s, id);
    if u in h.elected {
      assert ElectedOk(m, s, u);
      var x := QuorumsMeet(m, s.nodes[id].votes,
        set v | v in m.Ids() && (v, u) in h.voted && h.voted[(v, u)] == h.elected[u]);
      assert false;
    }
  }

  /** The heart of leader completeness: what a quorum may still confirm in an
      earlier term is in the log of every candidate that wins. */
  lemma WinnerIsSafe(m: Membership, s: Cluster, id: NodeId, t: nat, k: nat)
    requires Inv(m, s) && id in s.nodes
    requires s.nodes[id].role == Candidate && IsQuorum(m, s.nodes[id].votes) && s.nodes[id].term !in s.hist.elected
    requires t < s.nodes[id].term && Marks(s.hist, t, k)
    ensures Chunk(s.hist, t, k) <= s.nodes[id].log || IsQuorum(m, Blockers(s, t, k))
  {
    if v :| v in s.nodes[id].votes && AckLen(s.hist, v, t) >= k {
      VouchedFor(m, s, id, v, t, k);
    } else {
      assert NodeInv(m, s, id);
      NobodyConfirmed(m, s, id, t, k);
    }
  }

  lemma WinnerStaysSafe(m: Membership, s: Cluster, s': Cluster, id: NodeId, u: nat, t: nat, k: nat)
    requires Evolves(s, s', id) && Marks(s.hist, t, k)
    requires u in s'.hist.termLog && s.nodes[id].log <= s'.hist.termLog[u]
    requires Chunk(s.hist, t, k) <= s.nodes[id].log || IsQuorum(m, Blockers(s, t, k))
    ensures Marks(s'.hist, t, k) && Safe(m, s', u, t, k)
  {
    assert LogExtends(t, s.hist.termLog[t], s'.hist.termLog[t]);
    assert Chunk(s'.hist, t, k) == Chunk(s.hist, t, k);
    if IsQuorum(m, Blockers(s, t, k)) {
      BlockersGrow(m, s, s', id, t, k);
    }
  }

  /** One supporter of the winner had confirmed the chunk. */
  lemma VouchedFor(m: Membership, s: Cluster, id: NodeId, v: NodeId, t: nat, k: nat)
    requires Inv(m, s) && id in s.nodes && Running(s, id, s.nodes[id].term) && v in s.nodes[id].votes
    requires t < s.nodes[id].term && Marks(s.hist, t, k) && AckLen(s.hist, v, t) >= k
    ensures Chunk(s.hist, t, k) <= s.nodes[id].log || IsQuorum(m, Blockers(s, t, k))
  {
    var h, u := s.hist, s.nodes[id].term;
    assert NodeInv(m, s, id);
    assert Pending(s, v, u);
    assert VoteSafe(s, v, u, t, k);
    if Broken(h, t, k, u - 1) {
      var w: nat :| t < w <= u - 1 && Lacks(h, t, k, w);
      assert Safe(m, s, w, t, k);
    }
  }

  /** No supporter of the winner had: they have all left the earlier term. */
  lemma NobodyConfirmed(m: Membership, s: Cluster, id: NodeId, t: nat, k: nat)
    requires HistInv(m, s) && id in s.nodes && NodeInv(m, s, id)
    requires s.nodes[id].role == Candidate && IsQuorum(m, s.nodes[id].votes)
    requires t < s.nodes[id].term && forall v :: v in s.nodes[id].votes ==> AckLen(s.hist, v, t) < k
    ensures IsQuorum(m, Blockers(s, t, k))
  {
    var n := s.nodes[id];
    forall v | v in n.votes ensures v in Blockers(s, t, k) {
      assert VotedOk(s, v, n.term);
    }
    QuorumGrows(m, n.votes, Blockers(s, t, k));
  }

  /** The votes a candidate counted were all cast for it. */
  lemma VotesWereCast(m: Membership, s: Cluster, id: NodeId)
    requires id in s.nodes && NodeInv(m, s, id)
    requires s.nodes[id].role == Candidate && IsQuorum(m, s.nodes[id].votes)
    ensures var u, h := s.nodes[id].term, s.hist;
            IsQuorum(m, set v | v in m.Ids() && (v, u) in h.voted && h.voted[(v, u)] == id)
  {
    var n, h := s.nodes[id], s.hist;
    var q := set v | v in m.Ids() && (v, n.term) in h.voted && h.voted[(v, n.term)] == id;
    forall v | v in n.votes ensures v in q {
      assert (v, n.term) in h.voted;
    }
    QuorumGrows(m, n.votes, q);
  }

  lemma TallyGrows(m: Membership, s: Cluster, id: NodeId)
    requires id in s.nodes && id in m.Ids() && NodeInv(m, s, id) && AckedOk(s, id, s.nodes[id].term)
    requires s.nodes[id].role == Candidate && IsQuorum(m, s.nodes[id].votes)
    requires s.nodes[id].term !in s.hist.elected && s.hist.termLog.Keys == s.hist.elected.Keys
    ensures LeaderGrows(m, s, DoTally(m, s, id), id)
  {
    VotesWereCast(m, s, id);
    TallyLengthens(m, s, id);
  }

  lemma TallyLengthens(m: Membership, s: Cluster, id: NodeId)
    requires id in s.nodes
    ensures Lengthens(s, DoTally(m, s, id), id)
  {
  }

  lemma TallyStep(m: Membership, s: Cluster, id: NodeId)
    requires Inv(m, s) && id in s.nodes && s.nodes[id].role == Candidate && IsQuorum(m, s.nodes[id].votes)
    ensures Inv(m, DoTally(m, s, id))
  {
    var s', u := DoTally(m, s, id), s.nodes[id].term;
    NotYetElected(m, s, id);
    assert NodeInv(m, s, id) && AckedOk(s, id, u);
    TallyGrows(m, s, id);
    LeaderEvolves(m, s, s', id);
    forall t: nat, k: nat | t < u && Marks(s.hist, t, k) ensures Marks(s'.hist, t, k) && Safe(m, s', u, t, k) {
      WinnerIsSafe(m, s, id, t, k);
      WinnerStaysSafe(m, s, s', id, u, t, k);
    }
    LeaderStep(m, s, s', id);
  }

  lemma ProposeStep(m: Membership, s: Cluster, id: NodeId, payload: seq<nat>)
    requires Inv(m, s) && id in s.nodes && s.nodes[id].role == Leader
    ensures Inv(m, DoPropose(s, id, payload))
  {
    assert NodeInv(m, s, id) && ElectedOk(m, s, s.nodes[id].term);
    LeaderStep(m, s, DoPropose(s, id, payload), id);
  }

  // ---------------------------------------------------------------------
  // Merging a leader's entries into a follower's log
  // ---------------------------------------------------------------------

  /** Comparing terms entry by entry is as good as comparing the entries: the
      merged log is the follower's own if it already contains the leader's
      prefix, and exactly that prefix otherwise. */
  lemma {:induction false} MergeIsPrefix(h: History, log: Log, full: Log, prev: nat, entries: Log)
    requires LogOk(h, log) && LogOk(h, full)
    requires prev <= |log| && prev + |entries| <= |full|
    requires entries == full[prev..prev + |entries|]
    requires log[..prev] == full[..prev]
    ensures MergeLog(log, prev, entries) ==
            if full[..prev + |entries|] <= log then log else full[..prev + |entries|]
    decreases |entries|
  {
    var p := full[..prev + |entries|];
    if entries == [] {
      assert p == log[..prev];
    } else {
      assert entries[0] == full[prev];
      if prev < |log| && log[prev].term == full[prev].term {
        SameTermSamePrefix(h, log, full, prev);
        MergeIsPrefix(h, log, full, prev + 1, entries[1..]);
      } else {
        assert log[..prev] + entries == p;
        assert prev < |log| ==> log[prev] != p[prev];
      }
    }
  }

  /** The consistency check at prev_log_index compares one term, and yet
      guarantees the whole prefix. */
  lemma CheckIsPrefix(h: History, log: Log, full: Log, prev: nat)
    requires LogOk(h, log) && LogOk(h, full) && prev <= |log| && prev <= |full|
    requires TermAt(log, prev) == TermAt(full, prev)
    ensures log[..prev] == full[..prev]
  {
    if prev > 0 {
      SameTermSamePrefix(h, log, full, prev - 1);
    }
  }

  /** What a successful AppendEntries leaves of the node: the leader's prefix
      `p` is in its log, and nothing it shared with the leader is gone. */
  ghost predicate Merged(n: Node, n': Node, t: nat, p: Log) {
    && n.term <= t == n'.term
    && n'.log == (if p <= n.log then n.log else p)
  }

  /** The outcome of a request whose consistency check succeeds. */
  lemma SuccessIs(n: Node, r: AppendRequest, concede: bool)
    requires HandleAppendRequest(n, r, concede).1.success
    ensures Matches(n.log, r.prevLogIndex, r.prevLogTerm)
    ensures var (n', reply) := HandleAppendRequest(n, r, concede);
            var last := r.prevLogIndex + |r.entries|;
            && n.term <= r.term == n'.term
            && n'.log == MergeLog(n.log, r.prevLogIndex, r.entries)
            && n'.commitIndex == Max(n.commitIndex, Min(r.leaderCommit, last))
            && n'.lastApplied == n.lastApplied && n'.votes == n.votes
            && (n'.role == Follower || (n'.role == n.role && n.term == r.term))
            && n'.votedFor == (if n.term == r.term then n.votedFor else None)
            && reply == AppendReply(r.term, true, last, |n'.log|, 0)
  {
  }

  lemma AppendMerges(h: History, n: Node, r: AppendRequest, concede: bool)
    requires r.term in h.termLog && LogOk(h, n.log) && LogOk(h, h.termLog[r.term])
    requires r.prevLogIndex + |r.entries| <= |h.termLog[r.term]|
    requires r.prevLogTerm == TermAt(h.termLog[r.term], r.prevLogIndex)
    requires r.entries == h.termLog[r.term][r.prevLogIndex..r.prevLogIndex + |r.entries|]
    requires HandleAppendRequest(n, r, concede).1.success
    ensures var n' := HandleAppendRequest(n, r, concede).0;
            var last := r.prevLogIndex + |r.entries|;
            && Merged(n, n', r.term, h.termLog[r.term][..last])
            && n'.commitIndex == Max(n.commitIndex, Min(r.leaderCommit, last))
  {
    SuccessIs(n, r, concede);
    CheckIsPrefix(h, n.log, h.termLog[r.term], r.prevLogIndex);
    MergeIsPrefix(h, n.log, h.termLog[r.term], r.prevLogIndex, r.entries);
  }

  /** A chunk shared with the leader survives the merge. */
  lemma MergeKeeps(n: Node, n': Node, t: nat, full: Log, last: nat, c: Log)
    requires last <= |full| && Merged(n, n', t, full[..last]) && c <= n.log && c <= full
    ensures c <= n'.log
  {
    var p := full[..last];
    assert |p| <= |c| ==> p == c[..|p|] && p <= n.log;
  }

  /** However stale or reordered, an AppendEntries that is accepted never removes
      what the follower shares with that leader. */
  lemma AppendKeepsShared(h: History, n: Node, r: AppendRequest, concede: bool, c: Log)
    requires r.term in h.termLog && LogOk(h, n.log) && LogOk(h, h.termLog[r.term])
    requires r.prevLogIndex + |r.entries| <= |h.termLog[r.term]|
    requires r.prevLogTerm == TermAt(h.termLog[r.term], r.prevLogIndex)
    requires r.entries == h.termLog[r.term][r.prevLogIndex..r.prevLogIndex + |r.entries|]
    requires c <= n.log && c <= h.termLog[r.term]
    ensures c <= HandleAppendRequest(n, r, concede).0.log
  {
    var (n', reply) := HandleAppendRequest(n, r, concede);
    if reply.success {
      AppendMerges(h, n, r, concede);
      MergeKeeps(n, n', r.term, h.termLog[r.term], r.prevLogIndex + |r.entries|, c);
    }
  }
}
