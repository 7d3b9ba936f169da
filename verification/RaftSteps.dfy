/** The steps that carry Raft's safety argument: elections, votes, taking
    leadership, and appending to logs. */
module RaftSteps {
  import opened RaftQuorum
  import opened RaftNode
  import opened RaftCluster
  import opened RaftInvariant
  import opened RaftProof

  // ---------------------------------------------------------------------
  // Votes
  // ---------------------------------------------------------------------

  /** The election restriction: a voter whose log the candidate's log is at
      least as up to date as vouches for everything the voter confirmed. */
  lemma VouchOk(m: Membership, s: Cluster, v: NodeId, c: NodeId, u: nat, t: nat, k: nat)
    requires Inv(m, s) && v in s.nodes && Running(s, c, u) && s.nodes[v].term <= u
    requires LogIsUpToDate(s.nodes[v].log, |s.nodes[c].log|, LastTerm(s.nodes[c].log))
    requires t < u && Marks(s.hist, t, k) && k <= AckLen(s.hist, v, t)
    ensures Chunk(s.hist, t, k) <= s.nodes[c].log || Broken(s.hist, t, k, u - 1)
  {
    var h, a, l := s.hist, s.nodes[v].log, s.nodes[c].log;
    assert KeepInv(s, v) && Kept(s, v, t, k);
    if Broken(h, t, k, s.nodes[v].term) {
      var w: nat :| t < w <= s.nodes[v].term && Lacks(h, t, k, w);
      assert w != u && w <= u - 1;
    } else {
      assert NodeInv(m, s, v) && NodeInv(m, s, c);
      assert forall x: nat :: x in h.termLog ==> ElectedOk(m, s, x);
      UpToDateHolds(h, a, l, u, t, k);
    }
  }

  lemma UpToDateHolds(h: History, a: Log, l: Log, u: nat, t: nat, k: nat)
    requires LogOk(h, a) && LogOk(h, l) && TermsUpTo(l, u) && u !in h.termLog
    requires forall x: nat :: x in h.termLog ==> TermLogOk(h, x)
    requires Marks(h, t, k) && t < u && Chunk(h, t, k) <= a
    requires LogIsUpToDate(a, |l|, LastTerm(l))
    ensures Chunk(h, t, k) <= l || Broken(h, t, k, u - 1)
  {
    var c := Chunk(h, t, k);
    assert a[k - 1] == c[k - 1] && a[k - 1].term == t;
    TermsMonotone(h, a, k - 1, |a| - 1);
    assert |l| > 0;
    var last := LastTerm(l);
    assert EntryOk(h, l, |l| - 1) && l == l[..|l|];
    if last > t {
      if Lacks(h, t, k, last) {
        assert last <= u - 1;
      } else {
        assert TermLogOk(h, t);
        assert c <= l;
      }
    } else {
      assert c <= l;
    }
  }

  /** Node id casts its vote of the term it is now in for c. */
  ghost predicate Casts(s: Cluster, s': Cluster, id: NodeId, c: NodeId) {
    && id in s.nodes && id in s'.nodes && c in s'.nodes
    && s'.nodes == s.nodes[id := s'.nodes[id]] && s'.applied == s.applied
    && var u := s'.nodes[id].term;
       && s'.hist == RecordVote(s.hist, id, u, c)
       && NodeEvolves(s'.hist, s.nodes[id], s'.nodes[id]) && s'.nodes[id].log == s.nodes[id].log
       && ((id, u) in s.hist.voted ==> s.hist.voted[(id, u)] == c)
       && u <= s'.nodes[c].term
  }

  /** If c is running, it has what the voter confirmed in earlier terms, or an
      earlier leader lacks it. */
  ghost predicate Vouches(s: Cluster, s': Cluster, id: NodeId, c: NodeId)
    requires id in s'.nodes && c in s'.nodes
  {
    var u := s'.nodes[id].term;
    forall t: nat, k: nat :: Pending(s', id, u) && t < u && k <= AckLen(s.hist, id, t) && Marks(s.hist, t, k) ==>
      Chunk(s.hist, t, k) <= s'.nodes[c].log || Broken(s.hist, t, k, u - 1)
  }

  lemma CastEvolves(s: Cluster, s': Cluster, id: NodeId, c: NodeId)
    requires Casts(s, s', id, c)
    ensures Evolves(s, s', id)
  {
    VoteExtends(s.hist, id, s'.nodes[id].term, c);
  }

  /** Recording a vote the node has just cast. */
  lemma VoteRecorded(m: Membership, s: Cluster, s': Cluster, id: NodeId, c: NodeId)
    requires Inv(m, s) && Casts(s, s', id, c) && Vouches(s, s', id, c) && NodeInv(m, s', id)
    requires forall msg :: msg in s'.net && msg !in s.net ==> MsgOk(m, s', msg)
    ensures Inv(m, s')
  {
    CastEvolves(s, s', id, c);
    NewVoteSafe(m, s, s', id, c);
    KeepInvStable(m, s, s', id, id);
    NothingElected(m, s, s', id);
    Assemble(m, s, s', id);
  }

  lemma NewVoteSafe(m: Membership, s: Cluster, s': Cluster, id: NodeId, c: NodeId)
    requires HistInv(m, s) && Evolves(s, s', id) && Casts(s, s', id, c) && Vouches(s, s', id, c)
    ensures NewVotesOk(s, s', id)
  {
    var u := s'.nodes[id].term;
    forall t: nat, k: nat | Pending(s', id, u) && t < u && k <= AckLen(s'.hist, id, t) && Marks(s'.hist, t, k)
      ensures VoteSafe(s', id, u, t, k)
    {
      assert AckLen(s'.hist, id, t) == AckLen(s.hist, id, t) && Marks(s.hist, t, k);
      if Broken(s.hist, t, k, u - 1) {
        assert ElectedOk(m, s, t);
        BrokenStable(s.hist, s'.hist, t, k, u - 1, u - 1);
      }
    }
  }

  lemma ElectStep(m: Membership, s: Cluster, id: NodeId)
    requires Inv(m, s) && id in s.nodes && s.nodes[id].role != Leader
    ensures Inv(m, DoElect(s, id))
  {
    var s' := DoElect(s, id);
    assert NodeInv(m, s, id) && KeepInv(s, id);
    NoVoteAhead(m, s, id, s.nodes[id].term + 1);
    ElectNodeOk(m, s, id);
    ElectVouches(s, id);
    VoteRecorded(m, s, s', id, id);
  }

  /** A node vouches for itself. */
  lemma ElectVouches(s: Cluster, id: NodeId)
    requires id in s.nodes && KeepInv(s, id)
    ensures Vouches(s, DoElect(s, id), id, id)
  {
    var u := s.nodes[id].term + 1;
    forall t: nat, k: nat | k <= AckLen(s.hist, id, t) && Marks(s.hist, t, k)
      ensures Chunk(s.hist, t, k) <= s.nodes[id].log || Broken(s.hist, t, k, u - 1)
    {
      assert Kept(s, id, t, k);
    }
  }

  lemma ElectNodeOk(m: Membership, s: Cluster, id: NodeId)
    requires id in s.nodes && NodeInv(m, s, id) && id in m.Ids() && (id, s.nodes[id].term + 1) !in s.hist.voted
    ensures NodeInv(m, DoElect(s, id), id)
  {
    var s', n := DoElect(s, id), s.nodes[id];
    VoteExtends(s.hist, id, n.term + 1, id);
    LogOkStable(s.hist, s'.hist, n.log);
    CommittedPrefixStable(m, s.hist, s'.hist, n.term, n.term + 1, n.log[..n.commitIndex]);
  }

  lemma VoteAskStep(m: Membership, s: Cluster, id: NodeId, r: VoteRequest)
    requires Inv(m, s) && id in s.nodes && VoteAsk(r) in s.net && r.candidate != id
    ensures Inv(m, ReceiveVoteAsk(s, id, r))
  {
    var s', n := ReceiveVoteAsk(s, id, r), s.nodes[id];
    var reply := HandleVoteRequest(n, r).1;
    assert NodeInv(m, s, id) && MsgOk(m, s, VoteAsk(r));
    if reply.granted && !r.preVote {
      GrantStep(m, s, id, r);
    } else {
      NoVoteCast(m, s, id, r);
      if s'.nodes[id] == n {
        RefuseOk(m, s, s', id);
      } else {
        FollowerOk(m, s, s', id, r.term);
      }
      QuietStep(m, s, s', id);
    }
  }

  /** A refusal, or the answer to a pre-vote. */
  lemma NoVoteCast(m: Membership, s: Cluster, id: NodeId, r: VoteRequest)
    requires id in s.nodes && MsgOk(m, s, VoteAsk(r)) && r.candidate != id
    requires !HandleVoteRequest(s.nodes[id], r).1.granted || r.preVote
    ensures var s', n := ReceiveVoteAsk(s, id, r), s.nodes[id];
            && s'.nodes == s.nodes[id := s'.nodes[id]] && s'.hist == s.hist && s'.applied == s.applied
            && (s'.nodes[id] == n || s'.nodes[id] == BecomeFollower(n, r.term))
            && forall msg :: msg in s'.net && msg !in s.net ==> MsgOk(m, s', msg)
  {
  }

  lemma RefuseOk(m: Membership, s: Cluster, s': Cluster, id: NodeId)
    requires id in s.nodes && NodeInv(m, s, id) && s'.nodes == s.nodes[id := s.nodes[id]] && s'.hist == s.hist
    ensures NodeInv(m, s', id)
  {
  }

  lemma GrantStep(m: Membership, s: Cluster, id: NodeId, r: VoteRequest)
    requires Inv(m, s) && id in s.nodes && VoteAsk(r) in s.net && r.candidate != id
    requires HandleVoteRequest(s.nodes[id], r).1.granted && !r.preVote
    ensures Inv(m, ReceiveVoteAsk(s, id, r))
  {
    assert NodeInv(m, s, id) && MsgOk(m, s, VoteAsk(r));
    if r.term > s.nodes[id].term { NoVoteAhead(m, s, id, r.term); }
    GrantCasts(m, s, id, r);
    GrantNodeOk(m, s, id, r);
    GrantVouches(m, s, id, r);
    GrantAnswers(m, s, id, r);
    VoteRecorded(m, s, ReceiveVoteAsk(s, id, r), id, r.candidate);
  }

  /** A vote granted is the node's only one in that term. */
  lemma GrantIsNew(m: Membership, s: Cluster, id: NodeId, r: VoteRequest)
    requires id in s.nodes && NodeInv(m, s, id)
    requires HandleVoteRequest(s.nodes[id], r).1.granted && !r.preVote
    requires r.term > s.nodes[id].term ==> (id, r.term) !in s.hist.voted
    ensures (id, r.term) in s.hist.voted ==> s.hist.voted[(id, r.term)] == r.candidate
    ensures HandleVoteRequest(s.nodes[id], r).0.term == r.term
  {
  }

  lemma GrantCasts(m: Membership, s: Cluster, id: NodeId, r: VoteRequest)
    requires id in s.nodes && NodeInv(m, s, id) && MsgOk(m, s, VoteAsk(r)) && r.candidate != id
    requires HandleVoteRequest(s.nodes[id], r).1.granted && !r.preVote
    requires r.term > s.nodes[id].term ==> (id, r.term) !in s.hist.voted
    ensures Casts(s, ReceiveVoteAsk(s, id, r), id, r.candidate)
  {
    GrantIsNew(m, s, id, r);
  }

  /** A granted request of a candidate still running was made with its present log. */
  lemma GrantedTo(m: Membership, s: Cluster, id: NodeId, r: VoteRequest)
    requires id in s.nodes && MsgOk(m, s, VoteAsk(r)) && r.candidate != id
    requires HandleVoteRequest(s.nodes[id], r).1.granted && !r.preVote
    ensures var s', c := ReceiveVoteAsk(s, id, r), r.candidate;
            && s'.nodes[id].term == r.term >= s.nodes[id].term
            && c in s'.nodes && s'.nodes[c] == s.nodes[c]
            && (Pending(s', id, r.term) ==>
                  Running(s, c, r.term)
                  && LogIsUpToDate(s.nodes[id].log, |s.nodes[c].log|, LastTerm(s.nodes[c].log)))
  {
  }

  lemma GrantVouches(m: Membership, s: Cluster, id: NodeId, r: VoteRequest)
    requires Inv(m, s) && id in s.nodes && VoteAsk(r) in s.net && r.candidate != id
    requires HandleVoteRequest(s.nodes[id], r).1.granted && !r.preVote
    requires r.candidate in ReceiveVoteAsk(s, id, r).nodes
    ensures Vouches(s, ReceiveVoteAsk(s, id, r), id, r.candidate)
  {
    var c := r.candidate;
    assert MsgOk(m, s, VoteAsk(r));
    GrantedTo(m, s, id, r);
    if Pending(ReceiveVoteAsk(s, id, r), id, r.term) {
      VouchesAll(m, s, id, c, r.term);
    }
  }

  lemma VouchesAll(m: Membership, s: Cluster, id: NodeId, c: NodeId, u: nat)
    requires Inv(m, s) && id in s.nodes && Running(s, c, u) && s.nodes[id].term <= u
    requires LogIsUpToDate(s.nodes[id].log, |s.nodes[c].log|, LastTerm(s.nodes[c].log))
    ensures forall t: nat, k: nat :: t < u && k <= AckLen(s.hist, id, t) && Marks(s.hist, t, k) ==>
              Chunk(s.hist, t, k) <= s.nodes[c].log || Broken(s.hist, t, k, u - 1)
  {
    forall t: nat, k: nat | t < u && k <= AckLen(s.hist, id, t) && Marks(s.hist, t, k)
      ensures Chunk(s.hist, t, k) <= s.nodes[c].log || Broken(s.hist, t, k, u - 1)
    {
      VouchOk(m, s, id, c, u, t, k);
    }
  }

  lemma GrantAnswers(m: Membership, s: Cluster, id: NodeId, r: VoteRequest)
    requires id in s.nodes && Casts(s, ReceiveVoteAsk(s, id, r), id, r.candidate)
    requires HandleVoteRequest(s.nodes[id], r).1.granted && !r.preVote
    ensures var s' := ReceiveVoteAsk(s, id, r); forall msg :: msg in s'.net && msg !in s.net ==> MsgOk(m, s', msg)
  {
  }

  lemma GrantNodeOk(m: Membership, s: Cluster, id: NodeId, r: VoteRequest)
    requires id in s.nodes && NodeInv(m, s, id)
    requires HandleVoteRequest(s.nodes[id], r).1.granted && !r.preVote
    requires Casts(s, ReceiveVoteAsk(s, id, r), id, r.candidate)
    ensures NodeInv(m, ReceiveVoteAsk(s, id, r), id)
  {
    var s' := ReceiveVoteAsk(s, id, r);
    CastEvolves(s, s', id, r.candidate);
    VoterOk(m, s, s', id);
  }

  /** A node that votes keeps all else, or falls back to follower in a later term. */
  lemma VoterOk(m: Membership, s: Cluster, s': Cluster, id: NodeId)
    requires id in s.nodes && id in s'.nodes && NodeInv(m, s, id) && Extends(s.hist, s'.hist)
    requires s'.hist == s.hist.(voted := s'.hist.voted)
    requires var n, n', h' := s.nodes[id], s'.nodes[id], s'.hist;
             && n.term <= n'.term && n'.log == n.log && n'.lastApplied == n.lastApplied
             && n'.commitIndex == n.commitIndex
             && (n'.role == Follower || n' == n.(votedFor := n'.votedFor))
             && n'.votedFor.Some? && (id, n'.term) in h'.voted && h'.voted[(id, n'.term)] == n'.votedFor.value
    ensures NodeInv(m, s', id)
  {
    var n := s.nodes[id];
    LogOkStable(s.hist, s'.hist, n.log);
    CommittedPrefixStable(m, s.hist, s'.hist, n.term, s'.nodes[id].term, n.log[..n.commitIndex]);
  }
}
