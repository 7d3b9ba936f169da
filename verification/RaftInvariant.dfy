/** The inductive invariant behind Raft's safety, and what every step keeps
    of it for the nodes, messages and records it does not touch. */
module RaftInvariant {
  import opened Wrappers
  import opened RaftQuorum
  import opened RaftNode
  import opened RaftCluster

  // ---------------------------------------------------------------------
  // Logs and the logs of terms
  // ---------------------------------------------------------------------

  /** An entry of term t sits in the log of term t's leader, with everything before it. */
  ghost predicate EntryOk(h: History, log: Log, i: nat)
    requires i < |log|
  {
    var t := log[i].term;
    t in h.termLog && i < |h.termLog[t]| && log[..i + 1] == h.termLog[t][..i + 1]
  }

  ghost predicate LogOk(h: History, log: Log) {
    forall i: nat :: i < |log| ==> EntryOk(h, log, i)
  }

  ghost predicate TermsUpTo(log: Log, t: nat) {
    forall i: nat :: i < |log| ==> log[i].term <= t
  }

  ghost predicate TermLogOk(h: History, t: nat)
    requires t in h.termLog
  {
    LogOk(h, h.termLog[t]) && TermsUpTo(h.termLog[t], t)
  }

  /** The first k entries of term t's log. */
  ghost function Chunk(h: History, t: nat, k: nat): Log
    requires t in h.termLog && k <= |h.termLog[t]|
  {
    h.termLog[t][..k]
  }

  /** Index k of term t's log holds an entry of that very term. */
  ghost predicate Marks(h: History, t: nat, k: nat) {
    t in h.termLog && 0 < k <= |h.termLog[t]| && h.termLog[t][k - 1].term == t
  }

  ghost predicate Lacks(h: History, t: nat, k: nat, u: nat)
    requires t in h.termLog && k <= |h.termLog[t]|
  {
    u in h.termLog && !(Chunk(h, t, k) <= h.termLog[u])
  }

  /** Some leader of a term in (t, hi] lacks the first k entries of term t's log. */
  ghost predicate Broken(h: History, t: nat, k: nat, hi: nat)
    requires t in h.termLog && k <= |h.termLog[t]|
  {
    exists u: nat :: t < u <= hi && Lacks(h, t, k, u)
  }

  // ---------------------------------------------------------------------
  // Commitment
  // ---------------------------------------------------------------------

  ghost function Holders(m: Membership, h: History, t: nat, k: nat): set<NodeId> {
    set id | id in m.Ids() && AckLen(h, id, t) >= k
  }

  /** A quorum confirmed index k of term t's log, and that entry is of term t. */
  ghost predicate Committed(m: Membership, h: History, t: nat, k: nat) {
    Marks(h, t, k) && IsQuorum(m, Holders(m, h, t, k))
  }

  ghost predicate CommittedVia(m: Membership, h: History, p: Log, t: nat, k: nat) {
    Committed(m, h, t, k) && p <= h.termLog[t][..k]
  }

  ghost predicate CommittedPrefix(m: Membership, h: History, hi: nat, p: Log) {
    p == [] || exists t: nat, k: nat :: t <= hi && CommittedVia(m, h, p, t, k)
  }

  // ---------------------------------------------------------------------
  // The invariant
  // ---------------------------------------------------------------------

  ghost predicate NodeInv(m: Membership, s: Cluster, id: NodeId)
    requires id in s.nodes
  {
    var n, h := s.nodes[id], s.hist;
    && LogOk(h, n.log) && TermsUpTo(n.log, n.term)
    && (n.role == Leader ==>
          && n.term in h.elected && h.elected[n.term] == id
          && n.term in h.termLog && n.log == h.termLog[n.term]
          && AckLen(h, id, n.term) == |n.log|
          && forall p :: p in n.matchIndex ==> p in m.Ids() && n.matchIndex[p] <= AckLen(h, p, n.term))
    && (n.role == Candidate ==>
          && n.votes <= m.Ids()
          && forall v :: v in n.votes ==> (v, n.term) in h.voted && h.voted[(v, n.term)] == id)
    && (match n.votedFor
        case None => (id, n.term) !in h.voted
        case Some(c) => (id, n.term) in h.voted && h.voted[(id, n.term)] == c)
    && n.lastApplied <= n.commitIndex <= |n.log|
    && CommittedPrefix(m, h, n.term, n.log[..n.commitIndex])
  }

  /** Node c will never again be candidate or leader in term t. */
  ghost predicate PastElection(s: Cluster, c: NodeId, t: nat)
    requires c in s.nodes
  {
    var n := s.nodes[c];
    n.term > t || (n.term == t && n.role != Candidate && n.role != Leader)
  }

  /** Node c is asking for votes in term t and the term has no leader yet. */
  ghost predicate Running(s: Cluster, c: NodeId, t: nat) {
    c in s.nodes && s.nodes[c].term == t && s.nodes[c].role == Candidate && t !in s.hist.elected
  }

  ghost predicate MsgOk(m: Membership, s: Cluster, msg: Message) {
    var h := s.hist;
    match msg
    case VoteAsk(r) =>
      && r.candidate in s.nodes
      && (r.preVote ==> PastElection(s, r.candidate, r.term))
      && (!r.preVote ==>
            && r.term <= s.nodes[r.candidate].term
            && (Running(s, r.candidate, r.term) ==>
                  && r.lastLogIndex == |s.nodes[r.candidate].log|
                  && r.lastLogTerm == LastTerm(s.nodes[r.candidate].log)))
    case VoteAnswer(v, c, r) =>
      && v in s.nodes && c in s.nodes
      && (r.granted ==>
            ((v, r.term) in h.voted && h.voted[(v, r.term)] == c) || PastElection(s, c, r.term))
    case Append(r) =>
      && r.term in h.elected && h.elected[r.term] == r.leader
      && r.term in h.termLog
      && r.prevLogIndex + |r.entries| <= |h.termLog[r.term]|
      && r.prevLogTerm == TermAt(h.termLog[r.term], r.prevLogIndex)
      && r.entries == h.termLog[r.term][r.prevLogIndex..r.prevLogIndex + |r.entries|]
      && r.leaderCommit <= |h.termLog[r.term]|
      && CommittedPrefix(m, h, r.term, h.termLog[r.term][..r.leaderCommit])
    case Ack(f, _, r) =>
      && f in s.nodes
      && (r.success ==> r.matched <= AckLen(h, f, r.term))
  }

  ghost predicate ElectedOk(m: Membership, s: Cluster, t: nat)
    requires t in s.hist.elected
  {
    var h, c := s.hist, s.hist.elected[t];
    && t in h.termLog
    && TermLogOk(h, t)
    && c in s.nodes
    && (s.nodes[c].term > t || (s.nodes[c].term == t && s.nodes[c].role != Candidate))
    && IsQuorum(m, set v | v in m.Ids() && (v, t) in h.voted && h.voted[(v, t)] == c)
  }

  ghost predicate VotedOk(s: Cluster, v: NodeId, t: nat)
    requires (v, t) in s.hist.voted
  {
    var c := s.hist.voted[(v, t)];
    v in s.nodes && t <= s.nodes[v].term && c in s.nodes && t <= s.nodes[c].term
  }

  ghost predicate AckedOk(s: Cluster, id: NodeId, t: nat) {
    AckLen(s.hist, id, t) > 0 ==>
      id in s.nodes && t in s.hist.termLog && AckLen(s.hist, id, t) <= |s.hist.termLog[t]| && t <= s.nodes[id].term
  }

  /** A node keeps what it confirmed, unless a later leader lacks it. */
  ghost predicate Kept(s: Cluster, id: NodeId, t: nat, k: nat)
    requires id in s.nodes
  {
    && t in s.hist.termLog && k <= |s.hist.termLog[t]|
    && (Chunk(s.hist, t, k) <= s.nodes[id].log || Broken(s.hist, t, k, s.nodes[id].term))
  }

  ghost predicate KeepInv(s: Cluster, id: NodeId)
    requires id in s.nodes
  {
    forall t: nat, k: nat :: 0 < k <= AckLen(s.hist, id, t) ==> Kept(s, id, t, k)
  }

  /** A vote for a running candidate vouches for what the voter had confirmed:
      the candidate has it, or an earlier leader already lacks it. */
  ghost predicate VoteSafe(s: Cluster, v: NodeId, u: nat, t: nat, k: nat)
    requires (v, u) in s.hist.voted && s.hist.voted[(v, u)] in s.nodes && u > 0
  {
    && t in s.hist.termLog && k <= |s.hist.termLog[t]|
    && (|| Chunk(s.hist, t, k) <= s.nodes[s.hist.voted[(v, u)]].log
        || Broken(s.hist, t, k, u - 1))
  }

  ghost predicate Pending(s: Cluster, v: NodeId, u: nat) {
    (v, u) in s.hist.voted && Running(s, s.hist.voted[(v, u)], u)
  }

  ghost predicate VoteInv(s: Cluster) {
    forall v: NodeId, u: nat, t: nat, k: nat {:trigger VoteSafe(s, v, u, t, k)} ::
      Pending(s, v, u) && t < u && k <= AckLen(s.hist, v, t) && Marks(s.hist, t, k) ==> VoteSafe(s, v, u, t, k)
  }

  /** The nodes that left term t without confirming index k of its log. */
  ghost function Blockers(s: Cluster, t: nat, k: nat): set<NodeId> {
    set id | id in s.nodes && s.nodes[id].term > t && AckLen(s.hist, id, t) < k
  }

  /** A later leader has index k of term t's log, or no quorum can ever confirm it. */
  ghost predicate Safe(m: Membership, s: Cluster, u: nat, t: nat, k: nat)
    requires u in s.hist.termLog && Marks(s.hist, t, k)
  {
    Chunk(s.hist, t, k) <= s.hist.termLog[u] || IsQuorum(m, Blockers(s, t, k))
  }

  ghost predicate SafeInv(m: Membership, s: Cluster) {
    forall u: nat, t: nat, k: nat {:trigger Safe(m, s, u, t, k)} ::
      u in s.hist.termLog && t < u && Marks(s.hist, t, k) ==> Safe(m, s, u, t, k)
  }

  ghost predicate AppliedOk(m: Membership, h: History, i: nat, e: Entry) {
    exists p: Log, hi: nat :: CommittedPrefix(m, h, hi, p) && 0 < i <= |p| && p[i - 1] == e
  }

  ghost predicate HistInv(m: Membership, s: Cluster) {
    && s.nodes.Keys == m.Ids()
    && s.hist.termLog.Keys == s.hist.elected.Keys
    && (forall t: nat :: t in s.hist.elected ==> ElectedOk(m, s, t))
    && (forall v: NodeId, t: nat :: (v, t) in s.hist.voted ==> VotedOk(s, v, t))
    && (forall id: NodeId, t: nat :: AckedOk(s, id, t))
    && (forall a :: a in s.applied ==> AppliedOk(m, s.hist, a.index, a.entry))
  }

  ghost predicate Inv(m: Membership, s: Cluster) {
    && HistInv(m, s)
    && (forall id :: id in s.nodes ==> NodeInv(m, s, id) && KeepInv(s, id))
    && (forall msg :: msg in s.net ==> MsgOk(m, s, msg))
    && VoteInv(s)
    && SafeInv(m, s)
  }

  // ---------------------------------------------------------------------
  // What any step may do
  // ---------------------------------------------------------------------

  ghost predicate LogExtends(t: nat, a: Log, b: Log) {
    a <= b && forall i: nat :: |a| <= i < |b| ==> b[i].term == t
  }

  ghost predicate Extends(h: History, h': History) {
    && (forall t: nat :: t in h.elected ==> t in h'.elected && h'.elected[t] == h.elected[t])
    && (forall t: nat :: t in h.termLog ==> t in h'.termLog && LogExtends(t, h.termLog[t], h'.termLog[t]))
    && (forall v: NodeId, t: nat :: (v, t) in h.voted ==> (v, t) in h'.voted && h'.voted[(v, t)] == h.voted[(v, t)])
    && (forall id: NodeId, t: nat :: AckLen(h, id, t) <= AckLen(h', id, t))
  }

  ghost predicate NodeEvolves(h': History, a: Node, b: Node) {
    && a.term <= b.term
    && (a.term == b.term && b.role == Candidate ==> a.role == Candidate && (b.term in h'.elected || a.log == b.log))
    && (a.term == b.term && b.role == Leader ==> a.role == Candidate || a.role == Leader)
  }

  /** One node changes, terms never fall, records only grow, and a node
      confirms entries only in the term it is in. */
  ghost predicate Evolves(s: Cluster, s': Cluster, id: NodeId) {
    && id in s.nodes && id in s'.nodes
    && s'.nodes == s.nodes[id := s'.nodes[id]]
    && NodeEvolves(s'.hist, s.nodes[id], s'.nodes[id])
    && Extends(s.hist, s'.hist)
    && s.applied <= s'.applied
    && (forall v: NodeId, t: nat :: AckLen(s.hist, v, t) != AckLen(s'.hist, v, t) ==>
          v == id && s'.nodes[id].term == t)
  }

  lemma ExtendsItself(h: History)
    ensures Extends(h, h)
  {
  }

  lemma VoteExtends(h: History, id: NodeId, t: nat, c: NodeId)
    requires (id, t) in h.voted ==> h.voted[(id, t)] == c
    ensures Extends(h, RecordVote(h, id, t, c))
  {
    assert RecordVote(h, id, t, c).(voted := h.voted) == h;
  }

  lemma RecordAckExtends(h: History, id: NodeId, t: nat, k: nat)
    ensures Extends(h, RecordAck(h, id, t, k))
  {
  }

  lemma LeaderRecordExtends(h: History, id: NodeId, t: nat, log: Log, log': Log)
    requires t in h.elected ==> h.elected[t] == id && t in h.termLog && h.termLog[t] == log
    requires h.termLog.Keys == h.elected.Keys
    requires |log'| == |log| + 1 && log <= log' && log'[|log|].term == t
    ensures Extends(h, RecordLeaderLog(h, id, t, log'))
  {
    assert LogExtends(t, log, log');
  }

  // ---------------------------------------------------------------------
  // Stability
  // ---------------------------------------------------------------------

  lemma LogOkStable(h: History, h': History, log: Log)
    requires LogOk(h, log) && Extends(h, h')
    ensures LogOk(h', log)
  {
    forall i: nat | i < |log| ensures EntryOk(h', log, i) {
      assert EntryOk(h, log, i);
    }
  }

  /** Entries of a consistent log never go down in term. */
  lemma TermsMonotone(h: History, log: Log, i: nat, j: nat)
    requires LogOk(h, log) && i <= j < |log|
    requires forall t: nat :: t in h.termLog ==> TermLogOk(h, t)
    ensures log[i].term <= log[j].term
  {
    assert EntryOk(h, log, j);
    var t := log[j].term;
    assert TermLogOk(h, t);
    assert log[i] == log[..j + 1][i] == h.termLog[t][..j + 1][i] == h.termLog[t][i];
  }

  /** Logs that agree in term at an index agree up to it. */
  lemma SameTermSamePrefix(h: History, a: Log, b: Log, i: nat)
    requires LogOk(h, a) && LogOk(h, b) && i < |a| && i < |b| && a[i].term == b[i].term
    ensures a[..i + 1] == b[..i + 1]
  {
    assert EntryOk(h, a, i) && EntryOk(h, b, i);
  }

  lemma LacksStable(h: History, h': History, t: nat, k: nat, u: nat)
    requires Extends(h, h') && t in h.termLog && TermLogOk(h, t) && k <= |h.termLog[t]|
    requires t < u && u in h.termLog
    ensures h'.termLog[t][..k] == h.termLog[t][..k]
    ensures Chunk(h, t, k) <= h.termLog[u] <==> Chunk(h', t, k) <= h'.termLog[u]
  {
    var c, a, b := Chunk(h, t, k), h.termLog[u], h'.termLog[u];
    assert LogExtends(t, h.termLog[t], h'.termLog[t]) && LogExtends(u, a, b);
    assert Chunk(h', t, k) == c;
    if |a| < |c| {
      assert c[|a|].term <= t;
    }
  }

  lemma BrokenStable(h: History, h': History, t: nat, k: nat, hi: nat, hi': nat)
    requires Extends(h, h') && t in h.termLog && TermLogOk(h, t) && k <= |h.termLog[t]| && hi <= hi'
    requires t in h'.termLog && k <= |h'.termLog[t]|
    requires Broken(h, t, k, hi)
    ensures Broken(h', t, k, hi')
  {
    var u: nat :| t < u <= hi && Lacks(h, t, k, u);
    LacksStable(h, h', t, k, u);
    assert Lacks(h', t, k, u);
  }

  lemma CommittedStable(m: Membership, h: History, h': History, t: nat, k: nat)
    requires Extends(h, h') && Committed(m, h, t, k)
    ensures Committed(m, h', t, k) && h'.termLog[t][..k] == h.termLog[t][..k]
  {
    assert LogExtends(t, h.termLog[t], h'.termLog[t]);
    assert forall id :: id in Holders(m, h, t, k) ==> id in Holders(m, h', t, k);
    QuorumGrows(m, Holders(m, h, t, k), Holders(m, h', t, k));
  }

  lemma CommittedPrefixStable(m: Membership, h: History, h': History, hi: nat, hi': nat, p: Log)
    requires Extends(h, h') && CommittedPrefix(m, h, hi, p) && hi <= hi'
    ensures CommittedPrefix(m, h', hi', p)
  {
    if p != [] {
      var t: nat, k: nat :| t <= hi && CommittedVia(m, h, p, t, k);
      CommittedStable(m, h, h', t, k);
      assert CommittedVia(m, h', p, t, k);
    }
  }

  lemma NodeInvStable(m: Membership, s: Cluster, s': Cluster, id: NodeId, other: NodeId)
    requires Inv(m, s) && Evolves(s, s', id) && other in s.nodes && other != id
    requires s'.hist.termLog.Keys == s'.hist.elected.Keys
    requires s.nodes[other].role == Leader ==>
               s'.hist.termLog[s.nodes[other].term] == s.hist.termLog[s.nodes[other].term]
    requires (other, s.nodes[other].term) in s'.hist.voted ==> (other, s.nodes[other].term) in s.hist.voted
    ensures NodeInv(m, s', other)
  {
    var n, h, h' := s.nodes[other], s.hist, s'.hist;
    assert NodeInv(m, s, other);
    LogOkStable(h, h', n.log);
    CommittedPrefixStable(m, h, h', n.term, n.term, n.log[..n.commitIndex]);
    assert s'.nodes[other] == n;
  }

  lemma MsgOkStable(m: Membership, s: Cluster, s': Cluster, id: NodeId, msg: Message)
    requires Evolves(s, s', id) && MsgOk(m, s, msg)
    ensures MsgOk(m, s', msg)
  {
    if msg.Append? {
      AppendOkStable(m, s, s', msg.append);
    }
  }

  lemma AppendOkStable(m: Membership, s: Cluster, s': Cluster, r: AppendRequest)
    requires Extends(s.hist, s'.hist) && MsgOk(m, s, Append(r))
    ensures MsgOk(m, s', Append(r))
  {
    var h, h' := s.hist, s'.hist;
    var a, b := h.termLog[r.term], h'.termLog[r.term];
    assert LogExtends(r.term, a, b);
    CommittedPrefixStable(m, h, h', r.term, r.term, a[..r.leaderCommit]);
    assert a[..r.leaderCommit] == b[..r.leaderCommit];
    assert r.entries == b[r.prevLogIndex..r.prevLogIndex + |r.entries|];
  }

  lemma KeptStable(s: Cluster, s': Cluster, id: NodeId, other: NodeId, t: nat, k: nat)
    requires Evolves(s, s', id) && other in s.nodes
    requires t in s.hist.termLog && TermLogOk(s.hist, t)
    requires Kept(s, other, t, k)
    requires s.nodes[other].log <= s'.nodes[other].log
    ensures Kept(s', other, t, k)
  {
    var h, h' := s.hist, s'.hist;
    assert LogExtends(t, h.termLog[t], h'.termLog[t]);
    if Broken(h, t, k, s.nodes[other].term) {
      BrokenStable(h, h', t, k, s.nodes[other].term, s'.nodes[other].term);
    } else {
      assert Chunk(h', t, k) == Chunk(h, t, k);
    }
  }

  /** A vote that was already pending stays safe. */
  lemma VoteSafeStable(m: Membership, s: Cluster, s': Cluster, id: NodeId, v: NodeId, u: nat, t: nat, k: nat)
    requires Inv(m, s) && Evolves(s, s', id)
    requires (v, u) in s.hist.voted && Pending(s', v, u) && t < u
    requires 0 < k <= AckLen(s'.hist, v, t) && Marks(s'.hist, t, k)
    ensures VoteSafe(s', v, u, t, k)
  {
    var h, h' := s.hist, s'.hist;
    var c := h.voted[(v, u)];
    assert VotedOk(s, v, u);
    assert AckLen(h, v, t) == AckLen(h', v, t);
    assert AckedOk(s, v, t);
    assert LogExtends(t, h.termLog[t], h'.termLog[t]);
    assert Marks(h, t, k);
    assert Pending(s, v, u);
    assert VoteSafe(s, v, u, t, k);
    assert ElectedOk(m, s, t);
    StillVouches(s, s', id, c, u, t, k);
  }

  lemma StillVouches(s: Cluster, s': Cluster, id: NodeId, c: NodeId, u: nat, t: nat, k: nat)
    requires Evolves(s, s', id) && Running(s, c, u) && Running(s', c, u) && t < u
    requires t in s.hist.termLog && TermLogOk(s.hist, t) && k <= |s.hist.termLog[t]|
    requires Chunk(s.hist, t, k) <= s.nodes[c].log || Broken(s.hist, t, k, u - 1)
    ensures t in s'.hist.termLog && k <= |s'.hist.termLog[t]|
    ensures Chunk(s'.hist, t, k) <= s'.nodes[c].log || Broken(s'.hist, t, k, u - 1)
  {
    var h, h' := s.hist, s'.hist;
    assert LogExtends(t, h.termLog[t], h'.termLog[t]);
    if Broken(h, t, k, u - 1) {
      BrokenStable(h, h', t, k, u - 1, u - 1);
    } else {
      assert Chunk(h', t, k) == Chunk(h, t, k);
    }
  }

  lemma BlockersGrow(m: Membership, s: Cluster, s': Cluster, id: NodeId, t: nat, k: nat)
    requires Evolves(s, s', id) && IsQuorum(m, Blockers(s, t, k))
    ensures IsQuorum(m, Blockers(s', t, k))
  {
    assert forall x :: x in Blockers(s, t, k) ==> x in Blockers(s', t, k);
    QuorumGrows(m, Blockers(s, t, k), Blockers(s', t, k));
  }

  lemma SafeStable(m: Membership, s: Cluster, s': Cluster, id: NodeId, u: nat, t: nat, k: nat)
    requires Inv(m, s) && Evolves(s, s', id)
    requires u in s.hist.termLog && t < u && Marks(s.hist, t, k)
    ensures Marks(s'.hist, t, k) && u in s'.hist.termLog && Safe(m, s', u, t, k)
  {
    var h, h' := s.hist, s'.hist;
    assert LogExtends(t, h.termLog[t], h'.termLog[t]);
    assert ElectedOk(m, s, t);
    assert Safe(m, s, u, t, k);
    LacksStable(h, h', t, k, u);
    if IsQuorum(m, Blockers(s, t, k)) {
      BlockersGrow(m, s, s', id, t, k);
    }
  }

  lemma ElectedOkStable(m: Membership, s: Cluster, s': Cluster, id: NodeId, t: nat)
    requires Evolves(s, s', id) && t in s.hist.elected && ElectedOk(m, s, t)
    requires s'.hist.termLog[t] == s.hist.termLog[t]
    ensures t in s'.hist.elected && ElectedOk(m, s', t)
  {
    var h, h' := s.hist, s'.hist;
    LogOkStable(h, h', h.termLog[t]);
    var c := h.elected[t];
    var a := set v | v in m.Ids() && (v, t) in h.voted && h.voted[(v, t)] == c;
    var b := set v | v in m.Ids() && (v, t) in h'.voted && h'.voted[(v, t)] == c;
    forall v | v in a ensures v in b {
      assert (v, t) in h.voted;
    }
    QuorumGrows(m, a, b);
  }

  lemma AppliedStable(m: Membership, h: History, h': History, i: nat, e: Entry)
    requires Extends(h, h') && AppliedOk(m, h, i, e)
    ensures AppliedOk(m, h', i, e)
  {
    var p: Log, hi: nat :| CommittedPrefix(m, h, hi, p) && 0 < i <= |p| && p[i - 1] == e;
    CommittedPrefixStable(m, h, h', hi, hi, p);
  }
}
