/** Raft's safety theorems, over every run of the cluster. */
module RaftSafety {
  import opened Wrappers
  import opened RaftQuorum
  import opened RaftNode
  import opened RaftCluster
  import opened RaftInvariant
  import opened RaftProof
  import opened RaftSteps
  import opened RaftReplication
  import opened RaftAppend

  // ---------------------------------------------------------------------
  // Records only grow along a run
  // ---------------------------------------------------------------------

  /** The records after a step extend those before it. */
  ghost predicate Grows(s: Cluster, s': Cluster) {
    Extends(s.hist, s'.hist) && s.applied <= s'.applied
  }

  lemma SameRecords(s: Cluster, s': Cluster)
    requires s'.hist == s.hist && s.applied <= s'.applied
    ensures Grows(s, s')
  {
    ExtendsItself(s.hist);
  }

  lemma StepExtends(m: Membership, s: Cluster, step: Step)
    requires Inv(m, s) && Enabled(m, s, step)
    ensures Grows(s, Perform(m, s, step))
  {
    match step {
      case Elect(id) =>
        NoVoteAhead(m, s, id, s.nodes[id].term + 1);
        ElectExtends(s, id);
      case Tally(id) => TallyExtends(m, s, id);
      case Receive(_, _, _) => ReceiveExtends(m, s, step);
      case ClientPropose(id, payload) => ProposeExtends(m, s, id, payload);
      case _ => SameRecords(s, Perform(m, s, step));
    }
  }

  lemma ReceiveExtends(m: Membership, s: Cluster, step: Step)
    requires Inv(m, s) && Enabled(m, s, step) && step.Receive?
    ensures Grows(s, Perform(m, s, step))
  {
    match step.msg {
      case VoteAsk(r) =>
        assert NodeInv(m, s, step.id);
        if r.term > s.nodes[step.id].term { NoVoteAhead(m, s, step.id, r.term); }
        VoteRecordExtends(m, s, step.id, r);
      case Append(r) => AckRecordExtends(s, step.id, r, step.concede);
      case _ => SameRecords(s, Perform(m, s, step));
    }
  }

  lemma ElectExtends(s: Cluster, id: NodeId)
    requires id in s.nodes && (id, s.nodes[id].term + 1) !in s.hist.voted
    ensures Grows(s, DoElect(s, id))
  {
    VoteExtends(s.hist, id, s.nodes[id].term + 1, id);
  }

  lemma AckRecordExtends(s: Cluster, id: NodeId, r: AppendRequest, concede: bool)
    requires id in s.nodes
    ensures Grows(s, ReceiveAppend(s, id, r, concede))
  {
    var (n, reply) := HandleAppendRequest(s.nodes[id], r, concede);
    RecordAckExtends(s.hist, id, n.term, reply.matched);
    ExtendsItself(s.hist);
  }

  lemma TallyExtends(m: Membership, s: Cluster, id: NodeId)
    requires Inv(m, s) && id in s.nodes && s.nodes[id].role == Candidate && IsQuorum(m, s.nodes[id].votes)
    ensures Grows(s, DoTally(m, s, id))
  {
    var n := s.nodes[id];
    NotYetElected(m, s, id);
    LeaderRecordExtends(s.hist, id, n.term, n.log, n.log + [Entry(n.term, NoOp)]);
  }

  lemma ProposeExtends(m: Membership, s: Cluster, id: NodeId, payload: seq<nat>)
    requires Inv(m, s) && id in s.nodes && s.nodes[id].role == Leader
    ensures Grows(s, DoPropose(s, id, payload))
  {
    var n := s.nodes[id];
    assert NodeInv(m, s, id);
    LeaderRecordExtends(s.hist, id, n.term, n.log, n.log + [Entry(n.term, User(payload))]);
  }

  lemma VoteRecordExtends(m: Membership, s: Cluster, id: NodeId, r: VoteRequest)
    requires id in s.nodes && NodeInv(m, s, id) && (r.term > s.nodes[id].term ==> (id, r.term) !in s.hist.voted)
    ensures Grows(s, ReceiveVoteAsk(s, id, r))
  {
    if HandleVoteRequest(s.nodes[id], r).1.granted && !r.preVote {
      GrantIsNew(m, s, id, r);
      VoteExtends(s.hist, id, r.term, r.candidate);
    } else {
      SameRecords(s, ReceiveVoteAsk(s, id, r));
    }
  }

  lemma ExtendsTransitive(a: History, b: History, c: History)
    requires Extends(a, b) && Extends(b, c)
    ensures Extends(a, c)
  {
    forall t: nat | t in a.termLog ensures LogExtends(t, a.termLog[t], c.termLog[t]) {
      assert LogExtends(t, a.termLog[t], b.termLog[t]) && LogExtends(t, b.termLog[t], c.termLog[t]);
    }
    forall id: NodeId, t: nat ensures AckLen(a, id, t) <= AckLen(c, id, t) {
      assert AckLen(a, id, t) <= AckLen(b, id, t) && AckLen(b, id, t) <= AckLen(c, id, t);
    }
  }

  lemma {:induction false} RunExtends(m: Membership, run: seq<Cluster>, steps: seq<Step>, i: nat, j: nat)
    requires IsRun(m, run, steps) && i <= j < |run|
    ensures Extends(run[i].hist, run[j].hist) && run[i].applied <= run[j].applied
    decreases j
  {
    if i == j {
      ExtendsItself(run[i].hist);
    } else {
      RunExtends(m, run, steps, i, j - 1);
      RunStepExtends(m, run, steps, j - 1);
      ExtendsTransitive(run[i].hist, run[j - 1].hist, run[j].hist);
    }
  }

  lemma RunStepExtends(m: Membership, run: seq<Cluster>, steps: seq<Step>, i: nat)
    requires IsRun(m, run, steps) && i + 1 < |run|
    ensures Extends(run[i].hist, run[i + 1].hist) && run[i].applied <= run[i + 1].applied
  {
    RunInv(m, run, steps, i);
    assert StepAt(m, run, steps, i);
    StepExtends(m, run[i], steps[i]);
  }

  /** The parts of the invariant the theorems use. */
  lemma RunNode(m: Membership, run: seq<Cluster>, steps: seq<Step>, i: nat, id: NodeId)
    requires IsRun(m, run, steps) && i < |run| && id in run[i].nodes
    ensures NodeInv(m, run[i], id)
  {
    RunInv(m, run, steps, i);
  }

  lemma RunLogs(m: Membership, run: seq<Cluster>, steps: seq<Step>, n: nat, id: NodeId)
    requires IsRun(m, run, steps) && n < |run| && id in run[n].nodes
    ensures LogOk(run[n].hist, run[n].nodes[id].log)
  {
    RunNode(m, run, steps, n, id);
  }

  lemma RunSafe(m: Membership, run: seq<Cluster>, steps: seq<Step>, i: nat)
    requires IsRun(m, run, steps) && i < |run|
    ensures SafeInv(m, run[i])
  {
    RunInv(m, run, steps, i);
  }

  // ---------------------------------------------------------------------
  // Elections
  // ---------------------------------------------------------------------

  /** Election safety: over a whole run, a term has at most one leader. */
  lemma ElectionSafety(m: Membership, run: seq<Cluster>, steps: seq<Step>, i: nat, j: nat, a: NodeId, b: NodeId)
    requires IsRun(m, run, steps) && i < |run| && j < |run|
    requires a in run[i].nodes && b in run[j].nodes
    requires run[i].nodes[a].role == Leader && run[j].nodes[b].role == Leader
    requires run[i].nodes[a].term == run[j].nodes[b].term
    ensures a == b
  {
    if i > j {
      ElectionSafety(m, run, steps, j, i, b, a);
    } else {
      RunNode(m, run, steps, i, a);
      RunNode(m, run, steps, j, b);
      RunExtends(m, run, steps, i, j);
    }
  }

  /** A node votes for at most one candidate in a term, restarts included. */
  lemma OneVotePerTerm(m: Membership, run: seq<Cluster>, steps: seq<Step>, i: nat, j: nat, v: NodeId)
    requires IsRun(m, run, steps) && i < |run| && j < |run|
    requires v in run[i].nodes && v in run[j].nodes && run[i].nodes[v].term == run[j].nodes[v].term
    requires run[i].nodes[v].votedFor.Some? && run[j].nodes[v].votedFor.Some?
    ensures run[i].nodes[v].votedFor == run[j].nodes[v].votedFor
  {
    if i > j {
      OneVotePerTerm(m, run, steps, j, i, v);
    } else {
      RunNode(m, run, steps, i, v);
      RunNode(m, run, steps, j, v);
      RunExtends(m, run, steps, i, j);
    }
  }

  /** Node v persisted a vote for c in term t at some state of the run up to i. */
  ghost predicate CastBy(run: seq<Cluster>, i: nat, v: NodeId, t: nat, c: NodeId) {
    exists j: nat :: j <= i < |run| && v in run[j].nodes
      && run[j].nodes[v].term == t && run[j].nodes[v].votedFor == Some(c)
  }

  lemma {:induction false} RecordedVoteWasCast(m: Membership, run: seq<Cluster>, steps: seq<Step>, i: nat, v: NodeId,
                                               t: nat)
    requires IsRun(m, run, steps) && i < |run| && (v, t) in run[i].hist.voted
    ensures CastBy(run, i, v, t, run[i].hist.voted[(v, t)])
    decreases i
  {
    if i > 0 {
      var s, s', step := run[i - 1], run[i], steps[i - 1];
      RunStepExtends(m, run, steps, i - 1);
      if (v, t) in s.hist.voted {
        RecordedVoteWasCast(m, run, steps, i - 1, v, t);
        var j: nat :| j <= i - 1 && v in run[j].nodes
          && run[j].nodes[v].term == t && run[j].nodes[v].votedFor == Some(s.hist.voted[(v, t)]);
        assert j <= i;
      } else {
        assert StepAt(m, run, steps, i - 1);
        NewVoteIsPersisted(m, s, step, v, t);
        assert run[i].nodes[v].term == t;
      }
    }
  }

  lemma NewVoteIsPersisted(m: Membership, s: Cluster, step: Step, v: NodeId, t: nat)
    requires Enabled(m, s, step)
    requires (v, t) !in s.hist.voted && (v, t) in Perform(m, s, step).hist.voted
    ensures var s' := Perform(m, s, step);
            v in s'.nodes && s'.nodes[v].term == t && s'.nodes[v].votedFor == Some(s'.hist.voted[(v, t)])
  {
    if step.Receive? && step.msg.VoteAsk? { GrantIsPersisted(s, step.id, step.msg.ask, v, t); }
  }

  lemma GrantIsPersisted(s: Cluster, id: NodeId, r: VoteRequest, v: NodeId, t: nat)
    requires id in s.nodes && (v, t) !in s.hist.voted && (v, t) in ReceiveVoteAsk(s, id, r).hist.voted
    ensures var s' := ReceiveVoteAsk(s, id, r);
            v in s'.nodes && s'.nodes[v].term == t && s'.nodes[v].votedFor == Some(s'.hist.voted[(v, t)])
  {
  }

  /** Pre-Vote never decides an election: a granted reply that carries a
      candidate's current term answers a real request, for which the voter
      persisted its vote; and so does every vote counted. */
  lemma CountedVotesAreReal(m: Membership, run: seq<Cluster>, steps: seq<Step>, i: nat, c: NodeId, v: NodeId)
    requires IsRun(m, run, steps) && i < |run|
    requires c in run[i].nodes && run[i].nodes[c].role == Candidate
    requires v in run[i].nodes[c].votes
             || VoteAnswer(v, c, VoteReply(run[i].nodes[c].term, true)) in run[i].net
    ensures CastBy(run, i, v, run[i].nodes[c].term, c)
  {
    var s, t := run[i], run[i].nodes[c].term;
    RunInv(m, run, steps, i);
    assert NodeInv(m, s, c);
    if v !in s.nodes[c].votes {
      assert MsgOk(m, s, VoteAnswer(v, c, VoteReply(t, true)));
    }
    RecordedVoteWasCast(m, run, steps, i, v, t);
  }

  // ---------------------------------------------------------------------
  // Logs
  // ---------------------------------------------------------------------

  /** Log matching, across nodes and across time: entries with the same index
      and term are preceded by the same log. */
  lemma LogMatching(m: Membership, run: seq<Cluster>, steps: seq<Step>, i: nat, j: nat, a: NodeId, b: NodeId, k: nat)
    requires IsRun(m, run, steps) && i < |run| && j < |run|
    requires a in run[i].nodes && b in run[j].nodes
    requires 0 < k <= |run[i].nodes[a].log| && k <= |run[j].nodes[b].log|
    requires TermAt(run[i].nodes[a].log, k) == TermAt(run[j].nodes[b].log, k)
    ensures run[i].nodes[a].log[..k] == run[j].nodes[b].log[..k]
  {
    if i > j {
      LogMatching(m, run, steps, j, i, b, a, k);
    } else {
      RunLogs(m, run, steps, i, a);
      RunLogs(m, run, steps, j, b);
      RunExtends(m, run, steps, i, j);
      LogOkStable(run[i].hist, run[j].hist, run[i].nodes[a].log);
      SameTermSamePrefix(run[j].hist, run[i].nodes[a].log, run[j].nodes[b].log, k - 1);
    }
  }

  lemma OnlyOwnTermAdded(u: nat, a: Log, b: Log, p: Log)
    requires LogExtends(u, a, b) && p <= b && forall i: nat :: i < |p| ==> p[i].term < u
    ensures p <= a
  {
    if |p| > |a| {
      NextIsOwnTerm(u, a, b, p);
    }
  }

  lemma NextIsOwnTerm(u: nat, a: Log, b: Log, p: Log)
    requires LogExtends(u, a, b) && p <= b && |p| > |a|
    ensures p[|a|].term == u
  {
    assert p[|a|] == b[|a|];
  }

  /** A prefix committed at state i is in the log of every leader of a later
      term, at any state, and of a leader of the same term from state i on. */
  lemma CommittedReaches(m: Membership, run: seq<Cluster>, steps: seq<Step>, i: nat, j: nat, p: Log, hi: nat, u: nat)
    requires IsRun(m, run, steps) && i < |run| && j < |run|
    requires CommittedPrefix(m, run[i].hist, hi, p) && TermsUpTo(p, hi) && u in run[j].hist.termLog
    requires u > hi || (u == hi && i <= j)
    ensures p <= run[j].hist.termLog[u]
  {
    if i <= j {
      RunExtends(m, run, steps, i, j);
      CommittedPrefixStable(m, run[i].hist, run[j].hist, hi, hi, p);
      RunSafe(m, run, steps, j);
      CommittedInTermLog(m, run[j], hi, p, u);
    } else {
      RunExtends(m, run, steps, j, i);
      RunSafe(m, run, steps, i);
      CommittedInTermLog(m, run[i], hi, p, u);
      OnlyOwnTermAdded(u, run[j].hist.termLog[u], run[i].hist.termLog[u], p);
    }
  }

  /** Leader completeness: what any node has committed in some term is in the
      log of every leader of a later term, and of its own term from then on. */
  lemma LeaderCompleteness(m: Membership, run: seq<Cluster>, steps: seq<Step>, i: nat, j: nat, a: NodeId, b: NodeId)
    requires IsRun(m, run, steps) && i < |run| && j < |run|
    requires a in run[i].nodes && b in run[j].nodes && run[j].nodes[b].role == Leader
    requires run[j].nodes[b].term > run[i].nodes[a].term || (run[j].nodes[b].term == run[i].nodes[a].term && i <= j)
    ensures run[i].nodes[a].commitIndex <= |run[i].nodes[a].log|
    ensures run[i].nodes[a].log[..run[i].nodes[a].commitIndex] <= run[j].nodes[b].log
  {
    var x := run[i].nodes[a];
    RunNode(m, run, steps, i, a);
    RunNode(m, run, steps, j, b);
    CommittedReaches(m, run, steps, i, j, x.log[..x.commitIndex], x.term, run[j].nodes[b].term);
  }

  /** The commitment rule commits: once a leader may advance to an index, every
      leader of a later term has its log up to there. */
  lemma CommitRuleIsSafe(m: Membership, run: seq<Cluster>, steps: seq<Step>, i: nat, j: nat, a: NodeId, b: NodeId,
                         k: nat)
    requires IsRun(m, run, steps) && i < |run| && j < |run|
    requires a in run[i].nodes && run[i].nodes[a].role == Leader && MayCommit(run[i].nodes[a], m, a, k)
    requires b in run[j].nodes && run[j].nodes[b].role == Leader && run[j].nodes[b].term > run[i].nodes[a].term
    ensures run[i].nodes[a].log[..k] <= run[j].nodes[b].log
  {
    var x := run[i].nodes[a];
    RunNode(m, run, steps, i, a);
    RunNode(m, run, steps, j, b);
    RunMembers(m, run, steps, i);
    MayCommitIsCommitted(m, run[i], a, k);
    assert CommittedVia(m, run[i].hist, x.log[..k], x.term, k);
    CommittedReaches(m, run, steps, i, j, x.log[..k], x.term, run[j].nodes[b].term);
  }

  lemma RunMembers(m: Membership, run: seq<Cluster>, steps: seq<Step>, i: nat)
    requires IsRun(m, run, steps) && i < |run|
    ensures run[i].nodes.Keys == m.Ids()
  {
    RunInv(m, run, steps, i);
  }

  // ---------------------------------------------------------------------
  // State machines
  // ---------------------------------------------------------------------

  lemma CommittedAgree(m: Membership, s: Cluster, p: Log, q: Log, t: nat, k: nat, t': nat, k': nat)
    requires SafeInv(m, s) && CommittedVia(m, s.hist, p, t, k) && CommittedVia(m, s.hist, q, t', k')
    ensures p <= q || q <= p
    decreases t
  {
    if t > t' {
      CommittedAgree(m, s, q, p, t', k', t, k);
    } else if t < t' {
      CommittedNotBlocked(m, s, t, k);
      assert Safe(m, s, t', t, k);
    }
  }

  lemma AppliedAgree(m: Membership, s: Cluster, i: nat, e: Entry, e': Entry)
    requires SafeInv(m, s) && AppliedOk(m, s.hist, i, e) && AppliedOk(m, s.hist, i, e')
    ensures e == e'
  {
    var p: Log, hi: nat :| CommittedPrefix(m, s.hist, hi, p) && 0 < i <= |p| && p[i - 1] == e;
    var q: Log, hi': nat :| CommittedPrefix(m, s.hist, hi', q) && 0 < i <= |q| && q[i - 1] == e';
    var t: nat, k: nat :| t <= hi && CommittedVia(m, s.hist, p, t, k);
    var t': nat, k': nat :| t' <= hi' && CommittedVia(m, s.hist, q, t', k');
    CommittedAgree(m, s, p, q, t, k, t', k');
  }

  /** State-machine safety: no two nodes, and no node before and after a
      restart, ever apply different entries at one index. */
  lemma StateMachineSafety(m: Membership, run: seq<Cluster>, steps: seq<Step>, i: nat, j: nat,
                           x: Application, y: Application)
    requires IsRun(m, run, steps) && i < |run| && j < |run|
    requires x in run[i].applied && y in run[j].applied && x.index == y.index
    ensures x.entry == y.entry
  {
    if i > j {
      StateMachineSafety(m, run, steps, j, i, y, x);
    } else {
      RunExtends(m, run, steps, i, j);
      RunInv(m, run, steps, j);
      AppliedAgree(m, run[j], x.index, x.entry, y.entry);
    }
  }

  // ---------------------------------------------------------------------
  // Nothing is skipped
  // ---------------------------------------------------------------------

  ghost predicate AppliedAt(s: Cluster, id: NodeId, i: nat)
    requires id in s.nodes
  {
    0 < i <= |s.nodes[id].log| && Application(id, i, s.nodes[id].log[i - 1]) in s.applied
  }

  /** The node has handed its state machine every entry up to last_applied. */
  ghost predicate AppliedAllOf(s: Cluster, id: NodeId)
    requires id in s.nodes
  {
    && s.nodes[id].lastApplied <= |s.nodes[id].log|
    && forall i: nat :: 0 < i <= s.nodes[id].lastApplied ==> AppliedAt(s, id, i)
  }

  /** What a step leaves of what a node had applied: its log up to there is the same,
      and last_applied is the same, or 0 after a restart. */
  ghost predicate KeepsApplied(n: Node, n': Node) {
    && n.lastApplied <= |n.log| && n.lastApplied <= |n'.log|
    && n'.log[..n.lastApplied] == n.log[..n.lastApplied]
    && (n'.lastApplied == n.lastApplied || n'.lastApplied == 0)
  }

  lemma KeptStays(s: Cluster, s': Cluster, id: NodeId)
    requires id in s.nodes && id in s'.nodes && AppliedAllOf(s, id) && s.applied <= s'.applied
    requires KeepsApplied(s.nodes[id], s'.nodes[id])
    ensures AppliedAllOf(s', id)
  {
    var n, n' := s.nodes[id], s'.nodes[id];
    forall i: nat | 0 < i <= n'.lastApplied ensures AppliedAt(s', id, i) {
      assert AppliedAt(s, id, i);
      assert n'.log[i - 1] == n'.log[..n.lastApplied][i - 1] == n.log[i - 1];
    }
  }

  lemma AppendKeepsApplied(m: Membership, s: Cluster, id: NodeId, r: AppendRequest, concede: bool)
    requires Inv(m, s) && id in s.nodes && Append(r) in s.net && r.leader != id
    ensures KeepsApplied(s.nodes[id], HandleAppendRequest(s.nodes[id], r, concede).0)
  {
    assert NodeInv(m, s, id) && MsgOk(m, s, Append(r)) && ElectedOk(m, s, r.term);
    if HandleAppendRequest(s.nodes[id], r, concede).1.success {
      SuccessKeepsApplied(m, s, id, r, concede);
    } else {
      FailureKeepsApplied(s.nodes[id], r, concede);
    }
  }

  lemma FailureKeepsApplied(n: Node, r: AppendRequest, concede: bool)
    requires n.lastApplied <= |n.log| && !HandleAppendRequest(n, r, concede).1.success
    ensures KeepsApplied(n, HandleAppendRequest(n, r, concede).0)
  {
  }

  lemma SuccessKeepsApplied(m: Membership, s: Cluster, id: NodeId, r: AppendRequest, concede: bool)
    requires id in s.nodes && NodeInv(m, s, id) && SafeInv(m, s) && MsgOk(m, s, Append(r)) && r.leader != id
    requires LogOk(s.hist, s.hist.termLog[r.term])
    requires HandleAppendRequest(s.nodes[id], r, concede).1.success
    ensures KeepsApplied(s.nodes[id], HandleAppendRequest(s.nodes[id], r, concede).0)
  {
    var n, n' := s.nodes[id], HandleAppendRequest(s.nodes[id], r, concede).0;
    SuccessAccepts(m, s, id, r, concede);
    OldCommitKept(m, s, ReceiveAppend(s, id, r, concede), id, r);
    ShorterPrefix(n.log, n'.log, n.lastApplied, n.commitIndex);
  }

  lemma ShorterPrefix(a: Log, b: Log, i: nat, j: nat)
    requires i <= j <= |a| && j <= |b| && b[..j] == a[..j]
    ensures b[..i] == a[..i]
  {
    assert b[..j][..i] == b[..i] && a[..j][..i] == a[..i];
  }

  lemma StepKeepsApplied(m: Membership, s: Cluster, step: Step)
    requires Inv(m, s) && Enabled(m, s, step) && !step.Apply?
    ensures KeepsApplied(s.nodes[step.id], Perform(m, s, step).nodes[step.id])
  {
    assert NodeInv(m, s, step.id);
    if step.Receive? {
      if step.msg.Append? {
        AppendKeepsApplied(m, s, step.id, step.msg.append, step.concede);
      } else {
        AnswerKeepsApplied(m, s, step);
      }
    } else {
      OwnKeepsApplied(m, s, step);
    }
  }

  lemma AnswerKeepsApplied(m: Membership, s: Cluster, step: Step)
    requires Enabled(m, s, step) && step.Receive? && !step.msg.Append?
    requires s.nodes[step.id].lastApplied <= |s.nodes[step.id].log|
    ensures KeepsApplied(s.nodes[step.id], Perform(m, s, step).nodes[step.id])
  {
  }

  lemma OwnKeepsApplied(m: Membership, s: Cluster, step: Step)
    requires Enabled(m, s, step) && !step.Receive? && !step.Apply?
    requires s.nodes[step.id].lastApplied <= |s.nodes[step.id].log|
    ensures KeepsApplied(s.nodes[step.id], Perform(m, s, step).nodes[step.id])
  {
  }

  lemma ApplyAddsNext(s: Cluster, id: NodeId)
    requires id in s.nodes && s.nodes[id].lastApplied < |s.nodes[id].log| && AppliedAllOf(s, id)
    ensures AppliedAllOf(DoApply(s, id), id)
  {
    forall i: nat | 0 < i <= s.nodes[id].lastApplied + 1 ensures AppliedAt(DoApply(s, id), id, i) {
      if i <= s.nodes[id].lastApplied { assert AppliedAt(s, id, i); }
    }
  }

  lemma StepAppliesAll(m: Membership, s: Cluster, step: Step, id: NodeId)
    requires Inv(m, s) && Enabled(m, s, step) && id in s.nodes && AppliedAllOf(s, id)
    ensures id in Perform(m, s, step).nodes && AppliedAllOf(Perform(m, s, step), id)
  {
    StepExtends(m, s, step);
    if step.id != id {
      OthersStay(m, s, step, id);
      KeptStays(s, Perform(m, s, step), id);
    } else if step.Apply? {
      ApplyAddsNext(s, id);
    } else {
      StepKeepsApplied(m, s, step);
      KeptStays(s, Perform(m, s, step), id);
    }
  }

  lemma OthersStay(m: Membership, s: Cluster, step: Step, id: NodeId)
    requires Enabled(m, s, step) && id in s.nodes && id != step.id
    ensures id in Perform(m, s, step).nodes && Perform(m, s, step).nodes[id] == s.nodes[id]
  {
  }

  /** In every state of every run, a node has applied all the entries of its log up to
      last_applied, each at its index: none is skipped, and what was applied stays in
      its log. */
  lemma {:induction false} AppliesInOrder(m: Membership, run: seq<Cluster>, steps: seq<Step>, i: nat, id: NodeId)
    requires IsRun(m, run, steps) && i < |run| && id in m.Ids()
    ensures id in run[i].nodes && AppliedAllOf(run[i], id)
  {
    if i > 0 {
      AppliesInOrder(m, run, steps, i - 1, id);
      RunAppliesAll(m, run, steps, i - 1, id);
    }
  }

  lemma RunAppliesAll(m: Membership, run: seq<Cluster>, steps: seq<Step>, i: nat, id: NodeId)
    requires IsRun(m, run, steps) && i + 1 < |run| && id in run[i].nodes && AppliedAllOf(run[i], id)
    ensures id in run[i + 1].nodes && AppliedAllOf(run[i + 1], id)
  {
    RunInv(m, run, steps, i);
    assert StepAt(m, run, steps, i);
    StepAppliesAll(m, run[i], steps[i], id);
  }

  // ---------------------------------------------------------------------
  // What a leader keeps
  // ---------------------------------------------------------------------

  /** A leader's log ends in its own term, and for every other node next_index is
      where sending can start. */
  ghost predicate LeaderReady(m: Membership, id: NodeId, n: Node) {
    n.role == Leader ==>
      && n.log != [] && n.log[|n.log| - 1].term == n.term
      && m.Ids() - {id} <= n.nextIndex.Keys
      && forall p :: p in n.nextIndex ==> 0 < n.nextIndex[p] <= |n.log| + 1
  }

  lemma TallyReady(m: Membership, id: NodeId, n: Node)
    ensures LeaderReady(m, id, BecomeLeader(n, m, id))
  {
  }

  lemma ProposeReady(m: Membership, id: NodeId, n: Node, payload: seq<nat>)
    requires n.role == Leader && LeaderReady(m, id, n)
    ensures LeaderReady(m, id, Propose(n, payload).value)
  {
  }

  lemma ReplyReady(m: Membership, id: NodeId, n: Node, from: NodeId, r: AppendReply)
    requires LeaderReady(m, id, n) && (r.success && r.term == n.term && n.role == Leader ==> r.matched <= |n.log|)
    ensures LeaderReady(m, id, HandleAppendReply(n, from, r))
  {
  }

  /** An acknowledgement of its own term is of entries the leader has. */
  lemma AckIsOfItsLog(m: Membership, s: Cluster, id: NodeId, from: NodeId, r: AppendReply)
    requires Inv(m, s) && id in s.nodes && Ack(from, id, r) in s.net
    requires r.success && r.term == s.nodes[id].term && s.nodes[id].role == Leader
    ensures r.matched <= |s.nodes[id].log|
  {
    assert NodeInv(m, s, id) && MsgOk(m, s, Ack(from, id, r)) && AckedOk(s, from, r.term);
  }

  /** A leader that takes a request does so in a later term, and leads no more. */
  lemma RequestReady(m: Membership, s: Cluster, id: NodeId, r: AppendRequest, concede: bool)
    requires Inv(m, s) && id in s.nodes && Append(r) in s.net && r.leader != id && LeaderReady(m, id, s.nodes[id])
    ensures LeaderReady(m, id, HandleAppendRequest(s.nodes[id], r, concede).0)
  {
    assert NodeInv(m, s, id) && MsgOk(m, s, Append(r));
    NotItsTerm(m, id, s.nodes[id], r, concede);
  }

  lemma NotItsTerm(m: Membership, id: NodeId, n: Node, r: AppendRequest, concede: bool)
    requires LeaderReady(m, id, n) && (n.role == Leader ==> r.term != n.term)
    ensures LeaderReady(m, id, HandleAppendRequest(n, r, concede).0)
  {
  }

  lemma ReceiveReady(m: Membership, s: Cluster, step: Step)
    requires Inv(m, s) && Enabled(m, s, step) && step.Receive? && LeaderReady(m, step.id, s.nodes[step.id])
    ensures LeaderReady(m, step.id, Perform(m, s, step).nodes[step.id])
  {
    var n := s.nodes[step.id];
    match step.msg {
      case Append(r) => RequestReady(m, s, step.id, r, step.concede);
      case Ack(from, _, r) =>
        if r.success && r.term == n.term && n.role == Leader { AckIsOfItsLog(m, s, step.id, from, r); }
        ReplyReady(m, step.id, n, from, r);
      case _ => VotesReady(m, s, step);
    }
  }

  lemma VotesReady(m: Membership, s: Cluster, step: Step)
    requires Enabled(m, s, step) && step.Receive? && (step.msg.VoteAsk? || step.msg.VoteAnswer?)
    requires LeaderReady(m, step.id, s.nodes[step.id])
    ensures LeaderReady(m, step.id, Perform(m, s, step).nodes[step.id])
  {
  }

  lemma StepReady(m: Membership, s: Cluster, step: Step)
    requires Inv(m, s) && Enabled(m, s, step) && LeaderReady(m, step.id, s.nodes[step.id])
    ensures LeaderReady(m, step.id, Perform(m, s, step).nodes[step.id])
  {
    match step {
      case Tally(id) => TallyReady(m, id, s.nodes[id]);
      case ClientPropose(id, payload) => ProposeReady(m, id, s.nodes[id], payload);
      case Receive(_, _, _) => ReceiveReady(m, s, step);
      case _ => QuietReady(m, s, step);
    }
  }

  lemma QuietReady(m: Membership, s: Cluster, step: Step)
    requires Enabled(m, s, step) && LeaderReady(m, step.id, s.nodes[step.id])
    requires !step.Tally? && !step.ClientPropose? && !step.Receive?
    ensures LeaderReady(m, step.id, Perform(m, s, step).nodes[step.id])
  {
  }

  /** In every state of every run. */
  lemma {:induction false} LeadersAreReady(m: Membership, run: seq<Cluster>, steps: seq<Step>, i: nat, id: NodeId)
    requires IsRun(m, run, steps) && i < |run| && id in m.Ids()
    ensures id in run[i].nodes && LeaderReady(m, id, run[i].nodes[id])
  {
    if i > 0 {
      LeadersAreReady(m, run, steps, i - 1, id);
      RunReady(m, run, steps, i - 1, id);
    }
  }

  lemma RunReady(m: Membership, run: seq<Cluster>, steps: seq<Step>, i: nat, id: NodeId)
    requires IsRun(m, run, steps) && i + 1 < |run| && id in run[i].nodes && LeaderReady(m, id, run[i].nodes[id])
    ensures id in run[i + 1].nodes && LeaderReady(m, id, run[i + 1].nodes[id])
  {
    RunInv(m, run, steps, i);
    assert StepAt(m, run, steps, i);
    if steps[i].id == id {
      StepReady(m, run[i], steps[i]);
    } else {
      OthersStay(m, run[i], steps[i], id);
    }
  }
}
