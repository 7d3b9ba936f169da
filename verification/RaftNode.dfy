/** One Raft node (include/torrent/consensus/raft.h): its state, its handlers
    as functions of that state, and the class whose methods carry them out. */
module RaftNode {
  import opened Wrappers
  import opened RaftQuorum

  /** Membership changes are outside the model, so a log holds no-ops and user commands. */
  datatype Command = NoOp | User(payload: seq<nat>)

  /** The index of an entry is its position in the log, counted from 1. */
  datatype Entry = Entry(term: nat, command: Command)

  type Log = seq<Entry>

  datatype Role = Follower | PreCandidate | Candidate | Leader

  datatype Node = Node(
    term: nat, votedFor: Option<NodeId>, log: Log,   // survive a restart
    role: Role, commitIndex: nat, lastApplied: nat,
    votes: set<NodeId>, preVotes: set<NodeId>,
    nextIndex: map<NodeId, nat>, matchIndex: map<NodeId, nat>)

  datatype VoteRequest = VoteRequest(
    term: nat, candidate: NodeId, lastLogIndex: nat, lastLogTerm: nat, preVote: bool)

  datatype VoteReply = VoteReply(term: nat, granted: bool)

  datatype AppendRequest = AppendRequest(
    term: nat, leader: NodeId, prevLogIndex: nat, prevLogTerm: nat, entries: Log, leaderCommit: nat)

  /** `matched` is prev_log_index + entries.size() of the request answered; the
      last two are hints for the leader, 0 when there is none. */
  datatype AppendReply = AppendReply(term: nat, success: bool, matched: nat, lastLogIndex: nat, conflictIndex: nat)

  // ---------------------------------------------------------------------
  // Log helpers
  // ---------------------------------------------------------------------

  /** The term stored at a 1-based index; index 0 is the sentinel of term 0. */
  function TermAt(log: Log, index: nat): nat
    requires index <= |log|
  {
    if index == 0 then 0 else log[index - 1].term
  }

  function LastTerm(log: Log): nat {
    TermAt(log, |log|)
  }

  predicate LogIsUpToDate(log: Log, remoteLastIndex: nat, remoteLastTerm: nat) {
    if remoteLastTerm != LastTerm(log) then remoteLastTerm > LastTerm(log)
    else remoteLastIndex >= |log|
  }

  /** Keeps the log as far as the entries agree with it in term, cuts it at
      the first conflict, and appends what is missing. */
  function MergeLog(log: Log, prev: nat, entries: Log): Log
    requires prev <= |log|
    decreases |entries|
  {
    if entries == [] then log
    else if prev < |log| && log[prev].term == entries[0].term then MergeLog(log, prev + 1, entries[1..])
    else log[..prev] + entries
  }

  /** The consistency check at prev_log_index. */
  predicate Matches(log: Log, prev: nat, prevTerm: nat) {
    prev <= |log| && TermAt(log, prev) == prevTerm
  }

  /** The first index of the run of entries with the same term that ends at `index`. */
  function FirstOfTerm(log: Log, index: nat): nat
    requires 0 < index <= |log|
  {
    if index > 1 && TermAt(log, index - 1) == TermAt(log, index) then FirstOfTerm(log, index - 1) else index
  }

  /** The hint of a failed check: the first index of the conflicting term, if there
      is an entry to conflict with. */
  function ConflictIndex(log: Log, prev: nat): nat {
    if 0 < prev <= |log| then FirstOfTerm(log, prev) else 0
  }

  /** next_index after a failure: at the hint if that is a step back, else one back. */
  function BackOff(next: nat, conflict: nat): nat {
    if 0 < conflict < next then conflict else if next > 1 then next - 1 else 1
  }

  function Max(a: nat, b: nat): nat { if a < b then b else a }

  function Min(a: nat, b: nat): nat { if a < b then a else b }

  // ---------------------------------------------------------------------
  // Transitions
  // ---------------------------------------------------------------------

  const InitialNode := Node(0, None, [], Follower, 0, 0, {}, {}, map[], map[])

  /** What a restart leaves: the persistent term, vote and log. */
  function Restarted(n: Node): Node {
    InitialNode.(term := n.term, votedFor := n.votedFor, log := n.log)
  }

  function BecomeFollower(n: Node, newTerm: nat): Node {
    var m := if newTerm > n.term then n.(term := newTerm, votedFor := None) else n;
    m.(role := Follower, nextIndex := map[], matchIndex := map[])
  }

  function BecomePreCandidate(n: Node, self: NodeId): Node {
    n.(role := PreCandidate, preVotes := {self})
  }

  function BecomeCandidate(n: Node, self: NodeId): Node {
    n.(term := n.term + 1, votedFor := Some(self), role := Candidate, votes := {self})
  }

  function BecomeLeader(n: Node, m: Membership, self: NodeId): Node {
    n.(role := Leader,
       nextIndex := map p | p in m.Ids() - {self} :: |n.log| + 1,
       matchIndex := map p | p in m.Ids() - {self} :: 0,
       log := n.log + [Entry(n.term, NoOp)])
  }

  // ---------------------------------------------------------------------
  // Handlers
  // ---------------------------------------------------------------------

  function HandleVoteRequest(n: Node, r: VoteRequest): (Node, VoteReply) {
    if r.term < n.term then (n, VoteReply(n.term, false))
    else if r.preVote then
      (n, VoteReply(n.term, LogIsUpToDate(n.log, r.lastLogIndex, r.lastLogTerm)))
    else
      var n1 := if r.term > n.term then BecomeFollower(n, r.term) else n;
      if (n1.votedFor == None || n1.votedFor == Some(r.candidate))
         && LogIsUpToDate(n1.log, r.lastLogIndex, r.lastLogTerm)
      then (n1.(votedFor := Some(r.candidate)), VoteReply(n1.term, true))
      else (n1, VoteReply(n1.term, false))
  }

  /** Records a vote response.  A vote counts for the current term only, and
      a voter only once. */
  function CountVote(n: Node, from: NodeId, r: VoteReply): Node {
    if r.term > n.term then BecomeFollower(n, r.term)
    else if r.granted && n.role == Candidate && r.term == n.term then n.(votes := n.votes + {from})
    else if r.granted && n.role == PreCandidate then n.(preVotes := n.preVotes + {from})
    else n
  }

  /** Acts on a majority of votes or pre-votes. */
  function TallyVotes(n: Node, m: Membership, self: NodeId): Node {
    if n.role == Candidate && IsQuorum(m, n.votes) then BecomeLeader(n, m, self)
    else if n.role == PreCandidate && IsQuorum(m, n.preVotes) then BecomeCandidate(n, self)
    else n
  }

  /** `concede` says whether a candidate that hears a leader of its own term
      steps down: the header leaves that open, and nothing below depends on it. */
  function HandleAppendRequest(n: Node, r: AppendRequest, concede: bool): (Node, AppendReply) {
    if r.term < n.term then (n, AppendReply(n.term, false, 0, |n.log|, 0))
    else
      var n1 := if r.term > n.term || (concede && n.role != Leader) then BecomeFollower(n, r.term) else n;
      if !Matches(n1.log, r.prevLogIndex, r.prevLogTerm)
      then (n1, AppendReply(n1.term, false, 0, |n1.log|, ConflictIndex(n1.log, r.prevLogIndex)))
      else
        var lastNew := r.prevLogIndex + |r.entries|;
        var merged := MergeLog(n1.log, r.prevLogIndex, r.entries);
        (n1.(log := merged, commitIndex := Max(n1.commitIndex, Min(r.leaderCommit, lastNew))),
         AppendReply(n1.term, true, lastNew, |merged|, 0))
  }

  function HandleAppendReply(n: Node, from: NodeId, r: AppendReply): Node {
    if r.term > n.term then BecomeFollower(n, r.term)
    else if n.role != Leader || r.term != n.term then n
    else if r.success then
      n.(matchIndex := n.matchIndex[from := r.matched], nextIndex := n.nextIndex[from := r.matched + 1])
    else if from in n.nextIndex then
      n.(nextIndex := n.nextIndex[from := BackOff(n.nextIndex[from], r.conflictIndex)])
    else n
  }

  function Propose(n: Node, payload: seq<nat>): Option<Node> {
    if n.role == Leader then Some(n.(log := n.log + [Entry(n.term, User(payload))])) else None
  }

  // ---------------------------------------------------------------------
  // Commitment
  // ---------------------------------------------------------------------

  /** The nodes known to hold the leader's log up to an index, itself included. */
  function Replicated(n: Node, self: NodeId, index: nat): set<NodeId> {
    {self} + set p | p in n.matchIndex && n.matchIndex[p] >= index
  }

  /** The commitment rule: an entry of the leader's own term on a quorum. */
  predicate MayCommit(n: Node, m: Membership, self: NodeId, index: nat) {
    && 0 < index <= |n.log|
    && TermAt(n.log, index) == n.term
    && IsQuorum(m, Replicated(n, self, index))
  }

  /** The commit index that advance_commit_index leaves: the highest index in
      (from, upto] that may be committed, if there is one. */
  function HighestCommittable(n: Node, m: Membership, self: NodeId, from: nat, upto: nat): nat
    decreases upto
  {
    if upto <= from then from
    else if MayCommit(n, m, self, upto) then upto
    else HighestCommittable(n, m, self, from, upto - 1)
  }

  function AdvanceCommit(n: Node, m: Membership, self: NodeId): Node {
    if n.role != Leader then n
    else n.(commitIndex := HighestCommittable(n, m, self, n.commitIndex, |n.log|))
  }

  // ---------------------------------------------------------------------
  // The node as an object
  // ---------------------------------------------------------------------

  /** A node whose fields the handlers update step by step. */
  class RaftNode {
    const self: NodeId
    const membership: Membership
    var currentTerm: nat
    var votedFor: Option<NodeId>
    var log: Log
    var state: Role
    var commitIndex: nat
    var lastApplied: nat
    var votes: set<NodeId>
    var preVotes: set<NodeId>
    var nextIndex: map<NodeId, nat>
    var matchIndex: map<NodeId, nat>

    ghost function State(): Node
      reads this
    {
      Node(currentTerm, votedFor, log, state, commitIndex, lastApplied, votes, preVotes, nextIndex, matchIndex)
    }

    constructor (self: NodeId, membership: Membership)
      ensures State() == InitialNode && this.self == self && this.membership == membership
    {
      this.self, this.membership := self, membership;
      currentTerm, votedFor, log, state := 0, None, [], Follower;
      commitIndex, lastApplied := 0, 0;
      votes, preVotes, nextIndex, matchIndex := {}, {}, map[], map[];
    }

    method StepToFollower(newTerm: nat)
      modifies this
      ensures State() == BecomeFollower(old(State()), newTerm)
    {
      if newTerm > currentTerm {
        currentTerm := newTerm;
        votedFor := None;
      }
      state := Follower;
      nextIndex, matchIndex := map[], map[];
    }

    method StartElection()
      modifies this
      ensures State() == BecomeCandidate(old(State()), self)
    {
      currentTerm := currentTerm + 1;
      votedFor := Some(self);
      state := Candidate;
      votes := {self};
    }

    method TakeLeadership()
      modifies this
      ensures State() == BecomeLeader(old(State()), membership, self)
    {
      state := Leader;
      nextIndex := map p | p in membership.Ids() - {self} :: |log| + 1;
      matchIndex := map p | p in membership.Ids() - {self} :: 0;
      log := log + [Entry(currentTerm, NoOp)];
    }

    method OnVoteRequest(r: VoteRequest) returns (reply: VoteReply)
      modifies this
      ensures (State(), reply) == HandleVoteRequest(old(State()), r)
    {
      if r.term < currentTerm { return VoteReply(currentTerm, false); }
      if r.preVote {
        return VoteReply(currentTerm, LogIsUpToDate(log, r.lastLogIndex, r.lastLogTerm));
      }
      if r.term > currentTerm { StepToFollower(r.term); }
      if votedFor != None && votedFor != Some(r.candidate) { return VoteReply(currentTerm, false); }
      if !LogIsUpToDate(log, r.lastLogIndex, r.lastLogTerm) { return VoteReply(currentTerm, false); }
      votedFor := Some(r.candidate);
      reply := VoteReply(currentTerm, true);
    }

    method OnVoteReply(from: NodeId, r: VoteReply)
      modifies this
      ensures State() == TallyVotes(CountVote(old(State()), from, r), membership, self)
    {
      if r.term > currentTerm {
        StepToFollower(r.term);
      } else if r.granted && state == Candidate && r.term == currentTerm {
        votes := votes + {from};
      } else if r.granted && state == PreCandidate {
        preVotes := preVotes + {from};
      }
      if state == Candidate && IsQuorum(membership, votes) {
        TakeLeadership();
      } else if state == PreCandidate && IsQuorum(membership, preVotes) {
        StartElection();
      }
    }

    /** append_entries_to_log: the consistency check; then walk the entries past
        those already stored, truncate at the first conflict, append the rest; or
        give the hint. */
    method AppendToLog(r: AppendRequest) returns (ok: bool, conflictIndex: nat)
      modifies `log
      ensures ok <==> Matches(old(log), r.prevLogIndex, r.prevLogTerm)
      ensures ok ==> log == MergeLog(old(log), r.prevLogIndex, r.entries) && conflictIndex == 0
      ensures !ok ==> log == old(log) && conflictIndex == ConflictIndex(log, r.prevLogIndex)
    {
      var prev, entries := r.prevLogIndex, r.entries;
      ok := Matches(log, prev, r.prevLogTerm);
      conflictIndex := 0;
      if !ok {
        if 0 < prev <= |log| { conflictIndex := FirstWithTerm(prev); }
        return;
      }
      var i := 0;
      while i < |entries| && prev + i < |log| && log[prev + i].term == entries[i].term
        invariant i <= |entries| && prev + i <= |log|
        invariant MergeLog(log, prev, entries) == MergeLog(log, prev + i, entries[i..])
      {
        i := i + 1;
      }
      if i < |entries| {
        log := log[..prev + i] + entries[i..];
      }
    }

    /** Walks back to the first index of the conflicting term. */
    method FirstWithTerm(index: nat) returns (first: nat)
      requires 0 < index <= |log|
      ensures first == FirstOfTerm(log, index)
    {
      first := index;
      while first > 1 && TermAt(log, first - 1) == TermAt(log, first)
        invariant 0 < first <= index && FirstOfTerm(log, first) == FirstOfTerm(log, index)
      {
        first := first - 1;
      }
    }

    method OnAppendRequest(r: AppendRequest, concede: bool) returns (reply: AppendReply)
      modifies this
      ensures (State(), reply) == HandleAppendRequest(old(State()), r, concede)
    {
      if r.term < currentTerm { return AppendReply(currentTerm, false, 0, |log|, 0); }
      if r.term > currentTerm || (concede && state != Leader) { StepToFollower(r.term); }
      var ok, conflictIndex := AppendToLog(r);
      if !ok { return AppendReply(currentTerm, false, 0, |log|, conflictIndex); }
      var lastNew := r.prevLogIndex + |r.entries|;
      commitIndex := Max(commitIndex, Min(r.leaderCommit, lastNew));
      reply := AppendReply(currentTerm, true, lastNew, |log|, 0);
    }

    /** advance_commit_index: every index in turn, keeping the last that qualifies. */
    method AdvanceCommitIndex()
      modifies `commitIndex
      ensures State() == AdvanceCommit(old(State()), membership, self)
    {
      if state != Leader { return; }
      ghost var before := State();
      var best, index := commitIndex, commitIndex + 1;
      while index <= |log|
        invariant index >= before.commitIndex + 1
        invariant index <= |log| + 1 || index == before.commitIndex + 1
        invariant State() == before
        invariant best == HighestCommittable(before, membership, self, before.commitIndex, index - 1)
      {
        if TermAt(log, index) == currentTerm {
          var holders := {self} + set p | p in matchIndex && matchIndex[p] >= index;
          assert holders == Replicated(before, self, index);
          if IsQuorum(membership, holders) { best := index; }
        }
        index := index + 1;
      }
      commitIndex := best;
    }

    method OnAppendReply(from: NodeId, r: AppendReply)
      modifies this
      ensures State() == AdvanceCommit(HandleAppendReply(old(State()), from, r), membership, self)
    {
      if r.term > currentTerm {
        StepToFollower(r.term);
      } else if state == Leader && r.term == currentTerm {
        if r.success {
          matchIndex := matchIndex[from := r.matched];
          nextIndex := nextIndex[from := r.matched + 1];
        } else if from in nextIndex {
          nextIndex := nextIndex[from := BackOff(nextIndex[from], r.conflictIndex)];
        }
      }
      AdvanceCommitIndex();
    }
  }

  /** advance_commit_index never moves back, only stops at an index that may
      be committed, and leaves no higher one behind. */
  lemma {:induction false} HighestCommittableIsHighest(n: Node, m: Membership, self: NodeId, from: nat, upto: nat)
    ensures var c := HighestCommittable(n, m, self, from, upto);
            && from <= c
            && (c == from || (c <= upto && MayCommit(n, m, self, c)))
            && forall i :: c < i <= upto ==> !MayCommit(n, m, self, i)
    decreases upto
  {
    if from < upto && !MayCommit(n, m, self, upto) {
      HighestCommittableIsHighest(n, m, self, from, upto - 1);
    }
  }
}
