/** What Raft gets done (include/torrent/consensus/raft.h): the elections that
    are won and the entries that are committed.  Majorities and logs are written
    out here in their own words. */
module RaftProgress {
  import opened Sets
  import opened Wrappers
  import opened RaftQuorum
  import opened RaftNode
  import opened RaftBacktrack

  // ---------------------------------------------------------------------
  // Majorities and logs
  // ---------------------------------------------------------------------

  /** More of the listed nodes are in q than are not. */
  ghost predicate MostOf(ids: seq<NodeId>, q: set<NodeId>) {
    |set x | x in ids && x in q| > |set x | x in ids && x !in q|
  }

  /** Of both lists, when there are two. */
  ghost predicate MostOfBoth(m: Membership, q: set<NodeId>) {
    MostOf(m.members, q) && (m.jointMembers != [] ==> MostOf(m.jointMembers, q))
  }

  lemma MostIsMajority(ids: seq<NodeId>, q: set<NodeId>)
    ensures MostOf(ids, q) <==> Majority(q, SetOf(ids))
  {
    var all := SetOf(ids);
    var inside, outside := set x | x in ids && x in q, set x | x in ids && x !in q;
    assert inside == q * all;
    assert inside + outside == all && inside !! outside;
  }

  /** The quorum test accepts exactly such sets. */
  lemma QuorumIsMostOfBoth(m: Membership, q: set<NodeId>)
    ensures IsQuorum(m, q) <==> MostOfBoth(m, q)
  {
    MostIsMajority(m.members, q);
    MostIsMajority(m.jointMembers, q);
  }

  /** A log that ends no later than another: in a lower term, or in the same term
      and not longer. */
  ghost predicate EndsBy(a: Log, b: Log) {
    || TermAt(a, |a|) < TermAt(b, |b|)
    || (TermAt(a, |a|) == TermAt(b, |b|) && |a| <= |b|)
  }

  // ---------------------------------------------------------------------
  // Elections
  // ---------------------------------------------------------------------

  /** What a candidate, or with `preVote` a pre-candidate, asks. */
  function RequestOf(n: Node, self: NodeId, preVote: bool): VoteRequest {
    VoteRequest(n.term, self, |n.log|, TermAt(n.log, |n.log|), preVote)
  }

  /** A vote is granted to a term not passed, a log not behind, and, unless it is
      a pre-vote, by a node that has not voted for another in that term. */
  lemma VoteGrantedIff(v: Node, n: Node, self: NodeId, preVote: bool)
    ensures HandleVoteRequest(v, RequestOf(n, self, preVote)).1.granted <==>
            && v.term <= n.term && EndsBy(v.log, n.log)
            && (preVote || v.term < n.term || v.votedFor == None || v.votedFor == Some(self))
  {
  }

  /** A repeated request of the candidate voted for is granted again, and changes
      nothing; a pre-vote never changes anything. */
  lemma RepeatedRequest(v: Node, r: VoteRequest)
    requires HandleVoteRequest(v, r).1.granted
    ensures var (v', reply) := HandleVoteRequest(v, r);
            && HandleVoteRequest(v', r) == (v', reply)
            && (r.preVote ==> v' == v)
            && (!r.preVote ==> v'.term == r.term && v'.votedFor == Some(r.candidate) && v'.log == v.log)
  {
  }

  /** A message of a later term makes any node a follower in that term, with its vote
      free unless it gives it at once; one of an earlier term changes nothing. */
  lemma LaterTermIsTaken(n: Node, from: NodeId, ask: VoteRequest, vote: VoteReply, append: AppendRequest,
                         ack: AppendReply, concede: bool)
    ensures var (n', reply) := HandleVoteRequest(n, ask);
            && (ask.term > n.term && !ask.preVote ==>
                  n'.term == ask.term && n'.role == Follower
                  && n'.votedFor == if reply.granted then Some(ask.candidate) else None)
            && (ask.term < n.term ==> n' == n && !reply.granted && reply.term == n.term)
    ensures var n' := CountVote(n, from, vote);
            vote.term > n.term ==> n'.term == vote.term && n'.role == Follower && n'.votedFor == None
    ensures var (n', reply) := HandleAppendRequest(n, append, concede);
            && (append.term > n.term ==> n'.term == append.term && n'.role == Follower && n'.votedFor == None)
            && (append.term < n.term ==> n' == n && !reply.success && reply.term == n.term)
    ensures var n' := HandleAppendReply(n, from, ack);
            && (ack.term > n.term ==> n'.term == ack.term && n'.role == Follower && n'.votedFor == None)
            && (ack.term < n.term ==> n' == n)
  {
  }

  /** A candidate, or pre-candidate, that tallies, and again after the answer of
      each of qs to its request. */
  function Campaign(n: Node, m: Membership, self: NodeId, voters: map<NodeId, Node>, r: VoteRequest,
                    qs: seq<NodeId>): Node
    requires forall q :: q in qs ==> q in voters
  {
    if qs == [] then TallyVotes(n, m, self)
    else
      var q := qs[|qs| - 1];
      var before := Campaign(n, m, self, voters, r, qs[..|qs| - 1]);
      TallyVotes(CountVote(before, q, HandleVoteRequest(voters[q], r).1), m, self)
  }

  /** Every one of qs is behind the candidate in term, and its log does not end
      later. */
  ghost predicate Outdone(n: Node, voters: map<NodeId, Node>, qs: seq<NodeId>) {
    forall q :: q in qs ==> q in voters && voters[q].term < n.term && EndsBy(voters[q].log, n.log)
  }

  ghost predicate Won(n: Node, w: Node) {
    w.role == Leader && w.term == n.term && w.log == n.log + [Entry(n.term, NoOp)]
  }

  lemma TallyIs(n: Node, m: Membership, self: NodeId)
    requires n.role == Candidate
    ensures if IsQuorum(m, n.votes) then Won(n, TallyVotes(n, m, self)) else TallyVotes(n, m, self) == n
  {
  }

  lemma VoteCounts(n: Node, q: NodeId)
    requires n.role == Candidate
    ensures CountVote(n, q, VoteReply(n.term, true)) == n.(votes := n.votes + {q})
  {
  }

  /** A leader takes no notice of votes that come late. */
  lemma LateVote(w: Node, m: Membership, self: NodeId, q: NodeId)
    requires w.role == Leader
    ensures TallyVotes(CountVote(w, q, VoteReply(w.term, true)), m, self) == w
  {
  }

  lemma VoteIsGiven(v: Node, n: Node, self: NodeId)
    requires v.term < n.term && EndsBy(v.log, n.log)
    ensures var (v', reply) := HandleVoteRequest(v, RequestOf(n, self, false));
            reply == VoteReply(n.term, true) && v'.term == n.term && v'.votedFor == Some(self) && v'.log == v.log
  {
  }

  /** As long as it has not won, a candidate has the votes of all that answered. */
  ghost predicate Counts(n: Node, m: Membership, votes: set<NodeId>, w: Node) {
    Won(n, w) || (w == n.(votes := votes) && !IsQuorum(m, votes))
  }

  lemma CountsOneMore(n: Node, m: Membership, self: NodeId, votes: set<NodeId>, w: Node, q: NodeId)
    requires n.role == Candidate && Counts(n, m, votes, w)
    ensures Counts(n, m, votes + {q}, TallyVotes(CountVote(w, q, VoteReply(n.term, true)), m, self))
  {
    if Won(n, w) {
      LateVote(w, m, self, q);
    } else {
      VoteCounts(w, q);
      TallyIs(w.(votes := votes + {q}), m, self);
    }
  }

  lemma {:induction false} CampaignCounts(n: Node, m: Membership, self: NodeId, voters: map<NodeId, Node>,
                                          qs: seq<NodeId>)
    requires n.role == Candidate && Outdone(n, voters, qs)
    ensures Counts(n, m, n.votes + SetOf(qs), Campaign(n, m, self, voters, RequestOf(n, self, false), qs))
  {
    if qs == [] {
      assert n.votes + SetOf(qs) == n.votes && n.(votes := n.votes) == n;
      TallyIs(n, m, self);
    } else {
      var front, q := qs[..|qs| - 1], qs[|qs| - 1];
      assert qs == front + [q];
      CampaignCounts(n, m, self, voters, front);
      VoteIsGiven(voters[q], n, self);
      assert n.votes + SetOf(qs) == n.votes + SetOf(front) + {q};
      CountsOneMore(n, m, self, n.votes + SetOf(front),
                    Campaign(n, m, self, voters, RequestOf(n, self, false), front), q);
    }
  }

  /** Elections are won: a candidate whose term is above that of the nodes qs, whose
      log ends no earlier than theirs, and which with them makes up most of both
      lists, leads its term once they have answered, in whatever order. */
  lemma ElectionIsWon(n: Node, m: Membership, self: NodeId, voters: map<NodeId, Node>, qs: seq<NodeId>)
    requires n.role == Candidate && self in n.votes && Outdone(n, voters, qs)
    requires MostOfBoth(m, {self} + SetOf(qs))
    ensures var w := Campaign(n, m, self, voters, RequestOf(n, self, false), qs);
            w.role == Leader && w.term == n.term && w.log == n.log + [Entry(n.term, NoOp)]
    ensures forall q :: q in qs ==>
              var v := HandleVoteRequest(voters[q], RequestOf(n, self, false)).0;
              v.term == n.term && v.votedFor == Some(self) && v.log == voters[q].log
  {
    QuorumIsMostOfBoth(m, {self} + SetOf(qs));
    QuorumGrows(m, {self} + SetOf(qs), n.votes + SetOf(qs));
    CampaignCounts(n, m, self, voters, qs);
    forall q | q in qs
      ensures var v := HandleVoteRequest(voters[q], RequestOf(n, self, false)).0;
              v.term == n.term && v.votedFor == Some(self) && v.log == voters[q].log
    {
      VoteIsGiven(voters[q], n, self);
    }
  }

  /** Pre-votes come from nodes of the same term too, even those that have voted. */
  ghost predicate NotAhead(n: Node, voters: map<NodeId, Node>, qs: seq<NodeId>) {
    forall q :: q in qs ==> q in voters && voters[q].term <= n.term && EndsBy(voters[q].log, n.log)
  }

  ghost predicate InTheRace(n: Node, self: NodeId, w: Node) {
    && w.term == n.term + 1 && w.votedFor == Some(self) && (w.role == Candidate || w.role == Leader)
    && n.log <= w.log
  }

  lemma PreTallyIs(n: Node, m: Membership, self: NodeId)
    requires n.role == PreCandidate
    ensures if IsQuorum(m, n.preVotes) then InTheRace(n, self, TallyVotes(n, m, self)) else TallyVotes(n, m, self) == n
  {
  }

  lemma PreVoteCounts(n: Node, q: NodeId, t: nat)
    requires n.role == PreCandidate && t <= n.term
    ensures CountVote(n, q, VoteReply(t, true)) == n.(preVotes := n.preVotes + {q})
  {
  }

  lemma LatePreVote(n: Node, w: Node, m: Membership, self: NodeId, q: NodeId, t: nat)
    requires InTheRace(n, self, w) && t <= n.term
    ensures InTheRace(n, self, TallyVotes(CountVote(w, q, VoteReply(t, true)), m, self))
  {
  }

  lemma PreVoteIsGiven(v: Node, n: Node, self: NodeId)
    requires v.term <= n.term && EndsBy(v.log, n.log)
    ensures HandleVoteRequest(v, RequestOf(n, self, true)) == (v, VoteReply(v.term, true))
  {
  }

  ghost predicate PreCounts(n: Node, m: Membership, self: NodeId, preVotes: set<NodeId>, w: Node) {
    InTheRace(n, self, w) || (w == n.(preVotes := preVotes) && !IsQuorum(m, preVotes))
  }

  lemma PreCountsOneMore(n: Node, m: Membership, self: NodeId, preVotes: set<NodeId>, w: Node, q: NodeId, t: nat)
    requires n.role == PreCandidate && PreCounts(n, m, self, preVotes, w) && t <= n.term
    ensures PreCounts(n, m, self, preVotes + {q}, TallyVotes(CountVote(w, q, VoteReply(t, true)), m, self))
  {
    if InTheRace(n, self, w) {
      LatePreVote(n, w, m, self, q, t);
    } else {
      PreVoteCounts(w, q, t);
      PreTallyIs(w.(preVotes := preVotes + {q}), m, self);
    }
  }

  lemma {:induction false} ProbingCounts(n: Node, m: Membership, self: NodeId, voters: map<NodeId, Node>,
                                         qs: seq<NodeId>)
    requires n.role == PreCandidate && NotAhead(n, voters, qs)
    ensures PreCounts(n, m, self, n.preVotes + SetOf(qs),
                      Campaign(n, m, self, voters, RequestOf(n, self, true), qs))
  {
    if qs == [] {
      assert n.preVotes + SetOf(qs) == n.preVotes && n.(preVotes := n.preVotes) == n;
      PreTallyIs(n, m, self);
    } else {
      var front, q := qs[..|qs| - 1], qs[|qs| - 1];
      assert qs == front + [q];
      ProbingCounts(n, m, self, voters, front);
      PreVoteIsGiven(voters[q], n, self);
      assert n.preVotes + SetOf(qs) == n.preVotes + SetOf(front) + {q};
      PreCountsOneMore(n, m, self, n.preVotes + SetOf(front),
                       Campaign(n, m, self, voters, RequestOf(n, self, true), front), q, voters[q].term);
    }
  }

  /** A pre-candidate becomes a candidate of the next term under the same condition
      on logs, and the nodes that answer are left as they were. */
  lemma PreVoteIsWon(n: Node, m: Membership, self: NodeId, voters: map<NodeId, Node>, qs: seq<NodeId>)
    requires n.role == PreCandidate && self in n.preVotes && NotAhead(n, voters, qs)
    requires MostOfBoth(m, {self} + SetOf(qs))
    ensures InTheRace(n, self, Campaign(n, m, self, voters, RequestOf(n, self, true), qs))
    ensures forall q :: q in qs ==> HandleVoteRequest(voters[q], RequestOf(n, self, true)).0 == voters[q]
  {
    QuorumIsMostOfBoth(m, {self} + SetOf(qs));
    QuorumGrows(m, {self} + SetOf(qs), n.preVotes + SetOf(qs));
    ProbingCounts(n, m, self, voters, qs);
    forall q | q in qs ensures HandleVoteRequest(voters[q], RequestOf(n, self, true)).0 == voters[q] {
      PreVoteIsGiven(voters[q], n, self);
    }
  }

  // ---------------------------------------------------------------------
  // Commitment
  // ---------------------------------------------------------------------

  /** The leader, and the nodes it knows to hold its log up to index i. */
  ghost function KnownToHold(n: Node, self: NodeId, i: nat): set<NodeId> {
    set p | p in n.matchIndex.Keys + {self} && (p == self || i <= n.matchIndex[p])
  }

  /** The entry at index i is of the leader's own term, and the leader and the nodes
      known to hold it are most of both lists. */
  ghost predicate Held(n: Node, m: Membership, self: NodeId, i: nat)
    requires 0 < i <= |n.log|
  {
    && n.log[i - 1].term == n.term
    && MostOfBoth(m, KnownToHold(n, self, i))
  }

  /** The commit index a leader computes: never lower, the last index so held if it
      moves, and behind no index so held. */
  lemma CommitIndexIs(n: Node, m: Membership, self: NodeId)
    requires n.role == Leader
    ensures var c := AdvanceCommit(n, m, self).commitIndex;
            && n.commitIndex <= c
            && (c > n.commitIndex ==> c <= |n.log| && Held(n, m, self, c))
            && forall i :: n.commitIndex < i <= |n.log| && Held(n, m, self, i) ==> i <= c
  {
    HighestCommittableIsHighest(n, m, self, n.commitIndex, |n.log|);
    forall i | 0 < i <= |n.log| ensures MayCommit(n, m, self, i) <==> Held(n, m, self, i) {
      HeldMayCommit(n, m, self, i);
    }
  }

  lemma HeldMayCommit(n: Node, m: Membership, self: NodeId, i: nat)
    requires 0 < i <= |n.log|
    ensures MayCommit(n, m, self, i) <==> Held(n, m, self, i)
  {
    var q := KnownToHold(n, self, i);
    assert q == Replicated(n, self, i);
    QuorumIsMostOfBoth(m, q);
  }

  ghost predicate CanProbeAll(leader: Node, followers: map<NodeId, Node>, ps: seq<NodeId>) {
    Distinct(ps) && forall p :: p in ps ==> p in followers && CanProbe(leader, followers[p], p)
  }

  /** What probing leaves of a leader: all of it but what it records of ps. */
  ghost predicate ProbedBy(leader: Node, l: Node, ps: seq<NodeId>) {
    && l == leader.(matchIndex := l.matchIndex, nextIndex := l.nextIndex)
    && forall p :: p !in ps ==> SameFor(l, leader, p)
  }

  lemma LastOne(leader: Node, followers: map<NodeId, Node>, ps: seq<NodeId>)
    requires CanProbeAll(leader, followers, ps) && ps != []
    ensures var front, p := ps[..|ps| - 1], ps[|ps| - 1];
            && ps == front + [p] && p !in front && CanProbeAll(leader, followers, front)
            && p in followers && CanProbe(leader, followers[p], p)
  {
    assert ps == ps[..|ps| - 1] + [ps[|ps| - 1]];
  }

  lemma StillProbable(leader: Node, l: Node, ps: seq<NodeId>, follower: Node, p: NodeId)
    requires ProbedBy(leader, l, ps) && p !in ps && CanProbe(leader, follower, p)
    ensures CanProbe(l, follower, p)
  {
    assert SameFor(l, leader, p);
  }

  lemma ProbedOneMore(leader: Node, l: Node, ps: seq<NodeId>, log: Log, p: NodeId, limit: nat, at: nat, l': Node,
                      f': Node)
    requires ProbedBy(leader, l, ps) && EndsAt(l, log, p, limit, at, l', f')
    ensures ProbedBy(leader, l', ps + [p])
    ensures p in l'.matchIndex && l'.matchIndex[p] == Min(at + limit, |leader.log|)
    ensures forall q :: q in l.matchIndex && q != p ==> q in l'.matchIndex && l'.matchIndex[q] == l.matchIndex[q]
  {
    forall q | q !in ps + [p] ensures SameFor(l', leader, q) {
      assert SameFor(l, leader, q);
    }
  }

  /** A leader that probes each of ps until it has the entries sent. */
  ghost function ProbeAll(leader: Node, followers: map<NodeId, Node>, self: NodeId, ps: seq<NodeId>, limit: nat,
                          concede: bool): (l: Node)
    requires CanProbeAll(leader, followers, ps)
    ensures ProbedBy(leader, l, ps)
  {
    if ps == [] then leader
    else
      var front, p := ps[..|ps| - 1], ps[|ps| - 1];
      LastOne(leader, followers, ps);
      var before := ProbeAll(leader, followers, self, front, limit, concede);
      StillProbable(leader, before, front, followers[p], p);
      var (l, f) := Probe(before, followers[p], self, p, limit, concede);
      ProbeEnds(before, followers[p], self, p, limit, concede);
      ProbedOneMore(leader, before, front, followers[p].log, p, limit,
                    Backtrack(followers[p].log, before.log, before.nextIndex[p]), l, f);
      l
  }

  /** With room for the whole log in a request, all of ps end up to date. */
  lemma {:induction false} AllMatched(leader: Node, followers: map<NodeId, Node>, self: NodeId, ps: seq<NodeId>,
                                      limit: nat, concede: bool)
    requires CanProbeAll(leader, followers, ps) && limit >= |leader.log|
    ensures var l := ProbeAll(leader, followers, self, ps, limit, concede);
            forall p :: p in ps ==> p in l.matchIndex && l.matchIndex[p] == |leader.log|
  {
    if ps != [] {
      var front, p := ps[..|ps| - 1], ps[|ps| - 1];
      LastOne(leader, followers, ps);
      AllMatched(leader, followers, self, front, limit, concede);
      var before := ProbeAll(leader, followers, self, front, limit, concede);
      StillProbable(leader, before, front, followers[p], p);
      var (l, f) := Probe(before, followers[p], self, p, limit, concede);
      ProbeEnds(before, followers[p], self, p, limit, concede);
      ProbedOneMore(leader, before, front, followers[p].log, p, limit,
                    Backtrack(followers[p].log, before.log, before.nextIndex[p]), l, f);
    }
  }

  /** What a leader records of p is the same. */
  ghost predicate SameFor(a: Node, b: Node, p: NodeId) {
    && (p in a.nextIndex <==> p in b.nextIndex) && (p in a.nextIndex ==> a.nextIndex[p] == b.nextIndex[p])
    && (p in a.matchIndex <==> p in b.matchIndex) && (p in a.matchIndex ==> a.matchIndex[p] == b.matchIndex[p])
  }

  /** A leader whose log most nodes hold to the end, the last entry being of its own
      term, commits all of it. */
  lemma UpToDateCommits(l: Node, m: Membership, self: NodeId, ps: seq<NodeId>)
    requires l.role == Leader && l.commitIndex <= |l.log|
    requires l.log != [] && l.log[|l.log| - 1].term == l.term
    requires forall p :: p in ps ==> p in l.matchIndex && l.matchIndex[p] == |l.log|
    requires MostOfBoth(m, {self} + SetOf(ps))
    ensures AdvanceCommit(l, m, self).commitIndex == |l.log|
  {
    var q := KnownToHold(l, self, |l.log|);
    QuorumIsMostOfBoth(m, {self} + SetOf(ps));
    QuorumIsMostOfBoth(m, q);
    forall x | x in {self} + SetOf(ps) ensures x in q {
    }
    QuorumGrows(m, {self} + SetOf(ps), q);
    assert Held(l, m, self, |l.log|);
    CommitIndexIs(l, m, self);
  }

  /** Entries are committed: once the nodes ps, which with the leader make up most of
      both lists, have been brought up to date, the whole log is. */
  lemma LogIsCommitted(leader: Node, m: Membership, followers: map<NodeId, Node>, self: NodeId, ps: seq<NodeId>,
                       limit: nat, concede: bool)
    requires CanProbeAll(leader, followers, ps)
    requires leader.role == Leader && leader.commitIndex <= |leader.log| <= limit
    requires leader.log != [] && leader.log[|leader.log| - 1].term == leader.term
    requires MostOfBoth(m, {self} + SetOf(ps))
    ensures AdvanceCommit(ProbeAll(leader, followers, self, ps, limit, concede), m, self).commitIndex == |leader.log|
  {
    AllMatched(leader, followers, self, ps, limit, concede);
    UpToDateCommits(ProbeAll(leader, followers, self, ps, limit, concede), m, self, ps);
  }
}
