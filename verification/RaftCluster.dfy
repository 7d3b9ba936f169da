/** The cluster as a state machine: nodes of a fixed, possibly joint,
    configuration exchanging messages over a network that may lose, delay,
    reorder and duplicate them.

    A message stays in `net` once sent: losing it is never delivering it.
    `hist` and `applied` record what happened and are read by no step. */
module RaftCluster {
  import opened RaftQuorum
  import opened RaftNode

  datatype Message =
    | VoteAsk(ask: VoteRequest)
    | VoteAnswer(voter: NodeId, candidate: NodeId, vote: VoteReply)
    | Append(append: AppendRequest)
    | Ack(follower: NodeId, leader: NodeId, ack: AppendReply)

  datatype History = History(
    elected: map<nat, NodeId>,            // the leader each term elected
    termLog: map<nat, Log>,               // the log of that leader, as long as it got
    voted: map<(NodeId, nat), NodeId>,    // every vote ever cast
    acked: map<(NodeId, nat), nat>)       // the longest prefix of a term's log a node confirmed

  /** An entry handed to the state machine of a node, with its index. */
  datatype Application = Application(id: NodeId, index: nat, entry: Entry)

  datatype Cluster = Cluster(nodes: map<NodeId, Node>, net: set<Message>, hist: History, applied: set<Application>)

  datatype Step =
    | Probe(id: NodeId)                   // election timeout: pre-vote round
    | Elect(id: NodeId)                   // real election
    | Tally(id: NodeId)                   // act on a majority of votes
    | Receive(id: NodeId, msg: Message, concede: bool)
    | ClientPropose(id: NodeId, payload: seq<nat>)
    | Replicate(id: NodeId, prev: nat, count: nat)
    | Commit(id: NodeId)
    | Apply(id: NodeId)
    | StepDown(id: NodeId)
    | Crash(id: NodeId)                   // and restart

  ghost predicate Init(m: Membership, s: Cluster) {
    s == Cluster(map id | id in m.Ids() :: InitialNode, {},
                 History(map[], map[], map[], map[]), {})
  }

  // ---------------------------------------------------------------------
  // History bookkeeping
  // ---------------------------------------------------------------------

  function AckLen(h: History, id: NodeId, t: nat): nat {
    if (id, t) in h.acked then h.acked[(id, t)] else 0
  }

  function RecordAck(h: History, id: NodeId, t: nat, k: nat): History {
    h.(acked := h.acked[(id, t) := Max(AckLen(h, id, t), k)])
  }

  function RecordVote(h: History, id: NodeId, t: nat, c: NodeId): History {
    h.(voted := h.voted[(id, t) := c])
  }

  /** The leader of term t has the log `log`, and so has confirmed all of it. */
  function RecordLeaderLog(h: History, id: NodeId, t: nat, log: Log): History {
    RecordAck(h.(elected := h.elected[t := id], termLog := h.termLog[t := log]), id, t, |log|)
  }

  // ---------------------------------------------------------------------
  // Steps
  // ---------------------------------------------------------------------

  function Put(s: Cluster, id: NodeId, n: Node, sent: set<Message>, h: History): Cluster {
    s.(nodes := s.nodes[id := n], net := s.net + sent, hist := h)
  }

  predicate Enabled(m: Membership, s: Cluster, step: Step) {
    && step.id in s.nodes
    && var n := s.nodes[step.id];
       match step
       case Probe(_) => n.role != Leader
       case Elect(_) => n.role != Leader
       case Tally(_) => n.role == Candidate && IsQuorum(m, n.votes)
       case Receive(id, msg, _) =>
         && msg in s.net
         && (match msg
             case VoteAsk(r) => r.candidate != id
             case VoteAnswer(_, to, _) => to == id
             case Append(r) => r.leader != id
             case Ack(_, to, _) => to == id)
       case ClientPropose(_, _) => n.role == Leader
       case Replicate(_, prev, count) => n.role == Leader && prev + count <= |n.log|
       case Commit(_) => n.role == Leader
       case Apply(_) => n.lastApplied < n.commitIndex <= |n.log|
       case StepDown(_) => n.role == Leader
       case Crash(_) => true
  }

  function Ask(n: Node, id: NodeId, preVote: bool): Message {
    VoteAsk(VoteRequest(n.term, id, |n.log|, LastTerm(n.log), preVote))
  }

  function DoProbe(s: Cluster, id: NodeId): Cluster
    requires id in s.nodes
  {
    var n := BecomePreCandidate(s.nodes[id], id);
    Put(s, id, n, {Ask(n, id, true)}, s.hist)
  }

  function DoElect(s: Cluster, id: NodeId): Cluster
    requires id in s.nodes
  {
    var n := BecomeCandidate(s.nodes[id], id);
    Put(s, id, n, {Ask(n, id, false)}, RecordVote(s.hist, id, n.term, id))
  }

  function DoTally(m: Membership, s: Cluster, id: NodeId): Cluster
    requires id in s.nodes
  {
    var n := BecomeLeader(s.nodes[id], m, id);
    Put(s, id, n, {}, RecordLeaderLog(s.hist, id, n.term, n.log))
  }

  function ReceiveVoteAsk(s: Cluster, id: NodeId, r: VoteRequest): Cluster
    requires id in s.nodes
  {
    var (n, reply) := HandleVoteRequest(s.nodes[id], r);
    Put(s, id, n, {VoteAnswer(id, r.candidate, reply)},
        if reply.granted && !r.preVote then RecordVote(s.hist, id, n.term, r.candidate) else s.hist)
  }

  function ReceiveAppend(s: Cluster, id: NodeId, r: AppendRequest, concede: bool): Cluster
    requires id in s.nodes
  {
    var (n, reply) := HandleAppendRequest(s.nodes[id], r, concede);
    Put(s, id, n, {Ack(id, r.leader, reply)},
        if reply.success then RecordAck(s.hist, id, n.term, reply.matched) else s.hist)
  }

  function DoReceive(s: Cluster, id: NodeId, msg: Message, concede: bool): Cluster
    requires id in s.nodes
  {
    match msg
    case VoteAsk(r) => ReceiveVoteAsk(s, id, r)
    case VoteAnswer(from, _, r) => Put(s, id, CountVote(s.nodes[id], from, r), {}, s.hist)
    case Append(r) => ReceiveAppend(s, id, r, concede)
    case Ack(from, _, r) => Put(s, id, HandleAppendReply(s.nodes[id], from, r), {}, s.hist)
  }

  function DoPropose(s: Cluster, id: NodeId, payload: seq<nat>): Cluster
    requires id in s.nodes && s.nodes[id].role == Leader
  {
    var n := Propose(s.nodes[id], payload).value;
    Put(s, id, n, {}, RecordLeaderLog(s.hist, id, n.term, n.log))
  }

  function DoReplicate(s: Cluster, id: NodeId, prev: nat, count: nat): Cluster
    requires id in s.nodes && prev + count <= |s.nodes[id].log|
  {
    var n := s.nodes[id];
    Put(s, id, n,
        {Append(AppendRequest(n.term, id, prev, TermAt(n.log, prev), n.log[prev..prev + count], n.commitIndex))},
        s.hist)
  }

  function DoApply(s: Cluster, id: NodeId): Cluster
    requires id in s.nodes && s.nodes[id].lastApplied < |s.nodes[id].log|
  {
    var n := s.nodes[id];
    var next := n.lastApplied + 1;
    Put(s, id, n.(lastApplied := next), {}, s.hist)
      .(applied := s.applied + {Application(id, next, n.log[next - 1])})
  }

  function Perform(m: Membership, s: Cluster, step: Step): Cluster
    requires Enabled(m, s, step)
  {
    match step
    case Probe(id) => DoProbe(s, id)
    case Elect(id) => DoElect(s, id)
    case Tally(id) => DoTally(m, s, id)
    case Receive(id, msg, concede) => DoReceive(s, id, msg, concede)
    case ClientPropose(id, payload) => DoPropose(s, id, payload)
    case Replicate(id, prev, count) => DoReplicate(s, id, prev, count)
    case Commit(id) => Put(s, id, AdvanceCommit(s.nodes[id], m, id), {}, s.hist)
    case Apply(id) => DoApply(s, id)
    case StepDown(id) => Put(s, id, BecomeFollower(s.nodes[id], s.nodes[id].term), {}, s.hist)
    case Crash(id) => Put(s, id, Restarted(s.nodes[id]), {}, s.hist)
  }

  ghost predicate StepAt(m: Membership, run: seq<Cluster>, steps: seq<Step>, i: nat)
    requires i < |steps| < |run|
  {
    Enabled(m, run[i], steps[i]) && run[i + 1] == Perform(m, run[i], steps[i])
  }

  /** A run: an initial state and one enabled step after another. */
  ghost predicate IsRun(m: Membership, run: seq<Cluster>, steps: seq<Step>) {
    && |run| == |steps| + 1
    && Init(m, run[0])
    && forall i: nat :: i < |steps| ==> StepAt(m, run, steps, i)
  }
}
