/** No reachable state of the cluster is a dead end: as long as the nodes of one
    quorum take steps and their messages arrive, some continuation elects a leader
    that commits and applies a given command, whatever happened before. */
module RaftAvailability {
  import opened Sets
  import opened Wrappers
  import opened RaftQuorum
  import opened RaftNode
  import opened RaftCluster
  import opened RaftInvariant
  import opened RaftAppend
  import opened RaftSafety
  import opened RaftProgress

  // ---------------------------------------------------------------------
  // Continuations
  // ---------------------------------------------------------------------

  /** Steps taken one after another, where `next` tells what each leads to. */
  ghost predicate Chain(next: (Cluster, Step) -> Option<Cluster>, s: Cluster, steps: seq<Step>, s': Cluster)
    decreases |steps|
  {
    if steps == [] then s' == s
    else next(s, steps[0]).Some? && Chain(next, next(s, steps[0]).value, steps[1..], s')
  }

  lemma {:induction false} ChainThen(next: (Cluster, Step) -> Option<Cluster>, s: Cluster, a: seq<Step>, s1: Cluster,
                                     b: seq<Step>, s2: Cluster)
    requires Chain(next, s, a, s1) && Chain(next, s1, b, s2)
    ensures Chain(next, s, a + b, s2)
    decreases |a|
  {
    if a == [] {
      assert a + b == b;
    } else {
      ChainThen(next, next(s, a[0]).value, a[1..], s1, b, s2);
      assert (a + b)[1..] == a[1..] + b;
    }
  }

  /** The enabled steps of nodes in q. */
  ghost function Mover(m: Membership, q: set<NodeId>): (Cluster, Step) -> Option<Cluster> {
    (s: Cluster, step: Step) => if step.id in q && Enabled(m, s, step) then Some(Perform(m, s, step)) else None
  }

  /** The steps, all of nodes in q, lead from s to s'. */
  ghost predicate Leads(m: Membership, q: set<NodeId>, s: Cluster, steps: seq<Step>, s': Cluster) {
    Chain(Mover(m, q), s, steps, s')
  }

  lemma OneStep(m: Membership, q: set<NodeId>, s: Cluster, step: Step) returns (steps: seq<Step>)
    requires step.id in q && Enabled(m, s, step)
    ensures Leads(m, q, s, steps, Perform(m, s, step))
  {
    steps := [step];
    assert Chain(Mover(m, q), Perform(m, s, step), steps[1..], Perform(m, s, step));
  }

  lemma Then(m: Membership, q: set<NodeId>, s: Cluster, a: seq<Step>, s1: Cluster, b: seq<Step>, s2: Cluster)
    requires Leads(m, q, s, a, s1) && Leads(m, q, s1, b, s2)
    ensures Leads(m, q, s, a + b, s2)
  {
    ChainThen(Mover(m, q), s, a, s1, b, s2);
  }

  /** Only the nodes of `changed` changed, and no message was taken back. */
  ghost predicate Touches(s: Cluster, s': Cluster, changed: set<NodeId>) {
    && s'.nodes.Keys == s.nodes.Keys && s.net <= s'.net
    && forall id :: id in s.nodes && id !in changed ==> s'.nodes[id] == s.nodes[id]
  }

  lemma TouchesBoth(s: Cluster, s1: Cluster, s2: Cluster, a: set<NodeId>, b: set<NodeId>)
    requires Touches(s, s1, a) && Touches(s1, s2, b)
    ensures Touches(s, s2, a + b)
  {
  }

  // ---------------------------------------------------------------------
  // Standing for election
  // ---------------------------------------------------------------------

  /** What standing for election leaves of a node. */
  ghost predicate Stands(n: Node, c: NodeId, n': Node) {
    && n'.role == Candidate && c in n'.votes && n'.term > n.term
    && n'.log == n.log && n'.commitIndex == n.commitIndex && n'.lastApplied == n.lastApplied
  }

  /** A node starts elections until its term is above t. */
  lemma {:induction false} StandsAbove(m: Membership, q: set<NodeId>, s: Cluster, c: NodeId, t: nat)
    returns (steps: seq<Step>, s': Cluster)
    requires c in q && c in s.nodes && s.nodes[c].role != Leader
    ensures Leads(m, q, s, steps, s') && Touches(s, s', {c})
    ensures Stands(s.nodes[c], c, s'.nodes[c]) && s'.nodes[c].term > t
    ensures VoteAsk(RequestOf(s'.nodes[c], c, false)) in s'.net
    decreases if t > s.nodes[c].term then t - s.nodes[c].term else 0
  {
    var s1 := DoElect(s, c);
    steps := OneStep(m, q, s, Elect(c));
    s' := s1;
    if s1.nodes[c].term <= t {
      var more, s2 := StandsAbove(m, q, s1, c, t);
      Then(m, q, s, steps, s1, more, s2);
      TouchesBoth(s, s1, s2, {c}, {c});
      assert {c} + {c} == {c};
      steps, s' := steps + more, s2;
    }
  }

  /** A leader steps down first. */
  lemma Stand(m: Membership, q: set<NodeId>, s: Cluster, c: NodeId, t: nat) returns (steps: seq<Step>, s': Cluster)
    requires c in q && c in s.nodes
    ensures Leads(m, q, s, steps, s') && Touches(s, s', {c})
    ensures Stands(s.nodes[c], c, s'.nodes[c]) && s'.nodes[c].term > t
    ensures VoteAsk(RequestOf(s'.nodes[c], c, false)) in s'.net
  {
    if s.nodes[c].role != Leader {
      steps, s' := StandsAbove(m, q, s, c, t);
    } else {
      var first := OneStep(m, q, s, StepDown(c));
      var s1 := Perform(m, s, StepDown(c));
      assert Touches(s, s1, {c});
      steps, s' := StandsAbove(m, q, s1, c, t);
      Then(m, q, s, first, s1, steps, s');
      TouchesBoth(s, s1, s', {c}, {c});
      assert {c} + {c} == {c};
      steps := first + steps;
    }
  }

  // ---------------------------------------------------------------------
  // Gathering votes
  // ---------------------------------------------------------------------

  /** Node v answers the candidate, which counts the answer. */
  lemma OneVote(m: Membership, q: set<NodeId>, s: Cluster, c: NodeId, v: NodeId) returns (steps: seq<Step>, s': Cluster)
    requires {c, v} <= q && c in s.nodes && v in s.nodes && v != c && s.nodes[c].role == Candidate
    requires VoteAsk(RequestOf(s.nodes[c], c, false)) in s.net
    requires s.nodes[v].term < s.nodes[c].term && EndsBy(s.nodes[v].log, s.nodes[c].log)
    ensures Leads(m, q, s, steps, s') && Touches(s, s', {c} + {v})
    ensures s'.nodes[c] == s.nodes[c].(votes := s.nodes[c].votes + {v})
    ensures s'.nodes[v].term == s.nodes[c].term
  {
    var n, r := s.nodes[c], RequestOf(s.nodes[c], c, false);
    VoteIsGiven(s.nodes[v], n, c);
    VoteCounts(n, v);
    var ask := Receive(v, VoteAsk(r), false);
    var first := OneStep(m, q, s, ask);
    var s1 := Perform(m, s, ask);
    var answer := Receive(c, VoteAnswer(v, c, VoteReply(n.term, true)), false);
    assert s1.nodes[c] == n;
    var second := OneStep(m, q, s1, answer);
    s' := Perform(m, s1, answer);
    Then(m, q, s, first, s1, second, s');
    steps := first + second;
  }

  /** What is needed of those still to be asked. */
  ghost predicate ToAsk(s: Cluster, c: NodeId, vs: seq<NodeId>) {
    && c in s.nodes && s.nodes[c].role == Candidate && VoteAsk(RequestOf(s.nodes[c], c, false)) in s.net
    && c !in vs && Distinct(vs)
    && forall v :: v in vs ==>
         v in s.nodes && s.nodes[v].term < s.nodes[c].term && EndsBy(s.nodes[v].log, s.nodes[c].log)
  }

  lemma StillToAsk(s: Cluster, c: NodeId, vs: seq<NodeId>, s1: Cluster)
    requires ToAsk(s, c, vs) && vs != [] && Touches(s, s1, {c} + {vs[0]})
    requires s1.nodes[c] == s.nodes[c].(votes := s.nodes[c].votes + {vs[0]})
    ensures ToAsk(s1, c, vs[1..]) && vs[0] !in vs[1..]
  {
    assert vs == [vs[0]] + vs[1..];
  }

  lemma FirstAndRest(q: set<NodeId>, vs: seq<NodeId>)
    requires vs != []
    ensures q + {vs[0]} + SetOf(vs[1..]) == q + SetOf(vs)
    ensures q + {vs[0]} + (q + SetOf(vs[1..])) == q + SetOf(vs)
  {
    assert vs == [vs[0]] + vs[1..];
  }

  lemma {:induction false} AllVote(m: Membership, q: set<NodeId>, s: Cluster, c: NodeId, vs: seq<NodeId>)
    returns (steps: seq<Step>, s': Cluster)
    requires c in q && SetOf(vs) <= q && ToAsk(s, c, vs)
    ensures Leads(m, q, s, steps, s') && Touches(s, s', {c} + SetOf(vs))
    ensures s'.nodes[c] == s.nodes[c].(votes := s.nodes[c].votes + SetOf(vs))
    ensures forall v :: v in vs ==> s'.nodes[v].term == s.nodes[c].term
    decreases |vs|
  {
    if vs == [] {
      steps, s' := [], s;
      assert s.nodes[c].votes + SetOf(vs) == s.nodes[c].votes;
      assert s.nodes[c].(votes := s.nodes[c].votes) == s.nodes[c];
    } else {
      var first, s1 := OneVote(m, q, s, c, vs[0]);
      StillToAsk(s, c, vs, s1);
      var rest, s2 := AllVote(m, q, s1, c, vs[1..]);
      Then(m, q, s, first, s1, rest, s2);
      TouchesBoth(s, s1, s2, {c} + {vs[0]}, {c} + SetOf(vs[1..]));
      FirstAndRest({c}, vs);
      FirstAndRest(s.nodes[c].votes, vs);
      steps, s' := first + rest, s2;
    }
  }

  // ---------------------------------------------------------------------
  // Replicating
  // ---------------------------------------------------------------------

  /** The whole log in one request. */
  function WholeLog(n: Node, c: NodeId): AppendRequest {
    AppendRequest(n.term, c, 0, 0, n.log, n.commitIndex)
  }

  /** A node of no later term takes the whole log. */
  lemma WholeLogIsTaken(v: Node, n: Node, c: NodeId)
    requires v.term <= n.term
    ensures var (v', reply) := HandleAppendRequest(v, WholeLog(n, c), false);
            reply.success && reply.term == n.term && reply.matched == |n.log| && v'.term == n.term
  {
  }

  ghost predicate Knows(n: Node, n': Node, v: NodeId) {
    n' == n.(matchIndex := n.matchIndex[v := |n.log|], nextIndex := n.nextIndex[v := |n.log| + 1])
  }

  /** Node v takes the log and the leader its acknowledgement. */
  lemma OneAck(m: Membership, q: set<NodeId>, s: Cluster, c: NodeId, v: NodeId) returns (steps: seq<Step>, s': Cluster)
    requires {c, v} <= q && c in s.nodes && v in s.nodes && v != c && s.nodes[c].role == Leader
    requires Append(WholeLog(s.nodes[c], c)) in s.net && s.nodes[v].term <= s.nodes[c].term
    ensures Leads(m, q, s, steps, s') && Touches(s, s', {c} + {v}) && Knows(s.nodes[c], s'.nodes[c], v)
  {
    var n, r := s.nodes[c], WholeLog(s.nodes[c], c);
    WholeLogIsTaken(s.nodes[v], n, c);
    var reply := HandleAppendRequest(s.nodes[v], r, false).1;
    var first := OneStep(m, q, s, Receive(v, Append(r), false));
    var s1 := Perform(m, s, Receive(v, Append(r), false));
    assert s1.nodes[c] == n && Ack(v, c, reply) in s1.net;
    var second := OneStep(m, q, s1, Receive(c, Ack(v, c, reply), false));
    s' := Perform(m, s1, Receive(c, Ack(v, c, reply), false));
    Then(m, q, s, first, s1, second, s');
    steps := first + second;
  }

  ghost predicate ToTell(s: Cluster, c: NodeId, vs: seq<NodeId>) {
    && c in s.nodes && s.nodes[c].role == Leader && Append(WholeLog(s.nodes[c], c)) in s.net
    && c !in vs && Distinct(vs)
    && forall v :: v in vs ==> v in s.nodes && s.nodes[v].term <= s.nodes[c].term
  }

  lemma StillToTell(s: Cluster, c: NodeId, vs: seq<NodeId>, s1: Cluster)
    requires ToTell(s, c, vs) && vs != [] && Touches(s, s1, {c} + {vs[0]}) && Knows(s.nodes[c], s1.nodes[c], vs[0])
    ensures ToTell(s1, c, vs[1..]) && vs[0] !in vs[1..]
  {
    assert vs == [vs[0]] + vs[1..];
  }

  /** The leader is as before, and knows of each of vs that it holds the log. */
  ghost predicate KnowsAll(n: Node, n': Node, vs: seq<NodeId>) {
    && n' == n.(matchIndex := n'.matchIndex, nextIndex := n'.nextIndex)
    && (forall v :: v in vs ==> v in n'.matchIndex && n'.matchIndex[v] == |n.log|)
    && (forall v :: v in n.matchIndex && v !in vs ==> v in n'.matchIndex && n'.matchIndex[v] == n.matchIndex[v])
  }

  lemma KnowsOneMore(n: Node, n1: Node, n2: Node, vs: seq<NodeId>)
    requires vs != [] && vs[0] !in vs[1..] && Knows(n, n1, vs[0]) && KnowsAll(n1, n2, vs[1..])
    ensures KnowsAll(n, n2, vs)
  {
    assert vs == [vs[0]] + vs[1..];
  }

  lemma {:induction false} AllAck(m: Membership, q: set<NodeId>, s: Cluster, c: NodeId, vs: seq<NodeId>)
    returns (steps: seq<Step>, s': Cluster)
    requires c in q && SetOf(vs) <= q && ToTell(s, c, vs)
    ensures Leads(m, q, s, steps, s') && Touches(s, s', {c} + SetOf(vs)) && KnowsAll(s.nodes[c], s'.nodes[c], vs)
    decreases |vs|
  {
    if vs == [] {
      steps, s' := [], s;
    } else {
      var first, s1 := OneAck(m, q, s, c, vs[0]);
      StillToTell(s, c, vs, s1);
      var rest, s2 := AllAck(m, q, s1, c, vs[1..]);
      Then(m, q, s, first, s1, rest, s2);
      TouchesBoth(s, s1, s2, {c} + {vs[0]}, {c} + SetOf(vs[1..]));
      KnowsOneMore(s.nodes[c], s1.nodes[c], s2.nodes[c], vs);
      FirstAndRest({c}, vs);
      steps, s' := first + rest, s2;
    }
  }

  // ---------------------------------------------------------------------
  // Applying
  // ---------------------------------------------------------------------

  lemma {:induction false} ApplyAll(m: Membership, q: set<NodeId>, s: Cluster, c: NodeId)
    returns (steps: seq<Step>, s': Cluster)
    requires c in q && c in s.nodes && s.nodes[c].lastApplied < s.nodes[c].commitIndex == |s.nodes[c].log|
    ensures Leads(m, q, s, steps, s') && c in s'.nodes
    ensures s'.nodes[c] == s.nodes[c].(lastApplied := |s.nodes[c].log|)
    ensures Application(c, |s.nodes[c].log|, s.nodes[c].log[|s.nodes[c].log| - 1]) in s'.applied
    decreases s.nodes[c].commitIndex - s.nodes[c].lastApplied
  {
    steps := OneStep(m, q, s, Apply(c));
    s' := DoApply(s, c);
    if s'.nodes[c].lastApplied < s'.nodes[c].commitIndex {
      var more, s2 := ApplyAll(m, q, s', c);
      Then(m, q, s, steps, s', more, s2);
      steps, s' := steps + more, s2;
    }
  }

  // ---------------------------------------------------------------------
  // Putting it together
  // ---------------------------------------------------------------------

  /** A node of q whose log ends no earlier than any other's, and a term that all
      of them are at or below. */
  lemma {:induction false} Best(s: Cluster, q: set<NodeId>) returns (c: NodeId, t: nat)
    requires q != {} && q <= s.nodes.Keys
    ensures c in q && forall v :: v in q ==> EndsBy(s.nodes[v].log, s.nodes[c].log) && s.nodes[v].term <= t
    decreases |q|
  {
    var v := Pick(q);
    if q == {v} {
      c, t := v, s.nodes[v].term;
    } else {
      var rest := q - {v};
      assert q == rest + {v};
      c, t := Best(s, rest);
      t := Max(t, s.nodes[v].term);
      if !EndsBy(s.nodes[v].log, s.nodes[c].log) { c := v; }
    }
  }

  lemma {:induction false} Listing(q: set<NodeId>) returns (vs: seq<NodeId>)
    ensures Distinct(vs) && SetOf(vs) == q
    decreases |q|
  {
    vs := [];
    if q != {} {
      var v := Pick(q);
      var rest := Listing(q - {v});
      vs := rest + [v];
      assert forall x :: x in vs <==> x in rest || x == v;
      assert forall x :: x in rest <==> x in SetOf(rest);
      forall i, j | 0 <= i < j < |vs| ensures vs[i] != vs[j] {
        assert vs[i] in rest;
      }
    }
  }

  lemma ReadyToAsk(s: Cluster, s1: Cluster, q: set<NodeId>, c: NodeId, t: nat, vs: seq<NodeId>)
    requires q <= s.nodes.Keys && c in q && Distinct(vs) && SetOf(vs) == q - {c} && Touches(s, s1, {c})
    requires forall v :: v in q ==> EndsBy(s.nodes[v].log, s.nodes[c].log) && s.nodes[v].term <= t
    requires Stands(s.nodes[c], c, s1.nodes[c]) && s1.nodes[c].term > t
    requires VoteAsk(RequestOf(s1.nodes[c], c, false)) in s1.net
    ensures ToAsk(s1, c, vs)
  {
    assert c !in SetOf(vs);
    forall v | v in vs ensures v in q && v != c && s1.nodes[v] == s.nodes[v] {
      assert v in SetOf(vs);
    }
  }

  /** What a candidate with the votes of all of q has kept. */
  ghost predicate HasVotes(n: Node, n': Node, q: set<NodeId>) {
    && n'.role == Candidate && q <= n'.votes
    && n'.log == n.log && n'.commitIndex == n.commitIndex && n'.lastApplied == n.lastApplied
  }

  /** Node c of q, with all of q behind it, gets the votes of all of q. */
  lemma VotedFor(m: Membership, s: Cluster, q: set<NodeId>, c: NodeId, t: nat, vs: seq<NodeId>)
    returns (steps: seq<Step>, s': Cluster)
    requires q <= s.nodes.Keys && c in q && Distinct(vs) && SetOf(vs) == q - {c}
    requires forall v :: v in q ==> EndsBy(s.nodes[v].log, s.nodes[c].log) && s.nodes[v].term <= t
    ensures Leads(m, q, s, steps, s') && s'.nodes.Keys == s.nodes.Keys && HasVotes(s.nodes[c], s'.nodes[c], q)
    ensures forall v :: v in q ==> s'.nodes[v].term <= s'.nodes[c].term
  {
    var first, s1 := Stand(m, q, s, c, t);
    ReadyToAsk(s, s1, q, c, t, vs);
    var second;
    second, s' := AllVote(m, q, s1, c, vs);
    Then(m, q, s, first, s1, second, s');
    forall v | v in q ensures s'.nodes[v].term <= s'.nodes[c].term {
      assert v == c || v in SetOf(vs);
    }
    steps := first + second;
  }

  lemma Tallied(m: Membership, s: Cluster, q: set<NodeId>, c: NodeId) returns (steps: seq<Step>, s': Cluster)
    requires c in q && c in s.nodes && s.nodes[c].role == Candidate && IsQuorum(m, q) && q <= s.nodes[c].votes
    ensures Leads(m, q, s, steps, s') && Touches(s, s', {c})
    ensures var n, n' := s.nodes[c], s'.nodes[c];
            && n'.role == Leader && |n'.log| == |n.log| + 1 && n'.term == n.term
            && n'.commitIndex == n.commitIndex && n'.lastApplied == n.lastApplied
  {
    QuorumGrows(m, q, s.nodes[c].votes);
    steps := OneStep(m, q, s, Tally(c));
    s' := DoTally(m, s, c);
  }

  /** And so becomes leader. */
  lemma Elected(m: Membership, s: Cluster, q: set<NodeId>, c: NodeId, t: nat, vs: seq<NodeId>)
    returns (steps: seq<Step>, s': Cluster)
    requires q <= s.nodes.Keys && IsQuorum(m, q) && c in q && Distinct(vs) && SetOf(vs) == q - {c}
    requires forall v :: v in q ==> EndsBy(s.nodes[v].log, s.nodes[c].log) && s.nodes[v].term <= t
    ensures Leads(m, q, s, steps, s') && s'.nodes.Keys == s.nodes.Keys
    ensures var n, n' := s.nodes[c], s'.nodes[c];
            && n'.role == Leader && |n'.log| == |n.log| + 1
            && n'.commitIndex == n.commitIndex && n'.lastApplied == n.lastApplied
    ensures forall v :: v in q ==> s'.nodes[v].term <= s'.nodes[c].term
  {
    var first, s1 := VotedFor(m, s, q, c, t, vs);
    var second;
    second, s' := Tallied(m, s1, q, c);
    Then(m, q, s, first, s1, second, s');
    steps := first + second;
  }

  /** The leader commits what it knows all of q to hold. */
  lemma CommitsAll(m: Membership, s: Cluster, q: set<NodeId>, c: NodeId, vs: seq<NodeId>)
    returns (steps: seq<Step>, s': Cluster)
    requires MostOfBoth(m, q) && c in q && SetOf(vs) == q - {c} && c in s.nodes
    requires var n := s.nodes[c];
             && n.role == Leader && n.commitIndex <= |n.log| && n.log != [] && n.log[|n.log| - 1].term == n.term
             && forall v :: v in vs ==> v in n.matchIndex && n.matchIndex[v] == |n.log|
    ensures Leads(m, q, s, steps, s') && c in s'.nodes
    ensures s'.nodes[c] == s.nodes[c].(commitIndex := |s.nodes[c].log|)
  {
    assert {c} + SetOf(vs) == q;
    UpToDateCommits(s.nodes[c], m, c, vs);
    steps := OneStep(m, q, s, Commit(c));
    s' := Perform(m, s, Commit(c));
  }

  /** A leader whose term none of q is past commits and applies a command. */
  lemma Committed(m: Membership, s: Cluster, q: set<NodeId>, c: NodeId, vs: seq<NodeId>, payload: seq<nat>)
    returns (steps: seq<Step>, s': Cluster)
    requires q <= s.nodes.Keys && MostOfBoth(m, q) && c in q && Distinct(vs) && SetOf(vs) == q - {c}
    requires s.nodes[c].role == Leader && s.nodes[c].lastApplied <= s.nodes[c].commitIndex <= |s.nodes[c].log|
    requires forall v :: v in q ==> s.nodes[v].term <= s.nodes[c].term
    ensures Leads(m, q, s, steps, s') && Applies(s', c, payload)
  {
    var first, s1 := Told(m, s, q, c, vs, payload);
    var second, s2 := CommitsAll(m, s1, q, c, vs);
    Then(m, q, s, first, s1, second, s2);
    var third;
    third, s' := ApplyAll(m, q, s2, c);
    Then(m, q, s, first + second, s2, third, s');
    steps := first + second + third;
  }

  /** The command is in the leader's log, and the leader knows of all of q that they
      hold that log. */
  lemma Told(m: Membership, s: Cluster, q: set<NodeId>, c: NodeId, vs: seq<NodeId>, payload: seq<nat>)
    returns (steps: seq<Step>, s': Cluster)
    requires q <= s.nodes.Keys && c in q && Distinct(vs) && SetOf(vs) == q - {c} && s.nodes[c].role == Leader
    requires forall v :: v in q ==> s.nodes[v].term <= s.nodes[c].term
    ensures Leads(m, q, s, steps, s') && c in s'.nodes
    ensures var n := s.nodes[c].(log := s.nodes[c].log + [Entry(s.nodes[c].term, User(payload))]);
            KnowsAll(n, s'.nodes[c], vs)
  {
    var first := OneStep(m, q, s, ClientPropose(c, payload));
    var s1 := DoPropose(s, c, payload);
    var n := s1.nodes[c];
    var second := OneStep(m, q, s1, Replicate(c, 0, |n.log|));
    var s2 := DoReplicate(s1, c, 0, |n.log|);
    assert n.log[0..0 + |n.log|] == n.log;
    Then(m, q, s, first, s1, second, s2);
    forall v | v in vs ensures v in q && v != c {
      assert v in SetOf(vs);
    }
    var third;
    third, s' := AllAck(m, q, s2, c, vs);
    Then(m, q, s, first + second, s2, third, s');
    steps := first + second + third;
  }

  /** Node c leads, and has committed and applied the command as the last of its log. */
  ghost predicate Applies(s: Cluster, c: NodeId, payload: seq<nat>) {
    && c in s.nodes && s.nodes[c].role == Leader
    && var n := s.nodes[c];
       && n.log != [] && n.log[|n.log| - 1] == Entry(n.term, User(payload))
       && n.commitIndex == |n.log|
       && Application(c, |n.log|, n.log[|n.log| - 1]) in s.applied
  }

  lemma QuorumApplies(m: Membership, s: Cluster, q: set<NodeId>, payload: seq<nat>)
    returns (c: NodeId, steps: seq<Step>, s': Cluster)
    requires Inv(m, s) && q <= m.Ids() && MostOfBoth(m, q)
    ensures c in q && Leads(m, q, s, steps, s') && Applies(s', c, payload)
  {
    QuorumIsMostOfBoth(m, q);
    var t;
    c, t := Best(s, q);
    assert NodeInv(m, s, c);
    var vs := Listing(q - {c});
    var first, s1 := Elected(m, s, q, c, t, vs);
    var second;
    second, s' := Committed(m, s1, q, c, vs, payload);
    Then(m, q, s, first, s1, second, s');
    steps := first + second;
  }

  /** From every state of every run, and for every set of nodes that are most of both
      lists, the run can go on, with steps of those nodes only, until one of them
      leads and has committed and applied the command. */
  lemma NoDeadEnd(m: Membership, run: seq<Cluster>, steps: seq<Step>, q: set<NodeId>, payload: seq<nat>)
    returns (c: NodeId, run': seq<Cluster>, steps': seq<Step>)
    requires IsRun(m, run, steps) && q <= m.Ids() && MostOfBoth(m, q)
    ensures IsRun(m, run', steps') && run <= run' && steps <= steps'
    ensures forall i :: |steps| <= i < |steps'| ==> steps'[i].id in q
    ensures c in q && Applies(run'[|steps'|], c, payload)
  {
    RunInv(m, run, steps, |steps|);
    var more, last;
    c, more, last := QuorumApplies(m, run[|steps|], q, payload);
    run', steps' := GoOn(m, run, steps, q, more, last);
  }

  lemma {:induction false} GoOn(m: Membership, run: seq<Cluster>, steps: seq<Step>, q: set<NodeId>, more: seq<Step>,
                                last: Cluster) returns (run': seq<Cluster>, steps': seq<Step>)
    requires IsRun(m, run, steps) && Leads(m, q, run[|steps|], more, last)
    ensures IsRun(m, run', steps') && run <= run' && steps <= steps' && run'[|steps'|] == last
    ensures forall i :: |steps| <= i < |steps'| ==> steps'[i].id in q
    decreases |more|
  {
    run', steps' := run, steps;
    if more != [] {
      var next := run + [Perform(m, run[|steps|], more[0])];
      LongerRun(m, run, steps, more[0], next);
      run', steps' := GoOn(m, next, steps + [more[0]], q, more[1..], last);
    }
  }

  lemma LongerRun(m: Membership, run: seq<Cluster>, steps: seq<Step>, step: Step, next: seq<Cluster>)
    requires IsRun(m, run, steps) && Enabled(m, run[|steps|], step)
    requires next == run + [Perform(m, run[|steps|], step)]
    ensures IsRun(m, next, steps + [step])
  {
    forall i: nat | i < |steps + [step]| ensures StepAt(m, next, steps + [step], i) {
      if i < |steps| { assert StepAt(m, run, steps, i); }
    }
  }

  /** In every state of every run: a leader that probes nodes ps of no later term, which
      with it are most of both lists, commits the whole of its log. */
  lemma LeadersCommit(m: Membership, run: seq<Cluster>, steps: seq<Step>, i: nat, a: NodeId, ps: seq<NodeId>,
                      limit: nat, concede: bool)
    requires IsRun(m, run, steps) && i < |run| && a in m.Ids() && a in run[i].nodes && run[i].nodes[a].role == Leader
    requires Distinct(ps) && a !in ps && MostOfBoth(m, {a} + SetOf(ps)) && limit >= |run[i].nodes[a].log|
    requires forall p :: p in ps ==> p in m.Ids() && p in run[i].nodes && run[i].nodes[p].term <= run[i].nodes[a].term
    ensures CanProbeAll(run[i].nodes[a], run[i].nodes, ps)
    ensures var l := ProbeAll(run[i].nodes[a], run[i].nodes, a, ps, limit, concede);
            AdvanceCommit(l, m, a).commitIndex == |run[i].nodes[a].log|
  {
    var leader := run[i].nodes[a];
    LeadersAreReady(m, run, steps, i, a);
    RunNode(m, run, steps, i, a);
    LogIsCommitted(leader, m, run[i].nodes, a, ps, limit, concede);
  }
}
