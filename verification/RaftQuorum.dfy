/** Cluster membership and quorums (include/torrent/consensus/raft_types.h).

    A configuration is a list of members and, during a joint-consensus
    transition, a second list.  A quorum is a majority of both lists. */
module RaftQuorum {
  import opened Sets

  /** Broker identifiers double as Raft node identifiers. */
  type NodeId = int

  datatype Membership = Membership(members: seq<NodeId>, jointMembers: seq<NodeId>) {
    predicate InJointConsensus() {
      jointMembers != []
    }

    /** The size test the header offers: the larger of the two majorities. */
    function QuorumSize(): nat {
      var qOld := |members| / 2 + 1;
      if !InJointConsensus() then qOld
      else
        var qNew := |jointMembers| / 2 + 1;
        if qOld < qNew then qNew else qOld
    }

    /** Every node of either configuration. */
    function Ids(): set<NodeId> {
      SetOf(members) + SetOf(jointMembers)
    }

    ghost predicate NoDuplicates() {
      Distinct(members) && Distinct(jointMembers)
    }
  }

  predicate Majority(q: set<NodeId>, config: set<NodeId>) {
    2 * |q * config| > |config|
  }

  /** What the header's prose asks for: a majority of both sets. */
  predicate IsQuorum(m: Membership, q: set<NodeId>) {
    && Majority(q, SetOf(m.members))
    && (m.InJointConsensus() ==> Majority(q, SetOf(m.jointMembers)))
  }

  lemma MajoritiesMeet(a: set<NodeId>, b: set<NodeId>, config: set<NodeId>) returns (x: NodeId)
    requires Majority(a, config) && Majority(b, config)
    ensures x in a && x in b && x in config
  {
    var p, q := a * config, b * config;
    assert p * q != {} by {
      if p * q == {} {
        assert |p + q| == |p| + |q|;
        SubsetSize(p + q, config);
        assert false;
      }
    }
    x := Pick(p * q);
  }

  /** Two quorums of one configuration, joint or not, share a node of it. */
  lemma QuorumsMeet(m: Membership, a: set<NodeId>, b: set<NodeId>) returns (x: NodeId)
    requires IsQuorum(m, a) && IsQuorum(m, b)
    ensures x in a && x in b && x in SetOf(m.members)
  {
    x := MajoritiesMeet(a, b, SetOf(m.members));
  }

  lemma QuorumGrows(m: Membership, a: set<NodeId>, b: set<NodeId>)
    requires IsQuorum(m, a) && a <= b
    ensures IsQuorum(m, b)
  {
    SubsetSize(a * SetOf(m.members), b * SetOf(m.members));
    SubsetSize(a * SetOf(m.jointMembers), b * SetOf(m.jointMembers));
  }

  // ---------------------------------------------------------------------
  // quorum_set and quorum_size
  // ---------------------------------------------------------------------

  /** The least number of nodes that is more than half of each list. */
  lemma QuorumSizeIsLeast(m: Membership, k: nat)
    ensures k >= m.QuorumSize() <==>
            2 * k > |m.members| && (m.InJointConsensus() ==> 2 * k > |m.jointMembers|)
  {
  }

  /** The joint members not already in `members`, in order. */
  function Added(members: seq<NodeId>, joint: seq<NodeId>): seq<NodeId> {
    if joint == [] then []
    else
      var rest := Added(members, joint[..|joint| - 1]);
      if joint[|joint| - 1] in members then rest else rest + [joint[|joint| - 1]]
  }

  lemma {:induction false} AddedElements(members: seq<NodeId>, joint: seq<NodeId>)
    ensures forall x :: x in Added(members, joint) <==> x in joint && x !in members
  {
    if joint != [] {
      AddedElements(members, joint[..|joint| - 1]);
      assert joint == joint[..|joint| - 1] + [joint[|joint| - 1]];
    }
  }

  lemma {:induction false} AddedDistinct(members: seq<NodeId>, joint: seq<NodeId>)
    requires Distinct(joint)
    ensures Distinct(Added(members, joint))
  {
    if joint != [] {
      AddedDistinct(members, joint[..|joint| - 1]);
      AddedElements(members, joint[..|joint| - 1]);
    }
  }

  /** The loop of quorum_set: exactly the nodes of both lists, and each listed
      once when neither list repeats a node. */
  method QuorumSet(m: Membership) returns (result: seq<NodeId>)
    ensures SetOf(result) == m.Ids()
    ensures m.NoDuplicates() ==> Distinct(result) && |result| == |m.Ids()|
    ensures Distinct(result) <==> Distinct(m.members) && Distinct(Added(m.members, m.jointMembers))
    ensures m.members <= result
  {
    result := m.members;
    if m.InJointConsensus() {
      for i := 0 to |m.jointMembers|
        invariant result == m.members + Added(m.members, m.jointMembers[..i])
      {
        assert m.jointMembers[..i + 1][..i] == m.jointMembers[..i];
        if m.jointMembers[i] !in m.members {
          result := result + [m.jointMembers[i]];
        }
      }
      assert m.jointMembers[..|m.jointMembers|] == m.jointMembers;
    }
    ghost var extra := Added(m.members, m.jointMembers);
    assert result == m.members + extra;
    AddedElements(m.members, m.jointMembers);
    forall x ensures x in SetOf(result) <==> x in m.Ids() {
      assert x in result <==> x in m.members || x in extra;
    }
    ConcatDistinct(m.members, extra);
    if m.NoDuplicates() {
      AddedDistinct(m.members, m.jointMembers);
      DistinctSize(result);
    }
  }

  lemma ConcatDistinct(a: seq<NodeId>, b: seq<NodeId>)
    requires forall x :: x in b ==> x !in a
    ensures Distinct(a + b) <==> Distinct(a) && Distinct(b)
  {
    var c := a + b;
    assert forall i :: 0 <= i < |a| ==> c[i] == a[i];
    assert forall i :: 0 <= i < |b| ==> c[|a| + i] == b[i];
    if Distinct(a) && Distinct(b) {
      forall i, j | 0 <= i < j < |c| ensures c[i] != c[j] {
        if i < |a| <= j { assert c[j] == b[j - |a|] && b[j - |a|] in b; }
      }
    }
    if Distinct(c) {
      forall i, j | 0 <= i < j < |b| ensures b[i] != b[j] {
        assert c[|a| + i] != c[|a| + j];
      }
    }
  }

  /** A joint quorum meets every majority of either configuration and always
      has at least quorum_size() nodes of the union. */
  lemma JointQuorum(m: Membership, q: set<NodeId>)
    requires m.NoDuplicates()
    requires IsQuorum(m, q)
    ensures |q * m.Ids()| >= m.QuorumSize()
    ensures forall a :: Majority(a, SetOf(m.members)) ==> a * q * SetOf(m.members) != {}
    ensures m.InJointConsensus() ==>
              forall a :: Majority(a, SetOf(m.jointMembers)) ==> a * q * SetOf(m.jointMembers) != {}
  {
    DistinctSize(m.members);
    DistinctSize(m.jointMembers);
    SubsetSize(q * SetOf(m.members), q * m.Ids());
    SubsetSize(q * SetOf(m.jointMembers), q * m.Ids());
    forall a | Majority(a, SetOf(m.members)) ensures a * q * SetOf(m.members) != {} {
      var x := MajoritiesMeet(a, q, SetOf(m.members));
      assert x in a * q * SetOf(m.members);
    }
    if m.InJointConsensus() {
      forall a | Majority(a, SetOf(m.jointMembers)) ensures a * q * SetOf(m.jointMembers) != {} {
        var x := MajoritiesMeet(a, q, SetOf(m.jointMembers));
        assert x in a * q * SetOf(m.jointMembers);
      }
    }
  }

  /** Whether any quorum_size() nodes of the union are a majority of a list: no
      set that large can leave half of the list out. */
  predicate SizeForces(m: Membership, config: seq<NodeId>) {
    2 * m.QuorumSize() + |config| > 2 * |m.Ids()|
  }

  /** The size test implies a dual majority if and only if the size forces a
      majority of each list. */
  lemma SizeAloneIsQuorumIff(m: Membership)
    requires m.NoDuplicates()
    ensures (forall q: set<NodeId> :: q <= m.Ids() && |q| >= m.QuorumSize() ==> IsQuorum(m, q))
            <==> SizeForces(m, m.members) && (m.InJointConsensus() ==> SizeForces(m, m.jointMembers))
  {
    SizeForcesMajority(m, m.members);
    if m.InJointConsensus() { SizeForcesMajority(m, m.jointMembers); }
  }

  /** One list: either every set that passes the size test has a majority of it,
      or one set that passes has none. */
  lemma SizeForcesMajority(m: Membership, config: seq<NodeId>)
    requires m.NoDuplicates() && (config == m.members || config == m.jointMembers)
    ensures (forall q: set<NodeId> :: q <= m.Ids() && |q| >= m.QuorumSize() ==> Majority(q, SetOf(config)))
            <==> SizeForces(m, config)
  {
    var u, c, k := m.Ids(), SetOf(config), m.QuorumSize();
    DistinctSize(config);
    if SizeForces(m, config) {
      forall q: set<NodeId> | q <= u && |q| >= k ensures Majority(q, c) {
        InsideAndOutside(q, c, u);
      }
    } else {
      QuorumSizeFits(m);
      var q := AvoidingSubset(u, c, k);
      assert !Majority(q, c);
    }
  }

  lemma InsideAndOutside(q: set<NodeId>, c: set<NodeId>, u: set<NodeId>)
    requires q <= u && c <= u
    ensures |q| <= |q * c| + |u| - |c|
  {
    assert q == q * c + (q - c);
    SubsetSize(q - c, u - c);
    assert |u - c| == |u| - |c|;
  }

  lemma QuorumSizeFits(m: Membership)
    requires m.NoDuplicates()
    ensures m.Ids() != {} ==> m.QuorumSize() <= |m.Ids()|
    ensures m.Ids() == {} ==> m.members == []
  {
    DistinctSize(m.members);
    DistinctSize(m.jointMembers);
    SubsetSize(SetOf(m.members), m.Ids());
    SubsetSize(SetOf(m.jointMembers), m.Ids());
    if m.members != [] { assert m.members[0] in m.Ids(); }
  }

  /** k nodes of u with as few of c as possible. */
  lemma AvoidingSubset(u: set<NodeId>, c: set<NodeId>, k: nat) returns (q: set<NodeId>)
    requires c <= u && k <= |u|
    ensures q <= u && |q| == k
    ensures |q * c| == if k <= |u| - |c| then 0 else k - (|u| - |c|)
  {
    assert |u - c| == |u| - |c|;
    if k <= |u - c| {
      q := PickSubset(u - c, k);
      assert q * c == {};
    } else {
      var inside := PickSubset(c, k - |u - c|);
      q := (u - c) + inside;
      assert q * c == inside;
    }
  }

  /** Sets of quorum_size() nodes of the union always meet each other if and only
      if twice that size exceeds the union.  That makes them neither majorities
      of both lists nor sets that meet every such majority. */
  lemma SizeAloneIntersects(m: Membership)
    requires m.NoDuplicates()
    ensures (forall a: set<NodeId>, b: set<NodeId> ::
              a <= m.Ids() && b <= m.Ids() && |a| >= m.QuorumSize() && |b| >= m.QuorumSize() ==> a * b != {})
            <==> 2 * m.QuorumSize() > |m.Ids()|
  {
    var u, k := m.Ids(), m.QuorumSize();
    if 2 * k > |u| {
      forall a: set<NodeId>, b: set<NodeId> | a <= u && b <= u && |a| >= k && |b| >= k ensures a * b != {} {
        if a * b == {} {
          assert |a + b| == |a| + |b|;
          SubsetSize(a + b, u);
          assert false;
        }
      }
    } else {
      var a := PickSubset(u, k);
      SubsetSize(a, u);
      assert |u - a| == |u| - |a|;
      var b := PickSubset(u - a, k);
      assert a * b == {};
    }
  }

  lemma {:induction false} PickSubset(u: set<NodeId>, k: nat) returns (a: set<NodeId>)
    requires k <= |u|
    ensures a <= u && |a| == k
    decreases k
  {
    if k == 0 {
      a := {};
    } else {
      assert |u| != 0;
      var x := Pick(u);
      var b := PickSubset(u - {x}, k - 1);
      a := b + {x};
    }
  }

  /** The size test alone does not imply a dual majority: moving from {1} to
      {2}, node 2 alone passes it without a majority of the old configuration. */
  lemma SizeAloneIsNotAQuorum()
    ensures var m := Membership([1], [2]);
            m.NoDuplicates() && {2} <= m.Ids() && |{2}| >= m.QuorumSize() && !IsQuorum(m, {2})
  {
    var m := Membership([1], [2]);
    assert SetOf(m.members) == {1};
    assert {2} * SetOf(m.members) == {};
    assert 2 in m.jointMembers;
  }

  /** Nor does it where any two sets that pass it meet: growing from three nodes
      to five, some three of the five pass without two of the old ones. */
  lemma MeetingIsNotAQuorum(m: Membership) returns (q: set<NodeId>)
    requires m.NoDuplicates() && SetOf(m.members) <= SetOf(m.jointMembers)
    requires |m.members| == 3 && |m.jointMembers| == 5
    ensures 2 * m.QuorumSize() > |m.Ids()|
    ensures q <= m.Ids() && |q| >= m.QuorumSize() && !IsQuorum(m, q)
  {
    DistinctSize(m.jointMembers);
    assert m.Ids() == SetOf(m.jointMembers);
    SizeForcesMajority(m, m.members);
    q :| q <= m.Ids() && |q| >= m.QuorumSize() && !Majority(q, SetOf(m.members));
  }
}
