/** From the leader's subscription to what each member decodes
    (clients/python/torrent_mq/consumer.py, clients/python/torrent_mq/protocol.py,
    clients/go/torrentmq/consumer.go). */
module GroupAssignment {
  import opened Sets
  import opened Wrappers
  import opened WireBytes
  import opened GoCodec
  import opened Assignors
  import opened AssignmentWire

  /** What the leader sends to one member. */
  datatype Sent = Sent(member: Member, assignment: Bytes)

  /** The result list of either assignor; None when an encoding raises. */
  function EncodeShares(gs: seq<Gift>, members: seq<Member>): Option<seq<Sent>> {
    if members == [] then Some([])
    else
      match Encode(ShareOf(gs, members[0]))
      case None => None
      case Some(b) =>
        (match EncodeShares(gs, members[1..])
         case None => None
         case Some(rest) => Some([Sent(members[0], b)] + rest))
  }

  /** _compute_assignments: nobody is sent anything when there is nothing to assign. */
  function Compute(a: Assignor, members: seq<Member>, sub: Subscription): Option<seq<Sent>> {
    if AllPairs(sub) == [] then Some([])
    else EncodeShares(Gifts(a, members, AllPairs(sub)), members)
  }

  lemma {:induction false} EncodeSharesIs(gs: seq<Gift>, members: seq<Member>)
    ensures EncodeShares(gs, members).Some? <==>
            forall i :: 0 <= i < |members| ==> Encode(ShareOf(gs, members[i])).Some?
    ensures EncodeShares(gs, members).Some? ==>
              var sent := EncodeShares(gs, members).value;
              |sent| == |members| && forall i :: 0 <= i < |members| ==>
                sent[i].member == members[i] && Encode(ShareOf(gs, members[i])) == Some(sent[i].assignment)
  {
    if members != [] {
      EncodeSharesIs(gs, members[1..]);
      assert members == [members[0]] + members[1..];
    }
  }

  // ---------------------------------------------------------------------
  // End to end
  // ---------------------------------------------------------------------

  /** Member i reads its assignment with the decoder of its own language. */
  ghost predicate AllDecode(langs: seq<Language>, sent: seq<Sent>) {
    |sent| <= |langs| && forall i :: 0 <= i < |sent| ==> Decodes(langs[i], sent[i].assignment)
  }

  /** How often x is held in the whole group. */
  ghost function GroupHolds(langs: seq<Language>, sent: seq<Sent>, x: Pair): nat
    requires AllDecode(langs, sent)
    decreases |sent|
  {
    if sent == [] then 0
    else Held(langs[0], sent[0].assignment, x) + GroupHolds(langs[1..], sent[1..], x)
  }

  /** Exactly one member holds x, once. */
  ghost predicate OneHolder(langs: seq<Language>, sent: seq<Sent>, x: Pair)
    requires AllDecode(langs, sent)
  {
    exists i :: 0 <= i < |sent| && Held(langs[i], sent[i].assignment, x) == 1
                && forall j :: 0 <= j < |sent| && j != i ==> Held(langs[j], sent[j].assignment, x) == 0
  }

  /** Decoded shares hold what the encoded ones held. */
  ghost predicate Carries(langs: seq<Language>, sent: seq<Sent>, shares: seq<seq<Pair>>, x: Pair)
    requires AllDecode(langs, sent)
  {
    |sent| == |shares| &&
    forall i :: 0 <= i < |sent| ==> Held(langs[i], sent[i].assignment, x) == multiset(shares[i])[x]
  }

  lemma {:induction false} CarriedTotal(langs: seq<Language>, sent: seq<Sent>, shares: seq<seq<Pair>>, x: Pair)
    requires AllDecode(langs, sent) && Carries(langs, sent, shares, x)
    ensures GroupHolds(langs, sent, x) == Total(shares)[x]
    decreases |sent|
  {
    if sent != [] {
      assert Held(langs[0], sent[0].assignment, x) == multiset(shares[0])[x];
      CarriedTotal(langs[1..], sent[1..], shares[1..], x);
    }
  }

  lemma CarriedOwner(langs: seq<Language>, sent: seq<Sent>, shares: seq<seq<Pair>>, x: Pair)
    requires AllDecode(langs, sent) && Carries(langs, sent, shares, x)
    ensures OneHolder(langs, sent, x) <==> OneOwner(shares, x)
  {
    forall i | 0 <= i < |sent| ensures Held(langs[i], sent[i].assignment, x) == 0 <==> x !in shares[i] {
      assert x in shares[i] <==> x in multiset(shares[i]);
    }
    if OneOwner(shares, x) {
      var i :| 0 <= i < |shares| && multiset(shares[i])[x] == 1
               && forall j :: 0 <= j < |shares| && j != i ==> x !in shares[j];
      assert Held(langs[i], sent[i].assignment, x) == 1;
    }
    if OneHolder(langs, sent, x) {
      var i :| 0 <= i < |sent| && Held(langs[i], sent[i].assignment, x) == 1
               && forall j :: 0 <= j < |sent| && j != i ==> Held(langs[j], sent[j].assignment, x) == 0;
      assert multiset(shares[i])[x] == 1;
    }
  }

  /** Go slices have a length that fits an int. */
  ghost predicate Sliceable(langs: seq<Language>, sent: seq<Sent>) {
    |sent| <= |langs| && forall i :: 0 <= i < |sent| && langs[i] == Go ==> |sent[i].assignment| <= MAX_INT
  }

  lemma SentCarries(gs: seq<Gift>, members: seq<Member>, langs: seq<Language>, x: Pair)
    requires EncodeShares(gs, members).Some? && Sliceable(langs, EncodeShares(gs, members).value)
    ensures var sent := EncodeShares(gs, members).value;
            AllDecode(langs, sent) && Carries(langs, sent, Shares(gs, members), x)
  {
    var sent := EncodeShares(gs, members).value;
    EncodeSharesIs(gs, members);
    forall i | 0 <= i < |sent|
      ensures Decodes(langs[i], sent[i].assignment)
      ensures Held(langs[i], sent[i].assignment, x) == multiset(Shares(gs, members)[i])[x]
    {
      BothDecodersRecover(langs[i], ShareOf(gs, members[i]), x);
    }
  }

  /** End to end: whichever assignor the leader uses and whichever client each
      member runs, what the members decode adds up to the subscription, and a
      partition has exactly one holder if and only if the subscription lists it
      exactly once.  Members are distinct, or repeated only where ExactDivisionIff
      allows it. */
  lemma EndToEnd(a: Assignor, members: seq<Member>, sub: Subscription, langs: seq<Language>, x: Pair)
    requires members != [] && RepeatsAreBeyond(a, members, AllPairs(sub))
    requires Compute(a, members, sub).Some? && Sliceable(langs, Compute(a, members, sub).value)
    ensures var sent := Compute(a, members, sub).value;
            && AllDecode(langs, sent)
            && GroupHolds(langs, sent, x) == Listed(sub, x)
            && (OneHolder(langs, sent, x) <==> Listed(sub, x) == 1)
  {
    var sent := Compute(a, members, sub).value;
    AllPairsBag(sub, x);
    if AllPairs(sub) != [] {
      var gs := Gifts(a, members, AllPairs(sub));
      var shares := Shares(gs, members);
      SentCarries(gs, members, langs, x);
      CarriedTotal(langs, sent, shares, x);
      CarriedOwner(langs, sent, shares, x);
      ExactDivisionIff(a, members, AllPairs(sub));
      OneOwnerIff(shares, x);
    }
  }

  /** The condition on repeated members is exact, in what the members decode: the
      group holds every partition as often as the subscription lists it if and only
      if whoever is listed more than once is listed past the end of the work. */
  lemma EndToEndIff(a: Assignor, members: seq<Member>, sub: Subscription, langs: seq<Language>)
    requires members != []
    requires Compute(a, members, sub).Some? && Sliceable(langs, Compute(a, members, sub).value)
    ensures AllDecode(langs, Compute(a, members, sub).value)
    ensures HoldsAll(langs, Compute(a, members, sub).value, sub) <==> RepeatsAreBeyond(a, members, AllPairs(sub))
  {
    var ps, sent := AllPairs(sub), Compute(a, members, sub).value;
    if ps == [] {
      NothingListed(a, members, sub);
    } else {
      var gs := Gifts(a, members, ps);
      var shares := Shares(gs, members);
      forall x ensures AllDecode(langs, sent) && GroupHolds(langs, sent, x) == Total(shares)[x]
                       && Listed(sub, x) == multiset(ps)[x] {
        SentCarries(gs, members, langs, x);
        CarriedTotal(langs, sent, shares, x);
        AllPairsBag(sub, x);
      }
      ExactDivisionIff(a, members, ps);
    }
  }

  /** The group holds every pair as often as it is listed. */
  ghost predicate HoldsAll(langs: seq<Language>, sent: seq<Sent>, sub: Subscription)
    requires AllDecode(langs, sent)
  {
    forall x :: GroupHolds(langs, sent, x) == Listed(sub, x)
  }

  lemma NothingListed(a: Assignor, members: seq<Member>, sub: Subscription)
    requires AllPairs(sub) == []
    ensures RepeatsAreBeyond(a, members, AllPairs(sub))
    ensures forall x :: Listed(sub, x) == 0
  {
    forall x ensures Listed(sub, x) == 0 {
      AllPairsBag(sub, x);
    }
  }

  // ---------------------------------------------------------------------
  // When the leader succeeds
  // ---------------------------------------------------------------------

  lemma {:induction false} ShareWithin(gs: seq<Gift>, m: Member)
    ensures |ShareOf(gs, m)| <= |GivenPairs(gs)|
    ensures forall x :: x in ShareOf(gs, m) ==> x in GivenPairs(gs)
  {
    if gs != [] { ShareWithin(gs[1..], m); }
  }

  lemma {:induction false} FlattenHas(g: seq<Entry>, k: nat)
    requires k < |g|
    ensures |g[k].parts| <= |Flatten(g)| && forall p :: p in g[k].parts ==> Pair(g[k].topic, p) in Flatten(g)
  {
    if k == 0 {
      forall p | p in g[0].parts ensures Pair(g[0].topic, p) in Flatten(g) {
        var i :| 0 <= i < |g[0].parts| && g[0].parts[i] == p;
        ToPairsAt(g[0].topic, g[0].parts, i);
      }
    } else {
      FlattenHas(g[1..], k - 1);
    }
  }

  lemma {:induction false} FlattenTopic(g: seq<Entry>, x: Pair)
    requires x in Flatten(g)
    ensures exists k :: 0 <= k < |g| && g[k].topic == x.topic
  {
    if i :| 0 <= i < |g[0].parts| && ToPairs(g[0].topic, g[0].parts)[i] == x {
      ToPairsAt(g[0].topic, g[0].parts, i);
    } else {
      FlattenTopic(g[1..], x);
      var k :| 0 <= k < |g[1..]| && g[1..][k].topic == x.topic;
      assert g[k + 1].topic == x.topic;
    }
  }

  ghost predicate Packable(ps: seq<Pair>) {
    forall x :: x in ps ==> |x.topic| < 0x8000 && Fits(x.partition, INT32)
  }

  lemma SameElements<T>(a: seq<T>, b: seq<T>, x: T)
    requires multiset(a) == multiset(b)
    ensures x in a <==> x in b
  {
    assert x in a <==> x in multiset(a);
    assert x in b <==> x in multiset(b);
  }

  /** A list shorter than 2^31 is encodable exactly when its names and numbers fit. */
  lemma EncodableIff(ps: seq<Pair>)
    requires |ps| < 0x8000_0000
    ensures Packable(ps) ==> Encodable(ps)
    ensures Encodable(ps) ==> forall x :: x in ps ==> |x.topic| < 0x8000
  {
    var g := Group(ps);
    GroupIsExact(ps);
    SameSize(Flatten(g), ps);
    if Packable(ps) {
      forall k | 0 <= k < |g| ensures EntryFits(g[k]) {
        FlattenHas(g, k);
        forall i | 0 <= i < |g[k].parts| ensures |g[k].topic| < 0x8000 && Fits(g[k].parts[i], INT32) {
          assert g[k].parts[i] in g[k].parts;
          SameElements(Flatten(g), ps, Pair(g[k].topic, g[k].parts[i]));
        }
        assert g[k].parts[0] in g[k].parts;
      }
      GroupSize(g);
    }
    if Encodable(ps) {
      forall x | x in ps ensures |x.topic| < 0x8000 {
        SameElements(Flatten(g), ps, x);
        FlattenTopic(g, x);
      }
    }
  }

  lemma {:induction false} GroupSize(g: seq<Entry>)
    requires Proper(g)
    ensures |g| <= |Flatten(g)|
  {
    if g != [] { GroupSize(g[1..]); }
  }

  lemma {:induction false} AllPairsHas(sub: Subscription, x: Pair)
    ensures x in AllPairs(sub) <==> exists i :: 0 <= i < |sub| && sub[i].0 == x.topic && 0 <= x.partition < sub[i].1
  {
    if sub != [] {
      AllPairsHas(sub[1..], x);
      var first := TopicPairs(sub[0].0, sub[0].1);
      assert sub == [sub[0]] + sub[1..];
      assert x in first <==> sub[0].0 == x.topic && 0 <= x.partition < sub[0].1 by {
        if sub[0].0 == x.topic && 0 <= x.partition < sub[0].1 { assert first[x.partition] == x; }
      }
    }
  }

  /** Topics that have partitions have names that fit. */
  predicate ShortNames(sub: Subscription) {
    forall i :: 0 <= i < |sub| && sub[i].1 > 0 ==> |sub[i].0| < 0x8000
  }

  lemma SharesOf(a: Assignor, members: seq<Member>, ps: seq<Pair>, m: Member)
    requires members != []
    ensures |ShareOf(Gifts(a, members, ps), m)| <= |ps|
    ensures forall x :: x in ShareOf(Gifts(a, members, ps), m) ==> x in ps
  {
    var gs := Gifts(a, members, ps);
    GiftsConserve(a, members, ps);
    ShareWithin(gs, m);
    SameSize(GivenPairs(gs), ps);
    forall x | x in ShareOf(gs, m) ensures x in ps {
      SameElements(GivenPairs(gs), ps, x);
    }
  }

  lemma AllShort(sub: Subscription)
    requires |AllPairs(sub)| < 0x8000_0000 && ShortNames(sub)
    ensures Packable(AllPairs(sub))
  {
    forall x | x in AllPairs(sub) ensures |x.topic| < 0x8000 && Fits(x.partition, INT32) {
      AllPairsHas(sub, x);
      var i :| 0 <= i < |sub| && sub[i].0 == x.topic && 0 <= x.partition < sub[i].1;
      CountWithin(sub, i);
    }
  }

  lemma {:induction false} CountWithin(sub: Subscription, i: nat)
    requires i < |sub|
    ensures sub[i].1 <= |AllPairs(sub)|
  {
    if i > 0 { CountWithin(sub[1..], i - 1); }
  }

  /** With fewer than 2^31 partitions the leader succeeds exactly when every
      topic that has partitions has a name of at most 32767 bytes, and then
      every assignment is short enough for a Go slice. */
  lemma SucceedsIff(a: Assignor, members: seq<Member>, sub: Subscription)
    requires members != [] && |AllPairs(sub)| < 0x8000_0000
    ensures Compute(a, members, sub).Some? <==> ShortNames(sub)
    ensures Compute(a, members, sub).Some? ==>
              forall s :: s in Compute(a, members, sub).value ==> |s.assignment| <= MAX_INT
  {
    var ps := AllPairs(sub);
    var gs := Gifts(a, members, ps);
    EncodeSharesIs(gs, members);
    if ShortNames(sub) && ps != [] {
      AllShort(sub);
      forall i | 0 <= i < |members| ensures Encode(ShareOf(gs, members[i])).Some? {
        SharesOf(a, members, ps, members[i]);
        EncodableIff(ShareOf(gs, members[i]));
      }
    }
    if Compute(a, members, sub).Some? {
      SuccessMeansShort(a, members, sub);
      SuccessMeansSliceable(a, members, sub);
    }
  }

  lemma {:induction false} GivenTo(gs: seq<Gift>, x: Pair) returns (i: nat)
    requires x in GivenPairs(gs)
    ensures i < |gs| && gs[i].pair == x && x in ShareOf(gs, gs[i].member)
  {
    if gs[0].pair == x {
      i := 0;
    } else {
      var j := GivenTo(gs[1..], x);
      i := j + 1;
    }
  }

  lemma SuccessMeansShort(a: Assignor, members: seq<Member>, sub: Subscription)
    requires members != [] && |AllPairs(sub)| < 0x8000_0000
    requires Compute(a, members, sub).Some?
    ensures ShortNames(sub)
  {
    var ps := AllPairs(sub);
    var gs := Gifts(a, members, ps);
    EncodeSharesIs(gs, members);
    GiftsConserve(a, members, ps);
    GiftsTo(a, members, ps);
    forall i | 0 <= i < |sub| && sub[i].1 > 0 ensures |sub[i].0| < 0x8000 {
      var x := Pair(sub[i].0, 0);
      AllPairsHas(sub, x);
      SameElements(GivenPairs(gs), ps, x);
      var k := GivenTo(gs, x);
      SharesOf(a, members, ps, gs[k].member);
      EncodableIff(ShareOf(gs, gs[k].member));
    }
  }

  lemma SuccessMeansSliceable(a: Assignor, members: seq<Member>, sub: Subscription)
    requires members != [] && |AllPairs(sub)| < 0x8000_0000 && Compute(a, members, sub).Some?
    ensures forall s :: s in Compute(a, members, sub).value ==> |s.assignment| <= MAX_INT
  {
    var ps := AllPairs(sub);
    var gs, sent := Gifts(a, members, ps), Compute(a, members, sub).value;
    EncodeSharesIs(gs, members);
    forall i | 0 <= i < |sent| ensures |sent[i].assignment| <= MAX_INT {
      SharesOf(a, members, ps, members[i]);
      EncodingSize(ShareOf(gs, members[i]));
    }
  }
}
