/** The range and round-robin assignors of the Python consumer
    (clients/python/torrent_mq/consumer.py): who is given which partition, in
    what order, and what that amounts to. */
module Assignors {
  import opened Sequences
  import opened Sets
  import opened Bits
  import opened WireBytes

  /** A topic name in UTF-8. */
  type Topic = Bytes

  type Member = string

  datatype Pair = Pair(topic: Topic, partition: int)

  /** One item of a dictionary from topics to partitions. */
  datatype Entry = Entry(topic: Topic, parts: seq<int>)

  /** One `append` to a member's list. */
  datatype Gift = Gift(member: Member, pair: Pair)

  // ---------------------------------------------------------------------
  // Grouping by topic
  // ---------------------------------------------------------------------

  /** The partitions of one topic, in the order they come. */
  function PartsOf(ps: seq<Pair>, t: Topic): seq<int> {
    if ps == [] then []
    else if ps[0].topic == t then [ps[0].partition] + PartsOf(ps[1..], t)
    else PartsOf(ps[1..], t)
  }

  /** Appending to the list of a topic in a dictionary that keeps the order in
      which keys arrived. */
  function AddTo(g: seq<Entry>, p: Pair): seq<Entry> {
    if g == [] then [Entry(p.topic, [p.partition])]
    else if g[0].topic == p.topic then [Entry(p.topic, g[0].parts + [p.partition])] + g[1..]
    else [g[0]] + AddTo(g[1..], p)
  }

  function GroupInto(g: seq<Entry>, ps: seq<Pair>): seq<Entry>
    decreases |ps|
  {
    if ps == [] then g else GroupInto(AddTo(g, ps[0]), ps[1..])
  }

  function Group(ps: seq<Pair>): seq<Entry> { GroupInto([], ps) }

  function Lookup(g: seq<Entry>, t: Topic): seq<int> {
    if g == [] then [] else if g[0].topic == t then g[0].parts else Lookup(g[1..], t)
  }

  /** Keys are distinct and no list is empty. */
  ghost predicate Proper(g: seq<Entry>) {
    && (forall i, j :: 0 <= i < j < |g| ==> g[i].topic != g[j].topic)
    && (forall i :: 0 <= i < |g| ==> g[i].parts != [])
  }

  function ToPairs(t: Topic, parts: seq<int>): (r: seq<Pair>)
    ensures |r| == |parts|
  {
    if parts == [] then [] else [Pair(t, parts[0])] + ToPairs(t, parts[1..])
  }

  lemma {:induction false} ToPairsAt(t: Topic, parts: seq<int>, i: nat)
    requires i < |parts|
    ensures ToPairs(t, parts)[i] == Pair(t, parts[i])
  {
    if i > 0 { ToPairsAt(t, parts[1..], i - 1); }
  }

  function Flatten(g: seq<Entry>): seq<Pair> {
    if g == [] then [] else ToPairs(g[0].topic, g[0].parts) + Flatten(g[1..])
  }

  lemma {:induction false} AddToLooksUp(g: seq<Entry>, p: Pair, t: Topic)
    ensures Lookup(AddTo(g, p), t) == if t == p.topic then Lookup(g, t) + [p.partition] else Lookup(g, t)
  {
    if g != [] && g[0].topic != p.topic {
      AddToLooksUp(g[1..], p, t);
    }
  }

  lemma {:induction false} AddToProper(g: seq<Entry>, p: Pair)
    requires Proper(g)
    ensures Proper(AddTo(g, p))
    ensures forall e :: e in AddTo(g, p) ==> e.topic == p.topic || e in g
  {
    if g != [] && g[0].topic != p.topic {
      AddToProper(g[1..], p);
    }
  }

  lemma {:induction false} ToPairsConcat(t: Topic, a: seq<int>, b: seq<int>)
    ensures ToPairs(t, a + b) == ToPairs(t, a) + ToPairs(t, b)
  {
    if a == [] {
      assert a + b == b;
    } else {
      ToPairsConcat(t, a[1..], b);
      assert (a + b)[1..] == a[1..] + b;
      Regroup([Pair(t, a[0])], ToPairs(t, a[1..]), ToPairs(t, b));
    }
  }

  lemma AddToConservesStep(g: seq<Entry>, p: Pair)
    requires g != []
    requires g[0].topic != p.topic ==> multiset(Flatten(AddTo(g[1..], p))) == multiset(Flatten(g[1..])) + multiset{p}
    ensures multiset(Flatten(AddTo(g, p))) == multiset(Flatten(g)) + multiset{p}
  {
    var pairs := ToPairs(g[0].topic, g[0].parts);
    if g[0].topic == p.topic {
      ToPairsConcat(p.topic, g[0].parts, [p.partition]);
      assert ToPairs(p.topic, [p.partition]) == [p];
      assert Flatten(AddTo(g, p)) == pairs + [p] + Flatten(g[1..]);
    } else {
      assert Flatten(AddTo(g, p)) == pairs + Flatten(AddTo(g[1..], p));
    }
  }

  lemma {:induction false} AddToConserves(g: seq<Entry>, p: Pair)
    ensures multiset(Flatten(AddTo(g, p))) == multiset(Flatten(g)) + multiset{p}
  {
    if g == [] {
      assert Flatten([Entry(p.topic, [p.partition])]) == [p] + Flatten([]);
    } else {
      if g[0].topic != p.topic { AddToConserves(g[1..], p); }
      AddToConservesStep(g, p);
    }
  }

  lemma {:induction false} GroupIntoProper(g: seq<Entry>, ps: seq<Pair>)
    requires Proper(g)
    ensures Proper(GroupInto(g, ps))
    decreases |ps|
  {
    if ps != [] {
      AddToProper(g, ps[0]);
      GroupIntoProper(AddTo(g, ps[0]), ps[1..]);
    }
  }

  lemma {:induction false} GroupIntoLooksUp(g: seq<Entry>, ps: seq<Pair>, t: Topic)
    ensures Lookup(GroupInto(g, ps), t) == Lookup(g, t) + PartsOf(ps, t)
    decreases |ps|
  {
    if ps != [] {
      AddToLooksUp(g, ps[0], t);
      GroupIntoLooksUp(AddTo(g, ps[0]), ps[1..], t);
    }
  }

  lemma {:induction false} GroupIntoConserves(g: seq<Entry>, ps: seq<Pair>)
    ensures multiset(Flatten(GroupInto(g, ps))) == multiset(Flatten(g)) + multiset(ps)
    decreases |ps|
  {
    if ps != [] {
      var g1 := AddTo(g, ps[0]);
      AddToConserves(g, ps[0]);
      GroupIntoConserves(g1, ps[1..]);
      BagOfFirst(ps);
      BagsRegroup(multiset(Flatten(GroupInto(g1, ps[1..]))), multiset(Flatten(g1)),
                  multiset(Flatten(g)), multiset{ps[0]}, multiset(ps[1..]));
    }
  }

  lemma BagOfFirst<T>(s: seq<T>)
    requires s != []
    ensures multiset(s) == multiset{s[0]} + multiset(s[1..])
  {
    assert s == [s[0]] + s[1..];
  }

  lemma BagsRegroup<T>(all: multiset<T>, ab: multiset<T>, a: multiset<T>, b: multiset<T>, c: multiset<T>)
    requires all == ab + c && ab == a + b
    ensures all == a + (b + c)
  {
  }

  /** Grouping splits the list by topic: each topic once, with exactly its
      partitions in their order, and nothing lost or added. */
  lemma GroupIsExact(ps: seq<Pair>)
    ensures Proper(Group(ps))
    ensures forall t :: Lookup(Group(ps), t) == PartsOf(ps, t)
    ensures multiset(Flatten(Group(ps))) == multiset(ps)
  {
    GroupIntoProper([], ps);
    GroupIntoConserves([], ps);
    forall t ensures Lookup(Group(ps), t) == PartsOf(ps, t) {
      GroupIntoLooksUp([], ps, t);
    }
  }

  lemma {:induction false} LookupEntry(g: seq<Entry>, k: nat)
    requires Proper(g) && k < |g|
    ensures Lookup(g, g[k].topic) == g[k].parts
  {
    if k > 0 { LookupEntry(g[1..], k - 1); }
  }

  lemma {:induction false} LookupAbsent(g: seq<Entry>, t: Topic)
    requires forall e :: e in g ==> e.topic != t
    ensures Lookup(g, t) == []
  {
    if g != [] { LookupAbsent(g[1..], t); }
  }

  // ---------------------------------------------------------------------
  // Sorting
  // ---------------------------------------------------------------------

  ghost predicate IsSorted(s: seq<int>) {
    forall i, j :: 0 <= i < j < |s| ==> s[i] <= s[j]
  }

  function Insert(x: int, s: seq<int>): seq<int> {
    if s == [] || x <= s[0] then [x] + s else [s[0]] + Insert(x, s[1..])
  }

  function Sorted(s: seq<int>): seq<int> {
    if s == [] then [] else Insert(s[0], Sorted(s[1..]))
  }

  lemma {:induction false} InsertAdds(x: int, s: seq<int>)
    ensures multiset(Insert(x, s)) == multiset{x} + multiset(s) && |Insert(x, s)| == |s| + 1
  {
    if s != [] && x > s[0] {
      InsertAdds(x, s[1..]);
      assert s == [s[0]] + s[1..];
    }
  }

  lemma {:induction false} InsertSorts(x: int, s: seq<int>)
    requires IsSorted(s)
    ensures IsSorted(Insert(x, s))
    ensures forall y :: y in Insert(x, s) ==> y == x || y in s
  {
    if s != [] && x > s[0] {
      InsertSorts(x, s[1..]);
      var r := Insert(x, s[1..]);
      forall j | 0 <= j < |r| ensures s[0] <= r[j] {
        assert r[j] in r;
      }
      assert Insert(x, s) == [s[0]] + r;
    }
  }

  lemma {:induction false} SortedIsSorted(s: seq<int>)
    ensures IsSorted(Sorted(s))
  {
    if s != [] {
      SortedIsSorted(s[1..]);
      InsertSorts(s[0], Sorted(s[1..]));
    }
  }

  lemma {:induction false} SortedBag(s: seq<int>)
    ensures multiset(Sorted(s)) == multiset(s) && |Sorted(s)| == |s|
  {
    if s != [] {
      SortedBag(s[1..]);
      InsertAdds(s[0], Sorted(s[1..]));
      BagOfFirst(s);
    }
  }

  lemma SortedSorts(s: seq<int>)
    ensures IsSorted(Sorted(s)) && multiset(Sorted(s)) == multiset(s) && |Sorted(s)| == |s|
  {
    SortedIsSorted(s);
    SortedBag(s);
  }

  /** Equal bags of partitions give equal bags of pairs. */
  lemma {:induction false} PairsBag(t: Topic, parts: seq<int>, x: Pair)
    ensures multiset(ToPairs(t, parts))[x] == if x.topic == t then multiset(parts)[x.partition] else 0
  {
    if parts != [] {
      PairsBag(t, parts[1..], x);
      assert parts == [parts[0]] + parts[1..];
    }
  }

  lemma SortedPairs(t: Topic, parts: seq<int>)
    ensures multiset(ToPairs(t, Sorted(parts))) == multiset(ToPairs(t, parts))
  {
    SortedSorts(parts);
    forall x ensures multiset(ToPairs(t, Sorted(parts)))[x] == multiset(ToPairs(t, parts))[x] {
      PairsBag(t, parts, x);
      PairsBag(t, Sorted(parts), x);
    }
  }

  // ---------------------------------------------------------------------
  // The assignors as sequences of gifts
  // ---------------------------------------------------------------------

  /** How many of n items member i of m gets: the first n % m get one extra. */
  function Quota(n: nat, m: nat, i: nat): nat
    requires m > 0
  {
    n / m + if i < n % m then 1 else 0
  }

  /** How many the first i members get together. */
  function Start(n: nat, m: nat, i: nat): nat
    requires m > 0
  {
    if i == 0 then 0 else Start(n, m, i - 1) + Quota(n, m, i - 1)
  }

  lemma StartNext(n: nat, m: nat, i: nat)
    requires m > 0
    ensures Start(n, m, i + 1) == Start(n, m, i) + Quota(n, m, i)
  {
  }

  lemma {:induction false} StartIs(n: nat, m: nat, i: nat)
    requires m > 0
    ensures Start(n, m, i) == i * (n / m) + if i < n % m then i else n % m
  {
    if i > 0 {
      StartIs(n, m, i - 1);
      MulNext(i - 1, n / m);
    }
  }

  lemma {:induction false} StartGrows(n: nat, m: nat, i: nat, j: nat)
    requires m > 0 && i <= j
    ensures Start(n, m, i) <= Start(n, m, j)
    decreases j
  {
    if i < j { StartGrows(n, m, i, j - 1); }
  }

  lemma StartBelow(n: nat, m: nat, i: nat)
    requires i < m
    ensures Start(n, m, i) <= Start(n, m, i + 1) <= Start(n, m, m) == n
  {
    StartGrows(n, m, i + 1, m);
    StartIs(n, m, m);
    assert n == m * (n / m) + n % m;
  }

  function GiveAll(member: Member, ps: seq<Pair>): (r: seq<Gift>)
    ensures |r| == |ps|
  {
    if ps == [] then [] else [Gift(member, ps[0])] + GiveAll(member, ps[1..])
  }

  lemma {:induction false} GiveAllAt(member: Member, ps: seq<Pair>, i: nat)
    requires i < |ps|
    ensures GiveAll(member, ps)[i] == Gift(member, ps[i])
  {
    if i > 0 { GiveAllAt(member, ps[1..], i - 1); }
  }

  /** Member i's slice of a sorted topic. */
  function Slice(parts: seq<int>, m: nat, i: nat): seq<int>
    requires i < m
  {
    StartBelow(|parts|, m, i);
    parts[Start(|parts|, m, i)..Start(|parts|, m, i + 1)]
  }

  /** The slices of the first k members of one topic. */
  function RangeTopic(members: seq<Member>, t: Topic, parts: seq<int>, k: nat): seq<Gift>
    requires k <= |members|
  {
    if k == 0 then []
    else RangeTopic(members, t, parts, k - 1)
         + GiveAll(members[k - 1], ToPairs(t, Slice(parts, |members|, k - 1)))
  }

  function RangeGifts(members: seq<Member>, g: seq<Entry>): seq<Gift> {
    if g == [] then []
    else RangeTopic(members, g[0].topic, Sorted(g[0].parts), |members|) + RangeGifts(members, g[1..])
  }

  /** The gifts of partitions i, i + 1, ... dealt in turn. */
  function Deal(members: seq<Member>, ps: seq<Pair>, i: nat): seq<Gift>
    requires i <= |ps| && members != []
    decreases |ps| - i
  {
    if i == |ps| then [] else [Gift(members[i % |members|], ps[i])] + Deal(members, ps, i + 1)
  }

  datatype Assignor = RangeAssignor | RoundRobin

  function Gifts(a: Assignor, members: seq<Member>, ps: seq<Pair>): seq<Gift> {
    if members == [] then []
    else match a
      case RangeAssignor => RangeGifts(members, Group(ps))
      case RoundRobin => Deal(members, ps, 0)
  }

  /** What one member ends up with. */
  function ShareOf(gs: seq<Gift>, m: Member): seq<Pair> {
    if gs == [] then []
    else if gs[0].member == m then [gs[0].pair] + ShareOf(gs[1..], m)
    else ShareOf(gs[1..], m)
  }

  function GivenPairs(gs: seq<Gift>): seq<Pair> {
    if gs == [] then [] else [gs[0].pair] + GivenPairs(gs[1..])
  }

  // ---------------------------------------------------------------------
  // Conservation
  // ---------------------------------------------------------------------

  lemma {:induction false} ShareConcat(a: seq<Gift>, b: seq<Gift>, m: Member)
    ensures ShareOf(a + b, m) == ShareOf(a, m) + ShareOf(b, m)
  {
    if a == [] {
      assert a + b == b;
    } else {
      ShareConcat(a[1..], b, m);
      assert (a + b)[1..] == a[1..] + b;
      Regroup([a[0].pair], ShareOf(a[1..], m), ShareOf(b, m));
    }
  }

  lemma {:induction false} GivenConcat(a: seq<Gift>, b: seq<Gift>)
    ensures GivenPairs(a + b) == GivenPairs(a) + GivenPairs(b)
  {
    if a == [] {
      assert a + b == b;
    } else {
      GivenConcat(a[1..], b);
      assert (a + b)[1..] == a[1..] + b;
      Regroup([a[0].pair], GivenPairs(a[1..]), GivenPairs(b));
    }
  }

  lemma {:induction false} GiveAllIs(member: Member, ps: seq<Pair>, m: Member)
    ensures GivenPairs(GiveAll(member, ps)) == ps
    ensures ShareOf(GiveAll(member, ps), m) == if m == member then ps else []
  {
    if ps != [] { GiveAllIs(member, ps[1..], m); }
  }

  lemma SplitSlice(parts: seq<int>, from: nat, to: nat)
    requires from <= to <= |parts|
    ensures parts[..to] == parts[..from] + parts[from..to]
  {
  }

  lemma AddSlice(gs: seq<Gift>, member: Member, t: Topic, parts: seq<int>, from: nat, to: nat, slice: seq<int>)
    requires from <= to <= |parts| && GivenPairs(gs) == ToPairs(t, parts[..from]) && slice == parts[from..to]
    ensures GivenPairs(gs + GiveAll(member, ToPairs(t, slice))) == ToPairs(t, parts[..to])
  {
    var more := ToPairs(t, slice);
    GivenConcat(gs, GiveAll(member, more));
    GiveAllIs(member, more, member);
    SplitSlice(parts, from, to);
    ToPairsConcat(t, parts[..from], parts[from..to]);
  }

  lemma ShareAfter(gs: seq<Gift>, member: Member, ps: seq<Pair>, m: Member)
    ensures ShareOf(gs + GiveAll(member, ps), m) == ShareOf(gs, m) + if m == member then ps else []
    ensures ShareOf(gs + GiveAll(member, ps), m) == [] <==> ShareOf(gs, m) == [] && (m == member ==> ps == [])
  {
    ShareConcat(gs, GiveAll(member, ps), m);
    GiveAllIs(member, ps, m);
    EmptyConcat(ShareOf(gs, m), if m == member then ps else []);
  }

  lemma SliceOf(parts: seq<int>, m: nat, i: nat, from: nat, to: nat) returns (slice: seq<int>)
    requires i < m && from == Start(|parts|, m, i) && to == Start(|parts|, m, i + 1)
    ensures slice == Slice(parts, m, i) && from <= to <= |parts| && slice == parts[from..to]
  {
    StartBelow(|parts|, m, i);
    slice := Slice(parts, m, i);
  }

  /** The slices of the first k members are the topic up to where the next
      slice starts. */
  lemma {:induction false} RangeTopicCovers(members: seq<Member>, t: Topic, parts: seq<int>, k: nat)
    requires k <= |members| && members != []
    ensures Start(|parts|, |members|, k) <= |parts|
    ensures GivenPairs(RangeTopic(members, t, parts, k)) == ToPairs(t, parts[..Start(|parts|, |members|, k)])
  {
    var n, m := |parts|, |members|;
    if k == 0 {
      assert Start(n, m, 0) == 0;
    } else {
      RangeTopicCovers(members, t, parts, k - 1);
      var from, to := Start(n, m, k - 1), Start(n, m, k);
      var slice := SliceOf(parts, m, k - 1, from, to);
      AddSlice(RangeTopic(members, t, parts, k - 1), members[k - 1], t, parts, from, to, slice);
    }
  }

  lemma {:induction false} RangeConserves(members: seq<Member>, g: seq<Entry>)
    requires members != []
    ensures multiset(GivenPairs(RangeGifts(members, g))) == multiset(Flatten(g))
  {
    if g != [] {
      var t, parts := g[0].topic, Sorted(g[0].parts);
      RangeTopicCovers(members, t, parts, |members|);
      StartBelow(|parts|, |members|, |members| - 1);
      assert parts[..|parts|] == parts;
      SortedPairs(t, g[0].parts);
      GivenConcat(RangeTopic(members, t, parts, |members|), RangeGifts(members, g[1..]));
      RangeConserves(members, g[1..]);
    }
  }

  lemma {:induction false} DealConserves(members: seq<Member>, ps: seq<Pair>, i: nat)
    requires i <= |ps| && members != []
    ensures GivenPairs(Deal(members, ps, i)) == ps[i..]
    decreases |ps| - i
  {
    if i < |ps| { DealConserves(members, ps, i + 1); }
  }

  /** Both assignors give away every partition once. */
  lemma GiftsConserve(a: Assignor, members: seq<Member>, ps: seq<Pair>)
    requires members != []
    ensures multiset(GivenPairs(Gifts(a, members, ps))) == multiset(ps)
  {
    match a {
      case RangeAssignor =>
        GroupIsExact(ps);
        RangeConserves(members, Group(ps));
      case RoundRobin =>
        DealConserves(members, ps, 0);
        assert ps[0..] == ps;
    }
  }

  ghost predicate OnlyTo(gs: seq<Gift>, members: seq<Member>) {
    forall i :: 0 <= i < |gs| ==> gs[i].member in members
  }

  lemma {:induction false} GivenTo(member: Member, ps: seq<Pair>, members: seq<Member>)
    requires member in members
    ensures OnlyTo(GiveAll(member, ps), members)
  {
    if ps != [] { GivenTo(member, ps[1..], members); }
  }

  lemma {:induction false} RangeTopicTo(members: seq<Member>, t: Topic, parts: seq<int>, k: nat)
    requires k <= |members|
    ensures OnlyTo(RangeTopic(members, t, parts, k), members)
  {
    if k > 0 {
      RangeTopicTo(members, t, parts, k - 1);
      GivenTo(members[k - 1], ToPairs(t, Slice(parts, |members|, k - 1)), members);
    }
  }

  lemma {:induction false} RangeTo(members: seq<Member>, g: seq<Entry>)
    ensures OnlyTo(RangeGifts(members, g), members)
  {
    if g != [] {
      RangeTopicTo(members, g[0].topic, Sorted(g[0].parts), |members|);
      RangeTo(members, g[1..]);
    }
  }

  lemma {:induction false} DealTo(members: seq<Member>, ps: seq<Pair>, i: nat)
    requires i <= |ps| && members != []
    ensures OnlyTo(Deal(members, ps, i), members)
    decreases |ps| - i
  {
    if i < |ps| { DealTo(members, ps, i + 1); }
  }

  lemma GiftsTo(a: Assignor, members: seq<Member>, ps: seq<Pair>)
    ensures OnlyTo(Gifts(a, members, ps), members)
  {
    if members != [] {
      RangeTo(members, Group(ps));
      DealTo(members, ps, 0);
    }
  }

  /** The bags of several shares together. */
  function Total(shares: seq<seq<Pair>>): multiset<Pair> {
    if shares == [] then multiset{} else multiset(shares[0]) + Total(shares[1..])
  }

  function Shares(gs: seq<Gift>, members: seq<Member>): (r: seq<seq<Pair>>)
    ensures |r| == |members| && forall i :: 0 <= i < |r| ==> r[i] == ShareOf(gs, members[i])
  {
    if members == [] then [] else [ShareOf(gs, members[0])] + Shares(gs, members[1..])
  }

  /** How often a list of members names one. */
  function Times(members: seq<Member>, m: Member): nat {
    if members == [] then 0 else (if members[0] == m then 1 else 0) + Times(members[1..], m)
  }

  /** How often a pair is sent: a gift is sent once for each time its member is
      listed. */
  function SentTimes(gs: seq<Gift>, members: seq<Member>, x: Pair): nat {
    if gs == [] then 0
    else (if gs[0].pair == x then Times(members, gs[0].member) else 0) + SentTimes(gs[1..], members, x)
  }

  lemma {:induction false} OneGift(gs: seq<Gift>, members: seq<Member>, x: Pair)
    requires gs != []
    ensures Total(Shares(gs, members))[x] ==
            Total(Shares(gs[1..], members))[x] + if gs[0].pair == x then Times(members, gs[0].member) else 0
  {
    if members != [] {
      OneGift(gs, members[1..], x);
    }
  }

  lemma {:induction false} NoGifts(members: seq<Member>)
    ensures Total(Shares([], members)) == multiset{}
  {
    if members != [] { NoGifts(members[1..]); }
  }

  /** Listed twice, a member is sent its whole share twice. */
  lemma {:induction false} DuplicateMembersDuplicateWork(gs: seq<Gift>, members: seq<Member>, x: Pair)
    ensures Total(Shares(gs, members))[x] == SentTimes(gs, members, x)
  {
    if gs == [] {
      NoGifts(members);
    } else {
      OneGift(gs, members, x);
      DuplicateMembersDuplicateWork(gs[1..], members, x);
    }
  }

  lemma {:induction false} TimesIs(members: seq<Member>, m: Member)
    ensures Times(members, m) == multiset(members)[m]
  {
    if members != [] {
      TimesIs(members[1..], m);
      BagOfFirst(members);
    }
  }

  /** Every gift goes to a member listed once. */
  ghost predicate OnceEach(gs: seq<Gift>, members: seq<Member>) {
    forall i :: 0 <= i < |gs| ==> Times(members, gs[i].member) == 1
  }

  lemma {:induction false} SentAtLeastOnce(gs: seq<Gift>, members: seq<Member>, x: Pair)
    requires OnlyTo(gs, members)
    ensures SentTimes(gs, members, x) >= multiset(GivenPairs(gs))[x]
    ensures OnceEach(gs, members) ==> SentTimes(gs, members, x) == multiset(GivenPairs(gs))[x]
    ensures (exists i :: 0 <= i < |gs| && gs[i].pair == x && Times(members, gs[i].member) > 1)
            ==> SentTimes(gs, members, x) > multiset(GivenPairs(gs))[x]
  {
    if gs != [] {
      assert gs[0].member in members;
      TimesIs(members, gs[0].member);
      assert OnlyTo(gs[1..], members);
      SentAtLeastOnce(gs[1..], members, x);
      BagOfFirst(GivenPairs(gs));
      if i :| 0 <= i < |gs| && gs[i].pair == x && Times(members, gs[i].member) > 1 {
        assert i > 0 ==> gs[1..][i - 1] == gs[i];
      }
    }
  }

  /** The shares add up to all that was given if and only if every gift goes to a
      member listed once. */
  lemma SharesAddUpIff(gs: seq<Gift>, members: seq<Member>)
    requires OnlyTo(gs, members)
    ensures Total(Shares(gs, members)) == multiset(GivenPairs(gs)) <==> OnceEach(gs, members)
  {
    forall x ensures OnceEach(gs, members) ==> Total(Shares(gs, members))[x] == multiset(GivenPairs(gs))[x] {
      DuplicateMembersDuplicateWork(gs, members, x);
      SentAtLeastOnce(gs, members, x);
    }
    if !OnceEach(gs, members) {
      var i :| 0 <= i < |gs| && Times(members, gs[i].member) != 1;
      SentTooOften(gs, members, i);
    }
  }

  lemma SentTooOften(gs: seq<Gift>, members: seq<Member>, i: nat)
    requires OnlyTo(gs, members) && i < |gs| && Times(members, gs[i].member) != 1
    ensures Total(Shares(gs, members))[gs[i].pair] > multiset(GivenPairs(gs))[gs[i].pair]
  {
    assert gs[i].member in members;
    TimesIs(members, gs[i].member);
    DuplicateMembersDuplicateWork(gs, members, gs[i].pair);
    SentAtLeastOnce(gs, members, gs[i].pair);
  }

  // ---------------------------------------------------------------------
  // Repeated members
  // ---------------------------------------------------------------------

  /** Positions i and j list the same member. */
  ghost predicate Repeats(members: seq<Member>, i: int, j: int) {
    0 <= i < j < |members| && members[i] == members[j]
  }

  lemma {:induction false} TwicePlaces(members: seq<Member>, m: Member)
    ensures Times(members, m) > 1 <==> exists i, j :: Repeats(members, i, j) && members[i] == m
  {
    if members != [] {
      var rest := members[1..];
      TwicePlaces(rest, m);
      TimesIs(rest, m);
      if i, j :| Repeats(members, i, j) && members[i] == m {
        assert rest[j - 1] == m && m in rest;
        if i > 0 { assert Repeats(rest, i - 1, j - 1); }
      }
      if Times(members, m) > 1 {
        assert m in rest;
        if members[0] == m {
          var j :| 0 <= j < |rest| && rest[j] == m;
          assert Repeats(members, 0, j + 1);
        } else {
          var i, j :| Repeats(rest, i, j) && rest[i] == m;
          assert Repeats(members, i + 1, j + 1);
        }
      }
    }
  }

  lemma {:induction false} EmptyShare(gs: seq<Gift>, m: Member)
    ensures ShareOf(gs, m) == [] <==> forall i :: 0 <= i < |gs| ==> gs[i].member != m
  {
    if gs != [] {
      EmptyShare(gs[1..], m);
      assert gs == [gs[0]] + gs[1..];
    }
  }

  /** Repeated members are given nothing. */
  ghost predicate RepeatsGetNothing(gs: seq<Gift>, members: seq<Member>) {
    forall i, j :: Repeats(members, i, j) ==> ShareOf(gs, members[i]) == []
  }

  lemma OnceEachIff(gs: seq<Gift>, members: seq<Member>)
    requires OnlyTo(gs, members)
    ensures OnceEach(gs, members) <==> RepeatsGetNothing(gs, members)
  {
    if OnceEach(gs, members) {
      forall i, j | Repeats(members, i, j) ensures ShareOf(gs, members[i]) == [] {
        TwicePlaces(members, members[i]);
        EmptyShare(gs, members[i]);
      }
    }
    if RepeatsGetNothing(gs, members) {
      forall k | 0 <= k < |gs| ensures Times(members, gs[k].member) == 1 {
        assert gs[k].member in members;
        TimesIs(members, gs[k].member);
        EmptyShare(gs, gs[k].member);
        TwicePlaces(members, gs[k].member);
      }
    }
  }

  /** The first members get the work: position i is past the end of it. */
  ghost predicate Beyond(a: Assignor, ps: seq<Pair>, i: int) {
    match a
    case RoundRobin => i >= |ps|
    case RangeAssignor => forall t :: i >= |PartsOf(ps, t)|
  }

  /** Whom round k is dealt to. */
  function Served(members: seq<Member>, k: nat): Member
    requires members != []
  {
    members[k % |members|]
  }

  lemma {:induction false} DealtNothing(members: seq<Member>, ps: seq<Pair>, n: nat, m: Member)
    requires n <= |ps| && members != []
    ensures ShareOf(Dealt(members, ps, n), m) == [] <==> forall k: nat :: k < n ==> Served(members, k) != m
  {
    if n > 0 {
      var before, gift := Dealt(members, ps, n - 1), Gift(Served(members, n - 1), ps[n - 1]);
      DealtNothing(members, ps, n - 1, m);
      ShareConcat(before, [gift], m);
      EmptyShare([gift], m);
      EmptyConcat(ShareOf(before, m), ShareOf([gift], m));
    }
  }

  /** Position l is past the work of every topic. */
  ghost predicate PastTopics(g: seq<Entry>, l: int) {
    forall k :: 0 <= k < |g| ==> l >= |g[k].parts|
  }

  lemma SliceIsEmptyIff(parts: seq<int>, m: nat, i: nat)
    requires i < m
    ensures Slice(parts, m, i) == [] <==> i >= |parts|
  {
    var n := |parts|;
    StartBelow(n, m, i);
    StartNext(n, m, i);
    if n < m {
      DivModUnique(n, m, 0, n);
    } else {
      AtLeastOne(n, m);
    }
  }

  lemma AtLeastOne(n: nat, m: nat)
    requires 0 < m <= n
    ensures n / m >= 1
  {
  }

  /** m is not at one of the first k positions within the first n. */
  ghost predicate ListedPast(members: seq<Member>, m: Member, k: nat, n: nat)
    requires k <= |members|
  {
    forall l: nat :: l < k && members[l] == m ==> l >= n
  }

  lemma NothingAfter(gs: seq<Gift>, member: Member, t: Topic, slice: seq<int>, m: Member)
    ensures ShareOf(gs + GiveAll(member, ToPairs(t, slice)), m) == [] <==>
            ShareOf(gs, m) == [] && (member == m ==> slice == [])
  {
    var pairs := ToPairs(t, slice);
    ShareAfter(gs, member, pairs, m);
    EmptyConcat(ShareOf(gs, m), if m == member then pairs else []);
  }

  lemma TopicStep(members: seq<Member>, t: Topic, parts: seq<int>, k: nat, m: Member)
    requires 0 < k <= |members|
    ensures ShareOf(RangeTopic(members, t, parts, k), m) == [] <==>
            ShareOf(RangeTopic(members, t, parts, k - 1), m) == [] && (members[k - 1] == m ==> k - 1 >= |parts|)
  {
    SliceIsEmptyIff(parts, |members|, k - 1);
    NothingAfter(RangeTopic(members, t, parts, k - 1), members[k - 1], t, Slice(parts, |members|, k - 1), m);
  }

  lemma {:induction false} TopicGivesNothing(members: seq<Member>, t: Topic, parts: seq<int>, k: nat, m: Member)
    requires k <= |members|
    ensures ShareOf(RangeTopic(members, t, parts, k), m) == [] <==> ListedPast(members, m, k, |parts|)
  {
    if k > 0 {
      TopicStep(members, t, parts, k, m);
      TopicGivesNothing(members, t, parts, k - 1, m);
      ListedPastStep(members, m, k, |parts|);
    }
  }

  lemma ListedPastStep(members: seq<Member>, m: Member, k: nat, n: nat)
    requires 0 < k <= |members|
    ensures ListedPast(members, m, k, n) <==>
            ListedPast(members, m, k - 1, n) && (members[k - 1] == m ==> k - 1 >= n)
  {
  }

  lemma {:induction false} RangeGivesNothing(members: seq<Member>, g: seq<Entry>, m: Member)
    ensures ShareOf(RangeGifts(members, g), m) == [] <==>
            forall l: nat :: l < |members| && members[l] == m ==> PastTopics(g, l)
  {
    if g != [] {
      var parts := Sorted(g[0].parts);
      SortedSorts(g[0].parts);
      TopicGivesNothing(members, g[0].topic, parts, |members|, m);
      EmptyConcat(ShareOf(RangeTopic(members, g[0].topic, parts, |members|), m),
                  ShareOf(RangeGifts(members, g[1..]), m));
      ShareConcat(RangeTopic(members, g[0].topic, parts, |members|), RangeGifts(members, g[1..]), m);
      RangeGivesNothing(members, g[1..], m);
      forall l: nat ensures PastTopics(g, l) <==> l >= |g[0].parts| && PastTopics(g[1..], l) {
        PastFirst(g, l);
      }
    }
  }

  lemma PastFirst(g: seq<Entry>, l: int)
    requires g != []
    ensures PastTopics(g, l) <==> l >= |g[0].parts| && PastTopics(g[1..], l)
  {
    assert forall k :: 0 < k < |g| ==> g[k] == g[1..][k - 1];
  }

  lemma PastTopicsIff(ps: seq<Pair>, l: nat)
    ensures PastTopics(Group(ps), l) <==> Beyond(RangeAssignor, ps, l)
  {
    var g := Group(ps);
    GroupIsExact(ps);
    forall k | 0 <= k < |g| ensures PartsOf(ps, g[k].topic) == g[k].parts {
      LookupEntry(g, k);
    }
    if PastTopics(g, l) {
      forall t ensures l >= |PartsOf(ps, t)| {
        if k :| 0 <= k < |g| && g[k].topic == t {
        } else {
          LookupAbsent(g, t);
        }
      }
    }
  }

  /** A member gets nothing exactly when each place it is listed at is past the work. */
  lemma GetsNothingIff(a: Assignor, members: seq<Member>, ps: seq<Pair>, m: Member)
    requires members != [] && m in members
    ensures ShareOf(Gifts(a, members, ps), m) == [] <==>
            forall l: nat :: l < |members| && members[l] == m ==> Beyond(a, ps, l)
  {
    match a {
      case RoundRobin =>
        DealtNothing(members, ps, |ps|, m);
        DealtThenDeal(members, ps, |ps|);
        assert Dealt(members, ps, |ps|) == Gifts(a, members, ps);
        RoundsOfMember(members, |ps|, m);
      case RangeAssignor =>
        RangeGivesNothing(members, Group(ps), m);
        forall l: nat ensures PastTopics(Group(ps), l) <==> Beyond(a, ps, l) {
          PastTopicsIff(ps, l);
        }
    }
  }

  lemma RoundsOfMember(members: seq<Member>, n: nat, m: Member)
    requires members != [] && m in members
    ensures (forall k: nat :: k < n ==> Served(members, k) != m) <==>
            forall l: nat :: l < |members| && members[l] == m ==> l >= n
  {
    if forall k: nat :: k < n ==> Served(members, k) != m {
      forall l: nat | l < |members| && members[l] == m ensures l >= n {
        DivModUnique(l, |members|, 0, l);
        assert Served(members, l) == m;
      }
    } else {
      var k: nat :| k < n && Served(members, k) == m;
      var l := k % |members|;
      ModAtMost(k, |members|);
      assert l < |members| && members[l] == m;
    }
  }

  lemma ModAtMost(k: nat, n: nat)
    requires n > 0
    ensures k % n <= k
  {
  }

  /** Whoever is listed more than once is listed first past the end of the work. */
  ghost predicate RepeatsAreBeyond(a: Assignor, members: seq<Member>, ps: seq<Pair>) {
    forall i, j :: Repeats(members, i, j) ==> Beyond(a, ps, i)
  }

  lemma RepeatsIdleIff(a: Assignor, members: seq<Member>, ps: seq<Pair>)
    requires members != []
    ensures RepeatsGetNothing(Gifts(a, members, ps), members) <==> RepeatsAreBeyond(a, members, ps)
  {
    var gs := Gifts(a, members, ps);
    forall i, j | Repeats(members, i, j)
      ensures ShareOf(gs, members[i]) == [] ==> Beyond(a, ps, i)
      ensures RepeatsAreBeyond(a, members, ps) ==> ShareOf(gs, members[i]) == []
    {
      GetsNothingIff(a, members, ps, members[i]);
      if RepeatsAreBeyond(a, members, ps) {
        forall l: nat | l < |members| && members[l] == members[i] ensures Beyond(a, ps, l) {
          RepeatBeyond(a, members, ps, i, j, l);
        }
      }
    }
  }

  lemma RepeatBeyond(a: Assignor, members: seq<Member>, ps: seq<Pair>, i: int, j: int, l: nat)
    requires RepeatsAreBeyond(a, members, ps) && Repeats(members, i, j)
    requires l < |members| && members[l] == members[i]
    ensures Beyond(a, ps, l)
  {
    if l < i {
      assert Repeats(members, l, i);
    } else {
      assert Beyond(a, ps, i);
    }
  }

  /** The work is divided exactly, for either assignor and any list of
      partitions, whatever repeats it holds, if and only if repeated members get
      nothing: under round-robin they are first listed past the last partition,
      under range past the last partition of every topic. */
  lemma ExactDivisionIff(a: Assignor, members: seq<Member>, ps: seq<Pair>)
    requires members != []
    ensures Total(Shares(Gifts(a, members, ps), members)) == multiset(ps) <==>
            RepeatsGetNothing(Gifts(a, members, ps), members)
    ensures Total(Shares(Gifts(a, members, ps), members)) == multiset(ps) <==> RepeatsAreBeyond(a, members, ps)
  {
    var gs := Gifts(a, members, ps);
    GiftsTo(a, members, ps);
    GiftsConserve(a, members, ps);
    SharesAddUpIff(gs, members);
    OnceEachIff(gs, members);
    RepeatsIdleIff(a, members, ps);
  }

  /** In particular for distinct members. */
  lemma ExactDivision(a: Assignor, members: seq<Member>, ps: seq<Pair>)
    requires members != [] && Distinct(members)
    ensures Total(Shares(Gifts(a, members, ps), members)) == multiset(ps)
  {
    ExactDivisionIff(a, members, ps);
  }

  // ---------------------------------------------------------------------
  // Balance
  // ---------------------------------------------------------------------

  /** Range: member i's share in closed form, one slice a topic. */
  function RangeShare(g: seq<Entry>, m: nat, i: nat): seq<Pair>
    requires i < m
  {
    if g == [] then []
    else ToPairs(g[0].topic, Slice(Sorted(g[0].parts), m, i)) + RangeShare(g[1..], m, i)
  }

  /** share(k) is what member i has once the first k members had their turn, and
      piece(j) what turn j gives. */
  ghost predicate InTurn(members: seq<Member>, share: nat -> seq<Pair>, piece: nat -> seq<Pair>, i: nat)
    requires i < |members|
  {
    && share(0) == []
    && forall j: nat {:trigger members[j]} :: j < |members| ==>
         && (members[j] != members[i] ==> share(j + 1) == share(j))
         && (members[j] == members[i] && share(j) == [] ==> share(j + 1) == piece(j))
  }

  lemma {:induction false} OneTurn(members: seq<Member>, share: nat -> seq<Pair>, piece: nat -> seq<Pair>, k: nat,
                                   i: nat)
    requires Distinct(members) && k <= |members| && i < |members| && InTurn(members, share, piece, i)
    ensures share(k) == if i < k then piece(i) else []
  {
    if k > 0 {
      OneTurn(members, share, piece, k - 1, i);
      assert members[k - 1] == members[i] <==> k - 1 == i;
    }
  }

  lemma RangeTopicShare(members: seq<Member>, t: Topic, parts: seq<int>, i: nat)
    requires Distinct(members) && i < |members|
    ensures ShareOf(RangeTopic(members, t, parts, |members|), members[i]) == ToPairs(t, Slice(parts, |members|, i))
  {
    var share := (k: nat) => if k <= |members| then ShareOf(RangeTopic(members, t, parts, k), members[i]) else [];
    var piece := (j: nat) => if j < |members| then ToPairs(t, Slice(parts, |members|, j)) else [];
    forall j: nat | j < |members|
      ensures members[j] != members[i] ==> share(j + 1) == share(j)
      ensures members[j] == members[i] && share(j) == [] ==> share(j + 1) == piece(j)
    {
      TopicShareStep(members, t, parts, j + 1, members[i]);
    }
    OneTurn(members, share, piece, |members|, i);
  }

  lemma TopicShareStep(members: seq<Member>, t: Topic, parts: seq<int>, k: nat, m: Member)
    requires 0 < k <= |members|
    ensures var before := ShareOf(RangeTopic(members, t, parts, k - 1), m);
            var after := ShareOf(RangeTopic(members, t, parts, k), m);
            && (m != members[k - 1] ==> after == before)
            && (m == members[k - 1] && before == [] ==> after == ToPairs(t, Slice(parts, |members|, k - 1)))
  {
    var gs, pairs := RangeTopic(members, t, parts, k - 1), ToPairs(t, Slice(parts, |members|, k - 1));
    ShareAfter(gs, members[k - 1], pairs, m);
    if m == members[k - 1] {
      if ShareOf(gs, m) == [] { NothingThen(ShareOf(gs, m), pairs); }
    } else {
      ThenNothing(ShareOf(gs, m));
    }
  }

  lemma {:induction false} RangeShareIs(members: seq<Member>, g: seq<Entry>, i: nat)
    requires Distinct(members) && i < |members|
    ensures ShareOf(RangeGifts(members, g), members[i]) == RangeShare(g, |members|, i)
  {
    if g != [] {
      var parts := Sorted(g[0].parts);
      RangeTopicShare(members, g[0].topic, parts, i);
      ShareConcat(RangeTopic(members, g[0].topic, parts, |members|), RangeGifts(members, g[1..]), members[i]);
      RangeShareIs(members, g[1..], i);
    }
  }

  lemma {:induction false} PartsConcat(a: seq<Pair>, b: seq<Pair>, t: Topic)
    ensures PartsOf(a + b, t) == PartsOf(a, t) + PartsOf(b, t)
  {
    if a == [] {
      assert a + b == b;
    } else {
      PartsConcat(a[1..], b, t);
      assert (a + b)[1..] == a[1..] + b;
      Regroup([a[0].partition], PartsOf(a[1..], t), PartsOf(b, t));
    }
  }

  lemma {:induction false} PartsOfPairs(t: Topic, parts: seq<int>, u: Topic)
    ensures PartsOf(ToPairs(t, parts), u) == if u == t then parts else []
  {
    if parts != [] { PartsOfPairs(t, parts[1..], u); }
  }

  lemma {:induction false} RangePartsOf(g: seq<Entry>, m: nat, i: nat, t: Topic)
    requires i < m && Proper(g)
    ensures PartsOf(RangeShare(g, m, i), t) == Slice(Sorted(Lookup(g, t)), m, i)
  {
    if g == [] {
      StartBelow(0, m, i);
    } else {
      var parts := Slice(Sorted(g[0].parts), m, i);
      PartsConcat(ToPairs(g[0].topic, parts), RangeShare(g[1..], m, i), t);
      PartsOfPairs(g[0].topic, parts, t);
      RangePartsOf(g[1..], m, i, t);
      if t == g[0].topic {
        LookupAbsent(g[1..], t);
        StartBelow(0, m, i);
      }
    }
  }

  /** No member's quota is more than one above another's, nor above that of an
      earlier member. */
  lemma QuotaOrder(n: nat, m: nat, i: nat, j: nat)
    requires i <= j < m
    ensures Quota(n, m, j) <= Quota(n, m, i) <= Quota(n, m, j) + 1
  {
  }

  lemma SliceIsSorted(parts: seq<int>, m: nat, i: nat)
    requires i < m && IsSorted(parts)
    ensures IsSorted(Slice(parts, m, i)) && |Slice(parts, m, i)| == Quota(|parts|, m, i)
  {
    StartBelow(|parts|, m, i);
    StartNext(|parts|, m, i);
  }

  /** What member i holds of topic t under the range assignor. */
  function RangePart(members: seq<Member>, ps: seq<Pair>, t: Topic, i: nat): seq<int>
    requires i < |members|
  {
    PartsOf(ShareOf(Gifts(RangeAssignor, members, ps), members[i]), t)
  }

  /** Range: of every topic each member holds one contiguous slice of the
      sorted partitions, where the slices of the members before it end. */
  lemma RangeIsContiguous(members: seq<Member>, ps: seq<Pair>, t: Topic, i: nat)
    requires Distinct(members) && i < |members|
    ensures var parts := Sorted(PartsOf(ps, t));
            && RangePart(members, ps, t, i) == Slice(parts, |members|, i)
            && IsSorted(RangePart(members, ps, t, i))
            && |RangePart(members, ps, t, i)| == Quota(|PartsOf(ps, t)|, |members|, i)
  {
    GroupIsExact(ps);
    RangeShareIs(members, Group(ps), i);
    RangePartsOf(Group(ps), |members|, i, t);
    SortedSorts(PartsOf(ps, t));
    SliceIsSorted(Sorted(PartsOf(ps, t)), |members|, i);
  }

  /** Range: of every topic, no member holds more than an earlier one, nor two
      more than a later one. */
  lemma RangeBalance(members: seq<Member>, ps: seq<Pair>, t: Topic, i: nat, j: nat)
    requires Distinct(members) && i <= j < |members|
    ensures |RangePart(members, ps, t, j)| <= |RangePart(members, ps, t, i)| <= |RangePart(members, ps, t, j)| + 1
  {
    RangeIsContiguous(members, ps, t, i);
    RangeIsContiguous(members, ps, t, j);
    QuotaOrder(|PartsOf(ps, t)|, |members|, i, j);
  }

  lemma QuotaIs(n: nat, m: nat, k: nat, q: nat, r: nat)
    requires n == q * m + r && r < m
    ensures Quota(n, m, k) == q + if k < r then 1 else 0
  {
    DivModUnique(n, m, q, r);
  }

  lemma QuotaNext(n: nat, m: nat, k: nat)
    requires k < m
    ensures Quota(n + 1, m, k) == Quota(n, m, k) + if n % m == k then 1 else 0
    ensures n % m == k ==> Quota(n, m, k) == n / m && n == k + (n / m) * m
  {
    var q, r := n / m, n % m;
    QuotaIs(n, m, k, q, r);
    if r + 1 < m {
      QuotaIs(n + 1, m, k, q, r + 1);
    } else {
      MulNext(q, m);
      QuotaIs(n + 1, m, k, q + 1, 0);
    }
  }

  /** Dealing the first n partitions. */
  function Dealt(members: seq<Member>, ps: seq<Pair>, n: nat): seq<Gift>
    requires n <= |ps| && members != []
  {
    if n == 0 then [] else Dealt(members, ps, n - 1) + [Gift(members[(n - 1) % |members|], ps[n - 1])]
  }

  lemma {:induction false} DealtThenDeal(members: seq<Member>, ps: seq<Pair>, n: nat)
    requires n <= |ps| && members != []
    ensures Dealt(members, ps, n) + Deal(members, ps, n) == Deal(members, ps, 0)
  {
    if n > 0 { DealtThenDeal(members, ps, n - 1); }
  }

  /** Item j of member k's share is partition k + j * m. */
  lemma {:induction false} DealtShare(members: seq<Member>, ps: seq<Pair>, n: nat, k: nat)
    requires n <= |ps| && k < |members| && Distinct(members)
    ensures var share, m := ShareOf(Dealt(members, ps, n), members[k]), |members|;
            && |share| == Quota(n, m, k)
            && forall j :: 0 <= j < |share| ==> IsItem(share[j], ps, k + j * m)
  {
    if n > 0 {
      var m := |members|;
      DealtShare(members, ps, n - 1, k);
      QuotaNext(n - 1, m, k);
      var gift := Gift(members[(n - 1) % m], ps[n - 1]);
      ShareConcat(Dealt(members, ps, n - 1), [gift], members[k]);
      assert ShareOf([gift], members[k]) == if (n - 1) % m == k then [ps[n - 1]] else [];
    } else {
      assert Quota(0, |members|, k) == 0;
    }
  }

  ghost predicate IsItem(p: Pair, ps: seq<Pair>, i: int) {
    0 <= i < |ps| && ps[i] == p
  }

  function DealtTo(members: seq<Member>, ps: seq<Pair>, k: nat): seq<Pair>
    requires k < |members|
  {
    ShareOf(Gifts(RoundRobin, members, ps), members[k])
  }

  /** Round-robin: member k gets every m-th partition from k on. */
  lemma RoundRobinShare(members: seq<Member>, ps: seq<Pair>, k: nat)
    requires Distinct(members) && k < |members|
    ensures |DealtTo(members, ps, k)| == Quota(|ps|, |members|, k)
    ensures forall j :: 0 <= j < |DealtTo(members, ps, k)| ==> IsItem(DealtTo(members, ps, k)[j], ps, k + j * |members|)
  {
    DealtShare(members, ps, |ps|, k);
    DealtThenDeal(members, ps, |ps|);
    assert Dealt(members, ps, |ps|) == Gifts(RoundRobin, members, ps);
  }

  /** Round-robin: no two members' totals differ by more than one. */
  lemma RoundRobinBalance(members: seq<Member>, ps: seq<Pair>, i: nat, j: nat)
    requires Distinct(members) && i <= j < |members|
    ensures |DealtTo(members, ps, j)| <= |DealtTo(members, ps, i)| <= |DealtTo(members, ps, j)| + 1
  {
    RoundRobinShare(members, ps, i);
    RoundRobinShare(members, ps, j);
    QuotaOrder(|ps|, |members|, i, j);
  }

  // ---------------------------------------------------------------------
  // One owner
  // ---------------------------------------------------------------------

  /** The partitions 0 .. count - 1 of a topic. */
  function TopicPairs(t: Topic, count: nat): (r: seq<Pair>)
    ensures |r| == count && forall p :: 0 <= p < count ==> r[p] == Pair(t, p)
  {
    if count == 0 then [] else TopicPairs(t, count - 1) + [Pair(t, count - 1)]
  }

  /** A subscription: topics and their partition counts. */
  type Subscription = seq<(Topic, nat)>

  function AllPairs(sub: Subscription): seq<Pair> {
    if sub == [] then [] else TopicPairs(sub[0].0, sub[0].1) + AllPairs(sub[1..])
  }

  /** How often a subscription lists a partition. */
  function Listed(sub: Subscription, x: Pair): nat {
    if sub == [] then 0
    else (if x.topic == sub[0].0 && 0 <= x.partition < sub[0].1 then 1 else 0) + Listed(sub[1..], x)
  }

  lemma CountInLonger<T>(s: seq<T>, last: T, x: T)
    ensures multiset(s + [last])[x] == multiset(s)[x] + if x == last then 1 else 0
  {
  }

  lemma {:induction false} TopicBag(t: Topic, count: nat, x: Pair)
    ensures multiset(TopicPairs(t, count))[x] == if x.topic == t && 0 <= x.partition < count then 1 else 0
  {
    if count > 0 {
      var before, last := TopicPairs(t, count - 1), Pair(t, count - 1);
      TopicBag(t, count - 1, x);
      CountInLonger(before, last, x);
      SamePair(x, t, count - 1);
      assert TopicPairs(t, count) == before + [last];
    }
  }

  lemma SamePair(x: Pair, t: Topic, p: int)
    ensures x == Pair(t, p) <==> x.topic == t && x.partition == p
  {
  }

  lemma {:induction false} AllPairsBag(sub: Subscription, x: Pair)
    ensures multiset(AllPairs(sub))[x] == Listed(sub, x)
  {
    if sub != [] {
      TopicBag(sub[0].0, sub[0].1, x);
      AllPairsBag(sub[1..], x);
    }
  }

  /** x is in exactly one of the shares, and there once. */
  ghost predicate OneOwner(shares: seq<seq<Pair>>, x: Pair) {
    exists i :: 0 <= i < |shares| && multiset(shares[i])[x] == 1
                && forall j :: 0 <= j < |shares| && j != i ==> x !in shares[j]
  }

  lemma {:induction false} Holders(shares: seq<seq<Pair>>, x: Pair)
    ensures Total(shares)[x] == 0 <==> forall i :: 0 <= i < |shares| ==> x !in shares[i]
  {
    if shares != [] {
      Holders(shares[1..], x);
      assert shares == [shares[0]] + shares[1..];
      assert multiset(shares[0])[x] == 0 <==> x !in shares[0];
    }
  }

  lemma {:induction false} OneOwnerIff(shares: seq<seq<Pair>>, x: Pair)
    ensures OneOwner(shares, x) <==> Total(shares)[x] == 1
  {
    if shares != [] {
      OneOwnerIff(shares[1..], x);
      Holders(shares[1..], x);
      OwnerStep(shares, x);
    }
  }

  lemma OwnerStep(shares: seq<seq<Pair>>, x: Pair)
    requires shares != []
    ensures OneOwner(shares, x) <==>
            (multiset(shares[0])[x] == 1 && forall j :: 0 <= j < |shares[1..]| ==> x !in shares[1..][j])
            || (x !in shares[0] && OneOwner(shares[1..], x))
  {
    var tail := shares[1..];
    if OneOwner(shares, x) {
      var i :| 0 <= i < |shares| && multiset(shares[i])[x] == 1
               && forall j :: 0 <= j < |shares| && j != i ==> x !in shares[j];
      if i > 0 {
        assert multiset(tail[i - 1])[x] == 1;
        assert OneOwner(tail, x);
      }
    }
    if x !in shares[0] && OneOwner(tail, x) {
      var i :| 0 <= i < |tail| && multiset(tail[i])[x] == 1
               && forall j :: 0 <= j < |tail| && j != i ==> x !in tail[j];
      forall j | 0 <= j < |shares| && j != i + 1 ensures x !in shares[j] {
        if j > 0 { assert shares[j] == tail[j - 1]; }
      }
      assert multiset(shares[i + 1])[x] == 1;
    }
  }
}
