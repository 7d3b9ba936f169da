/** The loops of the assignors and of the assignment codecs: each method is
    proved equal to the function that the theorems speak about. */
module GroupLeader {
  import opened Sequences
  import opened Wrappers
  import opened WireBytes
  import opened GoCodec
  import opened Assignors
  import opened AssignmentWire
  import opened GroupAssignment
  import opened PythonWire
  import PythonBuffers
  import GoBuffers

  // ---------------------------------------------------------------------
  // The assignors
  // ---------------------------------------------------------------------

  /** A defaultdict of lists. */
  type Shared = map<Member, seq<Pair>>

  function Get(m: Shared, id: Member): seq<Pair> {
    if id in m then m[id] else []
  }

  /** The dictionary holds what the gifts so far amount to. */
  ghost predicate Reflects(m: Shared, gs: seq<Gift>) {
    forall id :: Get(m, id) == ShareOf(gs, id)
  }

  lemma GiveOne(m: Shared, gs: seq<Gift>, id: Member, p: Pair)
    requires Reflects(m, gs)
    ensures Reflects(m[id := Get(m, id) + [p]], gs + [Gift(id, p)])
  {
    forall other ensures Get(m[id := Get(m, id) + [p]], other) == ShareOf(gs + [Gift(id, p)], other) {
      ShareConcat(gs, [Gift(id, p)], other);
      assert ShareOf([Gift(id, p)], other) == if other == id then [p] else [];
    }
  }

  /** Collects the partitions of every subscribed topic. */
  method CollectPartitions(sub: Subscription) returns (all: seq<Pair>)
    ensures all == AllPairs(sub)
  {
    all := [];
    var k := 0;
    assert sub[0..] == sub;
    while k < |sub|
      invariant k <= |sub|
      invariant all + AllPairs(sub[k..]) == AllPairs(sub)
    {
      ghost var before := all;
      NextPairs(before, sub, k);
      for p := 0 to sub[k].1
        invariant all == before + TopicPairs(sub[k].0, p)
      {
        all := all + [Pair(sub[k].0, p)];
      }
      k := k + 1;
    }
  }

  lemma NextPairs(before: seq<Pair>, sub: Subscription, k: nat)
    requires k < |sub|
    ensures before + AllPairs(sub[k..]) == before + TopicPairs(sub[k].0, sub[k].1) + AllPairs(sub[k + 1..])
  {
    assert sub[k..][1..] == sub[k + 1..];
  }

  method GroupByTopic(ps: seq<Pair>) returns (g: seq<Entry>)
    ensures g == Group(ps)
  {
    g := [];
    var k := 0;
    assert ps[0..] == ps;
    while k < |ps|
      invariant k <= |ps|
      invariant GroupInto(g, ps[k..]) == Group(ps)
    {
      assert ps[k..][1..] == ps[k + 1..];
      g := AddTo(g, ps[k]);
      k := k + 1;
    }
  }

  /** The body of the topic loop of _assign_range. */
  method ShareTopic(members: seq<Member>, t: Topic, parts: seq<int>, m0: Shared,
                    ghost gs: seq<Gift>) returns (m: Shared)
    requires Reflects(m0, gs)
    ensures Reflects(m, gs + RangeTopic(members, t, parts, |members|))
  {
    m := m0;
    if |members| == 0 {
      assert gs + [] == gs;
      return;
    }
    var perMember, remainder, idx := |parts| / |members|, |parts| % |members|, 0;
    assert gs + [] == gs;
    for i := 0 to |members|
      invariant idx == Start(|parts|, |members|, i)
      invariant Reflects(m, gs + RangeTopic(members, t, parts, i))
    {
      var count := perMember + if i < remainder then 1 else 0;
      m := ShareNext(members, t, parts, i, idx, count, m, gs);
      idx := idx + count;
    }
  }

  /** One turn of the member loop. */
  method ShareNext(members: seq<Member>, t: Topic, parts: seq<int>, i: nat, idx: nat, count: nat, m0: Shared,
                   ghost gs: seq<Gift>) returns (m: Shared)
    requires i < |members| && Reflects(m0, gs + RangeTopic(members, t, parts, i))
    requires idx == Start(|parts|, |members|, i) && count == Quota(|parts|, |members|, i)
    ensures Reflects(m, gs + RangeTopic(members, t, parts, i + 1))
    ensures idx + count == Start(|parts|, |members|, i + 1)
  {
    SliceAt(parts, |members|, i, idx, count);
    NextSlice(members, t, parts, i, gs);
    m := ShareSlice(members[i], t, parts, idx, count, m0, gs + RangeTopic(members, t, parts, i));
  }

  lemma SliceAt(parts: seq<int>, m: nat, i: nat, idx: nat, count: nat)
    requires i < m && idx == Start(|parts|, m, i) && count == Quota(|parts|, m, i)
    ensures idx + count == Start(|parts|, m, i + 1) <= |parts|
    ensures parts[idx..idx + count] == Slice(parts, m, i)
  {
    StartBelow(|parts|, m, i);
  }

  lemma NextSlice(members: seq<Member>, t: Topic, parts: seq<int>, i: nat, gs: seq<Gift>)
    requires i < |members|
    ensures gs + RangeTopic(members, t, parts, i) + GiveAll(members[i], ToPairs(t, Slice(parts, |members|, i)))
            == gs + RangeTopic(members, t, parts, i + 1)
  {
    Regroup(gs, RangeTopic(members, t, parts, i), GiveAll(members[i], ToPairs(t, Slice(parts, |members|, i))));
  }

  /** The innermost loop: `count` partitions from idx on. */
  method ShareSlice(id: Member, t: Topic, parts: seq<int>, idx: nat, count: nat, m0: Shared, ghost gs: seq<Gift>)
    returns (m: Shared)
    requires Reflects(m0, gs) && idx + count <= |parts|
    ensures Reflects(m, gs + GiveAll(id, ToPairs(t, parts[idx..idx + count])))
  {
    m := m0;
    ghost var done := gs;
    ghost var all := GiveAll(id, ToPairs(t, parts[idx..idx + count]));
    for j := 0 to count
      invariant done == gs + all[..j]
      invariant Reflects(m, done)
    {
      var p := Pair(t, parts[idx + j]);
      GiveAllAt(id, ToPairs(t, parts[idx..idx + count]), j);
      ToPairsAt(t, parts[idx..idx + count], j);
      assert all[j] == Gift(id, p);
      GiveOne(m, done, id, p);
      m := m[id := Get(m, id) + [p]];
      Extend(gs, all, j);
      done := done + [all[j]];
    }
    assert all[..count] == all;
  }

  /** b_i is the encoding of the share of each of the first |out| members. */
  ghost predicate EncodedSoFar(gs: seq<Gift>, members: seq<Member>, out: seq<Sent>) {
    && |out| <= |members|
    && forall i :: 0 <= i < |out| ==>
         out[i].member == members[i] && Encode(ShareOf(gs, members[i])) == Some(out[i].assignment)
  }

  lemma EncodedFully(gs: seq<Gift>, members: seq<Member>, out: seq<Sent>)
    requires EncodedSoFar(gs, members, out) && |out| == |members|
    ensures EncodeShares(gs, members) == Some(out)
  {
    EncodeSharesIs(gs, members);
    assert out == EncodeShares(gs, members).value;
  }

  lemma EncodingFails(gs: seq<Gift>, members: seq<Member>, k: nat)
    requires k < |members| && Encode(ShareOf(gs, members[k])) == None
    ensures EncodeShares(gs, members) == None
  {
    EncodeSharesIs(gs, members);
  }

  /** The result loop that both assignors end with. */
  method EncodeAll(members: seq<Member>, m: Shared, ghost gs: seq<Gift>) returns (r: Option<seq<Sent>>)
    requires Reflects(m, gs)
    ensures r == EncodeShares(gs, members)
  {
    var out: seq<Sent>, k := [], 0;
    while k < |members|
      invariant k == |out| <= |members| && EncodedSoFar(gs, members, out)
    {
      assert Get(m, members[k]) == ShareOf(gs, members[k]);
      var b := EncodeAssignment(Get(m, members[k]));
      if b == None {
        EncodingFails(gs, members, k);
        return None;
      }
      out := out + [Sent(members[k], b.value)];
      k := k + 1;
    }
    EncodedFully(gs, members, out);
    r := Some(out);
  }

  /** The topic loop of _assign_range. */
  method ShareTopics(members: seq<Member>, g: seq<Entry>) returns (m: Shared)
    ensures Reflects(m, RangeGifts(members, g))
  {
    m := map[];
    var k := 0;
    ghost var gs: seq<Gift> := [];
    assert g[0..] == g;
    while k < |g|
      invariant k <= |g|
      invariant Reflects(m, gs) && gs + RangeGifts(members, g[k..]) == RangeGifts(members, g)
    {
      var parts := Sorted(g[k].parts);
      m := ShareTopic(members, g[k].topic, parts, m, gs);
      NextTopic(members, g, k, gs);
      gs := gs + RangeTopic(members, g[k].topic, parts, |members|);
      k := k + 1;
    }
    assert gs + [] == gs;
  }

  lemma NextTopic(members: seq<Member>, g: seq<Entry>, k: nat, gs: seq<Gift>)
    requires k < |g|
    ensures gs + RangeGifts(members, g[k..]) ==
            gs + RangeTopic(members, g[k].topic, Sorted(g[k].parts), |members|) + RangeGifts(members, g[k + 1..])
  {
    assert g[k..][1..] == g[k + 1..];
    Regroup(gs, RangeTopic(members, g[k].topic, Sorted(g[k].parts), |members|), RangeGifts(members, g[k + 1..]));
  }

  method AssignRange(members: seq<Member>, ps: seq<Pair>) returns (r: Option<seq<Sent>>)
    ensures r == EncodeShares(Gifts(RangeAssignor, members, ps), members)
  {
    var g := GroupByTopic(ps);
    var m := ShareTopics(members, g);
    r := EncodeAll(members, m, RangeGifts(members, g));
  }

  method AssignRoundRobin(members: seq<Member>, ps: seq<Pair>) returns (r: Option<seq<Sent>>)
    ensures r == EncodeShares(Gifts(RoundRobin, members, ps), members)
  {
    if members == [] { return Some([]); }
    var m: Shared := map[];
    for i := 0 to |ps|
      invariant Reflects(m, Dealt(members, ps, i))
    {
      var id := members[i % |members|];
      GiveOne(m, Dealt(members, ps, i), id, ps[i]);
      m := m[id := Get(m, id) + [ps[i]]];
    }
    DealtThenDeal(members, ps, |ps|);
    assert Dealt(members, ps, |ps|) == Gifts(RoundRobin, members, ps);
    r := EncodeAll(members, m, Gifts(RoundRobin, members, ps));
  }

  method ComputeAssignments(a: Assignor, members: seq<Member>, sub: Subscription) returns (r: Option<seq<Sent>>)
    ensures r == Compute(a, members, sub)
  {
    var all := CollectPartitions(sub);
    if all == [] { return Some([]); }
    if a == RoundRobin {
      r := AssignRoundRobin(members, all);
    } else {
      r := AssignRange(members, all);
    }
  }

  // ---------------------------------------------------------------------
  // Encoding
  // ---------------------------------------------------------------------

  /** Four pieces written one after another make an entry. */
  lemma EntryIs(before: Bytes, e: Entry)
    ensures before + NameBytes(e.topic) + IntBytes(4, |e.parts|) + IntsBytes(e.parts) == before + EntryBytes(e)
  {
    Assoc(before, NameBytes(e.topic), IntBytes(4, |e.parts|), IntsBytes(e.parts));
  }

  lemma Assoc(a: Bytes, b: Bytes, c: Bytes, d: Bytes)
    ensures a + b + c + d == a + (b + (c + d))
  {
  }

  lemma MessageIs(g: seq<Entry>)
    ensures IntBytes(2, 0) + IntBytes(4, |g|) + EntriesBytes(g) + IntBytes(4, -1) == MessageBytes(g)
  {
    Assoc(IntBytes(2, 0), IntBytes(4, |g|), EntriesBytes(g), IntBytes(4, -1));
  }

  method WriteEntry(w: PythonBuffers.BinaryWriter, e: Entry) returns (ok: bool)
    requires w.Valid()
    modifies w, w.buf
    ensures w.Valid() && (w.buf == old(w.buf) || fresh(w.buf))
    ensures ok <==> EntryFits(e)
    ensures ok ==> w.Written() == old(w.Written()) + EntryBytes(Entry(e.topic, Sorted(e.parts)))
  {
    SortedSorts(e.parts);
    SortedFitsIff(e.parts);
    EntryIs(w.Written(), Entry(e.topic, Sorted(e.parts)));
    ok := w.WriteString(e.topic);
    if !ok { return; }
    BigLength();
    ok := w.WriteInt(4, |e.parts|);
    if !ok { return; }
    ok := WriteInts(w, Sorted(e.parts));
  }

  lemma SortedFitsIff(parts: seq<int>)
    ensures AllFit(Sorted(parts)) <==> AllFit(parts)
  {
    SortedSorts(parts);
    forall i | 0 <= i < |parts| ensures parts[i] in Sorted(parts) {
      assert parts[i] in multiset(parts);
    }
    if AllFit(parts) { SortedFits(parts); }
  }

  method WriteInts(w: PythonBuffers.BinaryWriter, parts: seq<int>) returns (ok: bool)
    requires w.Valid()
    modifies w, w.buf
    ensures w.Valid() && (w.buf == old(w.buf) || fresh(w.buf))
    ensures ok <==> AllFit(parts)
    ensures ok ==> w.Written() == old(w.Written()) + IntsBytes(parts)
  {
    BigLength();
    var k := 0;
    assert parts[0..] == parts;
    while k < |parts|
      invariant k <= |parts| && w.Valid() && (w.buf == old(w.buf) || fresh(w.buf))
      invariant forall i :: 0 <= i < k ==> Fits(parts[i], INT32)
      invariant w.Written() + IntsBytes(parts[k..]) == old(w.Written()) + IntsBytes(parts)
    {
      assert parts[k..][1..] == parts[k + 1..];
      ok := w.WriteInt(4, parts[k]);
      if !ok { return; }
      k := k + 1;
    }
    ok := true;
  }

  /** encode_assignment */
  method EncodeAssignment(ps: seq<Pair>) returns (r: Option<Bytes>)
    ensures r == Encode(ps)
  {
    var w := new PythonBuffers.BinaryWriter(1024);
    BigLength();
    var ok := w.WriteInt(2, 0);
    assert w.Written() == IntBytes(2, 0);
    var g := GroupByTopic(ps);
    ok := w.WriteInt(4, |g|);
    if !ok { return None; }
    ok := WriteEntries(w, g);
    if !ok { return None; }
    ok := w.WriteInt(4, -1);
    MessageIs(SortEach(g));
    var b := w.Buffer();
    r := Some(b);
  }

  /** With the entries from k on, what is written makes `goal`. */
  ghost predicate EntriesLeft(written: Bytes, s: seq<Entry>, k: nat, goal: Bytes)
    requires k <= |s|
  {
    written + EntriesBytes(s[k..]) == goal
  }

  lemma EntryWritten(written: Bytes, s: seq<Entry>, k: nat, goal: Bytes)
    requires k < |s| && EntriesLeft(written, s, k, goal)
    ensures EntriesLeft(written + EntryBytes(s[k]), s, k + 1, goal)
  {
    NextEntry(written, s, k);
  }

  method WriteEntries(w: PythonBuffers.BinaryWriter, g: seq<Entry>) returns (ok: bool)
    requires w.Valid()
    modifies w, w.buf
    ensures w.Valid() && (w.buf == old(w.buf) || fresh(w.buf))
    ensures ok <==> EntriesFit(g)
    ensures ok ==> w.Written() == old(w.Written()) + EntriesBytes(SortEach(g))
  {
    ghost var s := SortEach(g);
    ghost var goal := w.Written() + EntriesBytes(s);
    var k := 0;
    assert s[0..] == s;
    while k < |g|
      invariant k <= |g| && w.Valid() && (w.buf == old(w.buf) || fresh(w.buf))
      invariant EntriesFit(g[..k]) && EntriesLeft(w.Written(), s, k, goal)
    {
      FitsNext(g, k);
      ok := WriteNext(w, g[k], s, k, goal);
      if !ok { return; }
      k := k + 1;
    }
    assert g[..k] == g;
    ok := true;
  }

  lemma FitsNext(g: seq<Entry>, k: nat)
    requires k < |g|
    ensures EntriesFit(g[..k + 1]) <==> EntriesFit(g[..k]) && EntryFits(g[k])
    ensures EntriesFit(g) ==> EntryFits(g[k])
  {
    assert g[..k + 1] == g[..k] + [g[k]];
  }

  method WriteNext(w: PythonBuffers.BinaryWriter, e: Entry, ghost s: seq<Entry>, ghost k: nat, ghost goal: Bytes)
    returns (ok: bool)
    requires w.Valid() && k < |s| && s[k] == Entry(e.topic, Sorted(e.parts)) && EntriesLeft(w.Written(), s, k, goal)
    modifies w, w.buf
    ensures w.Valid() && (w.buf == old(w.buf) || fresh(w.buf))
    ensures ok <==> EntryFits(e)
    ensures ok ==> EntriesLeft(w.Written(), s, k + 1, goal)
  {
    EntryWritten(w.Written(), s, k, goal);
    ok := WriteEntry(w, e);
  }

  // ---------------------------------------------------------------------
  // Decoding
  // ---------------------------------------------------------------------

  /** decode_assignment */
  method DecodeAssignment(data: Option<Bytes>) returns (r: PyResult<seq<Pair>>)
    ensures r == PyDecode(data)
  {
    if data == None || data.value == [] { return Got([], 0); }
    var rd := new PythonBuffers.BinaryReader(data.value);
    var version := rd.ReadInt(2);
    if version == Raised { return Raised; }
    var count := rd.ReadInt(4);
    if count == Raised { return Raised; }
    var out := ReadPyEntries(rd, count.value, PyReader(rd.data));
    r := if out == Raised then Raised else Got(out.value, rd.pos);
  }

  /** `entry` reads the entries of d. */
  ghost predicate PyReads(entry: int -> PyResult<Entry>, d: Bytes) {
    forall pos {:trigger PyEntry(d, pos)} :: entry(pos) == PyEntry(d, pos)
  }

  /** The topic loop: the pairs of each entry, in order. */
  method ReadPyEntries(rd: PythonBuffers.BinaryReader, count: int, ghost entry: int -> PyResult<Entry>)
    returns (r: PyResult<seq<Pair>>)
    requires PyReads(entry, rd.data)
    modifies rd`pos
    ensures var g := PyEntries(entry, old(rd.pos), count, []);
            if g.Got? then r == Got(Flatten(g.value), rd.pos) && rd.pos == g.next else r == Raised
  {
    var out: seq<Pair>, i := [], 0;
    ghost var g: seq<Entry> := [];
    ghost var goal := PyEntries(entry, rd.pos, count, []);
    while i < count
      invariant 0 <= i && (count >= 0 ==> i <= count)
      invariant out == Flatten(g) && PyEntries(entry, rd.pos, count - i, g) == goal
    {
      var e := ReadPyEntry(rd, entry);
      if e == Raised { return Raised; }
      FlattenPush(g, e.value);
      out := out + ToPairs(e.value.topic, e.value.parts);
      g := g + [e.value];
      i := i + 1;
    }
    r := Got(out, rd.pos);
  }

  lemma {:induction false} FlattenPush(g: seq<Entry>, e: Entry)
    ensures Flatten(g + [e]) == Flatten(g) + ToPairs(e.topic, e.parts)
  {
    var last := ToPairs(e.topic, e.parts);
    if g == [] {
      assert g + [e] == [e] && [e][1..] == [];
      assert Flatten([e]) == last + [];
    } else {
      FlattenPush(g[1..], e);
      assert (g + [e])[1..] == g[1..] + [e];
      Regroup(ToPairs(g[0].topic, g[0].parts), Flatten(g[1..]), last);
    }
  }

  /** The body of the topic loop. */
  method ReadPyEntry(rd: PythonBuffers.BinaryReader, ghost entry: int -> PyResult<Entry>) returns (r: PyResult<Entry>)
    requires PyReads(entry, rd.data)
    modifies rd`pos
    ensures r == entry(old(rd.pos))
    ensures r.Got? ==> rd.pos == r.next
  {
    assert entry(rd.pos) == PyEntry(rd.data, rd.pos);
    var name := rd.ReadName();
    if name == Raised { return Raised; }
    var count := rd.ReadInt(4);
    if count == Raised { return Raised; }
    var parts: seq<int>, i := [], 0;
    ghost var start := rd.pos;
    while i < count.value
      invariant 0 <= i && (count.value >= 0 ==> i <= count.value)
      invariant PyInts(rd.data, start, count.value, []) == PyInts(rd.data, rd.pos, count.value - i, parts)
    {
      var p := rd.ReadInt(4);
      if p == Raised { return Raised; }
      parts := parts + [p.value];
      i := i + 1;
    }
    r := Got(Entry(name.value, parts), rd.pos);
  }

  /** decodeMemberAssignment */
  method DecodeMemberAssignment(data: Option<Bytes>) returns (r: GoResult)
    ensures r == GoDecode(data)
  {
    if data == None || |data.value| < 2 { return Assigned(map[]); }
    var rd := new GoBuffers.BinaryReader(data.value);
    var version := rd.ReadInt(2);
    if !version.Ok? { return Assigned(map[]); }
    var count := rd.ReadInt(4);
    if !count.Ok? { return Assigned(map[]); }
    r := ReadGoEntries(rd, count.value, GoReader(rd.data));
  }

  /** `entry` reads the entries of d. */
  ghost predicate GoReads(entry: nat -> Result<Entry>, d: Bytes) {
    forall pos: nat {:trigger GoEntry(d, pos)} :: entry(pos) == GoEntry(d, pos)
  }

  /** The topic loop. */
  method ReadGoEntries(rd: GoBuffers.BinaryReader, count: int, ghost entry: nat -> Result<Entry>) returns (r: GoResult)
    requires GoReads(entry, rd.data)
    modifies rd`pos
    ensures r == GoEntries(entry, old(rd.pos), count, map[])
  {
    var result: map<Topic, seq<int>>, i := map[], 0;
    ghost var goal := GoEntries(entry, rd.pos, count, map[]);
    while i < count
      invariant 0 <= i && (count >= 0 ==> i <= count)
      invariant GoEntries(entry, rd.pos, count - i, result) == goal
    {
      var e := ReadGoEntry(rd, entry);
      match e {
        case Underflow => return Assigned(result);
        case Panic => return Crashed;
        case Ok(item, _) => result := result[item.topic := item.parts];
      }
      i := i + 1;
    }
    r := Assigned(result);
  }

  /** The body of the topic loop. */
  method ReadGoEntry(rd: GoBuffers.BinaryReader, ghost entry: nat -> Result<Entry>) returns (r: Result<Entry>)
    requires GoReads(entry, rd.data)
    modifies rd`pos
    ensures r == entry(old(rd.pos))
    ensures r.Ok? ==> rd.pos == r.next
  {
    assert entry(rd.pos) == GoEntry(rd.data, rd.pos);
    var name := rd.ReadField(PlainKind);
    match name {
      case Underflow => return Underflow;
      case Panic => return Panic;
      case Ok(f, _) =>
        var count := rd.ReadInt(4);
        if !count.Ok? { return Underflow; }
        if count.value < 0 { return Panic; }
        var parts: seq<int>, i := [], 0;
        ghost var start := rd.pos;
        while i < count.value
          invariant 0 <= i <= count.value
          invariant ReadInts(rd.data, start, count.value, []) == ReadInts(rd.data, rd.pos, count.value - i, parts)
        {
          var p := rd.ReadInt(4);
          if !p.Ok? { return Underflow; }
          parts := parts + [p.value];
          i := i + 1;
        }
        r := Ok(Entry(f.text, parts), rd.pos);
    }
  }

  /** encodeMemberAssignment, visiting the map in the order g; lengths are not
      checked but cut to their prefixes. */
  method EncodeMemberAssignment(g: seq<Entry>) returns (b: Bytes)
    ensures b == MessageBytes(g)
  {
    var w := new GoBuffers.BinaryWriter(256);
    w.WriteInt(2, 0);
    assert w.Written() == IntBytes(2, 0);
    w.WriteInt(4, |g|);
    WriteGoEntries(w, g);
    w.WriteInt(4, -1);
    MessageIs(g);
    b := w.Bytes();
  }

  method WriteGoEntries(w: GoBuffers.BinaryWriter, g: seq<Entry>)
    requires w.Valid()
    modifies w, w.buf
    ensures w.Valid() && (w.buf == old(w.buf) || fresh(w.buf))
    ensures w.Written() == old(w.Written()) + EntriesBytes(g)
  {
    var k := 0;
    assert g[0..] == g;
    while k < |g|
      invariant k <= |g| && w.Valid() && (w.buf == old(w.buf) || fresh(w.buf))
      invariant w.Written() + EntriesBytes(g[k..]) == old(w.Written()) + EntriesBytes(g)
    {
      NextEntry(w.Written(), g, k);
      WriteGoEntry(w, g[k]);
      k := k + 1;
    }
  }

  lemma NextEntry(before: Bytes, g: seq<Entry>, k: nat)
    requires k < |g|
    ensures before + EntriesBytes(g[k..]) == before + EntryBytes(g[k]) + EntriesBytes(g[k + 1..])
  {
    assert g[k..][1..] == g[k + 1..];
  }

  method WriteGoEntry(w: GoBuffers.BinaryWriter, e: Entry)
    requires w.Valid()
    modifies w, w.buf
    ensures w.Valid() && (w.buf == old(w.buf) || fresh(w.buf))
    ensures w.Written() == old(w.Written()) + EntryBytes(e)
  {
    EntryIs(w.Written(), e);
    w.WriteString(e.topic);
    assert w.Written() == old(w.Written()) + NameBytes(e.topic);
    w.WriteInt(4, |e.parts|);
    WriteGoInts(w, e.parts);
  }

  method WriteGoInts(w: GoBuffers.BinaryWriter, parts: seq<int>)
    requires w.Valid()
    modifies w, w.buf
    ensures w.Valid() && (w.buf == old(w.buf) || fresh(w.buf))
    ensures w.Written() == old(w.Written()) + IntsBytes(parts)
  {
    var k := 0;
    assert parts[0..] == parts;
    while k < |parts|
      invariant k <= |parts| && w.Valid() && (w.buf == old(w.buf) || fresh(w.buf))
      invariant w.Written() + IntsBytes(parts[k..]) == old(w.Written()) + IntsBytes(parts)
    {
      assert parts[k..][1..] == parts[k + 1..];
      w.WriteInt(4, parts[k]);
      k := k + 1;
    }
  }
}
