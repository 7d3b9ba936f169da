/** A member's assignment on the wire: the encoder of the Python client
    (clients/python/torrent_mq/protocol.py) and the decoders of the Python and
    Go clients (clients/go/torrentmq/consumer.go) as functions on bytes, and
    what survives the journey. */
module AssignmentWire {
  import opened Wrappers
  import opened WireBytes
  import opened GoCodec
  import opened Assignors
  import opened PythonWire

  // ---------------------------------------------------------------------
  // Encoding
  // ---------------------------------------------------------------------

  function IntsBytes(parts: seq<int>): (b: Bytes)
    ensures |b| == 4 * |parts|
  {
    if parts == [] then [] else IntBytes(4, parts[0]) + IntsBytes(parts[1..])
  }

  function NameBytes(t: Topic): Bytes { IntBytes(2, |t|) + t }

  /** One item of the topic array. */
  function EntryBytes(e: Entry): Bytes {
    NameBytes(e.topic) + (IntBytes(4, |e.parts|) + IntsBytes(e.parts))
  }

  function EntriesBytes(g: seq<Entry>): Bytes {
    if g == [] then [] else EntryBytes(g[0]) + EntriesBytes(g[1..])
  }

  /** version, topic array, no user data */
  function MessageBytes(g: seq<Entry>): Bytes {
    IntBytes(2, 0) + (IntBytes(4, |g|) + (EntriesBytes(g) + IntBytes(4, -1)))
  }

  /** Each topic's partitions sorted. */
  function SortEach(g: seq<Entry>): (r: seq<Entry>)
    ensures |r| == |g| && forall i :: 0 <= i < |g| ==> r[i] == Entry(g[i].topic, Sorted(g[i].parts))
  {
    if g == [] then [] else [Entry(g[0].topic, Sorted(g[0].parts))] + SortEach(g[1..])
  }

  function Encoded(ps: seq<Pair>): Bytes {
    MessageBytes(SortEach(Group(ps)))
  }

  const INT32: nat := 0x1_0000_0000

  predicate AllFit(parts: seq<int>) {
    forall i :: 0 <= i < |parts| ==> Fits(parts[i], INT32)
  }

  /** What struct.pack can write. */
  predicate EntryFits(e: Entry) {
    |e.topic| < 0x8000 && |e.parts| < 0x8000_0000 && AllFit(e.parts)
  }

  predicate EntriesFit(g: seq<Entry>) {
    forall i :: 0 <= i < |g| ==> EntryFits(g[i])
  }

  predicate Encodable(ps: seq<Pair>) {
    |Group(ps)| < 0x8000_0000 && EntriesFit(Group(ps))
  }

  /** encode_assignment; None when struct.pack raises. */
  function Encode(ps: seq<Pair>): Option<Bytes> {
    if Encodable(ps) then Some(Encoded(ps)) else None
  }

  lemma EntryIsAt(e: Entry)
    ensures var b, t := EntryBytes(e), |e.topic|;
            && |b| == 6 + t + 4 * |e.parts|
            && At(b, 0, IntBytes(2, t)) && At(b, 2, e.topic)
            && At(b, 2 + t, IntBytes(4, |e.parts|)) && At(b, 6 + t, IntsBytes(e.parts))
  {
    var b := EntryBytes(e);
    assert b[0..0 + |b|] == b;
    var n, k := EntryAt(b, 0, e);
    AtConcat(b, 0, IntBytes(2, |e.topic|), e.topic);
  }

  /** The integers of a list lie four bytes apart. */
  lemma {:induction false} IntIsAt(d: Bytes, pos: nat, parts: seq<int>, j: nat)
    requires At(d, pos, IntsBytes(parts)) && j < |parts|
    ensures At(d, pos + 4 * j, IntBytes(4, parts[j]))
    decreases |parts|
  {
    AtConcat(d, pos, IntBytes(4, parts[0]), IntsBytes(parts[1..]));
    if j > 0 { IntIsAt(d, pos + 4, parts[1..], j - 1); }
  }

  /** A topic, byte by byte: the length of its name, the name, how many partitions, and
      the partitions. */
  lemma EntryLayout(e: Entry, j: nat)
    ensures var b, t := EntryBytes(e), |e.topic|;
            && |b| == 6 + t + 4 * |e.parts|
            && U16(b, 0) == t % 0x1_0000 && b[2..2 + t] == e.topic
            && U32(b, 2 + t) == |e.parts| % 0x1_0000_0000
            && (j < |e.parts| ==> U32(b, 6 + t + 4 * j) == e.parts[j] % 0x1_0000_0000)
  {
    var b, t := EntryBytes(e), |e.topic|;
    EntryIsAt(e);
    At16(b, 0, t);
    At32(b, 2 + t, |e.parts|);
    if j < |e.parts| {
      IntIsAt(b, 6 + t, e.parts, j);
      At32(b, 6 + t + 4 * j, e.parts[j]);
    }
  }

  /** A message: version 0, how many topics, the topics one after another, and -1 for
      no user data, each at its offset. */
  lemma MessageIsAt(g: seq<Entry>)
    ensures var d, n := MessageBytes(g), |EntriesBytes(g)|;
            && |d| == 10 + n
            && At(d, 0, IntBytes(2, 0)) && At(d, 2, IntBytes(4, |g|))
            && At(d, 6, EntriesBytes(g)) && At(d, 6 + n, IntBytes(4, -1))
  {
    var d := MessageBytes(g);
    assert d[0..0 + |d|] == d;
    AtConcat(d, 0, IntBytes(2, 0), IntBytes(4, |g|) + (EntriesBytes(g) + IntBytes(4, -1)));
    AtConcat(d, 2, IntBytes(4, |g|), EntriesBytes(g) + IntBytes(4, -1));
    AtConcat(d, 6, EntriesBytes(g), IntBytes(4, -1));
  }

  // ---------------------------------------------------------------------
  // The Python decoder
  // ---------------------------------------------------------------------

  function PyEntry(d: Bytes, pos: int): PyResult<Entry> {
    match PyName(d, pos)
    case Raised => Raised
    case Got(t, n) =>
      (match PyReadInt(d, n, 4)
       case Raised => Raised
       case Got(count, m) =>
         (match PyInts(d, m, count, [])
          case Raised => Raised
          case Got(parts, k) => Got(Entry(t, parts), k)))
  }

  /** How entries are read from a buffer, by cursor. */
  function PyReader(d: Bytes): int -> PyResult<Entry> {
    (pos: int) => PyEntry(d, pos)
  }

  /** The topics of the array, appended to acc. */
  function PyEntries(entry: int -> PyResult<Entry>, pos: int, count: int, acc: seq<Entry>): PyResult<seq<Entry>>
    decreases count
  {
    if count <= 0 then Got(acc, pos)
    else
      match entry(pos)
      case Raised => Raised
      case Got(e, n) => PyEntries(entry, n, count - 1, acc + [e])
  }

  function PyMessage(d: Bytes): PyResult<seq<Entry>> {
    match PyReadInt(d, 0, 2)
    case Raised => Raised
    case Got(_, n) =>
      (match PyReadInt(d, n, 4)
       case Raised => Raised
       case Got(count, m) => PyEntries(PyReader(d), m, count, []))
  }

  /** decode_assignment: the pairs of every topic read, in order. */
  function PyDecode(data: Option<Bytes>): PyResult<seq<Pair>> {
    if data == None || data.value == [] then Got([], 0)
    else
      match PyMessage(data.value)
      case Raised => Raised
      case Got(g, n) => Got(Flatten(g), n)
  }

  // ---------------------------------------------------------------------
  // The Go decoder
  // ---------------------------------------------------------------------

  /** Errors return what was decoded so far; `make` and slices can panic. */
  datatype GoResult = Assigned(m: map<Topic, seq<int>>) | Crashed

  function GoEntry(d: Bytes, pos: nat): Result<Entry> {
    match ReadField(d, pos, PlainKind)
    case Underflow => Underflow
    case Panic => Panic
    case Ok(f, n) =>
      (match ReadInt(d, n, 4)
       case Underflow => Underflow
       case Panic => Panic
       case Ok(count, m) =>
         if count < 0 then Panic
         else
           match ReadInts(d, m, count, [])
           case Underflow => Underflow
           case Panic => Panic
           case Ok(parts, k) => if f.Plain? then Ok(Entry(f.text, parts), k) else Panic)
  }

  function GoReader(d: Bytes): nat -> Result<Entry> {
    (pos: nat) => GoEntry(d, pos)
  }

  function GoEntries(entry: nat -> Result<Entry>, pos: nat, count: int, acc: map<Topic, seq<int>>): GoResult
    decreases count
  {
    if count <= 0 then Assigned(acc)
    else
      match entry(pos)
      case Underflow => Assigned(acc)
      case Panic => Crashed
      case Ok(e, n) => GoEntries(entry, n, count - 1, acc[e.topic := e.parts])
  }

  /** decodeMemberAssignment */
  function GoDecode(data: Option<Bytes>): GoResult {
    if data == None || |data.value| < 2 then Assigned(map[])
    else
      match ReadInt(data.value, 0, 2)
      case Underflow => Assigned(map[])
      case Panic => Crashed
      case Ok(_, n) =>
        (match ReadInt(data.value, n, 4)
         case Underflow => Assigned(map[])
         case Panic => Crashed
         case Ok(count, m) => GoEntries(GoReader(data.value), m, count, map[]))
  }

  // ---------------------------------------------------------------------
  // Python to Python
  // ---------------------------------------------------------------------

  lemma {:induction false} SortEachBag(g: seq<Entry>)
    ensures multiset(Flatten(SortEach(g))) == multiset(Flatten(g))
  {
    if g != [] {
      SortedPairs(g[0].topic, g[0].parts);
      SortEachBag(g[1..]);
      assert SortEach(g)[1..] == SortEach(g[1..]);
    }
  }

  lemma {:induction false} SortEachLooksUp(g: seq<Entry>, t: Topic)
    ensures Lookup(SortEach(g), t) == Sorted(Lookup(g, t))
  {
    if g != [] {
      SortEachLooksUp(g[1..], t);
      assert SortEach(g)[1..] == SortEach(g[1..]);
    }
  }

  lemma SortEachFits(g: seq<Entry>)
    ensures EntriesFit(g) ==> EntriesFit(SortEach(g))
    ensures Proper(g) ==> Proper(SortEach(g))
  {
    forall i | 0 <= i < |g|
      ensures (EntryFits(g[i]) ==> EntryFits(SortEach(g)[i])) && |Sorted(g[i].parts)| == |g[i].parts| {
      if AllFit(g[i].parts) { SortedFits(g[i].parts); }
      SortedSorts(g[i].parts);
    }
  }

  lemma SortedFits(parts: seq<int>)
    requires AllFit(parts)
    ensures AllFit(Sorted(parts)) && |Sorted(parts)| == |parts|
  {
    SortedSorts(parts);
    forall i | 0 <= i < |Sorted(parts)| ensures Fits(Sorted(parts)[i], INT32) {
      assert Sorted(parts)[i] in multiset(Sorted(parts));
      assert Sorted(parts)[i] in parts;
    }
  }

  lemma Int32Reads(d: Bytes, pos: nat, i: int)
    requires Fits(i, INT32) && At(d, pos, IntBytes(4, i))
    ensures ReadInt(d, pos, 4) == Ok(i, pos + 4)
  {
    BigLength();
    IntReads(d, pos, 4, i);
  }

  lemma {:induction false} IntsRead(d: Bytes, pos: nat, parts: seq<int>, acc: seq<int>)
    requires AllFit(parts) && At(d, pos, IntsBytes(parts))
    ensures ReadInts(d, pos, |parts|, acc) == Ok(acc + parts, pos + 4 * |parts|)
    decreases |parts|
  {
    if parts == [] {
      assert acc + [] == acc;
    } else {
      AtConcat(d, pos, IntBytes(4, parts[0]), IntsBytes(parts[1..]));
      Int32Reads(d, pos, parts[0]);
      IntsRead(d, pos + 4, parts[1..], acc + [parts[0]]);
      assert acc + [parts[0]] + parts[1..] == acc + parts;
    }
  }

  lemma AllIntsRead(d: Bytes, pos: nat, parts: seq<int>)
    requires AllFit(parts) && At(d, pos, IntsBytes(parts))
    ensures ReadInts(d, pos, |parts|, []) == Ok(parts, pos + 4 * |parts|)
  {
    IntsRead(d, pos, parts, []);
    assert [] + parts == parts;
  }

  lemma PyAllIntsRead(d: Bytes, pos: nat, parts: seq<int>)
    requires AllFit(parts) && At(d, pos, IntsBytes(parts))
    ensures PyInts(d, pos, |parts|, []) == Got(parts, pos + 4 * |parts|)
  {
    AllIntsRead(d, pos, parts);
    IntsForward(d, pos, |parts|, [], parts, pos + 4 * |parts|);
  }

  lemma NameLengthReads(d: Bytes, pos: nat, t: Topic)
    requires |t| < 0x8000 && At(d, pos, NameBytes(t))
    ensures ReadInt(d, pos, 2) == Ok(|t|, pos + 2) && At(d, pos + 2, t)
  {
    BigLength();
    AtConcat(d, pos, IntBytes(2, |t|), t);
    IntReads(d, pos, 2, |t|);
  }

  lemma NameReads(d: Bytes, pos: nat, t: Topic)
    requires |t| < 0x8000 && At(d, pos, NameBytes(t)) && |d| <= MAX_INT
    ensures ReadField(d, pos, PlainKind) == Ok(Plain(t), pos + 2 + |t|)
  {
    NameLengthReads(d, pos, t);
  }

  lemma PyNameReads(d: Bytes, pos: nat, t: Topic)
    requires |t| < 0x8000 && At(d, pos, NameBytes(t))
    ensures PyName(d, pos) == Got(t, pos + 2 + |t|)
  {
    NameLengthReads(d, pos, t);
    ReadsForward(d, pos, 2);
    SliceForward(d, pos + 2, |t|);
  }

  /** The parts of an entry and where they lie. */
  lemma EntryAt(d: Bytes, pos: nat, e: Entry) returns (n: nat, k: nat)
    requires At(d, pos, EntryBytes(e))
    ensures n == pos + 2 + |e.topic| && k == n + 4 + 4 * |e.parts| == pos + |EntryBytes(e)|
    ensures At(d, pos, NameBytes(e.topic)) && At(d, n, IntBytes(4, |e.parts|)) && At(d, n + 4, IntsBytes(e.parts))
  {
    n := pos + 2 + |e.topic|;
    k := n + 4 + 4 * |e.parts|;
    AtConcat(d, pos, NameBytes(e.topic), IntBytes(4, |e.parts|) + IntsBytes(e.parts));
    AtConcat(d, n, IntBytes(4, |e.parts|), IntsBytes(e.parts));
  }

  lemma PyEntryIs(d: Bytes, pos: nat, t: Topic, n: nat, count: nat, parts: seq<int>, k: nat)
    requires PyName(d, pos) == Got(t, n) && PyReadInt(d, n, 4) == Got(count, n + 4)
    requires PyInts(d, n + 4, count, []) == Got(parts, k)
    ensures PyEntry(d, pos) == Got(Entry(t, parts), k)
  {
  }

  lemma PyInt32Reads(d: Bytes, pos: nat, i: int)
    requires Fits(i, INT32) && At(d, pos, IntBytes(4, i))
    ensures PyReadInt(d, pos, 4) == Got(i, pos + 4)
  {
    Int32Reads(d, pos, i);
    ReadsForward(d, pos, 4);
  }

  lemma GoEntryIs(d: Bytes, pos: nat, t: Topic, n: nat, count: nat, parts: seq<int>, k: nat)
    requires ReadField(d, pos, PlainKind) == Ok(Plain(t), n) && ReadInt(d, n, 4) == Ok(count, n + 4)
    requires ReadInts(d, n + 4, count, []) == Ok(parts, k)
    ensures GoEntry(d, pos) == Ok(Entry(t, parts), k)
  {
  }

  /** Wherever d holds b, the decoder finds the entry e. */
  ghost predicate PyFinds(entry: int -> PyResult<Entry>, d: Bytes, e: Entry, b: Bytes) {
    forall p: nat {:trigger At(d, p, b)} :: At(d, p, b) ==> entry(p) == Got(e, p + |b|)
  }

  ghost predicate GoFinds(entry: nat -> Result<Entry>, d: Bytes, e: Entry, b: Bytes) {
    forall p: nat {:trigger At(d, p, b)} :: At(d, p, b) ==> entry(p) == Ok(e, p + |b|)
  }

  /** The count and the partitions, by either decoder. */
  lemma PyTailReads(d: Bytes, n: nat, parts: seq<int>)
    requires |parts| < 0x8000_0000 && AllFit(parts)
    requires At(d, n, IntBytes(4, |parts|)) && At(d, n + 4, IntsBytes(parts))
    ensures PyReadInt(d, n, 4) == Got(|parts|, n + 4)
    ensures PyInts(d, n + 4, |parts|, []) == Got(parts, n + 4 + 4 * |parts|)
  {
    PyInt32Reads(d, n, |parts|);
    PyAllIntsRead(d, n + 4, parts);
  }

  lemma GoTailReads(d: Bytes, n: nat, parts: seq<int>)
    requires |parts| < 0x8000_0000 && AllFit(parts)
    requires At(d, n, IntBytes(4, |parts|)) && At(d, n + 4, IntsBytes(parts))
    ensures ReadInt(d, n, 4) == Ok(|parts|, n + 4)
    ensures ReadInts(d, n + 4, |parts|, []) == Ok(parts, n + 4 + 4 * |parts|)
  {
    Int32Reads(d, n, |parts|);
    AllIntsRead(d, n + 4, parts);
  }

  lemma PyEntryReads(d: Bytes, pos: nat, e: Entry)
    requires EntryFits(e) && At(d, pos, EntryBytes(e))
    ensures PyEntry(d, pos) == Got(e, pos + |EntryBytes(e)|)
  {
    var n, k := EntryAt(d, pos, e);
    PyNameReads(d, pos, e.topic);
    PyTailReads(d, n, e.parts);
    PyEntryIs(d, pos, e.topic, n, |e.parts|, e.parts, k);
  }

  lemma GoEntryReads(d: Bytes, pos: nat, e: Entry)
    requires EntryFits(e) && At(d, pos, EntryBytes(e)) && |d| <= MAX_INT
    ensures GoEntry(d, pos) == Ok(e, pos + |EntryBytes(e)|)
  {
    var n, k := EntryAt(d, pos, e);
    NameReads(d, pos, e.topic);
    GoTailReads(d, n, e.parts);
    GoEntryIs(d, pos, e.topic, n, |e.parts|, e.parts, k);
  }

  lemma PyEntryIsFound(d: Bytes, e: Entry)
    requires EntryFits(e)
    ensures PyFinds(PyReader(d), d, e, EntryBytes(e))
  {
    forall p: nat | At(d, p, EntryBytes(e)) ensures PyEntry(d, p) == Got(e, p + |EntryBytes(e)|) {
      PyEntryReads(d, p, e);
    }
  }

  lemma GoEntryIsFound(d: Bytes, e: Entry)
    requires EntryFits(e) && |d| <= MAX_INT
    ensures GoFinds(GoReader(d), d, e, EntryBytes(e))
  {
    forall p: nat | At(d, p, EntryBytes(e)) ensures GoEntry(d, p) == Ok(e, p + |EntryBytes(e)|) {
      GoEntryReads(d, p, e);
    }
  }

  function EntryPieces(g: seq<Entry>): (bs: seq<Bytes>)
    ensures |bs| == |g| && forall i :: 0 <= i < |g| ==> bs[i] == EntryBytes(g[i])
  {
    if g == [] then [] else [EntryBytes(g[0])] + EntryPieces(g[1..])
  }

  lemma {:induction false} FlatEntries(g: seq<Entry>)
    ensures Flat(EntryPieces(g)) == EntriesBytes(g)
  {
    if g != [] {
      FlatEntries(g[1..]);
      assert EntryPieces(g)[1..] == EntryPieces(g[1..]);
    }
  }

  lemma {:induction false} PyEntriesRead(entry: int -> PyResult<Entry>, d: Bytes, pos: nat, g: seq<Entry>,
                                         bs: seq<Bytes>, acc: seq<Entry>)
    requires |bs| == |g| && At(d, pos, Flat(bs)) && forall i :: 0 <= i < |g| ==> PyFinds(entry, d, g[i], bs[i])
    ensures PyEntries(entry, pos, |g|, acc) == Got(acc + g, pos + |Flat(bs)|)
    decreases |g|
  {
    if g == [] {
      assert acc + g == acc;
    } else {
      AtSplit(d, pos, Flat(bs), bs[0], Flat(bs[1..]));
      assert PyFinds(entry, d, g[0], bs[0]);
      PyEntriesRead(entry, d, pos + |bs[0]|, g[1..], bs[1..], acc + [g[0]]);
      assert acc + [g[0]] + g[1..] == acc + g;
    }
  }

  lemma PyEntriesFound(d: Bytes, pos: nat, g: seq<Entry>)
    requires EntriesFit(g) && At(d, pos, EntriesBytes(g))
    ensures PyEntries(PyReader(d), pos, |g|, []) == Got(g, pos + |EntriesBytes(g)|)
  {
    FlatEntries(g);
    forall i | 0 <= i < |g| ensures PyFinds(PyReader(d), d, g[i], EntryPieces(g)[i]) {
      PyEntryIsFound(d, g[i]);
    }
    PyEntriesRead(PyReader(d), d, pos, g, EntryPieces(g), []);
    assert [] + g == g;
  }

  /** The header of a message, read by either decoder. */
  lemma HeaderReads(g: seq<Entry>)
    requires |g| < 0x8000_0000
    ensures var d := MessageBytes(g);
            && |d| == 10 + |EntriesBytes(g)|
            && ReadInt(d, 0, 2) == Ok(0, 2) && ReadInt(d, 2, 4) == Ok(|g|, 6)
            && At(d, 6, EntriesBytes(g))
  {
    var d := MessageBytes(g);
    MessageIsAt(g);
    BigLength();
    IntReads(d, 0, 2, 0);
    Int32Reads(d, 2, |g|);
  }

  lemma PyMessageIs(d: Bytes, version: int, count: int, r: PyResult<seq<Entry>>)
    requires PyReadInt(d, 0, 2) == Got(version, 2) && PyReadInt(d, 2, 4) == Got(count, 6)
    requires PyEntries(PyReader(d), 6, count, []) == r
    ensures PyMessage(d) == r
  {
  }

  lemma PyReadsMessage(d: Bytes, g: seq<Entry>)
    requires |g| < 0x8000_0000 && EntriesFit(g) && d == MessageBytes(g)
    ensures PyMessage(d) == Got(g, |d| - 4)
  {
    HeaderReads(g);
    PyEntriesFound(d, 6, g);
    ReadsForward(d, 0, 2);
    ReadsForward(d, 2, 4);
    PyMessageIs(d, 0, |g|, Got(g, |d| - 4));
  }

  /** Python reads back what Python wrote: the same pairs, grouped by topic and
      sorted, stopping at the user data. */
  lemma PythonRoundTrip(ps: seq<Pair>)
    requires Encode(ps).Some?
    ensures PyDecode(Encode(ps)) == Got(Flatten(SortEach(Group(ps))), |Encode(ps).value| - 4)
    ensures multiset(PyDecode(Encode(ps)).value) == multiset(ps)
  {
    var g := SortEach(Group(ps));
    SortEachFits(Group(ps));
    PyReadsMessage(Encoded(ps), g);
    SortEachBag(Group(ps));
    GroupIsExact(ps);
  }

  // ---------------------------------------------------------------------
  // Python to Go
  // ---------------------------------------------------------------------

  function Filled(acc: map<Topic, seq<int>>, g: seq<Entry>): map<Topic, seq<int>>
    decreases |g|
  {
    if g == [] then acc else Filled(acc[g[0].topic := g[0].parts], g[1..])
  }

  lemma {:induction false} GoEntriesRead(entry: nat -> Result<Entry>, d: Bytes, pos: nat, g: seq<Entry>,
                                         bs: seq<Bytes>, acc: map<Topic, seq<int>>)
    requires |bs| == |g| && At(d, pos, Flat(bs)) && forall i :: 0 <= i < |g| ==> GoFinds(entry, d, g[i], bs[i])
    ensures GoEntries(entry, pos, |g|, acc) == Assigned(Filled(acc, g))
    decreases |g|
  {
    if g != [] {
      AtSplit(d, pos, Flat(bs), bs[0], Flat(bs[1..]));
      assert GoFinds(entry, d, g[0], bs[0]);
      GoEntriesRead(entry, d, pos + |bs[0]|, g[1..], bs[1..], acc[g[0].topic := g[0].parts]);
    }
  }

  lemma GoEntriesFound(d: Bytes, pos: nat, g: seq<Entry>)
    requires |d| <= MAX_INT && EntriesFit(g) && At(d, pos, EntriesBytes(g))
    ensures GoEntries(GoReader(d), pos, |g|, map[]) == Assigned(Filled(map[], g))
  {
    FlatEntries(g);
    forall i | 0 <= i < |g| ensures GoFinds(GoReader(d), d, g[i], EntryPieces(g)[i]) {
      GoEntryIsFound(d, g[i]);
    }
    GoEntriesRead(GoReader(d), d, pos, g, EntryPieces(g), map[]);
  }

  /** No topic overwrites another. */
  lemma {:induction false} FilledHas(acc: map<Topic, seq<int>>, g: seq<Entry>, t: Topic)
    requires Proper(g) && (t in acc ==> Lookup(g, t) == [])
    ensures t in Filled(acc, g) <==> t in acc || Lookup(g, t) != []
    ensures Lookup(g, t) != [] ==> Filled(acc, g)[t] == Lookup(g, t)
    ensures t in acc ==> Filled(acc, g)[t] == acc[t]
    decreases |g|
  {
    if g != [] {
      if g[0].topic == t { LookupAbsent(g[1..], t); }
      FilledHas(acc[g[0].topic := g[0].parts], g[1..], t);
    }
  }

  lemma GoMessageIs(d: Bytes, version: int, count: int, r: GoResult)
    requires ReadInt(d, 0, 2) == Ok(version, 2) && ReadInt(d, 2, 4) == Ok(count, 6)
    requires GoEntries(GoReader(d), 6, count, map[]) == r
    ensures GoDecode(Some(d)) == r
  {
  }

  lemma GoReadsMessage(d: Bytes, g: seq<Entry>)
    requires |g| < 0x8000_0000 && EntriesFit(g) && d == MessageBytes(g) && |d| <= MAX_INT
    ensures GoDecode(Some(d)) == Assigned(Filled(map[], g))
  {
    HeaderReads(g);
    GoEntriesFound(d, 6, g);
    GoMessageIs(d, 0, |g|, Assigned(Filled(map[], g)));
  }

  /** Go reads back what Python wrote: exactly the topics with partitions, each
      with its partitions sorted. */
  lemma GoRoundTrip(ps: seq<Pair>, t: Topic)
    requires Encode(ps).Some? && |Encode(ps).value| <= MAX_INT
    ensures var r := GoDecode(Encode(ps));
            && r.Assigned?
            && (t in r.m <==> PartsOf(ps, t) != [])
            && (t in r.m ==> r.m[t] == Sorted(PartsOf(ps, t)))
  {
    var g := SortEach(Group(ps));
    SortEachFits(Group(ps));
    GoReadsMessage(MessageBytes(g), g);
    GroupIsExact(ps);
    SortEachLooksUp(Group(ps), t);
    SortedSorts(PartsOf(ps, t));
    FilledHas(map[], g, t);
  }

  /** The items of a map, each once, in some order: what ranging over a Go map
      gives. */
  ghost predicate Enumerates(g: seq<Entry>, m: map<Topic, seq<int>>) {
    && (forall i, j :: 0 <= i < j < |g| ==> g[i].topic != g[j].topic)
    && (forall i :: 0 <= i < |g| ==> g[i].topic in m && m[g[i].topic] == g[i].parts)
    && (forall t :: t in m ==> exists i :: 0 <= i < |g| && g[i].topic == t)
  }

  lemma {:induction false} FilledInOrder(acc: map<Topic, seq<int>>, g: seq<Entry>)
    requires forall i, j :: 0 <= i < j < |g| ==> g[i].topic != g[j].topic
    ensures forall i :: 0 <= i < |g| ==> g[i].topic in Filled(acc, g) && Filled(acc, g)[g[i].topic] == g[i].parts
    ensures forall t :: t in acc && (forall i :: 0 <= i < |g| ==> g[i].topic != t) ==>
              t in Filled(acc, g) && Filled(acc, g)[t] == acc[t]
    ensures forall t :: t in Filled(acc, g) ==> t in acc || exists i :: 0 <= i < |g| && g[i].topic == t
    decreases |g|
  {
    if g != [] {
      FilledInOrder(acc[g[0].topic := g[0].parts], g[1..]);
      assert g == [g[0]] + g[1..];
    }
  }

  lemma FilledIsMap(m: map<Topic, seq<int>>, g: seq<Entry>)
    requires Enumerates(g, m)
    ensures Filled(map[], g) == m
  {
    FilledInOrder(map[], g);
    assert Filled(map[], g).Keys == m.Keys;
  }

  /** Go reads back what Go wrote, whatever order it visited the map in. */
  lemma GoToGo(m: map<Topic, seq<int>>, g: seq<Entry>)
    requires Enumerates(g, m)
    requires |g| < 0x8000_0000 && EntriesFit(g) && |MessageBytes(g)| <= MAX_INT
    ensures GoDecode(Some(MessageBytes(g))) == Assigned(m)
  {
    GoReadsMessage(MessageBytes(g), g);
    FilledIsMap(m, g);
  }

  lemma {:induction false} PartsBag(ps: seq<Pair>, x: Pair)
    ensures multiset(PartsOf(ps, x.topic))[x.partition] == multiset(ps)[x]
  {
    if ps != [] {
      PartsBag(ps[1..], x);
      BagOfFirst(ps);
      if ps[0].topic == x.topic { BagOfFirst(PartsOf(ps, x.topic)); }
    }
  }

  // ---------------------------------------------------------------------
  // What a member holds after decoding
  // ---------------------------------------------------------------------

  datatype Language = Python | Go

  predicate Decodes(lang: Language, data: Bytes) {
    match lang
    case Python => PyDecode(Some(data)).Got?
    case Go => GoDecode(Some(data)).Assigned?
  }

  /** How often a decoded assignment holds a pair. */
  function Held(lang: Language, data: Bytes, x: Pair): nat
    requires Decodes(lang, data)
  {
    match lang
    case Python => multiset(PyDecode(Some(data)).value)[x]
    case Go =>
      var m := GoDecode(Some(data)).m;
      if x.topic in m then multiset(m[x.topic])[x.partition] else 0
  }

  /** Either decoder recovers the bag of pairs that was encoded. */
  lemma BothDecodersRecover(lang: Language, ps: seq<Pair>, x: Pair)
    requires Encode(ps).Some? && (lang == Go ==> |Encode(ps).value| <= MAX_INT)
    ensures Decodes(lang, Encode(ps).value) && Held(lang, Encode(ps).value, x) == multiset(ps)[x]
  {
    match lang {
      case Python => PythonRoundTrip(ps);
      case Go =>
        GoRoundTrip(ps, x.topic);
        PartsBag(ps, x);
        SortedSorts(PartsOf(ps, x.topic));
    }
  }

  // ---------------------------------------------------------------------
  // Sizes
  // ---------------------------------------------------------------------

  lemma {:induction false} EntriesSize(g: seq<Entry>)
    requires Proper(g) && EntriesFit(g)
    ensures |EntriesBytes(g)| <= 0x8010 * |Flatten(g)| && |g| <= |Flatten(g)|
  {
    if g != [] {
      EntriesSize(g[1..]);
    }
  }

  lemma SameSize<T>(a: seq<T>, b: seq<T>)
    requires multiset(a) == multiset(b)
    ensures |a| == |b|
  {
    assert |a| == |multiset(a)| && |b| == |multiset(b)|;
  }

  lemma EncodingSize(ps: seq<Pair>)
    requires Encodable(ps)
    ensures |Encoded(ps)| <= 10 + 0x8010 * |ps|
  {
    SortEachFits(Group(ps));
    SortEachBag(Group(ps));
    HeaderReads(SortEach(Group(ps)));
    GroupIsExact(ps);
    EntriesSize(SortEach(Group(ps)));
    SameSize(Flatten(SortEach(Group(ps))), ps);
  }
}
