/** What the two decoders of an assignment make of a message that was cut short:
    Go keeps the topics that are there whole, Python raises. */
module TruncatedAssignments {
  import opened Sequences
  import opened Wrappers
  import opened WireBytes
  import opened GoCodec
  import opened Assignors
  import opened PythonWire
  import opened AssignmentWire

  // ---------------------------------------------------------------------
  // One topic
  // ---------------------------------------------------------------------

  lemma {:induction false} IntsRunOut(d: Bytes, pos: nat, count: nat, acc: seq<int>)
    requires count > 0 && pos + 4 * count > |d|
    ensures ReadInts(d, pos, count, acc) == Underflow && PyInts(d, pos, count, acc) == Raised
    decreases count
  {
    ReadsForward(d, pos, 4);
    if pos + 4 <= |d| {
      var p := ReadInt(d, pos, 4).value;
      IntsRunOut(d, pos + 4, count - 1, acc + [p]);
    }
  }

  /** A topic whose bytes go on past the end of d. */
  ghost predicate CutAt(d: Bytes, more: Bytes, pos: nat, b: Bytes) {
    At(d + more, pos, b) && pos <= |d| < pos + |b|
  }

  /** What Go reads of it before it runs out is as it was written. */
  lemma GoEntryCut(d: Bytes, more: Bytes, pos: nat, e: Entry)
    requires EntryFits(e) && |d + more| <= MAX_INT && CutAt(d, more, pos, EntryBytes(e))
    ensures GoEntry(d, pos) == Underflow
  {
    var n, k := EntryAt(d + more, pos, e);
    NameReads(d + more, pos, e.topic);
    if !ReadField(d, pos, PlainKind).Underflow? {
      FieldExtends(d, more, pos, PlainKind);
      TailCut(d, more, n, |e.parts|);
      GoEntryStops(d, pos, e.topic, n, |e.parts|);
    }
  }

  lemma TailCut(d: Bytes, more: Bytes, n: nat, count: nat)
    requires Fits(count, INT32) && At(d + more, n, IntBytes(4, count)) && |d| < n + 4 + 4 * count
    ensures ReadInt(d, n, 4) == Underflow
            || (ReadInt(d, n, 4) == Ok(count, n + 4) && ReadInts(d, n + 4, count, []) == Underflow)
  {
    Int32Reads(d + more, n, count);
    if !ReadInt(d, n, 4).Underflow? {
      IntExtends(d, more, n, 4);
      IntsRunOut(d, n + 4, count, []);
    }
  }

  lemma GoEntryStops(d: Bytes, pos: nat, t: Topic, n: nat, count: nat)
    requires ReadField(d, pos, PlainKind) == Ok(Plain(t), n)
    requires ReadInt(d, n, 4) == Underflow
             || (ReadInt(d, n, 4) == Ok(count, n + 4) && ReadInts(d, n + 4, count, []) == Underflow)
    ensures GoEntry(d, pos) == Underflow
  {
  }

  lemma PyEntryCut(d: Bytes, more: Bytes, pos: nat, e: Entry)
    requires EntryFits(e) && CutAt(d, more, pos, EntryBytes(e))
    ensures PyEntry(d, pos) == Raised
  {
    var n, k := EntryAt(d + more, pos, e);
    NameLengthReads(d + more, pos, e.topic);
    Int32Reads(d + more, n, |e.parts|);
    ReadsForward(d, pos, 2);
    if !ReadInt(d, pos, 2).Underflow? {
      IntExtends(d, more, pos, 2);
      if n <= |d| {
        ReadsForward(d, n, 4);
        if !ReadInt(d, n, 4).Underflow? {
          IntExtends(d, more, n, 4);
          IntsRunOut(d, n + 4, |e.parts|, []);
        }
      }
    }
  }

  // ---------------------------------------------------------------------
  // The topics
  // ---------------------------------------------------------------------

  /** The topics whose bytes lie within the first `room`. */
  function Complete(g: seq<Entry>, room: int): seq<Entry>
    decreases |g|
  {
    if g == [] || |EntryBytes(g[0])| > room then []
    else [g[0]] + Complete(g[1..], room - |EntryBytes(g[0])|)
  }

  /** Complete is the longest prefix that fits. */
  lemma {:induction false} CompleteIs(g: seq<Entry>, room: nat)
    ensures Complete(g, room) <= g && |EntriesBytes(Complete(g, room))| <= room
    ensures var n := |Complete(g, room)|; n < |g| ==> room < |EntriesBytes(g[..n + 1])|
    decreases |g|
  {
    if g != [] && |EntryBytes(g[0])| <= room {
      var rest := Complete(g[1..], room - |EntryBytes(g[0])|);
      CompleteIs(g[1..], room - |EntryBytes(g[0])|);
      assert ([g[0]] + rest)[1..] == rest;
      if |rest| + 1 < |g| {
        assert g[..|rest| + 2][1..] == g[1..][..|rest| + 1];
      }
    } else if g != [] {
      assert g[..1] == [g[0]] && [g[0]][1..] == [];
    }
  }

  /** The same by the bytes of each topic. */
  function Within(g: seq<Entry>, bs: seq<Bytes>, room: int): seq<Entry>
    requires |bs| == |g|
    decreases |g|
  {
    if g == [] || |bs[0]| > room then [] else [g[0]] + Within(g[1..], bs[1..], room - |bs[0]|)
  }

  lemma {:induction false} WithinIs(g: seq<Entry>, room: int)
    ensures Within(g, EntryPieces(g), room) == Complete(g, room)
    decreases |g|
  {
    if g != [] {
      assert EntryPieces(g)[1..] == EntryPieces(g[1..]);
      WithinIs(g[1..], room - |EntryBytes(g[0])|);
    }
  }

  /** Wherever b is cut, the decoder runs out. */
  ghost predicate GoCut(entry: nat -> Result<Entry>, d: Bytes, more: Bytes, b: Bytes) {
    forall p: nat {:trigger At(d + more, p, b)} :: CutAt(d, more, p, b) ==> entry(p) == Underflow
  }

  ghost predicate PyCut(entry: int -> PyResult<Entry>, d: Bytes, more: Bytes, b: Bytes) {
    forall p: nat {:trigger At(d + more, p, b)} :: CutAt(d, more, p, b) ==> entry(p) == Raised
  }

  lemma AtInFront(d: Bytes, more: Bytes, pos: nat, b: Bytes)
    requires At(d + more, pos, b) && pos + |b| <= |d|
    ensures At(d, pos, b)
  {
    assert (d + more)[pos..pos + |b|] == d[pos..pos + |b|];
  }

  lemma {:induction false} GoEntriesCut(entry: nat -> Result<Entry>, d: Bytes, more: Bytes, pos: nat, g: seq<Entry>,
                                        bs: seq<Bytes>, acc: map<Topic, seq<int>>)
    requires |bs| == |g| && At(d + more, pos, Flat(bs)) && pos <= |d|
    requires forall i :: 0 <= i < |g| ==> GoFinds(entry, d, g[i], bs[i]) && GoCut(entry, d, more, bs[i])
    ensures GoEntries(entry, pos, |g|, acc) == Assigned(Filled(acc, Within(g, bs, |d| - pos)))
    decreases |g|
  {
    if g != [] {
      AtSplit(d + more, pos, Flat(bs), bs[0], Flat(bs[1..]));
      assert GoFinds(entry, d, g[0], bs[0]) && GoCut(entry, d, more, bs[0]);
      if |bs[0]| <= |d| - pos {
        AtInFront(d, more, pos, bs[0]);
        var acc' := acc[g[0].topic := g[0].parts];
        GoEntriesCut(entry, d, more, pos + |bs[0]|, g[1..], bs[1..], acc');
        FilledFirst(acc, g[0], Within(g[1..], bs[1..], |d| - pos - |bs[0]|));
      }
    }
  }

  lemma FilledFirst(acc: map<Topic, seq<int>>, e: Entry, rest: seq<Entry>)
    ensures Filled(acc, [e] + rest) == Filled(acc[e.topic := e.parts], rest)
  {
    assert ([e] + rest)[1..] == rest;
  }

  lemma {:induction false} PyEntriesCut(entry: int -> PyResult<Entry>, d: Bytes, more: Bytes, pos: nat, g: seq<Entry>,
                                        bs: seq<Bytes>, acc: seq<Entry>)
    requires |bs| == |g| && At(d + more, pos, Flat(bs)) && pos <= |d| < pos + |Flat(bs)|
    requires forall i :: 0 <= i < |g| ==> PyFinds(entry, d, g[i], bs[i]) && PyCut(entry, d, more, bs[i])
    ensures PyEntries(entry, pos, |g|, acc) == Raised
    decreases |g|
  {
    AtSplit(d + more, pos, Flat(bs), bs[0], Flat(bs[1..]));
    assert PyFinds(entry, d, g[0], bs[0]) && PyCut(entry, d, more, bs[0]);
    if |bs[0]| <= |d| - pos {
      AtInFront(d, more, pos, bs[0]);
      PyEntriesCut(entry, d, more, pos + |bs[0]|, g[1..], bs[1..], acc + [g[0]]);
    }
  }

  lemma GoEntryIsCut(d: Bytes, more: Bytes, e: Entry)
    requires EntryFits(e) && |d + more| <= MAX_INT
    ensures GoCut(GoReader(d), d, more, EntryBytes(e))
  {
    forall p: nat | CutAt(d, more, p, EntryBytes(e)) ensures GoEntry(d, p) == Underflow {
      GoEntryCut(d, more, p, e);
    }
  }

  lemma PyEntryIsCut(d: Bytes, more: Bytes, e: Entry)
    requires EntryFits(e)
    ensures PyCut(PyReader(d), d, more, EntryBytes(e))
  {
    forall p: nat | CutAt(d, more, p, EntryBytes(e)) ensures PyEntry(d, p) == Raised {
      PyEntryCut(d, more, p, e);
    }
  }

  // ---------------------------------------------------------------------
  // Messages
  // ---------------------------------------------------------------------

  /** d is the first n bytes of a message. */
  ghost predicate Starts(d: Bytes, more: Bytes, g: seq<Entry>) {
    |g| < 0x8000_0000 && EntriesFit(g) && d + more == MessageBytes(g)
  }

  /** The header, if it is there. */
  lemma HeaderStarts(d: Bytes, more: Bytes, g: seq<Entry>)
    requires Starts(d, more, g)
    ensures |d| >= 2 ==> ReadInt(d, 0, 2) == Ok(0, 2)
    ensures if |d| >= 6 then ReadInt(d, 2, 4) == Ok(|g|, 6) else ReadInt(d, 2, 4) == Underflow
    ensures At(d + more, 6, EntriesBytes(g)) && |d + more| == 10 + |EntriesBytes(g)|
  {
    HeaderReads(g);
    if |d| >= 2 { IntExtends(d, more, 0, 2); }
    if |d| >= 6 { IntExtends(d, more, 2, 4); }
  }

  lemma GoTopicsCut(d: Bytes, more: Bytes, g: seq<Entry>)
    requires Starts(d, more, g) && |d + more| <= MAX_INT && |d| >= 6 && At(d + more, 6, EntriesBytes(g))
    ensures GoEntries(GoReader(d), 6, |g|, map[]) == Assigned(Filled(map[], Complete(g, |d| - 6)))
  {
    FlatEntries(g);
    forall i | 0 <= i < |g|
      ensures GoFinds(GoReader(d), d, g[i], EntryPieces(g)[i]) && GoCut(GoReader(d), d, more, EntryPieces(g)[i])
    {
      GoEntryIsFound(d, g[i]);
      GoEntryIsCut(d, more, g[i]);
    }
    GoEntriesCut(GoReader(d), d, more, 6, g, EntryPieces(g), map[]);
    WithinIs(g, |d| - 6);
  }

  /** Of a message cut short anywhere, Go gives the topics that are there whole, and
      nothing while the count is not. */
  lemma GoKeepsWholeTopics(d: Bytes, more: Bytes, g: seq<Entry>)
    requires Starts(d, more, g) && |d + more| <= MAX_INT
    ensures GoDecode(Some(d)) == Assigned(Filled(map[], Complete(g, |d| - 6)))
  {
    HeaderStarts(d, more, g);
    if |d| >= 6 {
      GoTopicsCut(d, more, g);
      GoMessageIs(d, 0, |g|, Assigned(Filled(map[], Complete(g, |d| - 6))));
    } else {
      assert Complete(g, |d| - 6) == [];
    }
  }

  lemma PyTopicsCut(d: Bytes, more: Bytes, g: seq<Entry>)
    requires Starts(d, more, g) && At(d + more, 6, EntriesBytes(g)) && 6 <= |d| < 6 + |EntriesBytes(g)|
    ensures PyEntries(PyReader(d), 6, |g|, []) == Raised
  {
    FlatEntries(g);
    forall i | 0 <= i < |g|
      ensures PyFinds(PyReader(d), d, g[i], EntryPieces(g)[i]) && PyCut(PyReader(d), d, more, EntryPieces(g)[i])
    {
      PyEntryIsFound(d, g[i]);
      PyEntryIsCut(d, more, g[i]);
    }
    PyEntriesCut(PyReader(d), d, more, 6, g, EntryPieces(g), []);
  }

  /** Of a message cut short, Python gives nothing at all if it is empty, everything if
      only the user data is missing, and otherwise raises. */
  lemma PythonRaisesIff(d: Bytes, more: Bytes, g: seq<Entry>)
    requires Starts(d, more, g)
    ensures d == [] ==> PyDecode(Some(d)) == Got([], 0)
    ensures 0 < |d| < 6 + |EntriesBytes(g)| ==> PyDecode(Some(d)) == Raised
    ensures |d| >= 6 + |EntriesBytes(g)| ==> PyDecode(Some(d)) == Got(Flatten(g), 6 + |EntriesBytes(g)|)
  {
    HeaderStarts(d, more, g);
    ReadsForward(d, 0, 2);
    ReadsForward(d, 2, 4);
    if |d| >= 6 + |EntriesBytes(g)| {
      AtInFront(d, more, 6, EntriesBytes(g));
      PyEntriesFound(d, 6, g);
      PyMessageIs(d, 0, |g|, Got(g, 6 + |EntriesBytes(g)|));
    } else if |d| >= 6 {
      PyTopicsCut(d, more, g);
      PyMessageIs(d, 0, |g|, Raised);
    }
  }
}
