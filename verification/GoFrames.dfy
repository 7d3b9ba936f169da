/** Request and response frames of the Go client
    (clients/go/torrentmq/protocol.go). */
module GoFrames {
  import opened Wrappers
  import opened Bits
  import opened WireBytes
  import opened GoCodec

  datatype Request = Request(apiKey: int, apiVersion: int, correlationId: int, clientId: Bytes, body: Bytes) {
    function Size(): nat { 10 + |clientId| + |body| }

    /** The values fit the Go types, and the lengths fit their prefixes. */
    predicate WellFormed() {
      && Fits(apiKey, 0x1_0000) && Fits(apiVersion, 0x1_0000) && Fits(correlationId, 0x1_0000_0000)
      && |clientId| < 0x1_0000 && Size() < 0x1_0000_0000
    }
  }

  function Header(r: Request): Bytes {
    IntBytes(4, r.Size()) + IntBytes(2, r.apiKey) + IntBytes(2, r.apiVersion)
    + IntBytes(4, r.correlationId) + IntBytes(2, |r.clientId|)
  }

  function RequestFrame(r: Request): Bytes {
    Header(r) + r.clientId + r.body
  }

  method CopyInto(buf: array<byte>, at: nat, b: Bytes)
    requires at + |b| <= buf.Length
    modifies buf
    ensures buf[..at] == old(buf[..at]) && buf[at..at + |b|] == b && buf[at + |b|..] == old(buf[at + |b|..])
  {
    for i := 0 to |b|
      invariant buf[..at] == old(buf[..at]) && buf[at..at + i] == b[..i] && buf[at + i..] == old(buf[at + i..])
    {
      buf[at + i] := b[i];
      assert buf[at..at + i + 1] == buf[at..at + i] + [b[i]];
    }
  }

  /** The next field of a frame that is filled from the front. */
  method PutNext(buf: array<byte>, at: nat, b: Bytes) returns (next: nat)
    requires at + |b| <= buf.Length
    modifies buf
    ensures next == at + |b| && buf[..next] == old(buf[..at]) + b
  {
    CopyInto(buf, at, b);
    next := at + |b|;
    assert buf[..next] == buf[..at] + buf[at..next];
  }

  /** buildRequest: one buffer of the frame's size, filled field by field. */
  method BuildRequest(r: Request) returns (buf: array<byte>)
    ensures fresh(buf) && buf[..] == RequestFrame(r)
  {
    buf := new byte[4 + r.Size()];
    var pos := PutNext(buf, 0, IntBytes(4, r.Size()));
    assert buf[..pos] == IntBytes(4, r.Size());
    pos := PutNext(buf, pos, IntBytes(2, r.apiKey));
    pos := PutNext(buf, pos, IntBytes(2, r.apiVersion));
    pos := PutNext(buf, pos, IntBytes(4, r.correlationId));
    pos := PutNext(buf, pos, IntBytes(2, |r.clientId|));
    pos := PutNext(buf, pos, r.clientId);
    pos := PutNext(buf, pos, r.body);
    assert buf[..] == buf[..pos];
  }

  /** What a receiver that trusts the length prefixes makes of a stream of requests. */
  function ParseRequest(d: Bytes): Option<(Request, Bytes)> {
    if |d| < 4 then None
    else
      var size := FromBigEndian(d[..4]);
      if size < 10 || 4 + size > |d| then None
      else
        var clientLen := FromBigEndian(d[12..14]);
        if 10 + clientLen > size then None
        else
          FromBigEndianBelow(d[4..6]);
          FromBigEndianBelow(d[6..8]);
          FromBigEndianBelow(d[8..12]);
          Some((Request(ToSigned(FromBigEndian(d[4..6]), Range(2)), ToSigned(FromBigEndian(d[6..8]), Range(2)),
                        ToSigned(FromBigEndian(d[8..12]), Range(4)),
                        d[14..14 + clientLen], d[14 + clientLen..4 + size]),
                d[4 + size..]))
  }

  /** An integer written, read back. */
  lemma IntOf(b: Bytes, size: nat, i: int)
    requires size > 0 && b == IntBytes(size, i)
    ensures FromBigEndian(b) == ToUnsigned(i, RangePos(size)) < Range(size)
    ensures Fits(i, Range(size)) ==> ToSigned(FromBigEndian(b), Range(size)) == i
    ensures 0 <= i < Range(size) ==> FromBigEndian(b) == i
  {
    var m := RangePos(size);
    BigEndianReads(ToUnsigned(i, m), size);
    RangeIsPositive(size);
    if Fits(i, m) { SignedRoundTrip(i, m); }
    if 0 <= i < m { DivModUnique(i, m, 0, i); }
  }

  lemma IntAt(d: Bytes, pos: nat, size: nat, i: int)
    requires size > 0 && At(d, pos, IntBytes(size, i))
    ensures Fits(i, Range(size)) ==>
              FromBigEndian(d[pos..pos + size]) < Range(size)
              && ToSigned(FromBigEndian(d[pos..pos + size]), Range(size)) == i
    ensures 0 <= i < Range(size) ==> FromBigEndian(d[pos..pos + size]) == i
  {
    IntOf(d[pos..pos + size], size, i);
  }

  /** Seven pieces in a row, each at its offset. */
  lemma SevenPieces(d: Bytes, a: Bytes, b: Bytes, c: Bytes, e: Bytes, f: Bytes, g: Bytes, h: Bytes)
    requires At(d, 0, a + b + c + e + f + g + h)
    ensures At(d, 0, a) && At(d, |a|, b) && At(d, |a + b|, c) && At(d, |a + b + c|, e)
    ensures At(d, |a + b + c + e|, f) && At(d, |a + b + c + e + f|, g) && At(d, |a + b + c + e + f + g|, h)
  {
    AtConcat(d, 0, a + b + c + e + f + g, h);
    AtConcat(d, 0, a + b + c + e + f, g);
    AtConcat(d, 0, a + b + c + e, f);
    AtConcat(d, 0, a + b + c, e);
    AtConcat(d, 0, a + b, c);
    AtConcat(d, 0, a, b);
  }

  lemma InFront(frame: Bytes, rest: Bytes)
    ensures At(frame + rest, 0, frame) && (frame + rest)[|frame|..] == rest
  {
  }

  lemma FrameParts(r: Request, rest: Bytes)
    ensures var d, n := RequestFrame(r) + rest, |r.clientId|;
            && |d| == 4 + r.Size() + |rest|
            && At(d, 0, IntBytes(4, r.Size())) && At(d, 4, IntBytes(2, r.apiKey)) && At(d, 6, IntBytes(2, r.apiVersion))
            && At(d, 8, IntBytes(4, r.correlationId)) && At(d, 12, IntBytes(2, n))
            && At(d, 14, r.clientId) && At(d, 14 + n, r.body) && d[4 + r.Size()..] == rest
  {
    InFront(RequestFrame(r), rest);
    SevenPieces(RequestFrame(r) + rest, IntBytes(4, r.Size()), IntBytes(2, r.apiKey), IntBytes(2, r.apiVersion),
                IntBytes(4, r.correlationId), IntBytes(2, |r.clientId|), r.clientId, r.body);
  }

  /** A request frame, byte by byte: the size of what follows the first four bytes, the
      API key, the API version, the correlation id, the length of the client id, the
      client id and the body, integers big-endian and in two's complement. */
  lemma RequestLayout(r: Request)
    ensures var f, n := RequestFrame(r), |r.clientId|;
            && |f| == 14 + n + |r.body|
            && U32(f, 0) == (10 + n + |r.body|) % 0x1_0000_0000
            && U16(f, 4) == r.apiKey % 0x1_0000 && U16(f, 6) == r.apiVersion % 0x1_0000
            && U32(f, 8) == r.correlationId % 0x1_0000_0000 && U16(f, 12) == n % 0x1_0000
            && f[14..14 + n] == r.clientId && f[14 + n..] == r.body
  {
    var f := RequestFrame(r);
    FrameParts(r, []);
    assert f + [] == f;
    At32(f, 0, r.Size());
    At16(f, 4, r.apiKey);
    At16(f, 6, r.apiVersion);
    At32(f, 8, r.correlationId);
    At16(f, 12, |r.clientId|);
  }

  /** One frame is parsed exactly, whatever follows it. */
  lemma RequestParses(r: Request, rest: Bytes)
    requires r.WellFormed()
    ensures ParseRequest(RequestFrame(r) + rest) == Some((r, rest))
  {
    FrameParts(r, rest);
    PartsParse(RequestFrame(r) + rest, r, rest);
  }

  lemma PartsParse(d: Bytes, r: Request, rest: Bytes)
    requires r.WellFormed() && |d| == 4 + r.Size() + |rest| && d[4 + r.Size()..] == rest
    requires At(d, 0, IntBytes(4, r.Size())) && At(d, 4, IntBytes(2, r.apiKey)) && At(d, 6, IntBytes(2, r.apiVersion))
    requires At(d, 8, IntBytes(4, r.correlationId)) && At(d, 12, IntBytes(2, |r.clientId|))
    requires At(d, 14, r.clientId) && At(d, 14 + |r.clientId|, r.body)
    ensures ParseRequest(d) == Some((r, rest))
  {
    BigLength();
    IntAt(d, 0, 4, r.Size());
    assert d[..4] == d[0..4];
    IntAt(d, 4, 2, r.apiKey);
    IntAt(d, 6, 2, r.apiVersion);
    IntAt(d, 8, 4, r.correlationId);
    IntAt(d, 12, 2, |r.clientId|);
  }

  function Concat(rs: seq<Request>): Bytes {
    if rs == [] then [] else RequestFrame(rs[0]) + Concat(rs[1..])
  }

  /** Request streams are uniquely decodable: equal bytes, equal requests. */
  lemma {:induction false} RequestsUnique(a: seq<Request>, b: seq<Request>)
    requires forall r :: r in a || r in b ==> r.WellFormed()
    requires Concat(a) == Concat(b)
    ensures a == b
  {
    assert |Concat(a)| == 0 <==> a == [];
    assert |Concat(b)| == 0 <==> b == [];
    if a != [] {
      RequestParses(a[0], Concat(a[1..]));
      RequestParses(b[0], Concat(b[1..]));
      RequestsUnique(a[1..], b[1..]);
      assert a == [a[0]] + a[1..] && b == [b[0]] + b[1..];
    }
  }

  // ---------------------------------------------------------------------
  // Responses
  // ---------------------------------------------------------------------

  datatype Response = Response(correlationId: int, size: int, body: Bytes)

  datatype Outcome = Got(r: Response) | TooShort | ReadError | Panicked

  function SignedInt32(b: Bytes): int
    requires |b| == 4
  {
    FromBigEndianBelow(b);
    ToSigned(FromBigEndian(b), Range(4))
  }

  /** parseResponse */
  function ParseResponse(d: Bytes): Outcome {
    if |d| < 8 then TooShort
    else
      var size := SignedInt32(d[0..4]);
      var end := if 8 + size - 4 > |d| then |d| else 8 + size - 4;
      if end < 8 then Panicked else Got(Response(SignedInt32(d[4..8]), size, d[8..end]))
  }

  /** readFullResponse on a connection that has `rest` still to deliver and
      then ends: the outcome, and what is left. */
  function ReadResponse(rest: Bytes): (Outcome, Bytes) {
    if |rest| < 4 then (ReadError, [])
    else
      var size := SignedInt32(rest[..4]);
      if size < 0 then (Panicked, rest[4..])
      else if 4 + size > |rest| then (ReadError, [])
      else (ParseResponse(rest[..4 + size]), rest[4 + size..])
  }

  /** A connection as an io.Reader: each read consumes. */
  class Connection {
    var rest: Bytes

    constructor (rest: Bytes)
      ensures this.rest == rest
    {
      this.rest := rest;
    }

    /** io.ReadFull: n bytes or an error, which swallows what there was. */
    method ReadFull(n: nat) returns (ok: bool, data: Bytes)
      modifies this
      ensures ok <==> n <= |old(rest)|
      ensures ok ==> data == old(rest)[..n] && rest == old(rest)[n..]
      ensures !ok ==> rest == []
    {
      if n > |rest| {
        rest := [];
        return false, [];
      }
      data := rest[..n];
      rest := rest[n..];
      ok := true;
    }

    method ReadFullResponse() returns (r: Outcome)
      modifies this
      ensures (r, rest) == ReadResponse(old(rest))
    {
      var ok, sizeBuf := ReadFull(4);
      if !ok { return ReadError; }
      var size := SignedInt32(sizeBuf);
      if size < 0 { return Panicked; }
      var data: Bytes;
      ok, data := ReadFull(size);
      if !ok { return ReadError; }
      assert sizeBuf + data == old(rest)[..4 + size];
      r := ParseResponse(sizeBuf + data);
    }
  }

  datatype Reply = Reply(correlationId: int, body: Bytes) {
    predicate WellFormed() {
      Fits(correlationId, 0x1_0000_0000) && 4 + |body| < 0x8000_0000
    }
  }

  function ResponseFrame(r: Reply): Bytes {
    IntBytes(4, 4 + |r.body|) + IntBytes(4, r.correlationId) + r.body
  }

  function Stream(rs: seq<Reply>): Bytes {
    if rs == [] then [] else ResponseFrame(rs[0]) + Stream(rs[1..])
  }

  lemma ResponseReads(r: Reply, rest: Bytes)
    requires r.WellFormed()
    ensures ReadResponse(ResponseFrame(r) + rest) == (Got(Response(r.correlationId, 4 + |r.body|, r.body)), rest)
  {
    var d, size := ResponseFrame(r) + rest, 4 + |r.body|;
    BigLength();
    assert d[0..4] == d[..4] == IntBytes(4, size) && d[4..8] == IntBytes(4, r.correlationId);
    IntAt(d, 0, 4, size);
    IntAt(d, 4, 4, r.correlationId);
    var frame := d[..4 + size];
    assert frame == ResponseFrame(r);
    assert frame[0..4] == d[..4] && frame[4..8] == d[4..8] && frame[8..8 + |r.body|] == r.body;
    assert d[4 + size..] == rest;
  }

  /** A connection that ends inside a frame gives an error, never a response. */
  lemma TruncatedResponse(r: Reply, n: nat)
    requires r.WellFormed() && n < |ResponseFrame(r)|
    ensures ReadResponse(ResponseFrame(r)[..n]) == (ReadError, [])
  {
    if n >= 4 {
      var d, size := ResponseFrame(r)[..n], 4 + |r.body|;
      BigLength();
      assert d[0..4] == d[..4] == IntBytes(4, size);
      IntAt(d, 0, 4, size);
    }
  }

  function ReadMany(rest: Bytes, n: nat): (seq<Outcome>, Bytes)
    decreases n
  {
    if n == 0 then ([], rest)
    else
      var (o, left) := ReadResponse(rest);
      var (os, end) := ReadMany(left, n - 1);
      ([o] + os, end)
  }

  function Received(r: Reply): Outcome {
    Got(Response(r.correlationId, 4 + |r.body|, r.body))
  }

  lemma ReadManyStep(frame: Bytes, rest: Bytes, n: nat, o: Outcome)
    requires ReadResponse(frame + rest) == (o, rest)
    ensures ReadMany(frame + rest, n + 1) == ([o] + ReadMany(rest, n).0, ReadMany(rest, n).1)
  {
  }

  lemma StreamStep(rs: seq<Reply>, rest: Bytes)
    requires rs != [] && rs[0].WellFormed()
    ensures var (got, left) := ReadMany(Stream(rs[1..]) + rest, |rs| - 1);
            ReadMany(Stream(rs) + rest, |rs|) == ([Received(rs[0])] + got, left)
  {
    var tail := Stream(rs[1..]) + rest;
    assert Stream(rs) + rest == ResponseFrame(rs[0]) + tail;
    ResponseReads(rs[0], tail);
    ReadManyStep(ResponseFrame(rs[0]), tail, |rs| - 1, Received(rs[0]));
  }

  /** The responses in order, each whole. */
  function AllReceived(rs: seq<Reply>): seq<Outcome> {
    if rs == [] then [] else [Received(rs[0])] + AllReceived(rs[1..])
  }

  /** Repeated reads of a stream of frames return each response in order and
      leave exactly the bytes after the last one. */
  lemma {:induction false} StreamReads(rs: seq<Reply>, rest: Bytes)
    requires forall r :: r in rs ==> r.WellFormed()
    ensures ReadMany(Stream(rs) + rest, |rs|) == (AllReceived(rs), rest)
  {
    if rs == [] {
      assert [] + rest == rest;
    } else {
      StreamStep(rs, rest);
      StreamReads(rs[1..], rest);
    }
  }

  /** A response frame, byte by byte. */
  lemma ResponseLayout(r: Reply)
    ensures var f := ResponseFrame(r);
            && |f| == 8 + |r.body|
            && U32(f, 0) == (4 + |r.body|) % 0x1_0000_0000 && U32(f, 4) == r.correlationId % 0x1_0000_0000
            && f[8..] == r.body
  {
    var f := ResponseFrame(r);
    AtConcat(f, 0, IntBytes(4, 4 + |r.body|) + IntBytes(4, r.correlationId), r.body);
    AtConcat(f, 0, IntBytes(4, 4 + |r.body|), IntBytes(4, r.correlationId));
    assert f[0..0 + |f|] == f;
    At32(f, 0, 4 + |r.body|);
    At32(f, 4, r.correlationId);
  }

  /** The announced size: four bytes in two's complement. */
  function Announced(rest: Bytes): int
    requires |rest| >= 4
  {
    if U32(rest, 0) < 0x8000_0000 then U32(rest, 0) else U32(rest, 0) - 0x1_0000_0000
  }

  /** What readFullResponse makes of any bytes: an error when the connection ends
      before the frame does, a panic on a negative size, a frame too short for a
      correlation id below four, and otherwise the body of the announced size. */
  lemma ResponseIs(rest: Bytes)
    ensures var (o, left) := ReadResponse(rest);
            if |rest| < 4 then o == ReadError && left == []
            else if Announced(rest) < 0 then o == Panicked && left == rest[4..]
            else if 4 + Announced(rest) > |rest| then o == ReadError && left == []
            else
              && left == rest[4 + Announced(rest)..]
              && if Announced(rest) < 4 then o == TooShort
                 else o.Got? && o.r.size == Announced(rest) && o.r.body == rest[8..4 + Announced(rest)]
                      && o.r.correlationId % 0x1_0000_0000 == U32(rest, 4)
                      && Fits(o.r.correlationId, 0x1_0000_0000)
  {
    if |rest| >= 4 {
      SignedIs(rest, 0);
      var size := Announced(rest);
      if 0 <= size && 4 + size <= |rest| {
        var frame := rest[..4 + size];
        assert frame[0..4] == rest[0..4] == rest[..4];
        if size >= 4 {
          assert frame[4..8] == rest[4..8] && frame[8..4 + size] == rest[8..4 + size];
          SignedIs(rest, 4);
        }
      } else {
        assert rest[..4] == rest[0..4];
      }
    }
  }

  lemma SignedIs(d: Bytes, i: nat)
    requires i + 4 <= |d|
    ensures var v := SignedInt32(d[i..i + 4]);
            && v == (if U32(d, i) < 0x8000_0000 then U32(d, i) else U32(d, i) - 0x1_0000_0000)
            && Fits(v, 0x1_0000_0000) && v % 0x1_0000_0000 == U32(d, i)
  {
    BigLength();
    BigEndianIsU32(d, i);
  }

  /** Whatever a connection delivers, the parse inside readFullResponse finds a
      frame of the announced size. */
  lemma ParseInsideReadNeverPanics(rest: Bytes)
    requires |rest| >= 4 && SignedInt32(rest[..4]) >= 0
    ensures !ReadResponse(rest).0.Panicked?
  {
    var size := SignedInt32(rest[..4]);
    if 4 + size <= |rest| {
      assert rest[..4 + size][0..4] == rest[..4];
    }
  }
}
