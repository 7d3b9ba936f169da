/** binaryWriter and binaryReader of the Go client
    (clients/go/torrentmq/protocol.go): a growable buffer written in place and
    a cursor over a byte slice. */
module GoBuffers {
  import opened Sequences
  import opened Wrappers
  import opened Bits
  import opened WireBytes
  import opened GoCodec
  import Endian

  class BinaryWriter {
    var buf: array<byte>
    var pos: nat

    ghost predicate Valid()
      reads this
    {
      pos <= buf.Length
    }

    /** bytes(): what has been written. */
    ghost function Written(): Bytes
      reads this, buf
      requires Valid()
    {
      buf[..pos]
    }

    constructor (capacity: nat)
      ensures Valid() && fresh(buf) && Written() == []
    {
      buf := new byte[capacity];
      pos := 0;
    }

    method Bytes() returns (b: Bytes)
      requires Valid()
      ensures b == Written()
    {
      b := buf[..pos];
    }

    /** Makes room for n more bytes, moving to a larger buffer if need be. */
    method Ensure(n: nat)
      requires Valid()
      modifies this
      ensures Valid() && pos == old(pos) && Written() == old(Written())
      ensures pos + n <= buf.Length
      ensures pos + n <= old(buf.Length) ==> buf == old(buf)
      ensures buf == old(buf) || (fresh(buf) && buf.Length >= 2 * (pos + n) && buf.Length >= 256)
    {
      if pos + n > buf.Length {
        var newLen := (pos + n) * 2;
        if newLen < 256 { newLen := 256; }
        var newBuf := new byte[newLen];
        for i := 0 to pos
          invariant newBuf[..i] == buf[..i]
          modifies newBuf
        {
          newBuf[i] := buf[i];
        }
        buf := newBuf;
      }
    }

    /** ensure(len(b)), copy, advance. */
    method WriteRaw(b: Bytes)
      requires Valid()
      modifies this, buf
      ensures Valid() && Written() == old(Written()) + b
      ensures buf == old(buf) || fresh(buf)
    {
      Ensure(|b|);
      for i := 0 to |b|
        invariant pos == old(pos) && pos + |b| <= buf.Length && (buf == old(buf) || fresh(buf))
        invariant buf[..pos + i] == old(Written()) + b[..i]
      {
        ghost var done := buf[..pos + i];
        buf[pos + i] := b[i];
        assert buf[..pos + i + 1] == done + [b[i]];
        Extend(old(Written()), b, i);
      }
      pos := pos + |b|;
    }

    /** writeInt8, writeInt16, writeInt32 and writeInt64; lengths that do not
        fit are cut to the low bytes. */
    method WriteInt(size: nat, i: int)
      requires Valid()
      modifies this, buf
      ensures Valid() && Written() == old(Written()) + IntBytes(size, i)
      ensures buf == old(buf) || fresh(buf)
    {
      WriteRaw(IntBytes(size, i));
    }

    method WriteUnsigned(u: nat)
      requires Valid() && u < WORD_MODULUS
      modifies this, buf
      ensures Valid() && Written() == old(Written()) + Leb(u)
      ensures buf == old(buf) || fresh(buf)
    {
      AtMostTen(u);
      Ensure(10);
      WriteGroups(u);
    }

    /** The loop of writeUnsignedVarint, with room already made. */
    method WriteGroups(u: nat)
      requires Valid() && pos + |Leb(u)| <= buf.Length
      modifies `pos, buf
      ensures Valid() && Written() == old(Written()) + Leb(u)
    {
      var v := u;
      while v > 0x7F
        invariant Valid() && pos + |Leb(v)| == old(pos) + |Leb(u)|
        invariant Written() + Leb(v) == old(Written()) + Leb(u)
      {
        WriteByte(v % 0x80 + 0x80);
        v := v / 0x80;
      }
      WriteByte(v);
    }

    method WriteByte(b: byte)
      requires Valid() && pos < buf.Length
      modifies `pos, buf
      ensures Valid() && pos == old(pos) + 1 && Written() == old(Written()) + [b]
    {
      buf[pos] := b;
      pos := pos + 1;
    }

    method WriteSigned(v: int)
      requires Valid() && Fits(v, WORD_MODULUS)
      modifies this, buf
      ensures Valid() && Written() == old(Written()) + FieldBytes(Signed(v))
      ensures buf == old(buf) || fresh(buf)
    {
      WriteUnsigned(ZigZag(v));
    }

    method WriteBool(b: bool)
      requires Valid()
      modifies this, buf
      ensures Valid() && Written() == old(Written()) + FieldBytes(Bool(b))
      ensures buf == old(buf) || fresh(buf)
    {
      if b { WriteInt(1, 1); } else { WriteInt(1, 0); }
    }

    /** writeNullableString (size 2) and writeNullableBytes (size 4). */
    method WriteNullable(size: nat, payload: Option<Bytes>)
      requires Valid() && size in {2, 4}
      modifies this, buf
      ensures Valid() && Written() == old(Written()) + FieldBytes(Nullable(size, payload))
      ensures buf == old(buf) || fresh(buf)
    {
      if payload == None {
        WriteInt(size, -1);
        return;
      }
      WritePrefixed(size, payload.value);
    }

    method WriteString(text: Bytes)
      requires Valid()
      modifies this, buf
      ensures Valid() && Written() == old(Written()) + FieldBytes(Plain(text))
      ensures buf == old(buf) || fresh(buf)
    {
      WritePrefixed(2, text);
    }

    /** A length and the bytes it counts. */
    method WritePrefixed(size: nat, b: Bytes)
      requires Valid()
      modifies this, buf
      ensures Valid() && Written() == old(Written()) + (IntBytes(size, |b|) + b)
      ensures buf == old(buf) || fresh(buf)
    {
      Regroup(Written(), IntBytes(size, |b|), b);
      WriteInt(size, |b|);
      WriteRaw(b);
    }

    /** writeCompactString and writeCompactBytes. */
    method WriteCompact(payload: Option<Bytes>)
      requires Valid() && (payload.Some? ==> |payload.value| < MAX_INT)
      modifies this, buf
      ensures Valid() && Written() == old(Written()) + FieldBytes(Compact(payload))
      ensures buf == old(buf) || fresh(buf)
    {
      BigLength();
      if payload == None {
        WriteUnsigned(0);
        return;
      }
      var b := payload.value;
      Regroup(Written(), Leb(|b| + 1), b);
      WriteUnsigned(|b| + 1);
      WriteRaw(b);
    }

    /** Each typed write appends the bytes of its field. */
    method WriteField(f: Field)
      requires Valid() && f.WellTyped()
      requires f.Compact? && f.payload.Some? ==> |f.payload.value| < MAX_INT
      modifies this, buf
      ensures Valid() && Written() == old(Written()) + FieldBytes(f)
      ensures buf == old(buf) || fresh(buf)
    {
      match f {
        case Int(size, i) => WriteInt(size, i);
        case Bool(b) => WriteBool(b);
        case Unsigned(u) => WriteUnsigned(u);
        case Signed(v) => WriteSigned(v);
        case Nullable(size, payload) => WriteNullable(size, payload);
        case Plain(text) => WriteString(text);
        case Compact(payload) => WriteCompact(payload);
      }
    }

    method WriteAll(fs: seq<Field>)
      requires Valid() && (forall f :: f in fs ==> f.WellTyped()) && |AllBytes(fs)| <= MAX_INT
      modifies this, buf
      ensures Valid() && Written() == old(Written()) + AllBytes(fs)
      ensures buf == old(buf) || fresh(buf)
    {
      var i := 0;
      assert fs[0..] == fs;
      while i < |fs|
        invariant i <= |fs| && Valid() && (buf == old(buf) || fresh(buf))
        invariant Written() + AllBytes(fs[i..]) == old(Written()) + AllBytes(fs)
        invariant |AllBytes(fs[i..])| <= MAX_INT
      {
        NextField(Written(), fs, i);
        WriteField(fs[i]);
        i := i + 1;
      }
    }
  }

  lemma NextField(before: Bytes, fs: seq<Field>, i: nat)
    requires i < |fs| && forall f :: f in fs ==> f.WellTyped()
    ensures fs[i].WellTyped()
    ensures before + AllBytes(fs[i..]) == before + FieldBytes(fs[i]) + AllBytes(fs[i + 1..])
    ensures |AllBytes(fs[i..])| == |FieldBytes(fs[i])| + |AllBytes(fs[i + 1..])|
    ensures fs[i].Compact? && fs[i].payload.Some? ==> |fs[i].payload.value| < |FieldBytes(fs[i])|
  {
    assert fs[i] in fs && fs[i..][1..] == fs[i + 1..];
  }

  lemma AtMostTen(u: nat)
    requires u < WORD_MODULUS
    ensures |Leb(u)| <= 10
  {
    WordValue();
    Endian.VarintRoundTrip(64, u, []);
  }

  class BinaryReader {
    const data: Bytes
    var pos: nat

    constructor (data: Bytes)
      ensures this.data == data && pos == 0
    {
      this.data := data;
      pos := 0;
    }

    /** check(n): whether n more bytes are there. */
    predicate Available(n: nat)
      reads this
    {
      pos + n <= |data|
    }

    method ReadInt(size: nat) returns (r: Result<int>)
      modifies `pos
      ensures r == GoCodec.ReadInt(data, old(pos), size)
      ensures pos == if r.Ok? then r.next else old(pos)
    {
      if !Available(size) { return Underflow; }
      FromBigEndianBelow(data[pos..pos + size]);
      var i := ToSigned(FromBigEndian(data[pos..pos + size]), Range(size));
      pos := pos + size;
      r := Ok(i, pos);
    }

    method ReadUnsigned() returns (r: Result<nat>)
      modifies `pos
      ensures r == GoCodec.ReadUnsigned(data, old(pos))
      ensures r.Ok? ==> pos == r.next
    {
      var value, shift := 0, 0;
      ghost var read := 0;
      while Available(1)
        invariant pos == old(pos) + read && shift == 7 * read
        invariant GoCodec.ReadUnsigned(data, old(pos)) == VarintFrom(data, old(pos), read, value)
        decreases |data| - pos
      {
        var b := data[pos];
        pos := pos + 1;
        value := Or(value, b % 0x80 * Pow2(shift) % WORD_MODULUS);
        if b < 0x80 { return Ok(value, pos); }
        shift := shift + 7;
        read := read + 1;
      }
      r := Underflow;
    }

    method TakePayload(length: int) returns (r: Result<Bytes>)
      modifies `pos
      ensures r == ReadPayload(data, old(pos), length)
      ensures pos == if r.Ok? then r.next else old(pos)
    {
      if length < 0 || pos + length > MAX_INT { return Panic; }
      if !Available(length) { return Underflow; }
      r := Ok(data[pos..pos + length], pos + length);
      pos := pos + length;
    }

    method ReadField(kind: Kind) returns (r: Result<Field>)
      modifies `pos
      ensures r == GoCodec.ReadField(data, old(pos), kind)
      ensures r.Ok? ==> pos == r.next
    {
      match kind {
        case IntKind(size) =>
          var i := ReadInt(size);
          r := if i.Ok? then Ok(Int(size, i.value), i.next) else Underflow;
        case BoolKind =>
          var i := ReadInt(1);
          r := if i.Ok? then Ok(Bool(i.value != 0), i.next) else Underflow;
        case UnsignedKind =>
          var u := ReadUnsigned();
          r := if u.Ok? then Ok(Unsigned(u.value), u.next) else Underflow;
        case SignedKind =>
          var u := ReadUnsigned();
          NeverPanics(data, old(pos), 0, 0);
          r := if u.Ok? then Ok(Signed(UnZigZag(u.value % WORD_MODULUS)), u.next) else Underflow;
        case NullableKind(size) =>
          var l := ReadInt(size);
          if !l.Ok? { return Underflow; }
          if l.value == -1 { return Ok(Nullable(size, None), l.next); }
          var b := TakePayload(l.value);
          r := NullableOf(size, b);
        case PlainKind =>
          var l := ReadInt(2);
          if !l.Ok? { return Underflow; }
          var b := TakePayload(l.value);
          r := PlainOf(b);
        case CompactKind =>
          var u := ReadUnsigned();
          NeverPanics(data, old(pos), 0, 0);
          if !u.Ok? { return Underflow; }
          if u.value == 0 { return Ok(Compact(None), u.next); }
          var b := TakePayload(u.value - 1);
          r := CompactOf(b);
      }
      NeverPanics(data, old(pos), 0, 0);
    }

    /** Reads a whole message, one field after another. */
    method ReadMessage(kinds: seq<Kind>) returns (r: Result<seq<Field>>)
      modifies `pos
      ensures r == ReadAll(data, old(pos), kinds)
    {
      var out: seq<Field>, i := [], 0;
      assert kinds[0..] == kinds;
      PrependNothing(ReadAll(data, pos, kinds));
      while i < |kinds|
        invariant i <= |kinds|
        invariant ReadAll(data, old(pos), kinds) == Prepend(out, ReadAll(data, pos, kinds[i..]))
      {
        assert kinds[i..][1..] == kinds[i + 1..];
        ReadOne(data, pos, kinds[i..], out);
        var f := ReadField(kinds[i]);
        match f {
          case Ok(v, _) => out := out + [v];
          case Underflow => return Underflow;
          case Panic => return Panic;
        }
        i := i + 1;
      }
      assert kinds[i..] == [] && out + [] == out;
      r := Ok(out, pos);
    }
  }

  ghost function Prepend(out: seq<Field>, r: Result<seq<Field>>): Result<seq<Field>> {
    if r.Ok? then Ok(out + r.value, r.next) else r
  }

  lemma {:induction false} NeverPanics(d: Bytes, pos: nat, read: nat, value: nat)
    ensures !VarintFrom(d, pos, read, value).Panic?
    decreases |d| - (pos + read)
  {
    if pos + read < |d| && d[pos + read] >= 0x80 {
      NeverPanics(d, pos, read + 1, Or(value, d[pos + read] % 0x80 * Pow2(7 * read) % WORD_MODULUS));
    }
  }

  lemma PrependNothing(r: Result<seq<Field>>)
    ensures Prepend([], r) == r
  {
    if r.Ok? { assert [] + r.value == r.value; }
  }

  lemma ReadOne(d: Bytes, pos: nat, kinds: seq<Kind>, out: seq<Field>)
    requires kinds != []
    ensures Prepend(out, ReadAll(d, pos, kinds)) ==
            match ReadField(d, pos, kinds[0])
            case Ok(v, n) => Prepend(out + [v], ReadAll(d, n, kinds[1..]))
            case Underflow => Underflow
            case Panic => Panic
  {
    var f := ReadField(d, pos, kinds[0]);
    if f.Ok? {
      var rest := ReadAll(d, f.next, kinds[1..]);
      if rest.Ok? { assert out + ([f.value] + rest.value) == out + [f.value] + rest.value; }
    }
  }

  /** Writing a message field by field into a growing buffer and reading it
      back with the same schema recovers every value. */
  method WriteAndRead(capacity: nat, fs: seq<Field>) returns (got: Result<seq<Field>>)
    requires forall f :: f in fs ==> f.WellTyped() && f.InLimits()
    requires |AllBytes(fs)| <= MAX_INT
    ensures got == Ok(fs, |AllBytes(fs)|)
  {
    var w := new BinaryWriter(capacity);
    w.WriteAll(fs);
    var d := w.Bytes();
    assert d == AllBytes(fs) && d[0..0 + |d|] == d;
    MessageRoundTrip(d, 0, fs);
    var r := new BinaryReader(d);
    got := r.ReadMessage(Kinds(fs));
  }
}
