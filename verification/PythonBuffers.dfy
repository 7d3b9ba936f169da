/** BinaryWriter and BinaryReader of the Python client
    (clients/python/torrent_mq/protocol.py), as far as assignments use them. */
module PythonBuffers {
  import opened Sequences
  import opened WireBytes
  import opened GoCodec
  import opened PythonWire
  import opened AssignmentWire

  class BinaryWriter {
    var buf: array<byte>
    var pos: nat

    ghost predicate Valid()
      reads this
    {
      pos <= buf.Length
    }

    ghost function Written(): Bytes
      reads this, buf
      requires Valid()
    {
      buf[..pos]
    }

    constructor (capacity: nat)
      ensures Valid() && fresh(buf) && Written() == []
    {
      buf := new byte[capacity];
      pos := 0;
    }

    /** buffer() */
    method Buffer() returns (b: Bytes)
      requires Valid()
      ensures b == Written()
    {
      b := buf[..pos];
    }

    /** Makes room for `extra` bytes, at least doubling the buffer when it moves. */
    method Ensure(extra: nat)
      requires Valid()
      modifies this
      ensures Valid() && pos == old(pos) && Written() == old(Written())
      ensures pos + extra <= buf.Length && old(buf.Length) <= buf.Length
      ensures pos + extra <= old(buf.Length) ==> buf == old(buf)
      ensures buf == old(buf) || (fresh(buf) && buf.Length >= 2 * old(buf.Length))
    {
      var required := pos + extra;
      if required > buf.Length {
        var newLen := if required > buf.Length * 2 then required else buf.Length * 2;
        var newBuf := new byte[newLen];
        for i := 0 to pos
          invariant newBuf[..i] == buf[..i]
          modifies newBuf
        {
          newBuf[i] := buf[i];
        }
        buf := newBuf;
      }
    }

    method WriteRaw(b: Bytes)
      requires Valid()
      modifies this, buf
      ensures Valid() && Written() == old(Written()) + b
      ensures buf == old(buf) || fresh(buf)
    {
      Ensure(|b|);
      for i := 0 to |b|
        invariant pos == old(pos) && pos + |b| <= buf.Length && (buf == old(buf) || fresh(buf))
        invariant buf[..pos + i] == old(Written()) + b[..i]
      {
        ghost var done := buf[..pos + i];
        buf[pos + i] := b[i];
        assert buf[..pos + i + 1] == done + [b[i]];
        Extend(old(Written()), b, i);
      }
      pos := pos + |b|;
    }

    /** write_int16 and write_int32: struct.pack_into raises on a value out of range. */
    method WriteInt(size: nat, i: int) returns (ok: bool)
      requires Valid()
      modifies this, buf
      ensures Valid() && (buf == old(buf) || fresh(buf))
      ensures ok <==> Fits(i, Range(size))
      ensures Written() == old(Written()) + if ok then IntBytes(size, i) else []
    {
      ok := Fits(i, Range(size));
      if ok { WriteRaw(IntBytes(size, i)); } else { Ensure(size); }
    }

    /** write_string of a name that is not None. */
    method WriteString(t: Bytes) returns (ok: bool)
      requires Valid()
      modifies this, buf
      ensures Valid() && (buf == old(buf) || fresh(buf))
      ensures ok <==> |t| < 0x8000
      ensures Written() == old(Written()) + if ok then NameBytes(t) else []
    {
      BigLength();
      ok := WriteInt(2, |t|);
      if ok { WriteRaw(t); }
    }
  }

  class BinaryReader {
    const data: Bytes
    var pos: int

    constructor (data: Bytes)
      ensures this.data == data && pos == 0
    {
      this.data := data;
      pos := 0;
    }

    /** read_int16 and read_int32 */
    method ReadInt(size: nat) returns (r: PyResult<int>)
      modifies `pos
      ensures r == PyReadInt(data, old(pos), size)
      ensures pos == if r.Got? then r.next else old(pos)
    {
      if pos + size > |data| { return Raised; }
      var start := if pos < 0 then pos + |data| else pos;
      if (pos < 0 && pos + size > 0) || start < 0 { return Raised; }
      FromBigEndianBelow(data[start..start + size]);
      var i := ToSigned(FromBigEndian(data[start..start + size]), Range(size));
      pos := pos + size;
      r := Got(i, pos);
    }

    /** read_string() or "" */
    method ReadName() returns (r: PyResult<Bytes>)
      modifies `pos
      ensures r == PyName(data, old(pos))
      ensures r.Got? ==> pos == r.next
    {
      var l := ReadInt(2);
      if l == Raised { return Raised; }
      if l.value == -1 { return Got([], pos); }
      if pos + l.value > |data| { return Raised; }
      r := Got(PySlice(data, pos, pos + l.value), pos + l.value);
      pos := pos + l.value;
    }
  }
}
