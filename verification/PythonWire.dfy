/** What the Python client's BinaryReader makes of a buffer
    (clients/python/torrent_mq/protocol.py).  Its cursor can move backwards, even
    below 0: a negative string length passes the check and is added to it. */
module PythonWire {
  import opened Wrappers
  import opened WireBytes
  import opened GoCodec

  /** A value and the next cursor, or an exception. */
  datatype PyResult<+T> = Got(value: T, next: int) | Raised

  /** How Python clips an index of a slice. */
  function Clip(d: Bytes, i: int): (c: nat)
    ensures c <= |d|
  {
    if i < 0 then (if i + |d| < 0 then 0 else i + |d|)
    else if i > |d| then |d|
    else i
  }

  /** d[a:b] */
  function PySlice(d: Bytes, a: int, b: int): Bytes {
    if Clip(d, a) <= Clip(d, b) then d[Clip(d, a)..Clip(d, b)] else []
  }

  /** Where struct.unpack_from starts, which counts a negative offset from the end
      and does not run past it. */
  function UnpackAt(d: Bytes, pos: int, size: nat): Option<nat> {
    var start := if pos < 0 then pos + |d| else pos;
    if (pos < 0 && pos + size > 0) || start < 0 || start + size > |d| then None else Some(start)
  }

  /** read_int16 and read_int32 */
  function PyReadInt(d: Bytes, pos: int, size: nat): (r: PyResult<int>)
    ensures r.Got? ==> r.next == pos + size
  {
    if pos + size > |d| || UnpackAt(d, pos, size) == None then Raised
    else
      var start := UnpackAt(d, pos, size).value;
      FromBigEndianBelow(d[start..start + size]);
      Got(ToSigned(FromBigEndian(d[start..start + size]), Range(size)), pos + size)
  }

  /** The rest of read_string, or "" for null. */
  function PyText(d: Bytes, pos: int, length: int): PyResult<Bytes> {
    if length == -1 then Got([], pos)
    else if pos + length > |d| then Raised
    else Got(PySlice(d, pos, pos + length), pos + length)
  }

  function PyName(d: Bytes, pos: int): PyResult<Bytes> {
    match PyReadInt(d, pos, 2)
    case Raised => Raised
    case Got(l, n) => PyText(d, n, l)
  }

  /** The loop that reads the partitions of one topic. */
  function PyInts(d: Bytes, pos: int, count: int, acc: seq<int>): PyResult<seq<int>>
    decreases count
  {
    if count <= 0 then Got(acc, pos)
    else
      match PyReadInt(d, pos, 4)
      case Raised => Raised
      case Got(p, n) => PyInts(d, n, count - 1, acc + [p])
  }

  /** Reading forward agrees with the Go reader. */
  lemma ReadsForward(d: Bytes, pos: nat, size: nat)
    ensures PyReadInt(d, pos, size) ==
            match ReadInt(d, pos, size)
            case Ok(i, n) => Got(i, n)
            case _ => Raised
  {
  }

  /** A cursor below 0 counts from the end of the buffer. */
  lemma ReadsFromEnd(d: Bytes, pos: int, size: nat)
    requires pos < 0
    ensures PyReadInt(d, pos, size) ==
            if pos + size <= 0 && 0 <= |d| + pos then
              match ReadInt(d, |d| + pos, size)
              case Ok(i, _) => Got(i, pos + size)
              case _ => Raised
            else Raised
  {
  }

  lemma SliceForward(d: Bytes, pos: nat, length: nat)
    requires pos + length <= |d|
    ensures PySlice(d, pos, pos + length) == d[pos..pos + length]
  {
  }

  /** A negative length moves the cursor back and reads nothing, as long as the
      cursor stays in the buffer. */
  lemma NegativeLengthGoesBack(d: Bytes, pos: nat, length: int)
    requires length < -1 && 0 <= pos + length && pos <= |d|
    ensures PyText(d, pos, length) == Got([], pos + length)
  {
    assert Clip(d, pos + length) == pos + length && Clip(d, pos) == pos;
  }

  lemma {:induction false} IntsForward(d: Bytes, pos: nat, count: int, acc: seq<int>, parts: seq<int>, n: nat)
    requires ReadInts(d, pos, count, acc) == Ok(parts, n)
    ensures PyInts(d, pos, count, acc) == Got(parts, n)
    decreases count
  {
    if count > 0 {
      ReadsForward(d, pos, 4);
      var r := ReadInt(d, pos, 4);
      IntsForward(d, r.next, count - 1, acc + [r.value], parts, n);
    }
  }
}
