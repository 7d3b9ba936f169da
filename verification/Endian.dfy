/** Varints, ZigZag and byte order in the C++ core (src/torrent/common/endian.cpp).
    A width w stands for the 32- and the 64-bit variant of each function. */
module Endian {
  import opened Bits
  import opened WireBytes

  predicate Width(w: nat) { w == 32 || w == 64 }

  /** The most bytes a w-bit varint takes. */
  function MaxLength(w: nat): nat { if w == 32 then 5 else 10 }

  // ---------------------------------------------------------------------
  // Unsigned varints
  // ---------------------------------------------------------------------

  lemma LebNext(done: Bytes, rest: nat)
    requires rest >= 0x80
    ensures done + Leb(rest) == done + [rest % 0x80 + 0x80] + Leb(rest / 0x80)
    ensures |Leb(rest)| == 1 + |Leb(rest / 0x80)|
  {
  }

  /** One more byte written. */
  method PutByte(out: array<byte>, at: nat, b: byte)
    requires at < out.Length
    modifies out
    ensures out[..at + 1] == old(out[..at]) + [b] && out[at + 1..] == old(out[at + 1..])
  {
    out[at] := b;
  }

  lemma SuffixKept<T>(before: seq<T>, after: seq<T>, from: nat, to: nat)
    requires from <= to <= |before| == |after| && before[from..] == after[from..]
    ensures before[to..] == after[to..]
  {
    assert before[to..] == before[from..][to - from..];
    assert after[to..] == after[from..][to - from..];
  }

  /** varint_encode: fills `out` from the front. */
  method VarintEncode(w: nat, val: nat, out: array<byte>) returns (written: nat)
    requires Width(w) && val < Pow2(w) && out.Length >= |Leb(val)|
    modifies out
    ensures written == |Leb(val)| && out[..written] == Leb(val)
    ensures out[written..] == old(out[written..])
  {
    written := WriteGroups(val, out);
  }

  /** The loop, whatever the width. */
  method WriteGroups(val: nat, out: array<byte>) returns (written: nat)
    requires out.Length >= |Leb(val)|
    modifies out
    ensures written == |Leb(val)| && out[..written] == Leb(val)
    ensures out[written..] == old(out[written..])
  {
    written := 0;
    var rest := val;
    ghost var was := out[..];
    while rest >= 0x80
      invariant written <= out.Length && out[..written] + Leb(rest) == Leb(val)
      invariant out[written..] == was[written..]
    {
      LebNext(out[..written], rest);
      SuffixKept(was, out[..], written, written + 1);
      PutByte(out, written, rest % 0x80 + 0x80);
      rest := rest / 0x80;
      written := written + 1;
    }
    SuffixKept(was, out[..], written, written + 1);
    PutByte(out, written, rest);
    written := written + 1;
  }

  /** What reading a varint comes to.  ShiftTooFar stands for a C++ shift that
      reaches the width, which is undefined. */
  datatype Decoded = Read(count: nat, value: nat) | Underflow | ShiftTooFar

  function DecodeFrom(w: nat, data: Bytes, read: nat, out: nat): Decoded
    requires read <= |data|
    decreases |data| - read
  {
    if read == |data| then Underflow
    else if 7 * read >= w then ShiftTooFar
    else
      var b := data[read];
      var out' := Or(out, b % 0x80 * Pow2(7 * read) % Pow2(w));
      if b < 0x80 then Read(read + 1, out') else DecodeFrom(w, data, read + 1, out')
  }

  function Decode(w: nat, data: Bytes): Decoded {
    DecodeFrom(w, data, 0, 0)
  }

  /** Bytes that all say more follow. */
  ghost predicate Unfinished(b: Bytes) {
    forall i :: 0 <= i < |b| ==> b[i] >= 0x80
  }

  /** As many bytes as a varint can have all say more follow, and there is one more. */
  ghost predicate TooLong(w: nat, data: Bytes) {
    |data| > MaxLength(w) && Unfinished(data[..MaxLength(w)])
  }

  lemma {:induction false} ShiftsTooFarFrom(w: nat, data: Bytes, read: nat, out: nat)
    requires Width(w) && read <= |data| && read <= MaxLength(w) && Unfinished(data[..read])
    ensures DecodeFrom(w, data, read, out).ShiftTooFar? <==> TooLong(w, data)
    decreases |data| - read
  {
    if read < |data| && read < MaxLength(w) {
      var b := data[read];
      if b >= 0x80 {
        assert data[..read + 1] == data[..read] + [b];
        ShiftsTooFarFrom(w, data, read + 1, Or(out, b % 0x80 * Pow2(7 * read) % Pow2(w)));
      } else {
        assert |data| > MaxLength(w) ==> data[..MaxLength(w)][read] == b;
      }
    }
  }

  /** The shift goes too far exactly when 5 or 10 continuation bytes are followed
      by any byte at all, even one that would end the varint. */
  lemma ShiftsTooFarIff(w: nat, data: Bytes)
    requires Width(w)
    ensures Decode(w, data).ShiftTooFar? <==> TooLong(w, data)
  {
    ShiftsTooFarFrom(w, data, 0, 0);
  }

  /** A buffer on which the shift goes too far: 5 or 10 continuation bytes and a zero. */
  lemma ShiftTooFarExample(w: nat)
    requires Width(w)
    ensures Decode(w, seq(MaxLength(w), i => 0x80) + [0]).ShiftTooFar?
  {
    ShiftsTooFarIff(w, seq(MaxLength(w), i => 0x80) + [0]);
  }

  /** varint_decode: the count and the value, both 0 when the buffer ends early.
      `undefined` tells that a shift reached the width, after which C++ promises
      nothing of the other two. */
  method VarintDecode(w: nat, data: Bytes) returns (count: nat, out: nat, undefined: bool)
    requires Width(w)
    ensures undefined <==> TooLong(w, data)
    ensures !undefined ==>
              var d := Decode(w, data);
              if d.Read? then count == d.count > 0 && out == d.value else count == 0 && out == 0
  {
    ShiftsTooFarIff(w, data);
    out := 0;
    var shift, read := 0, 0;
    while read < |data|
      invariant read <= |data| && shift == 7 * read
      invariant Decode(w, data) == DecodeFrom(w, data, read, out)
    {
      if shift >= w { return 0, 0, true; }
      var b := data[read];
      out := Or(out, b % 0x80 * Pow2(shift) % Pow2(w));
      read := read + 1;
      if b < 0x80 { return read, out, false; }
      shift := shift + 7;
    }
    return 0, 0, false;
  }

  /** `low`, already read from n bytes, and v still to come make up `total`. */
  ghost predicate Partial(w: nat, n: nat, low: nat, v: nat, total: nat) {
    low < Pow2(7 * n) && low + v * Pow2(7 * n) == total < Pow2(w) && 7 * n < w
  }

  lemma DecodeOne(w: nat, data: Bytes, n: nat, group: nat, low: nat, low': nat)
    requires n < |data| && 7 * n < w && group == data[n] % 0x80
    requires Or(low, group * Pow2(7 * n) % Pow2(w)) == low'
    ensures DecodeFrom(w, data, n, low) ==
            if data[n] < 0x80 then Read(n + 1, low') else DecodeFrom(w, data, n + 1, low')
  {
  }

  lemma DecodeLast(w: nat, v: nat, data: Bytes, n: nat, low: nat, total: nat)
    requires Partial(w, n, low, v, total) && v < 0x80 && n < |data| && data[n] == v
    ensures DecodeFrom(w, data, n, low) == Read(n + 1, total)
  {
    GroupAdded(low, v, 7 * n, w);
    DecodeOne(w, data, n, v, low, total);
  }

  lemma DecodeMore(w: nat, v: nat, data: Bytes, n: nat, low: nat, total: nat) returns (low': nat)
    requires Partial(w, n, low, v, total) && v >= 0x80 && n < |data| && data[n] == v % 0x80 + 0x80
    ensures Partial(w, n + 1, low', v / 0x80, total)
    ensures DecodeFrom(w, data, n, low) == DecodeFrom(w, data, n + 1, low')
  {
    low' := GroupStep(w, v, low, n, total);
    LowSeven(v, data[n]);
    DecodeOne(w, data, n, v % 0x80, low, low');
  }

  lemma LowSeven(v: nat, b: byte)
    requires b == v % 0x80 + 0x80
    ensures b % 0x80 == v % 0x80
  {
  }

  /** Decoding picks up where the bytes already read left off. */
  lemma {:induction false} DecodeEncoded(w: nat, v: nat, data: Bytes, n: nat, low: nat, total: nat)
    requires Partial(w, n, low, v, total)
    requires n + |Leb(v)| <= |data| && data[n..n + |Leb(v)|] == Leb(v)
    ensures DecodeFrom(w, data, n, low) == Read(n + |Leb(v)|, total)
    decreases v
  {
    var b := Leb(v);
    assert data[n] == data[n..n + |b|][0] == b[0];
    if v < 0x80 {
      DecodeLast(w, v, data, n, low, total);
    } else {
      var low' := DecodeMore(w, v, data, n, low, total);
      assert data[n + 1..n + |b|] == data[n..n + |b|][1..] == Leb(v / 0x80);
      DecodeEncoded(w, v / 0x80, data, n + 1, low', total);
    }
  }

  /** One continuation byte of v read on top of `low`. */
  lemma GroupStep(w: nat, v: nat, low: nat, n: nat, total: nat) returns (low': nat)
    requires v >= 0x80 && Partial(w, n, low, v, total)
    ensures low' == Or(low, v % 0x80 * Pow2(7 * n) % Pow2(w))
    ensures Partial(w, n + 1, low', v / 0x80, total)
  {
    var g, h := v % 0x80, v / 0x80;
    low' := low + g * Pow2(7 * n);
    SplitGroup(g, h, v, Pow2(7 * n));
    GroupAdded(low, g, 7 * n, w);
    NextPartial(w, g, h, low, n, total);
  }

  lemma SplitGroup(g: nat, h: nat, v: nat, p: nat)
    requires v == g + h * 0x80
    ensures v * p == g * p + h * (0x80 * p)
    ensures g * p <= v * p
  {
    MulSign(h, 0x80 * p);
  }

  lemma NextPartial(w: nat, g: nat, h: nat, low: nat, n: nat, total: nat)
    requires g < 0x80 && h > 0 && low < Pow2(7 * n)
    requires low + g * Pow2(7 * n) + h * (0x80 * Pow2(7 * n)) == total < Pow2(w)
    ensures Partial(w, n + 1, low + g * Pow2(7 * n), h, total)
  {
    SevenMore(n);
    GroupBound(low, g, Pow2(7 * n));
    NextShift(w, h, n, low + g * Pow2(7 * n));
  }

  lemma SevenMore(n: nat)
    ensures Pow2(7 * (n + 1)) == 0x80 * Pow2(7 * n)
  {
    Pow2Sum(7 * n, 7);
    assert Pow2(7) == 0x80;
  }

  lemma GroupBound(low: nat, g: nat, p: nat)
    requires low < p && g < 0x80
    ensures low + g * p < p * 0x80
  {
    if g < 0x7F { NextMultiple(g, 0x7F, p); }
  }

  lemma NextShift(w: nat, h: nat, n: nat, low: nat)
    requires h > 0 && low + h * Pow2(7 * (n + 1)) < Pow2(w)
    ensures 7 * (n + 1) < w
  {
    NextMultiple(0, h, Pow2(7 * (n + 1)));
    if 7 * (n + 1) >= w {
      Pow2Increases(w, 7 * (n + 1));
    }
  }

  /** Round trip, whatever follows. */
  lemma VarintRoundTrip(w: nat, v: nat, rest: Bytes)
    requires Width(w) && v < Pow2(w)
    ensures Decode(w, Leb(v) + rest) == Read(|Leb(v)|, v)
    ensures |Leb(v)| <= MaxLength(w)
  {
    assert Pow2(7 * 0) == 1;
    DecodeEncoded(w, v, Leb(v) + rest, 0, 0, v);
    Pow128IsPow2(MaxLength(w));
    Pow2Increases(w, 7 * MaxLength(w));
    LebLength(v, MaxLength(w));
  }

  /** The varint at the front of data ends with byte k. */
  ghost predicate EndsWith(data: Bytes, k: nat) {
    k < |data| && data[k] < 0x80 && forall i :: 0 <= i < k ==> data[i] >= 0x80
  }

  lemma {:induction false} DecodeFromIs(w: nat, data: Bytes, k: nat, n: nat)
    requires EndsWith(data, k) && n <= k && 7 * k < w
    ensures DecodeFrom(w, data, n, LebValue(data[..n])) == Read(k + 1, LebValue(data[..k + 1]) % Pow2(w))
    decreases k - n
  {
    var x, g := LebValue(data[..n]), data[n] % 0x80;
    assert data[..n + 1] == data[..n] + [data[n]];
    LebValueEnds(data[..n], data[n]);
    Pow128IsPow2(n);
    GroupIn(x, g, 7 * n, w);
    if n < k {
      LebValueEnds(data[..n + 1], 0);
      Pow128IsPow2(n + 1);
      Pow2Increases(7 * (n + 1), w);
      DivModUnique(x + g * Pow2(7 * n), Pow2(w), 0, x + g * Pow2(7 * n));
      DecodeFromIs(w, data, k, n + 1);
    }
  }

  /** What the decoder makes of any buffer whose varint ends before the shift goes too
      far, shortest or not: the number of its groups, modulo the word, and its length. */
  lemma DecodeIs(w: nat, data: Bytes, k: nat)
    requires EndsWith(data, k) && 7 * k < w
    ensures Decode(w, data) == Read(k + 1, LebValue(data[..k + 1]) % Pow2(w))
  {
    assert data[..0] == [];
    DecodeFromIs(w, data, k, 0);
  }

  lemma {:induction false} PrefixUnfinished(v: nat, n: nat)
    requires n < |Leb(v)|
    ensures Unfinished(Leb(v)[..n])
    decreases v
  {
    if v >= 0x80 && n > 0 {
      PrefixUnfinished(v / 0x80, n - 1);
      assert Leb(v)[..n] == [v % 0x80 + 0x80] + Leb(v / 0x80)[..n - 1];
    }
  }

  lemma {:induction false} UnfinishedUnderflows(w: nat, b: Bytes, read: nat, out: nat)
    requires Unfinished(b) && read <= |b| && 7 * (|b| - 1) < w
    ensures DecodeFrom(w, b, read, out) == Underflow
    decreases |b| - read
  {
    if read < |b| {
      UnfinishedUnderflows(w, b, read + 1, Or(out, b[read] % 0x80 * Pow2(7 * read) % Pow2(w)));
    }
  }

  /** A strict prefix of an encoding reads nothing. */
  lemma StrictPrefixUnderflows(w: nat, v: nat, n: nat)
    requires Width(w) && v < Pow2(w) && n < |Leb(v)|
    ensures Decode(w, Leb(v)[..n]) == Underflow
  {
    VarintRoundTrip(w, v, []);
    PrefixUnfinished(v, n);
    UnfinishedUnderflows(w, Leb(v)[..n], 0, 0);
  }

  /** No encoding is longer than another that decodes to the same value. */
  lemma EncodingIsShortest(w: nat, data: Bytes)
    requires Width(w) && Decode(w, data).Read?
    ensures |Leb(Decode(w, data).value)| <= Decode(w, data).count
  {
    var r := Decode(w, data);
    DecodedBound(w, data, 0, 0);
    LebLength(r.value, r.count);
  }

  lemma {:induction false} DecodedBound(w: nat, data: Bytes, read: nat, out: nat)
    requires read <= |data| && out < Pow128(read) && DecodeFrom(w, data, read, out).Read?
    ensures var r := DecodeFrom(w, data, read, out); r.count > 0 && r.value < Pow128(r.count)
    decreases |data| - read
  {
    var x := data[read] % 0x80 * Pow2(7 * read) % Pow2(w);
    var n := 7 * (read + 1);
    Pow128IsPow2(read);
    Pow128IsPow2(read + 1);
    SevenMore(read);
    GroupBound(0, data[read] % 0x80, Pow2(7 * read));
    ModShrinks(data[read] % 0x80 * Pow2(7 * read), Pow2(w));
    Pow2Increases(7 * read, n);
    OrBelow(out, x, n);
    if data[read] >= 0x80 {
      DecodedBound(w, data, read + 1, Or(out, x));
    }
  }

  lemma ModShrinks(x: nat, m: nat)
    requires m > 0
    ensures x % m <= x
  {
    MulSign(x / m, m);
  }

  // ---------------------------------------------------------------------
  // ZigZag
  // ---------------------------------------------------------------------

  /** val >> (w - 1) on a signed word: all zeros or all ones. */
  function SignBits(val: int, w: nat): nat {
    if val >= 0 then 0 else Pow2(w) - 1
  }

  /** (val << 1) ^ (val >> (w - 1)) */
  function ZigZagEncode(w: nat, val: int): nat
    requires w > 0 && Fits(val, Pow2(w))
  {
    Xor(ToUnsigned(2 * val, Pow2(w)), SignBits(val, w))
  }

  /** (val >> 1) ^ -(val & 1), reinterpreted as signed */
  function ZigZagDecode(w: nat, val: nat): int
    requires w > 0 && val < Pow2(w)
  {
    var x := Xor(val / 2, if val % 2 == 1 then Pow2(w) - 1 else 0);
    XorBelow(val / 2, if val % 2 == 1 then Pow2(w) - 1 else 0, w);
    ToSigned(x, Pow2(w))
  }

  /** ZigZag counts 0, -1, 1, -2, 2, ... */
  lemma ZigZagMeaning(w: nat, val: int)
    requires w > 0 && Fits(val, Pow2(w))
    ensures ZigZagEncode(w, val) == if val >= 0 then 2 * val else -2 * val - 1
    ensures ZigZagEncode(w, val) < Pow2(w)
  {
    var m := Pow2(w);
    assert m == 2 * Pow2(w - 1);
    if val >= 0 {
      DivModUnique(2 * val, m, 0, 2 * val);
    } else {
      NegativeMod(2 * val, m);
      XorOnes(2 * val + m, w);
    }
  }

  lemma ZigZagDecodeMeaning(w: nat, val: nat)
    requires w > 0 && val < Pow2(w)
    ensures ZigZagDecode(w, val) == if val % 2 == 0 then val / 2 else -(val / 2) - 1
    ensures Fits(ZigZagDecode(w, val), Pow2(w))
  {
    assert Pow2(w) == 2 * Pow2(w - 1);
    if val % 2 == 1 { XorOnes(val / 2, w); }
  }

  lemma ZigZagDecodesEncoded(w: nat, val: int)
    requires w > 0 && Fits(val, Pow2(w))
    ensures ZigZagEncode(w, val) < Pow2(w) && ZigZagDecode(w, ZigZagEncode(w, val)) == val
  {
    ZigZagMeaning(w, val);
    ZigZagDecodeMeaning(w, ZigZagEncode(w, val));
  }

  lemma ZigZagEncodesDecoded(w: nat, u: nat)
    requires w > 0 && u < Pow2(w)
    ensures Fits(ZigZagDecode(w, u), Pow2(w)) && ZigZagEncode(w, ZigZagDecode(w, u)) == u
  {
    ZigZagDecodeMeaning(w, u);
    ZigZagMeaning(w, ZigZagDecode(w, u));
  }

  /** ZigZag is a bijection between signed and unsigned words. */
  lemma ZigZagBijection(w: nat, val: int, u: nat)
    requires w > 0
    ensures Fits(val, Pow2(w)) ==>
              ZigZagEncode(w, val) < Pow2(w) && ZigZagDecode(w, ZigZagEncode(w, val)) == val
    ensures u < Pow2(w) ==>
              Fits(ZigZagDecode(w, u), Pow2(w)) && ZigZagEncode(w, ZigZagDecode(w, u)) == u
  {
    if Fits(val, Pow2(w)) { ZigZagDecodesEncoded(w, val); }
    if u < Pow2(w) { ZigZagEncodesDecoded(w, u); }
  }

  /** varint_decode_signed: `out` is left alone when nothing is read. */
  method VarintDecodeSigned(w: nat, data: Bytes, previous: int) returns (count: nat, out: int, undefined: bool)
    requires Width(w)
    ensures undefined <==> TooLong(w, data)
    ensures !undefined ==>
              var d := Decode(w, data);
              if d.Read? then d.value < Pow2(w) && count == d.count && out == ZigZagDecode(w, d.value)
              else count == 0 && out == previous
  {
    var u: nat;
    ShiftsTooFarIff(w, data);
    count, u, undefined := VarintDecode(w, data);
    out := previous;
    if !undefined && count > 0 {
      DecodedFits(w, data, 0, 0);
      out := ZigZagDecode(w, u);
    }
  }

  lemma {:induction false} DecodedFits(w: nat, data: Bytes, read: nat, out: nat)
    requires read <= |data| && out < Pow2(w) && DecodeFrom(w, data, read, out).Read?
    ensures DecodeFrom(w, data, read, out).value < Pow2(w)
    decreases |data| - read
  {
    var x := data[read] % 0x80 * Pow2(7 * read) % Pow2(w);
    OrBelow(out, x, w);
    if data[read] >= 0x80 { DecodedFits(w, data, read + 1, Or(out, x)); }
  }

  /** Signed varints round-trip, whatever follows. */
  lemma SignedRoundTrips(w: nat, val: int, rest: Bytes)
    requires Width(w) && Fits(val, Pow2(w))
    ensures var u := ZigZagEncode(w, val);
            u < Pow2(w) && Decode(w, Leb(u) + rest) == Read(|Leb(u)|, u) && ZigZagDecode(w, u) == val
  {
    ZigZagBijection(w, val, 0);
    VarintRoundTrip(w, ZigZagEncode(w, val), rest);
  }

  // ---------------------------------------------------------------------
  // Byte order
  // ---------------------------------------------------------------------

  /** The bytes of an n-byte integer in the memory of a little-endian host. */
  function InMemory(v: nat, n: nat): Bytes {
    if n == 0 then [] else [v % 256] + InMemory(v / 256, n - 1)
  }

  /** htonl and ntohl on a little-endian host: the bytes in reverse. */
  function Swap32(v: nat): nat {
    FromBigEndian(InMemory(v, 4))
  }

  /** host_to_be64 and be_to_host64 on a little-endian host. */
  function Swap64(v: nat): nat {
    var high, low := v / 0x1_0000_0000, v % 0x1_0000_0000;
    Swap32(low) * 0x1_0000_0000 + Swap32(high)
  }

  lemma {:induction false} InMemoryReverses(v: nat, n: nat)
    ensures |InMemory(v, n)| == n
    ensures forall i :: 0 <= i < n ==> InMemory(v, n)[i] == BigEndian(v, n)[n - 1 - i]
  {
    if n > 0 {
      InMemoryReverses(v / 256, n - 1);
    }
  }

  lemma Swap32Bytes(v: nat)
    requires v < 0x1_0000_0000
    ensures Swap32(v) < 0x1_0000_0000
    ensures BigEndian(Swap32(v), 4) == InMemory(v, 4)
    ensures InMemory(Swap32(v), 4) == BigEndian(v, 4)
    ensures Swap32(Swap32(v)) == v
  {
    var b := InMemory(v, 4);
    InMemoryReverses(v, 4);
    BigEndianWrites(b);
    FromBigEndianBelow(b);
    assert Range(4) == 0x1_0000_0000;
    InMemoryReverses(Swap32(v), 4);
    assert InMemory(Swap32(v), 4) == BigEndian(v, 4);
    BigEndianReads(v, 4);
  }

  lemma MulByte(high: nat, r: nat)
    ensures high * (256 * r) == 256 * (high * r)
  {
  }

  lemma SplitByte(p: nat, low: nat)
    ensures (256 * p + low) / 256 == p + low / 256 && (256 * p + low) % 256 == low % 256
  {
  }

  lemma {:induction false} InMemorySplits(high: nat, low: nat, n: nat, k: nat)
    requires low < Range(k)
    ensures InMemory(high * Range(k) + low, n + k) == InMemory(low, k) + InMemory(high, n)
    decreases k
  {
    if k > 0 {
      MulByte(high, Range(k - 1));
      InMemorySplits(high, low / 256, n, k - 1);
      FirstByte(high * Range(k - 1), low, n + k);
      assert InMemory(low, k) == [low % 256] + InMemory(low / 256, k - 1);
    } else {
      assert high * Range(0) == high;
      assert InMemory(low, 0) + InMemory(high, n) == InMemory(high, n);
    }
  }

  lemma FirstByte(p: nat, low: nat, n: nat)
    requires n > 0
    ensures InMemory(256 * p + low, n) == [low % 256] + InMemory(p + low / 256, n - 1)
  {
    SplitByte(p, low);
  }

  lemma {:induction false} BigEndianSplits(high: nat, low: nat, n: nat, k: nat)
    requires low < Range(k)
    ensures BigEndian(high * Range(k) + low, n + k) == BigEndian(high, n) + BigEndian(low, k)
    decreases k
  {
    if k > 0 {
      MulByte(high, Range(k - 1));
      BigEndianSplits(high, low / 256, n, k - 1);
      LastByte(high * Range(k - 1), low, n + k);
      assert BigEndian(low, k) == BigEndian(low / 256, k - 1) + [low % 256];
    } else {
      assert high * Range(0) == high;
    }
  }

  lemma LastByte(p: nat, low: nat, n: nat)
    requires n > 0
    ensures BigEndian(256 * p + low, n) == BigEndian(p + low / 256, n - 1) + [low % 256]
  {
    SplitByte(p, low);
  }

  lemma WordsOf(high: nat, low: nat)
    requires low < 0x1_0000_0000
    ensures (high * 0x1_0000_0000 + low) / 0x1_0000_0000 == high
    ensures (high * 0x1_0000_0000 + low) % 0x1_0000_0000 == low
  {
  }

  lemma SplitWord(v: nat) returns (high: nat, low: nat)
    requires v < 0x1_0000_0000_0000_0000
    ensures v == high * 0x1_0000_0000 + low && high < 0x1_0000_0000 && low < 0x1_0000_0000
  {
    high, low := v / 0x1_0000_0000, v % 0x1_0000_0000;
  }

  lemma Swap64Of(high: nat, low: nat, v: nat)
    requires low < 0x1_0000_0000 && v == high * 0x1_0000_0000 + low
    ensures Swap64(v) == Swap32(low) * 0x1_0000_0000 + Swap32(high)
  {
    WordsOf(high, low);
  }

  /** One n-byte word swapped. */
  ghost predicate Reversed(v: nat, v': nat, n: nat) {
    v < Range(n) && v' < Range(n) && InMemory(v', n) == BigEndian(v, n)
  }

  /** The bytes of two words swapped, each in itself and with the other. */
  lemma ReversedBytes(high: nat, low: nat, high': nat, low': nat, n: nat, v: nat, v': nat)
    requires Reversed(low, high', n) && Reversed(high, low', n)
    requires v == high * Range(n) + low && v' == high' * Range(n) + low'
    ensures InMemory(v', n + n) == BigEndian(v, n + n)
  {
    InMemorySplits(high', low', n, n);
    BigEndianSplits(high, low, n, n);
  }

  lemma ReversedValue(high: nat, low: nat, high': nat, low': nat, v: nat, v': nat)
    requires Reversed(low, high', 4) && Reversed(high, low', 4)
    requires v == high * 0x1_0000_0000 + low && v' == high' * 0x1_0000_0000 + low'
    ensures InMemory(v', 8) == BigEndian(v, 8)
  {
    assert Range(4) == 0x1_0000_0000;
    ReversedBytes(high, low, high', low', 4, v, v');
  }

  lemma WordReversed(v: nat) returns (v': nat)
    requires v < 0x1_0000_0000
    ensures v' == Swap32(v) && Swap32(v') == v && Reversed(v, v', 4)
  {
    Swap32Bytes(v);
    assert Range(4) == 0x1_0000_0000;
    v' := Swap32(v);
  }

  lemma Swap64Parts(v: nat) returns (high: nat, low: nat, high': nat, low': nat)
    requires v < 0x1_0000_0000_0000_0000
    ensures Reversed(low, high', 4) && Reversed(high, low', 4)
    ensures v == high * 0x1_0000_0000 + low && Swap64(v) == high' * 0x1_0000_0000 + low'
    ensures Swap64(Swap64(v)) == v
  {
    high, low := SplitWord(v);
    high' := WordReversed(low);
    low' := WordReversed(high);
    Swap64Of(high, low, v);
    Swap64Of(high', low', Swap64(v));
  }

  /** The 64-bit conversion swaps the words as well as the bytes in them, so
      the value it stores is big-endian, and it is its own inverse. */
  lemma Swap64IsBigEndian(v: nat)
    requires v < 0x1_0000_0000_0000_0000
    ensures InMemory(Swap64(v), 8) == BigEndian(v, 8)
    ensures Swap64(Swap64(v)) == v
  {
    var high, low, high', low' := Swap64Parts(v);
    ReversedValue(high, low, high', low', v, Swap64(v));
  }
}
