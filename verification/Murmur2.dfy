/** The two Murmur2 implementations: Python's on unbounded integers with masks
    (clients/python/torrent_mq/producer.py) and Go's on wrapping uint32
    (clients/go/torrentmq/producer.go). */
module Murmur2 {
  import opened Bits
  import opened WireBytes

  const SEED: nat := 0x9747_B28C
  const M: nat := 0x5BD1_E995
  const MASK: nat := 0xFFFF_FFFF
  const WORD: nat := 0x1_0000_0000

  // ---------------------------------------------------------------------
  // Python
  // ---------------------------------------------------------------------

  function Masked(x: nat): nat { And(x, MASK) }

  /** The block of four bytes at i, before mixing. */
  function PyWord(d: Bytes, i: nat): nat
    requires i + 4 <= |d|
  {
    Or(Or(Or(And(d[i], 0xFF), And(d[i + 1], 0xFF) * 0x100),
          And(d[i + 2], 0xFF) * 0x1_0000),
       And(d[i + 3], 0xFF) * 0x100_0000)
  }

  function PyMix(k: nat): nat {
    var k := Masked(k * M);
    var k := Xor(k, k / 0x100_0000);
    Masked(k * M)
  }

  function PyBlocks(h: nat, d: Bytes, i: nat): nat
    requires i <= |d|
    decreases |d| - i
  {
    if |d| - i < 4 then h
    else PyBlocks(Xor(Masked(h * M), PyMix(PyWord(d, i))), d, i + 4)
  }

  /** The bytes left over: t of them, from i on. */
  function PyTail(h: nat, d: Bytes, i: nat, t: nat): nat
    requires i + t <= |d| && t < 4
  {
    var h := if t == 3 then Xor(h, And(d[i + 2], 0xFF) * 0x1_0000) else h;
    var h := if t >= 2 then Xor(h, And(d[i + 1], 0xFF) * 0x100) else h;
    if t >= 1 then Masked(Xor(h, And(d[i], 0xFF)) * M) else h
  }

  function PyFinish(h: nat): nat {
    var h := Xor(h, h / 0x2000);
    var h := Masked(h * M);
    And(Xor(h, h / 0x8000), 0x7FFF_FFFF)
  }

  /** Where the tail starts. */
  function TailStart(d: Bytes): nat { |d| - |d| % 4 }

  function PyHash(d: Bytes): nat {
    PyFinish(PyTail(PyBlocks(Xor(SEED, |d|), d, 0), d, TailStart(d), |d| % 4))
  }

  // ---------------------------------------------------------------------
  // Go
  // ---------------------------------------------------------------------

  /** uint32 arithmetic */
  function Wrap(x: nat): nat { x % WORD }

  function GoWord(d: Bytes, i: nat): nat
    requires i + 4 <= |d|
  {
    Or(Or(Or(d[i], Wrap((d[i + 1] as nat) * 0x100)), Wrap((d[i + 2] as nat) * 0x1_0000)),
       Wrap((d[i + 3] as nat) * 0x100_0000))
  }

  function GoMix(k: nat): nat {
    var k := Wrap(k * M);
    var k := Xor(k, k / 0x100_0000);
    Wrap(k * M)
  }

  function GoBlocks(h: nat, d: Bytes, i: nat): nat
    requires i <= |d|
    decreases |d| - i
  {
    if |d| - i < 4 then h
    else GoBlocks(Xor(Wrap(h * M), GoMix(GoWord(d, i))), d, i + 4)
  }

  /** The switch, each case falling through to the next. */
  function GoTail(h: nat, d: Bytes, i: nat, t: nat): nat
    requires i + t <= |d| && t < 4
  {
    match t
    case 0 => h
    case 1 => Wrap(Xor(h, d[i]) * M)
    case 2 => Wrap(Xor(Xor(h, Wrap((d[i + 1] as nat) * 0x100)), d[i]) * M)
    case 3 => Wrap(Xor(Xor(Xor(h, Wrap((d[i + 2] as nat) * 0x1_0000)), Wrap((d[i + 1] as nat) * 0x100)), d[i]) * M)
  }

  function GoFinish(h: nat): nat {
    var h := Xor(h, h / 0x2000);
    var h := Wrap(h * M);
    Xor(h, h / 0x8000)
  }

  function GoHash(d: Bytes): nat {
    GoFinish(GoTail(GoBlocks(Xor(SEED, Wrap(|d|)), d, 0), d, TailStart(d), |d| % 4))
  }

  // ---------------------------------------------------------------------
  // Agreement
  // ---------------------------------------------------------------------

  lemma Bits32() returns (w: nat)
    ensures w == 32 && Pow2(w) == WORD && Pow2(w - 1) == 0x8000_0000
  {
    w := Double(4, 16);
    w := Double(w, 0x100);
    w := Double(w, 0x1_0000);
  }

  lemma MaskedIsWrap(x: nat)
    ensures Masked(x) == Wrap(x) < WORD
  {
    var w := Bits32();
    AndMask(x, w);
  }

  lemma MaskBelow(x: nat, k: nat, m: nat)
    requires m == Pow2(k) - 1 && x <= m
    ensures And(x, m) == x
  {
    AndMask(x, k);
    DivModUnique(x, m + 1, 0, x);
  }

  lemma ByteMask(b: byte)
    ensures And(b, 0xFF) == b
  {
    var k := Double(4, 16);
    MaskBelow(b, k, 0xFF);
  }

  lemma Fit32(x: nat)
    requires x < WORD
    ensures Wrap(x) == x
  {
  }

  lemma Xor32(a: nat, b: nat)
    requires a < WORD && b < WORD
    ensures Xor(a, b) < WORD
  {
    var w := Bits32();
    XorBelow(a, b, w);
  }

  lemma XorWrap(a: nat, b: nat)
    ensures Wrap(Xor(a, b)) == Xor(Wrap(a), Wrap(b))
  {
    var w := Bits32();
    XorLow(a, b, w);
  }

  /** A product modulo n depends on its factors modulo n. */
  lemma WrapProduct(a: nat)
    ensures Wrap(a * M) == Wrap(Wrap(a) * M)
  {
    var q, r := a / WORD, a % WORD;
    assert a * M == (q * M) * WORD + r * M;
    MulMod(q * M, r * M);
  }

  lemma MulMod(q: nat, x: nat)
    ensures Wrap(q * WORD + x) == Wrap(x)
  {
  }

  lemma WordsAgree(d: Bytes, i: nat)
    requires i + 4 <= |d|
    ensures PyWord(d, i) == GoWord(d, i)
  {
    ByteMask(d[i]);
    ByteMask(d[i + 1]);
    ByteMask(d[i + 2]);
    ByteMask(d[i + 3]);
    Fit32((d[i + 1] as nat) * 0x100);
    Fit32((d[i + 2] as nat) * 0x1_0000);
    Fit32((d[i + 3] as nat) * 0x100_0000);
  }

  /** Both assemble the block as a little-endian number. */
  lemma WordIsLittleEndian(d: Bytes, i: nat)
    requires i + 4 <= |d|
    ensures PyWord(d, i) == GoWord(d, i) ==
            d[i] + 0x100 * d[i + 1] as nat + 0x1_0000 * d[i + 2] as nat + 0x100_0000 * d[i + 3] as nat < WORD
  {
    WordsAgree(d, i);
    Fit32((d[i + 1] as nat) * 0x100);
    Fit32((d[i + 2] as nat) * 0x1_0000);
    Fit32((d[i + 3] as nat) * 0x100_0000);
    assert Pow2(8) == 0x100 && Pow2(16) == 0x1_0000 && Pow2(24) == 0x100_0000;
    var two := d[i] + (d[i + 1] as nat) * 0x100;
    var three := two + (d[i + 2] as nat) * 0x1_0000;
    OrDisjoint(d[i], d[i + 1], 8);
    OrDisjoint(two, d[i + 2], 16);
    OrDisjoint(three, d[i + 3], 24);
  }

  lemma MixesAgree(k: nat)
    ensures PyMix(k) == GoMix(k) < WORD
  {
    MaskedIsWrap(k * M);
    var k1 := Wrap(k * M);
    MaskedIsWrap(Xor(k1, k1 / 0x100_0000) * M);
  }

  /** One block brings both to the same 32-bit state. */
  lemma BlockStep(h: nat, d: Bytes, i: nat) returns (h': nat)
    requires i + 4 <= |d|
    ensures h' == Xor(Masked(h * M), PyMix(PyWord(d, i))) == Xor(Wrap(Wrap(h) * M), GoMix(GoWord(d, i)))
    ensures h' < WORD && Wrap(h') == h'
  {
    WordsAgree(d, i);
    MixesAgree(PyWord(d, i));
    MaskedIsWrap(h * M);
    WrapProduct(h);
    h' := Xor(Masked(h * M), PyMix(PyWord(d, i)));
    Xor32(Masked(h * M), PyMix(PyWord(d, i)));
    Fit32(h');
  }

  /** From states that agree modulo 2^32, the loops reach states that agree
      modulo 2^32, and exactly if a block was read or they agreed exactly. */
  lemma {:induction false} BlocksAgree(h: nat, g: nat, d: Bytes, i: nat)
    requires i <= |d| && g == Wrap(h)
    ensures GoBlocks(g, d, i) == Wrap(PyBlocks(h, d, i))
    ensures h < WORD || |d| - i >= 4 ==> PyBlocks(h, d, i) < WORD
    decreases |d| - i
  {
    if |d| - i >= 4 {
      var h' := BlockStep(h, d, i);
      BlocksAgree(h', h', d, i + 4);
    } else if h < WORD {
      Fit32(h);
    }
  }

  lemma TailsAgree(h: nat, d: Bytes, i: nat, t: nat)
    requires i + t <= |d| && t < 4 && h < WORD
    ensures PyTail(h, d, i, t) == GoTail(h, d, i, t) < WORD
  {
    if t >= 1 {
      ByteMask(d[i]);
      var h3 := if t == 3 then Xor(h, And(d[i + 2], 0xFF) * 0x1_0000) else h;
      var h2 := if t >= 2 then Xor(h3, And(d[i + 1], 0xFF) * 0x100) else h3;
      if t == 3 {
        ByteMask(d[i + 2]);
        Fit32((d[i + 2] as nat) * 0x1_0000);
      }
      if t >= 2 {
        ByteMask(d[i + 1]);
        Fit32((d[i + 1] as nat) * 0x100);
      }
      MaskedIsWrap(Xor(h2, d[i]) * M);
    }
  }

  lemma FinishAgrees(h: nat)
    requires h < WORD
    ensures GoFinish(h) < WORD
    ensures PyFinish(h) == GoFinish(h) % 0x8000_0000
  {
    var h1 := Xor(h, h / 0x2000);
    MaskedIsWrap(h1 * M);
    var h2 := Wrap(h1 * M);
    Xor32(h2, h2 / 0x8000);
    var w := Bits32();
    AndMask(Xor(h2, h2 / 0x8000), w - 1);
  }

  /** For every byte string, of any length, the Python hash is the Go hash with
      its top bit cleared. */
  lemma HashesAgree(d: Bytes)
    ensures GoHash(d) < WORD
    ensures PyHash(d) == GoHash(d) % 0x8000_0000
  {
    var h, g := Xor(SEED, |d|), Xor(SEED, Wrap(|d|));
    XorWrap(SEED, |d|);
    Fit32(SEED);
    if |d| < 4 { Xor32(SEED, |d|); }
    BlocksAgree(h, g, d, 0);
    var h' := PyBlocks(h, d, 0);
    Fit32(h');
    TailsAgree(h', d, TailStart(d), |d| % 4);
    FinishAgrees(PyTail(h', d, TailStart(d), |d| % 4));
  }

  // ---------------------------------------------------------------------
  // The published algorithm
  // ---------------------------------------------------------------------

  /** Murmur2 as it is published, with the seed of the Kafka clients: on the key as
      little-endian numbers, four bytes at a time and then what is left at once. */
  function Published(d: Bytes): nat {
    var h := Absorb(Xor(2538058380, |d| % 4294967296), d);
    var rest := d[TailStart(d)..];
    var h := if rest == [] then h else Times(Xor(h, LittleEndian(rest)));
    Stir(Times(Stir(h, 13)), 15)
  }

  function Times(x: nat): nat { x * 1540483477 % 4294967296 }

  /** A word crossed with its own high bits. */
  function Stir(x: nat, n: nat): nat { Xor(x, Shr(x, n)) }

  function LittleEndian(b: Bytes): nat {
    if b == [] then 0 else b[0] + 256 * LittleEndian(b[1..])
  }

  function Absorb(h: nat, d: Bytes): nat
    decreases |d|
  {
    if |d| < 4 then h
    else Absorb(Xor(Times(h), Times(Stir(Times(LittleEndian(d[..4])), 24))), d[4..])
  }

  lemma StirIs(x: nat)
    ensures Stir(x, 13) == Xor(x, x / 0x2000) && Stir(x, 15) == Xor(x, x / 0x8000)
    ensures Stir(x, 24) == Xor(x, x / 0x100_0000)
  {
    ShrIsDiv(x, 13);
    ShrIsDiv(x, 15);
    ShrIsDiv(x, 24);
    assert Pow2(13) == 0x2000 && Pow2(15) == 0x8000 && Pow2(24) == 0x100_0000;
  }

  lemma LittleEndianStarts(d: Bytes, i: nat, n: nat)
    requires i < n <= |d|
    ensures LittleEndian(d[i..n]) == d[i] + 256 * LittleEndian(d[i + 1..n])
  {
    assert d[i..n][1..] == d[i + 1..n];
  }

  lemma FourBytes(d: Bytes, i: nat)
    requires i + 4 <= |d|
    ensures LittleEndian(d[i..i + 4]) == GoWord(d, i)
  {
    WordIsLittleEndian(d, i);
    LittleEndianStarts(d, i, i + 4);
    LittleEndianStarts(d, i + 1, i + 4);
    LittleEndianStarts(d, i + 2, i + 4);
    LittleEndianStarts(d, i + 3, i + 4);
  }

  lemma {:induction false} AbsorbIs(h: nat, d: Bytes, i: nat)
    requires i <= |d|
    ensures GoBlocks(h, d, i) == Absorb(h, d[i..])
    decreases |d| - i
  {
    if |d| - i >= 4 {
      FourBytes(d, i);
      assert d[i..][..4] == d[i..i + 4] && d[i..][4..] == d[i + 4..];
      StirIs(Wrap(GoWord(d, i) * M));
      AbsorbIs(Xor(Wrap(h * M), GoMix(GoWord(d, i))), d, i + 4);
    }
  }

  lemma CrossTwo(h: nat, a: nat, b: nat)
    requires a < 0x100
    ensures Xor(Xor(h, b * 0x100), a) == Xor(h, a + 0x100 * b)
  {
    assert Pow2(8) == 0x100;
    XorAssociates(h, b * 0x100, a);
    XorDisjoint(a, b, 8);
  }

  lemma CrossThree(h: nat, a: nat, b: nat, c: nat)
    requires a < 0x100 && b < 0x100
    ensures Xor(Xor(Xor(h, c * 0x1_0000), b * 0x100), a) == Xor(h, a + 0x100 * b + c * 0x1_0000)
  {
    assert Pow2(8) == 0x100;
    var w := Double(8, 0x100);
    CrossTwo(Xor(h, c * 0x1_0000), a, b);
    CrossHigh(h, a + 0x100 * b, c, w);
  }

  lemma CrossHigh(h: nat, low: nat, c: nat, w: nat)
    requires Pow2(w) == 0x1_0000 && low < 0x1_0000
    ensures Xor(Xor(h, c * 0x1_0000), low) == Xor(h, low + c * 0x1_0000)
  {
    XorAssociates(h, c * 0x1_0000, low);
    XorDisjoint(low, c, w);
  }

  /** The bytes left over, crossed in one by one, are crossed in as one number. */
  lemma LeftOver(h: nat, d: Bytes, i: nat, t: nat)
    requires 0 < t < 4 && i + t == |d|
    ensures GoTail(h, d, i, t) == Times(Xor(h, LittleEndian(d[i..|d|])))
  {
    LittleEndianStarts(d, i, |d|);
    if t > 1 {
      LittleEndianStarts(d, i + 1, |d|);
      Fit32((d[i + 1] as nat) * 0x100);
    }
    if t > 2 {
      LittleEndianStarts(d, i + 2, |d|);
      Fit32((d[i + 2] as nat) * 0x1_0000);
      CrossThree(h, d[i], d[i + 1], d[i + 2]);
    } else if t > 1 {
      CrossTwo(h, d[i], d[i + 1]);
    }
  }

  /** The Go hash is the published one, and Python's is it without the top bit. */
  lemma HashIsPublished(d: Bytes)
    ensures GoHash(d) == Published(d) && PyHash(d) == Published(d) % 0x8000_0000
  {
    var h := Xor(SEED, Wrap(|d|));
    AbsorbIs(h, d, 0);
    assert d[0..] == d;
    var t, g := |d| % 4, GoBlocks(h, d, 0);
    assert d[TailStart(d)..] == d[TailStart(d)..|d|];
    if t > 0 { LeftOver(g, d, TailStart(d), t); }
    var h' := GoTail(g, d, TailStart(d), t);
    StirIs(h');
    StirIs(Wrap(Stir(h', 13) * M));
    HashesAgree(d);
  }

  // ---------------------------------------------------------------------
  // The loops
  // ---------------------------------------------------------------------

  lemma TailAt(n: nat, length: nat, size: nat)
    requires 4 * n + length == size && length < 4
    ensures size % 4 == length
  {
  }

  method PythonMixBlock(word: nat) returns (k: nat)
    ensures k == PyMix(word)
  {
    k := Masked(word * M);
    k := Xor(k, k / 0x100_0000);
    k := Masked(k * M);
  }

  lemma PyBlocksNext(h: nat, d: Bytes, i: nat)
    requires i + 4 <= |d|
    ensures PyBlocks(h, d, i) == PyBlocks(Xor(Masked(h * M), PyMix(PyWord(d, i))), d, i + 4)
  {
  }

  /** The block loop. */
  method PythonBlockLoop(data: Bytes) returns (h: nat, i: nat, length: nat)
    ensures h == PyBlocks(Xor(SEED, |data|), data, 0)
    ensures i == TailStart(data) && length == |data| % 4
  {
    length, h, i := |data|, Xor(SEED, |data|), 0;
    ghost var n := 0;
    while length >= 4
      invariant i + length == |data| && i == 4 * n
      invariant PyBlocks(h, data, i) == PyBlocks(Xor(SEED, |data|), data, 0)
    {
      var k := PythonMixBlock(PyWord(data, i));
      PyBlocksNext(h, data, i);
      h := Masked(h * M);
      h := Xor(h, k);
      length := length - 4;
      i := i + 4;
      n := n + 1;
    }
    TailAt(n, length, |data|);
  }

  method PythonRest(h0: nat, data: Bytes, i: nat, length: nat) returns (h: nat)
    requires i + length <= |data| && length < 4
    ensures h == PyTail(h0, data, i, length)
  {
    h := h0;
    if length == 3 { h := Xor(h, And(data[i + 2], 0xFF) * 0x1_0000); }
    if length >= 2 { h := Xor(h, And(data[i + 1], 0xFF) * 0x100); }
    if length >= 1 {
      h := Xor(h, And(data[i], 0xFF));
      h := Masked(h * M);
    }
  }

  method PythonMurmur2(data: Bytes) returns (hash: nat)
    ensures hash == PyHash(data) < 0x8000_0000
  {
    var h, i, length := PythonBlockLoop(data);
    h := PythonRest(h, data, i, length);
    h := Xor(h, h / 0x2000);
    h := Masked(h * M);
    h := Xor(h, h / 0x8000);
    hash := And(h, 0x7FFF_FFFF);
    HashesAgree(data);
  }

  method GoMixBlock(word: nat) returns (k: nat)
    ensures k == GoMix(word)
  {
    k := Wrap(word * M);
    k := Xor(k, k / 0x100_0000);
    k := Wrap(k * M);
  }

  lemma GoBlocksNext(h: nat, d: Bytes, i: nat)
    requires i + 4 <= |d|
    ensures GoBlocks(h, d, i) == GoBlocks(Xor(Wrap(h * M), GoMix(GoWord(d, i))), d, i + 4)
  {
  }

  /** The block loop. */
  method GoBlockLoop(data: Bytes) returns (h: nat, i: nat, length: nat)
    ensures h == GoBlocks(Xor(SEED, Wrap(|data|)), data, 0)
    ensures i == TailStart(data) && length == |data| % 4
  {
    length, h, i := |data|, Xor(SEED, Wrap(|data|)), 0;
    ghost var n := 0;
    while length >= 4
      invariant i + length == |data| && i == 4 * n
      invariant GoBlocks(h, data, i) == GoBlocks(Xor(SEED, Wrap(|data|)), data, 0)
    {
      var k := GoMixBlock(GoWord(data, i));
      GoBlocksNext(h, data, i);
      h := Wrap(h * M);
      h := Xor(h, k);
      length := length - 4;
      i := i + 4;
      n := n + 1;
    }
    TailAt(n, length, |data|);
  }

  method GoRest(h0: nat, data: Bytes, i: nat, length: nat) returns (h: nat)
    requires i + length <= |data| && length < 4
    ensures h == GoTail(h0, data, i, length)
  {
    h := h0;
    if length == 3 { h := Xor(h, Wrap((data[i + 2] as nat) * 0x1_0000)); }
    if length >= 2 { h := Xor(h, Wrap((data[i + 1] as nat) * 0x100)); }
    if length >= 1 {
      h := Xor(h, data[i]);
      h := Wrap(h * M);
    }
  }

  method GoMurmur2(data: Bytes) returns (hash: nat)
    ensures hash == GoHash(data) < WORD
  {
    var h, i, length := GoBlockLoop(data);
    h := GoRest(h, data, i, length);
    h := Xor(h, h / 0x2000);
    h := Wrap(h * M);
    h := Xor(h, h / 0x8000);
    hash := h;
    HashesAgree(data);
  }
}
