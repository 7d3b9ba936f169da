/** Bytes on the wire: big-endian integers, two's complement, and the base-128
    varint, shared by the C++ helpers and both clients. */
module WireBytes {
  import opened Bits

  type byte = x: int | 0 <= x < 256

  type Bytes = seq<byte>

  // ---------------------------------------------------------------------
  // Big-endian integers
  // ---------------------------------------------------------------------

  /** The low n bytes of v, most significant first. */
  function BigEndian(v: nat, n: nat): (b: Bytes)
    ensures |b| == n
  {
    if n == 0 then [] else BigEndian(v / 256, n - 1) + [v % 256]
  }

  function FromBigEndian(b: Bytes): nat {
    if b == [] then 0 else FromBigEndian(b[..|b| - 1]) * 256 + b[|b| - 1]
  }

  function Range(n: nat): nat { if n == 0 then 1 else 256 * Range(n - 1) }

  lemma {:induction false} BigEndianReads(v: nat, n: nat)
    requires v < Range(n)
    ensures FromBigEndian(BigEndian(v, n)) == v
  {
    if n > 0 {
      BigEndianReads(v / 256, n - 1);
      assert BigEndian(v, n)[..n - 1] == BigEndian(v / 256, n - 1);
    }
  }

  lemma {:induction false} FromBigEndianBelow(b: Bytes)
    ensures FromBigEndian(b) < Range(|b|)
  {
    if b != [] { FromBigEndianBelow(b[..|b| - 1]); }
  }

  lemma {:induction false} BigEndianWrites(b: Bytes)
    ensures BigEndian(FromBigEndian(b), |b|) == b
  {
    if b != [] {
      BigEndianWrites(b[..|b| - 1]);
    }
  }

  /** The unsigned number in the two, or four, bytes from i on. */
  function U16(d: Bytes, i: nat): nat
    requires i + 2 <= |d|
  {
    0x100 * d[i] as nat + d[i + 1]
  }

  function U32(d: Bytes, i: nat): nat
    requires i + 4 <= |d|
  {
    0x100_0000 * d[i] as nat + 0x1_0000 * d[i + 1] as nat + 0x100 * d[i + 2] as nat + d[i + 3]
  }

  lemma Windows(d: Bytes, i: nat)
    ensures i + 2 <= |d| ==> U16(d[i..i + 2], 0) == U16(d, i)
    ensures i + 4 <= |d| ==> U32(d[i..i + 4], 0) == U32(d, i)
  {
  }

  lemma FromBigEndianEnds(d: Bytes, i: nat, n: nat)
    requires i < n <= |d|
    ensures FromBigEndian(d[i..n]) == FromBigEndian(d[i..n - 1]) * 256 + d[n - 1]
  {
    assert d[i..n][..n - i - 1] == d[i..n - 1];
  }

  lemma BigEndianIsU16(d: Bytes, i: nat)
    requires i + 2 <= |d|
    ensures FromBigEndian(d[i..i + 2]) == U16(d, i)
  {
    FromBigEndianEnds(d, i, i + 1);
    FromBigEndianEnds(d, i, i + 2);
  }

  lemma BigEndianIsU32(d: Bytes, i: nat)
    requires i + 4 <= |d|
    ensures FromBigEndian(d[i..i + 4]) == U32(d, i)
  {
    FromBigEndianEnds(d, i, i + 1);
    FromBigEndianEnds(d, i, i + 2);
    FromBigEndianEnds(d, i, i + 3);
    FromBigEndianEnds(d, i, i + 4);
  }

  // ---------------------------------------------------------------------
  // Two's complement
  // ---------------------------------------------------------------------

  /** v converted to an unsigned type of that modulus. */
  function ToUnsigned(v: int, modulus: nat): (u: nat)
    requires modulus > 0
    ensures u < modulus
  {
    v % modulus
  }

  /** An unsigned value reinterpreted as signed. */
  function ToSigned(u: nat, modulus: nat): int
    requires u < modulus
  {
    if u < modulus / 2 then u else u - modulus
  }

  predicate Fits(v: int, modulus: nat) {
    0 <= v + modulus / 2 < modulus
  }

  lemma SignedRoundTrip(v: int, modulus: nat)
    requires modulus > 0 && modulus % 2 == 0 && Fits(v, modulus)
    ensures ToSigned(ToUnsigned(v, modulus), modulus) == v
  {
    if v >= 0 {
      DivModUnique(v, modulus, 0, v);
    } else {
      NegativeMod(v, modulus);
    }
  }

  lemma NegativeMod(v: int, modulus: nat)
    requires 0 <= v + modulus && v < 0
    ensures v % modulus == v + modulus
  {
    var d := v / modulus + 1;
    assert d * modulus == v / modulus * modulus + modulus;
    assert d * modulus + v % modulus == v + modulus;
    if d > 0 {
      NextMultiple(0, d, modulus);
    } else if d < 0 {
      NextMultiple(0, -d, modulus);
    }
  }

  lemma MulSign(a: nat, b: nat)
    ensures a * b >= 0
  {
  }

  // ---------------------------------------------------------------------
  // Base-128 varints
  // ---------------------------------------------------------------------

  /** Seven bits a byte, least significant first; the top bit says more follow. */
  function Leb(v: nat): (b: Bytes)
    ensures |b| > 0
  {
    if v < 0x80 then [v] else [v % 0x80 + 0x80] + Leb(v / 0x80)
  }

  function Pow128(n: nat): (r: nat)
    ensures r > 0
  {
    if n == 0 then 1 else 0x80 * Pow128(n - 1)
  }

  /** Byte i carries the i-th group of seven bits, and its top bit says whether more
      follow. */
  lemma {:induction false} LebAt(v: nat, i: nat)
    requires i < |Leb(v)|
    ensures Leb(v)[i] % 0x80 == v / Pow128(i) % 0x80
    ensures Leb(v)[i] >= 0x80 <==> i + 1 < |Leb(v)|
    decreases v
  {
    if v >= 0x80 && i > 0 {
      LebAt(v / 0x80, i - 1);
      DivDiv(v, Pow128(i - 1));
    }
  }

  lemma DivDiv(v: nat, p: nat)
    requires p > 0
    ensures v / 0x80 / p == v / (0x80 * p)
  {
    var q, r := v / 0x80 / p, v / 0x80 % p;
    assert v / 0x80 == q * p + r;
    GroupOf(q, p, r, v % 0x80);
    DivModUnique(v, 0x80 * p, q, 0x80 * r + v % 0x80);
  }

  lemma GroupOf(q: nat, p: nat, r: nat, g: nat)
    requires r < p && g < 0x80
    ensures 0x80 * (q * p + r) + g == q * (0x80 * p) + (0x80 * r + g) && 0x80 * r + g < 0x80 * p
  {
  }

  /** n bytes are enough exactly below 128^n. */
  lemma {:induction false} LebLength(v: nat, n: nat)
    requires n > 0
    ensures |Leb(v)| <= n <==> v < Pow128(n)
    decreases n
  {
    assert Pow128(n) == 0x80 * Pow128(n - 1);
    if v >= 0x80 && n > 1 {
      LebLength(v / 0x80, n - 1);
    }
  }

  lemma {:induction false} Pow128IsPow2(n: nat)
    ensures Pow128(n) == Pow2(7 * n)
  {
    if n > 0 {
      Pow128IsPow2(n - 1);
      Pow2Sum(7, 7 * (n - 1));
      assert Pow2(7) == 128;
    }
  }

  /** One more group of seven bits of v, added to those below `shift`. */
  lemma GroupAdded(out: nat, group: nat, shift: nat, w: nat)
    requires out < Pow2(shift) && group < 0x80 && shift < w && group * Pow2(shift) < Pow2(w)
    ensures Or(out, group * Pow2(shift) % Pow2(w)) == out + group * Pow2(shift)
  {
    DivModUnique(group * Pow2(shift), Pow2(w), 0, group * Pow2(shift));
    OrDisjoint(out, group, shift);
  }

  /** The number that groups of seven bits make up, whatever their top bits. */
  function LebValue(b: Bytes): nat {
    if b == [] then 0 else b[0] % 0x80 + 0x80 * LebValue(b[1..])
  }

  lemma {:induction false} LebValueEnds(b: Bytes, last: byte)
    ensures LebValue(b + [last]) == LebValue(b) + last % 0x80 * Pow128(|b|)
    ensures LebValue(b) < Pow128(|b|)
  {
    if b == [] {
      assert [last][1..] == [] && [] + [last] == [last];
    } else {
      LebValueEnds(b[1..], last);
      assert (b + [last])[1..] == b[1..] + [last];
      GroupsShift(last % 0x80, Pow128(|b| - 1));
    }
  }

  lemma GroupsShift(g: nat, p: nat)
    ensures 0x80 * (g * p) == g * (0x80 * p)
  {
  }

  lemma PowSplit(a: nat, w: nat)
    requires a <= w
    ensures Pow2(w) == Pow2(w - a) * Pow2(a)
  {
    Pow2Sum(w - a, a);
  }

  lemma CutProduct(g: nat, q: nat, r: nat, m: nat, p: nat)
    requires g == q * m + r && r < m && p > 0
    ensures g * p == q * (m * p) + r * p && r * p + p <= m * p
  {
    NextMultiple(r, m, p);
    assert (q * m) * p == q * (m * p);
  }

  /** Cut to a multiple of p, only what is below p and the low part of g are left. */
  lemma CutSum(x: nat, g: nat, m: nat, p: nat)
    requires x < p && m > 0
    ensures m * p > 0 && (x + g * p) % (m * p) == x + g % m * p
  {
    var q, r := g / m, g % m;
    assert g == q * m + r;
    CutProduct(g, q, r, m, p);
    DivModUnique(x + g * p, m * p, q, x + r * p);
  }

  /** One more group into the accumulator, as a sum modulo the word. */
  lemma GroupIn(x: nat, g: nat, a: nat, w: nat)
    requires a < w && x < Pow2(a)
    ensures Or(x, g * Pow2(a) % Pow2(w)) == (x + g * Pow2(a)) % Pow2(w)
  {
    var p, m := Pow2(a), Pow2(w - a);
    PowSplit(a, w);
    CutSum(0, g, m, p);
    CutSum(x, g, m, p);
    OrDisjoint(x, g % m, a);
  }

  lemma Multiples(x: nat, k: nat, m: nat)
    requires m > 0
    ensures k * m % m == 0 && (x + k * m) % m == x % m
  {
    DivModUnique(k * m, m, k, 0);
    assert x == x / m * m + x % m;
    MoreMultiples(x / m, k, m);
    DivModUnique(x + k * m, m, x / m + k, x % m);
  }

  lemma MoreMultiples(a: nat, b: nat, m: nat)
    ensures (a + b) * m == a * m + b * m
  {
  }

  lemma Associate(a: nat, b: nat, c: nat)
    ensures a * (b * c) == a * b * c
  {
  }

  /** A group past the word adds nothing. */
  lemma GroupPast(x: nat, g: nat, a: nat, w: nat)
    requires a >= w
    ensures g * Pow2(a) % Pow2(w) == 0 && (x + g * Pow2(a)) % Pow2(w) == x % Pow2(w)
  {
    PowSplit(w, a);
    Associate(g, Pow2(a - w), Pow2(w));
    Multiples(x, g * Pow2(a - w), Pow2(w));
  }
}
