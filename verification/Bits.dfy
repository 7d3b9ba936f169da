/** Bit operations on natural numbers, one bit at a time.  A machine word of w
    bits is a number below Pow2(w). */
module Bits {

  const WORD_MODULUS: nat := 0x1_0000_0000_0000_0000

  function Pow2(k: nat): (r: nat)
    ensures r >= 1
  {
    if k == 0 then 1 else 2 * Pow2(k - 1)
  }

  function Shr(x: nat, k: nat): nat
    decreases k
  {
    if k == 0 then x else Shr(x / 2, k - 1)
  }

  function And(a: nat, b: nat): nat
    decreases a
  {
    if a == 0 || b == 0 then 0
    else (if a % 2 == 1 && b % 2 == 1 then 1 else 0) + 2 * And(a / 2, b / 2)
  }

  function Or(a: nat, b: nat): nat
    decreases a
  {
    if a == 0 then b else if b == 0 then a
    else (if a % 2 == 1 || b % 2 == 1 then 1 else 0) + 2 * Or(a / 2, b / 2)
  }

  function Xor(a: nat, b: nat): nat
    decreases a
  {
    if a == 0 then b else if b == 0 then a
    else (a + b) % 2 + 2 * Xor(a / 2, b / 2)
  }

  // ---------------------------------------------------------------------
  // Division
  // ---------------------------------------------------------------------

  lemma DivModUnique(x: nat, d: nat, q: nat, r: nat)
    requires d > 0 && x == q * d + r && r < d
    ensures x / d == q && x % d == r
  {
    var p := x / d;
    assert x == p * d + x % d;
    if p > q { NextMultiple(q, p, d); }
    if p < q { NextMultiple(p, q, d); }
  }

  lemma NextMultiple(a: nat, b: nat, d: nat)
    requires a < b
    ensures a * d + d <= b * d
    decreases b
  {
    if b > a + 1 { NextMultiple(a, b - 1, d); }
    assert b * d == (b - 1) * d + d;
  }

  lemma HalvesOf(x: nat, h: nat, b: nat)
    requires x == 2 * h + b && b < 2
    ensures x / 2 == h && x % 2 == b
  {
    DivModUnique(x, 2, h, b);
  }

  lemma HalfBelow(x: nat, p: nat)
    requires x < 2 * p
    ensures x / 2 < p
  {
  }

  lemma Twice(a: nat, b: nat)
    ensures a * (2 * b) == 2 * (a * b)
  {
  }

  /** Adding less than the modulus wraps at most once. */
  lemma ModAdd(c: nat, d: nat, m: nat)
    requires d < m
    ensures (c + d) % m == if c % m + d < m then c % m + d else c % m + d - m
  {
    var q, r := c / m, c % m;
    assert c == q * m + r;
    if r + d < m {
      DivModUnique(c + d, m, q, r + d);
    } else {
      MulNext(q, m);
      DivModUnique(c + d, m, q + 1, r + d - m);
    }
  }

  lemma MulNext(q: nat, m: nat)
    ensures (q + 1) * m == q * m + m
  {
  }

  lemma ModStep(x: nat, m: nat)
    requires m > 0
    ensures x % (2 * m) == x % 2 + 2 * ((x / 2) % m)
    ensures x / (2 * m) == x / 2 / m
  {
    var h := x / 2;
    var q, r := h / m, h % m;
    assert h == q * m + r;
    Twice(q, m);
    DivModUnique(x, 2 * m, q, x % 2 + 2 * r);
  }

  lemma {:induction false} ShrIsDiv(x: nat, k: nat)
    ensures Shr(x, k) == x / Pow2(k)
  {
    if k > 0 {
      ShrIsDiv(x / 2, k - 1);
      ModStep(x, Pow2(k - 1));
    }
  }

  lemma {:induction false} Pow2Increases(a: nat, b: nat)
    requires a <= b
    ensures Pow2(a) <= Pow2(b)
    decreases b
  {
    if a < b { Pow2Increases(a, b - 1); }
  }

  lemma {:induction false} Pow2Sum(a: nat, b: nat)
    ensures Pow2(a + b) == Pow2(a) * Pow2(b)
    decreases a
  {
    if a > 0 {
      Pow2Sum(a - 1, b);
      assert Pow2(a) * Pow2(b) == 2 * (Pow2(a - 1) * Pow2(b));
    }
  }

  lemma Double(k: nat, p: nat) returns (r: nat)
    requires Pow2(k) == p
    ensures r == 2 * k && Pow2(r) == p * p
  {
    Pow2Sum(k, k);
    r := k + k;
  }

  /** A 64-bit word. */
  lemma WordBits() returns (w: nat)
    ensures w == 64 && Pow2(w) == WORD_MODULUS && Pow2(w - 1) == WORD_MODULUS / 2
  {
    w := Double(4, 16);
    w := Double(w, 0x100);
    w := Double(w, 0x1_0000);
    w := Double(w, 0x1_0000_0000);
  }

  // ---------------------------------------------------------------------
  // Bit by bit
  // ---------------------------------------------------------------------

  /** Bit k of x. */
  function Bit(x: nat, k: nat): nat {
    Shr(x, k) % 2
  }

  /** The three operations are what they should be in every bit. */
  lemma {:induction false} BitOf(a: nat, b: nat, k: nat)
    ensures Bit(And(a, b), k) == if Bit(a, k) == 1 && Bit(b, k) == 1 then 1 else 0
    ensures Bit(Or(a, b), k) == if Bit(a, k) == 1 || Bit(b, k) == 1 then 1 else 0
    ensures Bit(Xor(a, b), k) == if Bit(a, k) == Bit(b, k) then 0 else 1
  {
    if k == 0 {
      LastBits(a, b);
    } else {
      AndHalves(a, b);
      OrHalves(a, b);
      XorHalves(a, b);
      BitOf(a / 2, b / 2, k - 1);
    }
  }

  lemma LastBits(a: nat, b: nat)
    ensures And(a, b) % 2 == if a % 2 == 1 && b % 2 == 1 then 1 else 0
    ensures Or(a, b) % 2 == if a % 2 == 1 || b % 2 == 1 then 1 else 0
    ensures Xor(a, b) % 2 == if a % 2 == b % 2 then 0 else 1
  {
    AndHalves(a, b);
    OrHalves(a, b);
    XorLast(a, b);
  }

  lemma AndHalves(a: nat, b: nat)
    ensures And(a, b) / 2 == And(a / 2, b / 2)
    ensures And(a, b) % 2 == if a % 2 == 1 && b % 2 == 1 then 1 else 0
  {
    if a != 0 && b != 0 { HalvesOf(And(a, b), And(a / 2, b / 2), if a % 2 == 1 && b % 2 == 1 then 1 else 0); }
  }

  // ---------------------------------------------------------------------
  // Masks
  // ---------------------------------------------------------------------

  lemma AndOdd(x: nat, m: nat, h: nat)
    requires m == 2 * h + 1
    ensures And(x, m) == x % 2 + 2 * And(x / 2, h)
  {
    assert m % 2 == 1 && m / 2 == h;
    if x > 0 && (x % 2 == 1) { assert And(x, m) == 1 + 2 * And(x / 2, m / 2); }
  }

  lemma {:induction false} AndMaskStep(x: nat, p: nat)
    requires p > 0 && And(x / 2, p - 1) == x / 2 % p
    ensures And(x, 2 * p - 1) == x % (2 * p)
  {
    AndOdd(x, 2 * p - 1, p - 1);
    ModStep(x, p);
  }

  /** Masking with a power of two less one is the remainder. */
  lemma {:induction false} AndMask(x: nat, k: nat)
    ensures And(x, Pow2(k) - 1) == x % Pow2(k)
  {
    if k > 0 {
      AndMask(x / 2, k - 1);
      AndMaskStep(x, Pow2(k - 1));
    }
  }

  // ---------------------------------------------------------------------
  // Exclusive or
  // ---------------------------------------------------------------------

  lemma {:induction false} XorHalves(a: nat, b: nat)
    ensures Xor(a, b) % 2 == (a + b) % 2 && Xor(a, b) / 2 == Xor(a / 2, b / 2)
  {
    if a != 0 && b != 0 { HalvesOf(Xor(a, b), Xor(a / 2, b / 2), (a + b) % 2); }
  }

  lemma BitsEqual(a: nat, b: nat)
    requires a % 2 == b % 2 && a / 2 == b / 2
    ensures a == b
  {
  }

  lemma XorZero(a: nat)
    ensures Xor(a, 0) == a && Xor(0, a) == a
  {
  }

  lemma {:induction false} XorAssociates(a: nat, b: nat, c: nat)
    ensures Xor(Xor(a, b), c) == Xor(a, Xor(b, c))
  {
    if a == 0 && b == 0 && c == 0 {
    } else {
      XorAssociates(a / 2, b / 2, c / 2);
      XorTwice(a, b, c);
    }
  }

  /** In the last bit, exclusive or tells whether the two differ. */
  lemma XorLast(a: nat, b: nat)
    ensures Xor(a, b) % 2 == if a % 2 == b % 2 then 0 else 1
    ensures Xor(a, b) / 2 == Xor(a / 2, b / 2)
  {
    XorHalves(a, b);
    SumLast(a / 2, a % 2, b / 2, b % 2);
  }

  lemma SumLast(a: nat, x: nat, b: nat, y: nat)
    requires x < 2 && y < 2
    ensures (2 * a + x + (2 * b + y)) % 2 == if x == y then 0 else 1
  {
    if x == y {
      HalvesOf(2 * a + x + (2 * b + y), a + b + x, 0);
    } else {
      HalvesOf(2 * a + x + (2 * b + y), a + b, 1);
    }
  }

  lemma XorTwice(a: nat, b: nat, c: nat)
    requires Xor(Xor(a / 2, b / 2), c / 2) == Xor(a / 2, Xor(b / 2, c / 2))
    ensures Xor(Xor(a, b), c) == Xor(a, Xor(b, c))
  {
    XorLast(a, b);
    XorLast(b, c);
    XorLast(Xor(a, b), c);
    XorLast(a, Xor(b, c));
    SameBits(a % 2, b % 2, c % 2, Xor(a, b), Xor(b, c), Xor(Xor(a, b), c), Xor(a, Xor(b, c)));
  }

  lemma SameBits(a: nat, b: nat, c: nat, x: nat, y: nat, l: nat, r: nat)
    requires a < 2 && b < 2 && c < 2 && l / 2 == r / 2
    requires x % 2 == (if a == b then 0 else 1) && y % 2 == (if b == c then 0 else 1)
    requires l % 2 == (if x % 2 == c then 0 else 1) && r % 2 == (if a == y % 2 then 0 else 1)
    ensures l == r
  {
    BitsEqual(l, r);
  }

  /** Disjoint bits: exclusive or is addition, too. */
  lemma {:induction false} XorDisjoint(low: nat, high: nat, k: nat)
    requires low < Pow2(k)
    ensures Xor(high * Pow2(k), low) == low + high * Pow2(k)
    decreases k
  {
    if k > 0 {
      var h := high * Pow2(k - 1);
      Twice(high, Pow2(k - 1));
      HalfBelow(low, Pow2(k - 1));
      XorDisjoint(low / 2, high, k - 1);
      XorEven(low, h);
    } else {
      XorZero(high);
    }
  }

  lemma XorEven(low: nat, h: nat)
    requires Xor(h, low / 2) == low / 2 + h
    ensures Xor(2 * h, low) == low + 2 * h
  {
    HalvesOf(2 * h, h, 0);
    XorLast(2 * h, low);
    HalvesOf(2 * h + low, h + low / 2, low % 2);
    BitsEqual(Xor(2 * h, low), 2 * h + low);
  }

  /** The low bits of an exclusive or depend on the low bits only. */
  lemma {:induction false} XorLow(a: nat, b: nat, k: nat)
    ensures Xor(a, b) % Pow2(k) == Xor(a % Pow2(k), b % Pow2(k))
  {
    if k > 0 {
      var m := Pow2(k - 1);
      XorLow(a / 2, b / 2, k - 1);
      XorLowStep(a, b, Xor(a, b), a % Pow2(k), b % Pow2(k), k);
    }
  }

  lemma XorLowStep(a: nat, b: nat, x: nat, a': nat, b': nat, k: nat)
    requires k > 0 && x == Xor(a, b) && a' == a % Pow2(k) && b' == b % Pow2(k)
    requires Xor(a / 2, b / 2) % Pow2(k - 1) == Xor(a / 2 % Pow2(k - 1), b / 2 % Pow2(k - 1))
    ensures x % Pow2(k) == Xor(a', b')
  {
    LowBits(a, k);
    LowBits(b, k);
    LowBits(x, k);
    XorHalves(a, b);
    XorHalves(a', b');
    SameParity(a, b, a', b');
    BitsEqual(x % Pow2(k), Xor(a', b'));
  }

  lemma SameParity(a: nat, b: nat, a': nat, b': nat)
    requires a % 2 == a' % 2 && b % 2 == b' % 2
    ensures (a + b) % 2 == (a' + b') % 2
  {
  }

  lemma LowBits(x: nat, k: nat)
    requires k > 0
    ensures x % Pow2(k) % 2 == x % 2 && x % Pow2(k) / 2 == x / 2 % Pow2(k - 1)
  {
    ModStep(x, Pow2(k - 1));
  }

  lemma {:induction false} XorBelow(a: nat, b: nat, k: nat)
    requires a < Pow2(k) && b < Pow2(k)
    ensures Xor(a, b) < Pow2(k)
  {
    if k > 0 {
      XorBelow(a / 2, b / 2, k - 1);
      XorHalves(a, b);
    }
  }

  /** Adding an odd number flips the lowest bit. */
  lemma FlippedBit(h: nat, b: nat, g: nat)
    requires b < 2
    ensures (2 * h + b + (2 * g + 1)) % 2 == 1 - b
  {
    if b == 0 { HalvesOf(2 * h + b + (2 * g + 1), h + g, 1); } else { HalvesOf(2 * h + b + (2 * g + 1), h + g + 1, 0); }
  }

  lemma XorOdd(x: nat, m: nat, h: nat)
    requires m == 2 * h + 1 && Xor(x / 2, h) == h - x / 2
    ensures Xor(x, m) == m - x
  {
    var y, b, r := x / 2, x % 2, Xor(x, m);
    XorHalves(x, m);
    HalvesOf(m, h, 1);
    FlippedBit(y, b, h);
    assert r / 2 == h - y && r % 2 == 1 - b;
  }

  /** Exclusive or with all ones is the complement. */
  lemma {:induction false} XorOnes(x: nat, k: nat)
    requires x < Pow2(k)
    ensures Xor(x, Pow2(k) - 1) == Pow2(k) - 1 - x
  {
    if k > 0 {
      var p := Pow2(k - 1);
      HalfBelow(x, p);
      XorOnes(x / 2, k - 1);
      XorOdd(x, 2 * p - 1, p - 1);
    }
  }

  // ---------------------------------------------------------------------
  // Inclusive or and shifts
  // ---------------------------------------------------------------------

  lemma OrHalves(a: nat, b: nat)
    ensures Or(a, b) / 2 == Or(a / 2, b / 2)
    ensures Or(a, b) % 2 == if a % 2 == 1 || b % 2 == 1 then 1 else 0
  {
  }

  lemma {:induction false} OrShr(a: nat, b: nat, k: nat)
    ensures Shr(Or(a, b), k) == Or(Shr(a, k), Shr(b, k))
    decreases k
  {
    if k > 0 {
      OrHalves(a, b);
      OrShr(a / 2, b / 2, k - 1);
    }
  }

  lemma {:induction false} ShrShr(x: nat, a: nat, b: nat)
    ensures Shr(Shr(x, a), b) == Shr(x, a + b)
    decreases a
  {
    if a > 0 { ShrShr(x / 2, a - 1, b); }
  }

  lemma {:induction false} ShrShrinks(x: nat, k: nat)
    ensures Shr(x, k) <= x
    decreases k
  {
    if k > 0 { ShrShrinks(x / 2, k - 1); }
  }

  /** Disjoint bits: or is addition. */
  lemma {:induction false} OrDisjoint(low: nat, high: nat, k: nat)
    requires low < Pow2(k)
    ensures Or(low, high * Pow2(k)) == low + high * Pow2(k)
    decreases k
  {
    if k > 0 {
      var h := high * Pow2(k - 1);
      Twice(high, Pow2(k - 1));
      HalfBelow(low, Pow2(k - 1));
      OrDisjoint(low / 2, high, k - 1);
      OrEven(low, h);
    }
  }

  lemma OrEven(low: nat, h: nat)
    requires Or(low / 2, h) == low / 2 + h
    ensures Or(low, 2 * h) == low + 2 * h
  {
    HalvesOf(2 * h, h, 0);
    OrHalves(low, 2 * h);
  }

  lemma {:induction false} OrBelow(a: nat, b: nat, k: nat)
    requires a < Pow2(k) && b < Pow2(k)
    ensures Or(a, b) < Pow2(k)
  {
    if k > 0 {
      OrBelow(a / 2, b / 2, k - 1);
      OrHalves(a, b);
    }
  }

  lemma {:induction false} OrOnes(x: nat, k: nat)
    requires x < Pow2(k)
    ensures Or(Pow2(k) - 1, x) == Pow2(k) - 1
  {
    if k > 0 {
      OrOnes(x / 2, k - 1);
      OrHalves(Pow2(k) - 1, x);
      assert (Pow2(k) - 1) / 2 == Pow2(k - 1) - 1;
    }
  }

  lemma {:induction false} ShrOnes(m: nat, s: nat)
    requires s <= m
    ensures Shr(Pow2(m) - 1, m - s) == Pow2(s) - 1
    decreases m
  {
    if s < m {
      assert (Pow2(m) - 1) / 2 == Pow2(m - 1) - 1;
      ShrOnes(m - 1, s);
    }
  }

  /** Filling the low s bits of a number whose other j bits are all ones. */
  lemma {:induction false} OrFill(x: nat, s: nat, j: nat)
    requires Shr(x, s) == Pow2(j) - 1
    ensures Or(x, Pow2(s) - 1) == Pow2(j + s) - 1
    decreases s
  {
    if s > 0 {
      OrFill(x / 2, s - 1, j);
      OrHalves(x, Pow2(s) - 1);
      assert (Pow2(s) - 1) / 2 == Pow2(s - 1) - 1;
    }
  }
}
