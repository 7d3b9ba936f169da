/** Capacity rounding and index masking of the ring buffer
    (include/torrent/common/circular_buffer.h). */
module RingArithmetic {
  import opened Bits

  /** The top j of x's b + 1 bits are ones; all of them once j exceeds b. */
  ghost predicate TopOnes(x: nat, b: nat, j: nat) {
    var top := if j < b + 1 then j else b + 1;
    Shr(x, b + 1 - top) == Pow2(top) - 1
  }

  /** `x |= x >> j` doubles the run of leading ones. */
  lemma {:induction false} SmearStep(x: nat, b: nat, j: nat)
    requires j > 0 && TopOnes(x, b, j)
    ensures TopOnes(Or(x, Shr(x, j)), b, 2 * j)
  {
    if j >= b + 1 {
      SmearFull(x, b + 1, j);
    } else if 2 * j < b + 1 {
      SmearPart(x, b + 1, j, j);
    } else {
      SmearPart(x, b + 1, j, b + 1 - j);
    }
  }

  lemma SmearFull(x: nat, w: nat, j: nat)
    requires x == Pow2(w) - 1
    ensures Or(x, Shr(x, j)) == Pow2(w) - 1
  {
    ShrShrinks(x, j);
    OrOnes(Shr(x, j), w);
  }

  lemma SmearPart(x: nat, w: nat, j: nat, s: nat)
    requires s <= j && j + s <= w && Shr(x, w - j) == Pow2(j) - 1
    ensures Shr(Or(x, Shr(x, j)), w - (j + s)) == Pow2(j + s) - 1
  {
    var t := w - (j + s);
    OrShr(x, Shr(x, j), t);
    ShrShr(x, t, s);
    ShrShr(x, j, t);
    ShrShr(x, w - j, j - s);
    ShrOnes(j, s);
    OrFill(Shr(x, t), s, j);
  }

  lemma AllOnes(x: nat, b: nat, j: nat)
    requires TopOnes(x, b, j) && j >= b + 1
    ensures x == Pow2(b + 1) - 1
  {
  }

  /** The position of the leading one. */
  lemma {:induction false} LeadingOne(x: nat, w: nat) returns (b: nat)
    requires 0 < x < Pow2(w)
    ensures b < w && Pow2(b) <= x < Pow2(b + 1) && TopOnes(x, b, 1)
    decreases w
  {
    if x == 1 {
      b := 0;
      assert w > 0;
      assert Shr(x, 0) == 1;
    } else {
      var c := LeadingOne(x / 2, w - 1);
      b := c + 1;
      assert Shr(x, b) == Shr(x / 2, c);
    }
  }

  /** One line of next_power_of_2. */
  method Smear(n: nat, j: nat, ghost b: nat, ghost live: bool) returns (r: nat)
    requires j > 0 && if live then TopOnes(n, b, j) else n == 0
    ensures if live then TopOnes(r, b, 2 * j) else r == 0
  {
    r := Or(n, Shr(n, j));
    ShrShrinks(n, j);
    if live { SmearStep(n, b, j); }
  }

  /** All six lines, with shifts 1, 2, 4, 8, 16 and 32. */
  method SmearAll(n: nat, ghost b: nat, ghost live: bool) returns (r: nat)
    requires if live then b < 64 && TopOnes(n, b, 1) else n == 0
    ensures r == if live then Pow2(b + 1) - 1 else 0
  {
    var j: nat := 1;
    r := Smear(n, j, b, live);
    j := 2 * j;
    r := Smear(r, j, b, live);
    j := 2 * j;
    r := Smear(r, j, b, live);
    j := 2 * j;
    r := Smear(r, j, b, live);
    j := 2 * j;
    r := Smear(r, j, b, live);
    j := 2 * j;
    r := Smear(r, j, b, live);
    if live { AllOnes(r, b, 2 * j); }
  }

  /** r is 2^k, and no smaller power of two reaches n. */
  ghost predicate LeastPower(n: nat, r: nat, k: nat) {
    r == Pow2(k) && n <= r && forall i: nat :: n <= Pow2(i) ==> k <= i
  }

  /** next_power_of_2: the least power of two not below n, for every n that
      has one in a 64-bit word; beyond 2^63 the increment wraps to 0. */
  method NextPowerOf2(size: nat) returns (r: nat)
    requires size < WORD_MODULUS
    ensures size == 0 ==> r == 2
    ensures 0 < size <= WORD_MODULUS / 2 ==> exists k: nat :: k < 64 && LeastPower(size, r, k)
    ensures size > WORD_MODULUS / 2 ==> r == 0
  {
    if size == 0 { return 2; }
    var n := size - 1;
    ghost var w := WordBits();
    ghost var b: nat, live := 0, n > 0;
    if live { b := LeadingOne(n, w); }
    n := SmearAll(n, b, live);
    r := (n + 1) % WORD_MODULUS;
    Rounded(size, n, b, w, r);
  }

  lemma Rounded(size: nat, n: nat, b: nat, w: nat, r: nat)
    requires 0 < size < Pow2(w) && w > 0 && r == (n + 1) % Pow2(w)
    requires size == 1 ==> n == 0
    requires size > 1 ==> b < w && Pow2(b) <= size - 1 < Pow2(b + 1) && n == Pow2(b + 1) - 1
    ensures size > Pow2(w - 1) ==> r == 0
    ensures size <= Pow2(w - 1) ==> exists k: nat :: k < w && LeastPower(size, r, k)
  {
    var m := Pow2(w);
    if size == 1 {
      DivModUnique(1, m, 0, 1);
      assert LeastPower(size, r, 0);
    } else {
      forall i: nat | size <= Pow2(i) ensures b + 1 <= i {
        if i <= b { Pow2Increases(i, b); }
      }
      if b + 1 < w {
        Pow2Increases(b + 1, w - 1);
        DivModUnique(n + 1, m, 0, n + 1);
        assert LeastPower(size, r, b + 1);
      } else {
        DivModUnique(n + 1, m, 1, 0);
      }
    }
  }
}
