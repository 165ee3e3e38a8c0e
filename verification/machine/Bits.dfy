/** Unsigned machine arithmetic on naturals: shifts and bitwise "or". */
module Bits {

  type byte = x: int | 0 <= x < 256

  const TWO_31: int := 0x8000_0000
  const TWO_32: int := 0x1_0000_0000
  const TWO_63: int := 0x8000_0000_0000_0000
  const TWO_64: int := 0x1_0000_0000_0000_0000

  /** `v << k` without a width limit. */
  function Shl(v: nat, k: nat): (r: nat)
    ensures r >= v
  {
    if k == 0 then v else 2 * Shl(v, k - 1)
  }

  /** `v << k` in a 32-bit register. */
  function Shl32(v: nat, k: nat): nat {
    Shl(v, k) % TWO_32
  }

  /** `v << k` in a 64-bit register. */
  function Shl64(v: nat, k: nat): nat {
    Shl(v, k) % TWO_64
  }

  /** Bitwise "or" of two naturals. */
  function Or(a: nat, b: nat): nat
    decreases a
  {
    if a == 0 then b
    else if b == 0 then a
    else (if a % 2 == 1 || b % 2 == 1 then 1 else 0) + 2 * Or(a / 2, b / 2)
  }

  lemma {:induction false} ShlSum(a: nat, b: nat, k: nat)
    ensures Shl(a + b, k) == Shl(a, k) + Shl(b, k)
  {
    if k > 0 { ShlSum(a, b, k - 1); }
  }

  lemma {:induction false} ShlShl(v: nat, j: nat, k: nat)
    ensures Shl(Shl(v, j), k) == Shl(v, j + k)
    decreases k
  {
    if k > 0 { ShlShl(v, j, k - 1); }
  }

  lemma {:induction false} ShlMonotone(a: nat, b: nat, k: nat)
    requires a <= b
    ensures Shl(a, k) <= Shl(b, k)
  {
    ShlSum(a, b - a, k);
  }

  /** "Or" adds when the operands occupy different bits. */
  lemma {:induction false} OrDisjoint(a: nat, q: nat, k: nat)
    requires a < Shl(1, k)
    ensures Or(a, Shl(q, k)) == a + Shl(q, k)
    decreases k
  {
    if k > 0 && a > 0 {
      OrDisjoint(a / 2, q, k - 1);
    }
  }

  lemma {:induction false} ShlZero(k: nat)
    ensures Shl(0, k) == 0
  {
    if k > 0 { ShlZero(k - 1); }
  }

  lemma ShlBySeven(v: nat)
    ensures Shl(v, 7) == 128 * v
  {
    assert Shl(v, 1) == 2 * v;
    assert Shl(v, 2) == 4 * v;
    assert Shl(v, 3) == 8 * v;
    assert Shl(v, 4) == 16 * v;
    assert Shl(v, 5) == 32 * v;
    assert Shl(v, 6) == 64 * v;
  }

  lemma ShlByEight(v: nat)
    ensures Shl(v, 8) == 256 * v
  {
    ShlBySeven(v);
  }

  /** `v << 7` is `128 * v`, at any further shift. */
  lemma Shl7(v: nat, k: nat)
    ensures Shl(v, k + 7) == Shl(128 * v, k)
    ensures Shl(v, k + 7) == 128 * Shl(v, k)
  {
    ShlShl(v, 7, k);
    ShlShl(v, k, 7);
    ShlBySeven(v);
    ShlBySeven(Shl(v, k));
  }

  lemma {:induction false} ShlPositive(k: nat)
    ensures Shl(1, k) >= 1
  {
  }

  /** Weights are ordered by their exponent. */
  lemma ShlBelow(j: nat, k: nat)
    requires j <= k
    ensures Shl(1, j) <= Shl(1, k)
  {
    ShlShl(1, k - j, j);
    ShlMonotone(1, Shl(1, k - j), j);
  }

  /** The register sizes as weights. */
  lemma Weights()
    ensures Shl(1, 28) == 0x1000_0000 && Shl(1, 31) == TWO_31 && Shl(1, 32) == TWO_32
    ensures Shl(1, 63) == TWO_63 && Shl(1, 64) == TWO_64 && Shl(1, 70) == 64 * TWO_64
  {
    hide Shl;
    Shl7(1, 0); Shl7(1, 7); Shl7(1, 14); Shl7(1, 21); Shl7(1, 28);
    Shl7(1, 35); Shl7(1, 42); Shl7(1, 49); Shl7(1, 56); Shl7(1, 63);
    WeightsStep();
  }

  lemma WeightsStep()
    ensures Shl(1, 0) == 1
    ensures Shl(1, 31) == 8 * Shl(1, 28) && Shl(1, 32) == 16 * Shl(1, 28) && Shl(1, 64) == 2 * Shl(1, 63)
  {
    var k := 28;
    assert Shl(1, k + 3) == 8 * Shl(1, k) by { ShlSteps(k); }
    assert Shl(1, k + 4) == 16 * Shl(1, k) by { ShlSteps(k); }
    assert Shl(1, 2 * k + 8) == 2 * Shl(1, 2 * k + 7);
  }

  lemma ShlSteps(k: nat)
    ensures Shl(1, k + 3) == 8 * Shl(1, k)
    ensures Shl(1, k + 4) == 16 * Shl(1, k)
  {
    assert Shl(1, k + 1) == 2 * Shl(1, k);
    assert Shl(1, k + 2) == 4 * Shl(1, k);
  }

  // ---------------------------------------------------------------- single bits

  /** Whether bit `i` of `w` is set. */
  predicate Bit(w: nat, i: nat) {
    if i == 0 then w % 2 == 1 else Bit(w / 2, i - 1)
  }

  lemma {:induction false} BitOfZero(i: nat)
    ensures !Bit(0, i)
  {
    if i > 0 { BitOfZero(i - 1); }
  }

  lemma {:induction false} BitOfOr(a: nat, b: nat, i: nat)
    ensures Bit(Or(a, b), i) == (Bit(a, i) || Bit(b, i))
    decreases i
  {
    if a == 0 || b == 0 {
      BitOfZero(i);
    } else if i > 0 {
      BitOfOr(a / 2, b / 2, i - 1);
    }
  }

  lemma {:induction false} BitOfShl(k: nat, i: nat)
    ensures Bit(Shl(1, k), i) == (i == k)
    decreases i
  {
    if i > 0 {
      if k > 0 { BitOfShl(k - 1, i - 1); } else { BitOfZero(i - 1); }
    }
  }

  lemma {:induction false} BitOfOnes(n: nat, i: nat)
    requires i < n
    ensures Bit(Shl(1, n) - 1, i)
    decreases n
  {
    var w, h := Shl(1, n) - 1, Shl(1, n - 1) - 1;
    assert w == 2 * h + 1;
    if i > 0 { BitOfOnes(n - 1, i - 1); }
  }

  /** A number of `n` bits with all of them set is 2^n - 1. */
  lemma {:induction false} AllOnes(w: nat, n: nat)
    requires w < Shl(1, n) && forall i: nat :: i < n ==> Bit(w, i)
    ensures w == Shl(1, n) - 1
    decreases n
  {
    if n > 0 {
      assert Bit(w, 0);
      forall i: nat | i < n - 1 ensures Bit(w / 2, i) { assert Bit(w, i + 1); }
      AllOnes(w / 2, n - 1);
    }
  }

  /** A number with no bit at or above `n` is below 2^n. */
  lemma {:induction false} BoundedByBits(w: nat, n: nat)
    requires forall i: nat :: i >= n ==> !Bit(w, i)
    ensures w < Shl(1, n)
    decreases n, w
  {
    if n > 0 {
      forall i: nat | i >= n - 1 ensures !Bit(w / 2, i) { assert !Bit(w, i + 1); }
      BoundedByBits(w / 2, n - 1);
    } else if w > 0 {
      assert !Bit(w, 0);
      forall i: nat ensures !Bit(w / 2, i) { assert !Bit(w, i + 1); }
      BoundedByBits(w / 2, 0);
      assert false;
    }
  }

  lemma {:induction false} OrBelow(a: nat, b: nat, k: nat)
    requires a < Shl(1, k) && b < Shl(1, k)
    ensures Or(a, b) < Shl(1, k)
    decreases k
  {
    if k > 0 && a > 0 && b > 0 { OrBelow(a / 2, b / 2, k - 1); }
  }
}
