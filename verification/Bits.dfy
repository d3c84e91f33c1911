/** The bitwise disjunction of unsigned words, bit by bit. */
module Bits {
  function Or(a: nat, b: nat): (r: nat)
    decreases a + b
  {
    if a == 0 then b
    else if b == 0 then a
    else 2 * Or(a / 2, b / 2) + if a % 2 == 1 || b % 2 == 1 then 1 else 0
  }

  function Pow2(k: nat): (p: nat)
    ensures p > 0
  {
    if k == 0 then 1 else 2 * Pow2(k - 1)
  }

  /** Disjunction works on the low k bits and on the others independently. */
  lemma {:induction false} OrSplit(k: nat, a: nat, x: nat, b: nat, y: nat)
    requires x < Pow2(k) && y < Pow2(k)
    ensures Or(Pow2(k) * a + x, Pow2(k) * b + y) == Pow2(k) * Or(a, b) + Or(x, y)
    decreases k
  {
    OrZero();
    PowerStep(k);
    hide Or, Pow2;
    if k > 0 {
      var p, o, q := Pow2(k - 1), Or(a, b), Or(x / 2, y / 2);
      var m, n := 2 * p * a + x, 2 * p * b + y;
      Halve(p, a, x);
      Halve(p, b, y);
      OrSplit(k - 1, a, x / 2, b, y / 2);
      OrHalves(m, n);
      OrHalves(x, y);
      Doubled(p, o, q);
    }
  }

  lemma OrZero()
    ensures Or(0, 0) == 0
  {
  }

  lemma PowerStep(k: nat)
    ensures Pow2(k) == if k == 0 then 1 else 2 * Pow2(k - 1)
  {
  }

  lemma Halve(p: nat, a: nat, x: nat)
    ensures (2 * p * a + x) / 2 == p * a + x / 2 && (2 * p * a + x) % 2 == x % 2
  {
    assert 2 * p * a == 2 * (p * a);
  }

  lemma Doubled(p: nat, o: nat, q: nat)
    ensures 2 * (p * o + q) == 2 * p * o + 2 * q
  {
  }

  /** The defining equation holds for zero operands as well. */
  lemma OrHalves(m: nat, n: nat)
    ensures Or(m, n) == 2 * Or(m / 2, n / 2) + if m % 2 == 1 || n % 2 == 1 then 1 else 0
  {
  }

  lemma PowerValues()
    ensures Pow2(12) == 4096 && Pow2(51) == 0x8_0000_0000_0000
  {
    assert Pow2(4) == 16 && Pow2(8) == 256 && Pow2(12) == 4096;
    assert Pow2(16) == 0x1_0000 && Pow2(20) == 0x10_0000 && Pow2(24) == 0x100_0000 && Pow2(28) == 0x1000_0000;
    assert Pow2(32) == 0x1_0000_0000 && Pow2(36) == 0x10_0000_0000 && Pow2(40) == 0x100_0000_0000;
    assert Pow2(44) == 0x1000_0000_0000 && Pow2(48) == 0x1_0000_0000_0000;
  }

  /** A word of 40 bits at position 12 has no bit in common with the low twelve bits
      and bit 63, so the disjunction is a sum. */
  lemma OrIsSum(f: nat, low: nat, top: nat)
    requires f < 0x100_0000_0000 && low < 4096
    ensures Or(4096 * f, low + 0x8000_0000_0000_0000 * top) == 4096 * f + low + 0x8000_0000_0000_0000 * top
  {
    PowerValues();
    OrSplit(12, f, 0, 0x8_0000_0000_0000 * top, low);
    OrSplit(51, 0, f, top, 0);
    assert Or(0, low) == low && Or(0, top) == top && Or(f, 0) == f;
    hide Or, Pow2;
    assert 4096 * (0x8_0000_0000_0000 * top) == 0x8000_0000_0000_0000 * top;
  }
}
