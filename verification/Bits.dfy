/** Shifts and bitwise OR on natural numbers, and when OR is addition. */
module Bits {

  /** a << k. */
  function ShiftLeft(a: nat, k: nat): nat {
    if k == 0 then a else 2 * ShiftLeft(a, k - 1)
  }

  predicate Bit(a: nat, i: nat) {
    if i == 0 then a % 2 == 1 else Bit(a / 2, i - 1)
  }

  function Or(a: nat, b: nat): nat
    decreases a + b
  {
    if a == 0 && b == 0 then 0 else 2 * Or(a / 2, b / 2) + LowBit(a, b)
  }

  function LowBit(a: nat, b: nat): nat {
    if a % 2 == 1 || b % 2 == 1 then 1 else 0
  }

  lemma Halves(x: nat, bit: nat)
    requires bit <= 1
    ensures (2 * x + bit) / 2 == x && (2 * x + bit) % 2 == bit
  {
  }

  /** Bit by bit. */
  lemma {:induction false} OrBits(a: nat, b: nat, i: nat)
    ensures Bit(Or(a, b), i) <==> Bit(a, i) || Bit(b, i)
    decreases i
  {
    if a == 0 && b == 0 {
      NoBits(i);
    } else {
      Halves(Or(a / 2, b / 2), LowBit(a, b));
      if i > 0 {
        OrBits(a / 2, b / 2, i - 1);
      }
    }
  }

  lemma {:induction false} NoBits(i: nat)
    ensures !Bit(0, i)
  {
    if i > 0 {
      NoBits(i - 1);
    }
  }

  lemma {:induction false} OrZero(a: nat)
    ensures Or(a, 0) == a
  {
    if a > 0 {
      OrZero(a / 2);
    }
  }

  lemma {:induction false} OrCommutes(a: nat, b: nat)
    ensures Or(a, b) == Or(b, a)
    decreases a + b
  {
    if a > 0 || b > 0 {
      OrCommutes(a / 2, b / 2);
    }
  }

  /** Into the bits a shift has left clear, OR adds. */
  lemma {:induction false} OrDisjoint(high: nat, low: nat, k: nat)
    requires low < ShiftLeft(1, k)
    ensures Or(ShiftLeft(high, k), low) == ShiftLeft(high, k) + low
  {
    if k == 0 {
      OrZero(high);
    } else {
      OrDisjoint(high, low / 2, k - 1);
      DoubleOr(ShiftLeft(high, k - 1), low);
    }
  }

  lemma DoubleOr(half: nat, low: nat)
    ensures Or(2 * half, low) == 2 * Or(half, low / 2) + low % 2
  {
    Halves(half, 0);
  }

  lemma ShiftByte(a: nat, k: nat)
    ensures ShiftLeft(a, k + 8) == 256 * ShiftLeft(a, k)
  {
    assert ShiftLeft(a, k + 2) == 2 * ShiftLeft(a, k + 1);
    assert ShiftLeft(a, k + 4) == 2 * ShiftLeft(a, k + 3);
    assert ShiftLeft(a, k + 6) == 2 * ShiftLeft(a, k + 5);
    assert ShiftLeft(a, k + 8) == 2 * ShiftLeft(a, k + 7);
  }
}
