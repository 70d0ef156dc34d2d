/** Machine integers, and the bitwise operators of C on natural numbers. */
module Bits {
  type Byte = x: int | 0 <= x < 0x100
  type Word = x: int | 0 <= x < 0x1_0000
  type Uint32 = x: int | 0 <= x < 0x1_0000_0000

  function And(x: nat, y: nat): nat {
    if x == 0 || y == 0 then 0
    else 2 * And(x / 2, y / 2) + (if x % 2 == 1 && y % 2 == 1 then 1 else 0)
  }

  function Or(x: nat, y: nat): nat {
    if x == 0 && y == 0 then 0
    else 2 * Or(x / 2, y / 2) + (if x % 2 == 1 || y % 2 == 1 then 1 else 0)
  }

  function Xor(x: nat, y: nat): nat {
    if x == 0 && y == 0 then 0
    else 2 * Xor(x / 2, y / 2) + (if x % 2 != y % 2 then 1 else 0)
  }

  function Pow2(k: nat): (p: nat)
    ensures p > 0
  {
    if k == 0 then 1 else 2 * Pow2(k - 1)
  }

  lemma {:induction false} Bounded(x: nat, y: nat, k: nat)
    requires x < Pow2(k) && y < Pow2(k)
    ensures And(x, y) < Pow2(k) && Or(x, y) < Pow2(k) && Xor(x, y) < Pow2(k)
  {
    if k > 0 {
      Bounded(x / 2, y / 2, k - 1);
    }
  }

  function And8(x: Byte, y: Byte): Byte {
    assert Pow2(8) == 256;
    Bounded(x, y, 8);
    And(x, y)
  }

  function Or8(x: Byte, y: Byte): Byte {
    assert Pow2(8) == 256;
    Bounded(x, y, 8);
    Or(x, y)
  }

  function Xor8(x: Byte, y: Byte): Byte {
    assert Pow2(8) == 256;
    Bounded(x, y, 8);
    Xor(x, y)
  }

  /** The left shift of C, on values that do not overflow. */
  function Shl(a: nat, k: nat): (r: nat)
    decreases k
  {
    if k == 0 then a else 2 * Shl(a, k - 1)
  }

  lemma ShlBy12(a: nat)
    ensures Shl(a, 12) == 4096 * a
  {
    assert Shl(a, 4) == 16 * a;
    assert Shl(a, 8) == 256 * a;
  }

  /** Or-ing low bits into a number leaves its high bits alone. */
  lemma {:induction false} OrLowBits(a: nat, f: nat, g: nat, k: nat)
    requires f < Pow2(k) && g < Pow2(k)
    ensures Or(Shl(a, k) + f, g) == Shl(a, k) + Or(f, g)
  {
    if k > 0 {
      assert (Shl(a, k) + f) / 2 == Shl(a, k - 1) + f / 2;
      OrLowBits(a, f / 2, g / 2, k - 1);
      OrZero(g % 2);
    } else {
      OrZero(a);
    }
  }

  lemma {:induction false} OrZero(a: nat)
    ensures Or(a, 0) == a && Or(0, a) == a
  {
    if a > 0 { OrZero(a / 2); }
  }

  /** A mask whose low k bits are zero drops the low k bits. */
  lemma {:induction false} AndDropsLow(a: nat, f: nat, m: nat, k: nat)
    requires f < Pow2(k)
    ensures And(Shl(a, k) + f, Shl(m, k)) == Shl(And(a, m), k)
  {
    if k > 0 {
      assert (Shl(a, k) + f) / 2 == Shl(a, k - 1) + f / 2;
      AndDropsLow(a, f / 2, m, k - 1);
    }
  }

  /** A mask of k ones keeps a value that fits in k bits. */
  lemma {:induction false} AndKeeps(x: nat, k: nat)
    requires x < Pow2(k)
    ensures And(x, Pow2(k) - 1) == x
  {
    if k > 0 && x > 0 {
      AndKeeps(x / 2, k - 1);
    }
  }

  /** Bit 7 of an exclusive or of two bytes. */
  lemma {:induction false} XorSign(x: nat, y: nat, k: nat)
    requires x < 2 * Pow2(k) && y < 2 * Pow2(k)
    ensures Xor(x, y) >= Pow2(k) <==> (x >= Pow2(k)) != (y >= Pow2(k))
  {
    if k > 0 {
      XorSign(x / 2, y / 2, k - 1);
    }
  }

  /** Bit 7 of a conjunction and a disjunction of two bytes. */
  lemma {:induction false} AndSign(x: nat, y: nat, k: nat)
    requires x < 2 * Pow2(k) && y < 2 * Pow2(k)
    ensures And(x, y) >= Pow2(k) <==> x >= Pow2(k) && y >= Pow2(k)
  {
    if k > 0 {
      AndSign(x / 2, y / 2, k - 1);
    }
  }

  // ---------- bits ----------

  predicate HasBit(x: nat, k: nat)
    decreases k
  {
    if k == 0 then x % 2 == 1 else HasBit(x / 2, k - 1)
  }

  /** The operators of C, bit by bit. */
  lemma {:induction false} BitOfOperators(x: nat, y: nat, k: nat)
    ensures HasBit(And(x, y), k) <==> HasBit(x, k) && HasBit(y, k)
    ensures HasBit(Or(x, y), k) <==> HasBit(x, k) || HasBit(y, k)
    ensures HasBit(Xor(x, y), k) <==> HasBit(x, k) != HasBit(y, k)
    decreases k
  {
    ZeroHasNoBits(k);
    if k > 0 {
      BitOfOperators(x / 2, y / 2, k - 1);
    }
  }

  /** Every bit of x is set in y. */
  ghost predicate Within(x: nat, y: nat) {
    forall k: nat :: HasBit(x, k) ==> HasBit(y, k)
  }

  lemma {:induction false} ZeroHasNoBits(k: nat)
    ensures !HasBit(0, k)
  {
    if k > 0 { ZeroHasNoBits(k - 1); }
  }

  lemma {:induction false} HasSomeBit(x: nat) returns (k: nat)
    requires x > 0
    ensures HasBit(x, k)
  {
    if x % 2 == 1 {
      k := 0;
    } else {
      k := HasSomeBit(x / 2);
      k := k + 1;
    }
  }

  /** Within, bit by bit. */
  lemma WithinHalves(x: nat, y: nat)
    ensures Within(x, y) <==> (x % 2 == 1 ==> y % 2 == 1) && Within(x / 2, y / 2)
  {
    if Within(x, y) {
      assert HasBit(x, 0) ==> HasBit(y, 0);
      forall k: nat | HasBit(x / 2, k)
        ensures HasBit(y / 2, k)
      {
        assert HasBit(x, k + 1) && HasBit(y, k + 1);
      }
    }
    if (x % 2 == 1 ==> y % 2 == 1) && Within(x / 2, y / 2) {
      forall k: nat | HasBit(x, k)
        ensures HasBit(y, k)
      {
        if k > 0 {
          assert HasBit(x / 2, k - 1) ==> HasBit(y / 2, k - 1);
        }
      }
    }
  }

  lemma WithinZero(x: nat)
    ensures Within(x, 0) <==> x == 0
    ensures Within(0, x)
  {
    if x > 0 {
      var k := HasSomeBit(x);
      ZeroHasNoBits(k);
    }
    forall k: nat ensures !HasBit(0, k) { ZeroHasNoBits(k); }
  }

  /** When a disjunction, a conjunction and an exclusive or leave their second operand alone. */
  lemma {:induction false} OperandKept(x: nat, y: nat)
    ensures Or(x, y) == y <==> Within(x, y)
    ensures And(x, y) == y <==> Within(y, x)
    ensures Xor(x, y) == y <==> x == 0
  {
    WithinZero(x);
    WithinZero(y);
    if x > 0 || y > 0 {
      OperandKept(x / 2, y / 2);
      WithinHalves(x, y);
      WithinHalves(y, x);
    }
  }
}
