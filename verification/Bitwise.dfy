/** Bytes as integers, with the C bit operators defined bit by bit. */
module Bitwise {

  type byte = b: int | 0 <= b < 256

  /** Bit k of n, counted from the least significant bit. */
  predicate TestBit(n: nat, k: nat) {
    if k == 0 then n % 2 == 1 else TestBit(n / 2, k - 1)
  }

  function Pow2(k: nat): (r: nat)
    ensures r > 0
  {
    if k == 0 then 1 else 2 * Pow2(k - 1)
  }

  /** a | b */
  function Or(a: nat, b: nat): nat
    decreases a + b
  {
    if a == 0 then b
    else if b == 0 then a
    else 2 * Or(a / 2, b / 2) + (if a % 2 == 1 || b % 2 == 1 then 1 else 0)
  }

  /** a & ~b */
  function AndNot(a: nat, b: nat): (r: nat)
    ensures r <= a
  {
    if a == 0 then 0
    else 2 * AndNot(a / 2, b / 2) + (if a % 2 == 1 && b % 2 == 0 then 1 else 0)
  }

  lemma OrHalves(a: nat, b: nat)
    ensures Or(a, b) / 2 == Or(a / 2, b / 2)
    ensures Or(a, b) % 2 == 1 <==> a % 2 == 1 || b % 2 == 1
  {
    var half := Or(a / 2, b / 2);
    assert (2 * half + 1) / 2 == half && (2 * half + 1) % 2 == 1;
    assert (2 * half) / 2 == half && (2 * half) % 2 == 0;
  }

  lemma {:induction false} OrBits(a: nat, b: nat, k: nat)
    ensures TestBit(Or(a, b), k) <==> TestBit(a, k) || TestBit(b, k)
    decreases k
  {
    OrHalves(a, b);
    if k > 0 {
      OrBits(a / 2, b / 2, k - 1);
    }
  }

  lemma {:induction false} ZeroBits(k: nat)
    ensures !TestBit(0, k)
  {
    if k > 0 { ZeroBits(k - 1); }
  }

  lemma {:induction false} FullBits(n: nat, k: nat)
    requires k < n
    ensures TestBit(Pow2(n) - 1, k)
  {
    if k > 0 {
      FullBits(n - 1, k - 1);
      assert (Pow2(n) - 1) / 2 == Pow2(n - 1) - 1;
    }
  }

  lemma {:induction false} AndNotBits(a: nat, b: nat, k: nat)
    ensures TestBit(AndNot(a, b), k) <==> TestBit(a, k) && !TestBit(b, k)
    decreases k
  {
    if a == 0 {
      ZeroBits(k);
    } else if k > 0 {
      AndNotBits(a / 2, b / 2, k - 1);
      assert AndNot(a, b) / 2 == AndNot(a / 2, b / 2);
    }
  }

  lemma {:induction false} Pow2Bits(j: nat, k: nat)
    ensures TestBit(Pow2(j), k) <==> j == k
    decreases k
  {
    if k == 0 {
    } else if j == 0 {
      ZeroBits(k - 1);
    } else {
      Pow2Bits(j - 1, k - 1);
    }
  }

  /** The operators stay within n bits. */
  lemma {:induction false} OrBound(a: nat, b: nat, n: nat)
    requires a < Pow2(n) && b < Pow2(n)
    ensures Or(a, b) < Pow2(n)
    decreases n
  {
    if a > 0 && b > 0 {
      OrBound(a / 2, b / 2, n - 1);
    }
  }

  /** Or of numbers that share no bit position is their sum. */
  lemma {:induction false} OrDisjoint(a: nat, b: nat, n: nat)
    requires b < Pow2(n)
    ensures Or(a * Pow2(n), b) == a * Pow2(n) + b
    decreases n
  {
    if n > 0 && a > 0 && b > 0 {
      var half := a * Pow2(n - 1);
      assert a * Pow2(n) == 2 * half by {
        assert Pow2(n) == 2 * Pow2(n - 1);
      }
      OrDisjoint(a, b / 2, n - 1);
    } else if a == 0 {
      assert a * Pow2(n) == 0;
    }
  }

  function OrByte(a: byte, b: byte): (r: byte)
    ensures r == Or(a, b)
  {
    assert Pow2(8) == 256 by { assert Pow2(4) == 16; }
    OrBound(a, b, 8);
    Or(a, b)
  }

  /** 1 << k for a bit position inside a byte. */
  function Mask(k: nat): (r: byte)
    requires k < 8
    ensures r == Pow2(k)
  {
    assert Pow2(3) == 8 && Pow2(7) == 128 by { assert Pow2(4) == 16; }
    if k == 0 then 1 else if k == 1 then 2 else if k == 2 then 4 else if k == 3 then 8
    else if k == 4 then 16 else if k == 5 then 32 else if k == 6 then 64 else 128
  }
}
