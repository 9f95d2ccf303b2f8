/**
 The finite field GF(2^8) = GF(2)[x] / (x^8 + x^4 + x^3 + x^2 + 1) behind the erasure codec.

 A natural number stands for the polynomial over GF(2) whose coefficient of x^i is bit i, so a
 byte is a polynomial of degree below 8 and addition is exclusive or.  `Mul` is the product in
 the field, and `MulIsProductModulo` ties it to carry-less multiplication followed by reduction.
 The recursive functions that the other modules build on (`Xor`, `Mul`) come in two halves so
 that the verifier unfolds them only where a proof asks for it.
 */
module GF256 {
  type Byte = n: nat | n < 256

  /** x^8 + x^4 + x^3 + x^2 + 1 */
  const POLYNOMIAL: nat := 0x11D

  function Pow2(n: nat): nat { if n == 0 then 1 else 2 * Pow2(n - 1) }

  // ----- addition of polynomials -----

  function Xor(a: nat, b: nat): nat
    decreases a + b, 1
  {
    if a == 0 then b else if b == 0 then a else XorBits(a, b)
  }

  function XorBits(a: nat, b: nat): nat
    requires a > 0 && b > 0
    decreases a + b, 0
  {
    2 * Xor(a / 2, b / 2) + if a % 2 == b % 2 then 0 else 1
  }

  lemma XorSplit(a: nat, b: nat)
    ensures Xor(a, b) / 2 == Xor(a / 2, b / 2)
    ensures Xor(a, b) % 2 == if a % 2 == b % 2 then 0 else 1
  {
    if a > 0 && b > 0 { assert Xor(a, b) == XorBits(a, b); }
  }

  lemma {:induction false} XorComm(a: nat, b: nat)
    ensures Xor(a, b) == Xor(b, a)
    decreases a
  {
    XorSplit(a, b);
    XorSplit(b, a);
    if a > 0 { XorComm(a / 2, b / 2); }
  }

  lemma {:induction false} XorAssoc(a: nat, b: nat, c: nat)
    ensures Xor(Xor(a, b), c) == Xor(a, Xor(b, c))
    decreases a + b + c
  {
    if a > 0 && b > 0 && c > 0 {
      var l, r := Xor(Xor(a, b), c), Xor(a, Xor(b, c));
      assert l / 2 == r / 2 by {
        XorSplit(a, b); XorSplit(Xor(a, b), c);
        XorSplit(b, c); XorSplit(a, Xor(b, c));
        XorAssoc(a / 2, b / 2, c / 2);
      }
      assert l % 2 == r % 2 by { XorParity3(a, b, c); }
    }
  }

  lemma XorParity3(a: nat, b: nat, c: nat)
    ensures Xor(Xor(a, b), c) % 2 == Xor(a, Xor(b, c)) % 2
  {
    XorSplit(a, b); XorSplit(Xor(a, b), c);
    XorSplit(b, c); XorSplit(a, Xor(b, c));
  }

  lemma {:induction false} XorSelf(a: nat)
    ensures Xor(a, a) == 0
  {
    if a > 0 { XorSplit(a, a); XorSelf(a / 2); }
  }

  lemma {:induction false} XorBound(a: nat, b: nat, n: nat)
    requires a < Pow2(n) && b < Pow2(n)
    ensures Xor(a, b) < Pow2(n)
  {
    XorSplit(a, b);
    if n > 0 { XorBound(a / 2, b / 2, n - 1); }
  }

  /** The coefficient of x^n in a sum is the sum of the coefficients. */
  lemma {:induction false} XorTop(a: nat, b: nat, n: nat)
    requires a < 2 * Pow2(n) && b < 2 * Pow2(n)
    ensures Xor(a, b) >= Pow2(n) <==> (a >= Pow2(n)) != (b >= Pow2(n))
  {
    XorSplit(a, b);
    if n > 0 { XorTop(a / 2, b / 2, n - 1); }
  }

  lemma XorDouble(a: nat, b: nat)
    ensures Xor(2 * a, 2 * b) == 2 * Xor(a, b)
  {
    assert (2 * a) / 2 == a && (2 * b) / 2 == b;
    XorSplit(2 * a, 2 * b);
  }

  lemma XorSwap4(a: nat, b: nat, c: nat, d: nat)
    ensures Xor(Xor(a, b), Xor(c, d)) == Xor(Xor(a, c), Xor(b, d))
  {
    calc {
      Xor(Xor(a, b), Xor(c, d));
      { XorAssoc(a, b, Xor(c, d)); XorAssoc(b, c, d); }
      Xor(a, Xor(Xor(b, c), d));
      { XorComm(b, c); }
      Xor(a, Xor(Xor(c, b), d));
      { XorAssoc(c, b, d); XorAssoc(a, c, Xor(b, d)); }
      Xor(Xor(a, c), Xor(b, d));
    }
  }

  lemma XorCancel(a: nat, b: nat)
    ensures Xor(Xor(a, b), b) == a
  {
    XorAssoc(a, b, b);
    XorSelf(b);
  }

  // ----- addition in the field -----

  function Add(a: Byte, b: Byte): Byte
  {
    XorBound(a, b, 8);
    Xor(a, b)
  }

  lemma AddComm(a: Byte, b: Byte)
    ensures Add(a, b) == Add(b, a)
  {
    XorComm(a, b);
  }

  lemma AddAssoc(a: Byte, b: Byte, c: Byte)
    ensures Add(Add(a, b), c) == Add(a, Add(b, c))
  {
    XorAssoc(a, b, c);
  }

  lemma AddSelf(a: Byte)
    ensures Add(a, a) == 0
  {
    XorSelf(a);
  }

  lemma AddSwap4(a: Byte, b: Byte, c: Byte, d: Byte)
    ensures Add(Add(a, b), Add(c, d)) == Add(Add(a, c), Add(b, d))
  {
    XorSwap4(a, b, c, d);
  }

  lemma AddCancel(a: Byte, b: Byte)
    ensures Add(Add(a, b), b) == a
  {
    XorCancel(a, b);
  }

  lemma AddIsZero(a: Byte, b: Byte)
    ensures Add(a, b) == 0 <==> a == b
  {
    XorCancel(a, b);
    XorSelf(b);
  }

  // ----- multiplication by x -----

  /** One round of the table-building loop: shift left and reduce on overflow. */
  function TimesX(a: Byte): Byte
  {
    XorTop(2 * a, POLYNOMIAL, 8);
    if 2 * a < 256 then 2 * a else Xor(2 * a, POLYNOMIAL)
  }

  lemma TimesXAdd(a: Byte, b: Byte)
    ensures TimesX(Add(a, b)) == Add(TimesX(a), TimesX(b))
  {
    XorTop(a, b, 7);
    XorDouble(a, b);
    XorSwap4(2 * a, if a < 128 then 0 else POLYNOMIAL, 2 * b, if b < 128 then 0 else POLYNOMIAL);
    XorSelf(POLYNOMIAL);
  }

  lemma TimesXNonzero(a: Byte)
    requires a != 0
    ensures TimesX(a) != 0
  {
    if 2 * a >= 256 {
      XorCancel(2 * a, POLYNOMIAL);
    }
  }

  lemma TimesXInjective(a: Byte, b: Byte)
    requires TimesX(a) == TimesX(b)
    ensures a == b
  {
    AddIsZero(TimesX(a), TimesX(b));
    TimesXAdd(a, b);
    AddIsZero(a, b);
    if Add(a, b) != 0 { TimesXNonzero(Add(a, b)); }
  }

  // ----- multiplication -----

  /** Sum of a * x^i over the bits i set in b. */
  function Mul(a: Byte, b: Byte): Byte
    decreases b, 1
  {
    if b == 0 then 0 else MulBits(a, b)
  }

  function MulBits(a: Byte, b: Byte): Byte
    requires b != 0
    decreases b, 0
  {
    Add(if b % 2 == 1 then a else 0, Mul(TimesX(a), b / 2))
  }

  lemma MulSplit(a: Byte, b: Byte)
    ensures Mul(a, b) == Add(if b % 2 == 1 then a else 0, Mul(TimesX(a), b / 2))
  {
    if b != 0 { assert Mul(a, b) == MulBits(a, b); }
  }

  lemma {:induction false} MulAddLeft(a: Byte, a': Byte, b: Byte)
    ensures Mul(Add(a, a'), b) == Add(Mul(a, b), Mul(a', b))
    decreases b
  {
    if b != 0 {
      var h: Byte := b / 2;
      MulSplit(Add(a, a'), b); MulSplit(a, b); MulSplit(a', b);
      TimesXAdd(a, a');
      MulAddLeft(TimesX(a), TimesX(a'), h);
      AddSwap4(if b % 2 == 1 then a else 0, if b % 2 == 1 then a' else 0, Mul(TimesX(a), h), Mul(TimesX(a'), h));
    }
  }

  lemma {:induction false} MulAddRight(a: Byte, b: Byte, c: Byte)
    ensures Mul(a, Add(b, c)) == Add(Mul(a, b), Mul(a, c))
    decreases b + c
  {
    if b != 0 && c != 0 {
      MulSplit(a, b); MulSplit(a, c); MulSplit(a, Add(b, c));
      XorSplit(b, c);
      var h: Byte, h': Byte := b / 2, c / 2;
      MulAddRight(TimesX(a), h, h');
      AddSwap4(if b % 2 == 1 then a else 0, if c % 2 == 1 then a else 0, Mul(TimesX(a), h), Mul(TimesX(a), h'));
      AddSelf(a);
    }
  }

  lemma {:induction false} MulTimesX(a: Byte, b: Byte)
    ensures Mul(TimesX(a), b) == TimesX(Mul(a, b))
    decreases b
  {
    if b != 0 {
      MulSplit(TimesX(a), b); MulSplit(a, b);
      MulTimesX(TimesX(a), b / 2);
      TimesXAdd(if b % 2 == 1 then a else 0, Mul(TimesX(a), b / 2));
    }
  }

  lemma MulZero(a: Byte)
    ensures Mul(0, a) == 0 && Mul(a, 0) == 0
  {
    MulAddLeft(0, 0, a);
    AddSelf(Mul(0, a));
  }

  lemma {:induction false} MulSwap(a: Byte, b: Byte, c: Byte)
    ensures Mul(Mul(a, b), c) == Mul(Mul(a, c), b)
    decreases b
  {
    if b == 0 {
      MulZero(c);
    } else {
      var s: Byte := if b % 2 == 1 then a else 0;
      MulSplit(a, b); MulSplit(Mul(a, c), b);
      MulAddLeft(s, Mul(TimesX(a), b / 2), c);
      MulSwap(TimesX(a), b / 2, c);
      MulTimesX(a, c);
      MulZero(c);
    }
  }

  lemma {:induction false} MulOneLeft(b: Byte)
    ensures Mul(1, b) == b
  {
    if b != 0 {
      MulSplit(1, b);
      MulTimesX(1, b / 2);
      MulOneLeft(b / 2);
      XorSplit(b % 2, 2 * (b / 2));
    }
  }

  lemma MulComm(a: Byte, b: Byte)
    ensures Mul(a, b) == Mul(b, a)
  {
    MulSwap(1, a, b);
    MulOneLeft(a);
    MulOneLeft(b);
  }

  lemma MulAssoc(a: Byte, b: Byte, c: Byte)
    ensures Mul(Mul(a, b), c) == Mul(a, Mul(b, c))
  {
    MulComm(a, b);
    MulSwap(b, a, c);
    MulComm(Mul(b, c), a);
  }

  lemma MulOne(a: Byte)
    ensures Mul(a, 1) == a && Mul(1, a) == a
  {
    MulOneLeft(a);
    MulComm(a, 1);
  }
}
