/**
 An independent reading of multiplication in GF(2^8): the carry-less product of the two bytes,
 reduced modulo the field polynomial.
 */
module CarryLess {
  import opened GF256

  /** The product of two polynomials over GF(2), without reduction. */
  function Product(a: nat, b: nat): nat
    decreases b, 1
  {
    if b == 0 then 0 else ProductBits(a, b)
  }

  function ProductBits(a: nat, b: nat): nat
    requires b != 0
    decreases b, 0
  {
    Xor(if b % 2 == 1 then a else 0, Product(2 * a, b / 2))
  }

  lemma ProductSplit(a: nat, b: nat)
    ensures Product(a, b) == Xor(if b % 2 == 1 then a else 0, Product(2 * a, b / 2))
  {
    if b != 0 { assert Product(a, b) == ProductBits(a, b); }
  }

  lemma {:induction false} ProductDouble(a: nat, b: nat)
    ensures Product(2 * a, b) == 2 * Product(a, b) == Product(a, 2 * b)
    decreases b
  {
    if b != 0 {
      ProductSplit(2 * a, b);
      ProductSplit(a, b);
      ProductDouble(2 * a, b / 2);
      XorDouble(if b % 2 == 1 then a else 0, Product(2 * a, b / 2));
      ProductSplit(a, 2 * b);
    }
  }

  lemma {:induction false} ProductXor(a: nat, b: nat, c: nat)
    ensures Product(a, Xor(b, c)) == Xor(Product(a, b), Product(a, c))
    decreases b + c
  {
    if b != 0 && c != 0 {
      ProductSplit(a, b); ProductSplit(a, c); ProductSplit(a, Xor(b, c));
      XorSplit(b, c);
      ProductXor(2 * a, b / 2, c / 2);
      XorSwap4(if b % 2 == 1 then a else 0, if c % 2 == 1 then a else 0,
               Product(2 * a, b / 2), Product(2 * a, c / 2));
      XorSelf(a);
    }
  }

  /** p and r differ by a multiple of the field polynomial. */
  ghost predicate Congruent(p: nat, r: nat)
  {
    exists q: nat :: p == Xor(r, Product(POLYNOMIAL, q))
  }

  lemma CongruentXor(p: nat, r: nat, p': nat, r': nat)
    requires Congruent(p, r) && Congruent(p', r')
    ensures Congruent(Xor(p, p'), Xor(r, r'))
  {
    var q: nat :| p == Xor(r, Product(POLYNOMIAL, q));
    var q': nat :| p' == Xor(r', Product(POLYNOMIAL, q'));
    ProductXor(POLYNOMIAL, q, q');
    XorSwap4(r, Product(POLYNOMIAL, q), r', Product(POLYNOMIAL, q'));
    assert Xor(p, p') == Xor(Xor(r, r'), Product(POLYNOMIAL, Xor(q, q')));
  }

  lemma CongruentDouble(p: nat, r: Byte)
    requires Congruent(p, r)
    ensures Congruent(2 * p, TimesX(r))
  {
    var q: nat :| p == Xor(r, Product(POLYNOMIAL, q));
    XorDouble(r, Product(POLYNOMIAL, q));
    ProductDouble(POLYNOMIAL, q);
    if 2 * r < 256 {
      assert 2 * p == Xor(TimesX(r), Product(POLYNOMIAL, 2 * q));
    } else {
      assert Product(POLYNOMIAL, 1) == POLYNOMIAL by { ProductSplit(POLYNOMIAL, 1); }
      ProductXor(POLYNOMIAL, 1, 2 * q);
      XorCancel(2 * r, POLYNOMIAL);
      XorAssoc(TimesX(r), POLYNOMIAL, Product(POLYNOMIAL, 2 * q));
      assert 2 * p == Xor(TimesX(r), Product(POLYNOMIAL, Xor(1, 2 * q)));
    }
  }

  lemma {:induction false} ProductCongruent(p: nat, r: Byte, b: Byte)
    requires Congruent(p, r)
    ensures Congruent(Product(p, b), Mul(r, b))
    decreases b
  {
    assert Congruent(0, 0) by { assert 0 == Xor(0, Product(POLYNOMIAL, 0)); }
    if b != 0 {
      ProductSplit(p, b);
      MulSplit(r, b);
      CongruentDouble(p, r);
      ProductCongruent(2 * p, TimesX(r), b / 2);
      CongruentXor(if b % 2 == 1 then p else 0, if b % 2 == 1 then r else 0,
                   Product(2 * p, b / 2), Mul(TimesX(r), b / 2));
    }
  }

  // ----- the remainder is unique -----

  lemma {:induction false} ProductDegree(a: nat, n: nat, b: nat, d: nat)
    requires Pow2(n) <= a < 2 * Pow2(n) && Pow2(d) <= b < 2 * Pow2(d)
    ensures Pow2(n + d) <= Product(a, b) < 2 * Pow2(n + d)
    decreases d
  {
    ProductSplit(a, b);
    if d > 0 {
      ProductDegree(2 * a, n + 1, b / 2, d - 1);
      Pow2Monotone(n + 1, n + d);
      var s := if b % 2 == 1 then a else 0;
      XorTop(s, Product(2 * a, b / 2), n + d);
      XorBound(s, Product(2 * a, b / 2), n + d + 1);
    }
  }

  lemma {:induction false} Pow2Monotone(n: nat, m: nat)
    requires n <= m
    ensures Pow2(n) <= Pow2(m)
    decreases m
  {
    if n < m { Pow2Monotone(n, m - 1); }
  }

  lemma {:induction false} DegreeExists(b: nat) returns (d: nat)
    requires b > 0
    ensures Pow2(d) <= b < 2 * Pow2(d)
  {
    if b == 1 {
      d := 0;
    } else {
      d := DegreeExists(b / 2);
      d := d + 1;
    }
  }

  lemma MultipleIsLarge(q: nat)
    requires q > 0
    ensures Product(POLYNOMIAL, q) >= 256
  {
    var d := DegreeExists(q);
    var n := 8;
    ProductDegree(POLYNOMIAL, n, q, d);
    Pow2Monotone(n, n + d);
  }

  lemma RemainderIsUnique(r: Byte, s: Byte)
    requires Congruent(r, s)
    ensures r == s
  {
    var q: nat :| r == Xor(s, Product(POLYNOMIAL, q));
    var p := Product(POLYNOMIAL, q);
    XorComm(s, p);
    XorCancel(p, s);
    assert p == Add(r, s);
    if q > 0 { MultipleIsLarge(q); }
  }

  /** `Mul(a, b)` is the one byte congruent to the carry-less product of a and b. */
  lemma MulIsProductModulo(a: Byte, b: Byte, r: Byte)
    ensures Congruent(Product(a, b), r) <==> r == Mul(a, b)
  {
    assert a == Xor(a, Product(POLYNOMIAL, 0));
    ProductCongruent(a, a, b);
    if Congruent(Product(a, b), r) {
      CongruentTransitive(Product(a, b), r, Mul(a, b));
      RemainderIsUnique(r, Mul(a, b));
    }
  }

  lemma CongruentTransitive(p: nat, r: nat, s: nat)
    requires Congruent(p, r) && Congruent(p, s)
    ensures Congruent(r, s)
  {
    var q: nat :| p == Xor(r, Product(POLYNOMIAL, q));
    var q': nat :| p == Xor(s, Product(POLYNOMIAL, q'));
    var m, m' := Product(POLYNOMIAL, q), Product(POLYNOMIAL, q');
    XorCancel(r, m);
    XorAssoc(s, m', m);
    ProductXor(POLYNOMIAL, q', q);
    assert r == Xor(s, Product(POLYNOMIAL, Xor(q', q)));
  }
}
