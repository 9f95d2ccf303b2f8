/**
 Powers of x in GF(2^8): x generates every non-zero element, so logarithms exist for all of them
 and inverses follow.  This is what makes the log/exp tables of the codec well defined.
 */
module Powers {
  import opened GF256
  import opened Counting

  function Exp(i: nat): Byte { if i == 0 then 1 else TimesX(Exp(i - 1)) }

  lemma {:induction false} ExpAdd(i: nat, j: nat)
    ensures Exp(i + j) == Mul(Exp(i), Exp(j))
    decreases i
  {
    if i == 0 {
      MulOne(Exp(j));
    } else {
      ExpAdd(i - 1, j);
      MulTimesX(Exp(i - 1), Exp(j));
    }
  }

  lemma {:induction false} ExpNonzero(i: nat)
    ensures Exp(i) != 0
  {
    if i > 0 {
      ExpNonzero(i - 1);
      TimesXNonzero(Exp(i - 1));
    }
  }

  // ----- evaluating powers -----

  function Odd(s: nat, t: nat): nat { if s == t then 0 else 1 }

  lemma XorBit(p: nat, s: nat, q: nat, t: nat)
    requires s < 2 && t < 2
    ensures Xor(2 * p + s, 2 * q + t) == 2 * Xor(p, q) + Odd(s, t)
  {
    var a, b := 2 * p + s, 2 * q + t;
    assert a / 2 == p && a % 2 == s && b / 2 == q && b % 2 == t;
    XorSplit(a, b);
  }

  lemma XorEight(h: nat)
    requires 8 <= h < 16
    ensures Xor(h, 8) == h - 8
  {
    var h1, h2 := h / 2, h / 4;
    XorSelf(1);
    XorBit(1, h2 - 2, 1, 0);
    XorBit(h2, h1 - 2 * h2, 2, 0);
    XorBit(h1, h - 2 * h1, 4, 0);
  }

  /** The upper half of the reduction. */
  lemma ReduceHigh(h: nat, s3: nat, s2: nat) returns (a: nat)
    requires 8 <= h < 16 && s3 < 2 && s2 < 2
    ensures a == 4 * h + 2 * s3 + s2 && Xor(a, 35) == 4 * (h - 8) + 2 * (1 - s3) + 1 - s2
  {
    XorEight(h);
    XorBit(h, s3, 8, 1);
    a := 2 * h + s3;
    XorBit(a, s2, 17, 1);
    a := 2 * a + s2;
  }

  /** Shift-and-reduce of a = 16 h + 8 s3 + 4 s2 + 2 s1 + s0 with the top bit set. */
  lemma ReduceBits(h: nat, s3: nat, s2: nat, s1: nat, s0: nat) returns (a: nat)
    requires 8 <= h < 16 && s3 < 2 && s2 < 2 && s1 < 2 && s0 < 2
    ensures a == 16 * h + 8 * s3 + 4 * s2 + 2 * s1 + s0
    ensures Xor(2 * a, POLYNOMIAL) == 2 * a - 227 - 8 * (4 * s3 + 2 * s2 + s1)
  {
    a := ReduceHigh(h, s3, s2);
    XorBit(a, s1, 35, 1);
    a := 2 * a + s1;
    XorBit(a, s0, 71, 0);
    a := 2 * a + s0;
    XorBit(a, 0, 142, 1);
  }

  function Drop(c: int, p: int): int { if c >= p then c - p else c }

  /** Bits 1 to 3 of a byte, without division. */
  function MiddleBits(a: int): int
  {
    var c := Drop(Drop(Drop(Drop(a, 128), 64), 32), 16);
    if c >= 8 then (if c >= 12 then (if c >= 14 then 7 else 6) else if c >= 10 then 5 else 4)
    else if c >= 4 then (if c >= 6 then 3 else 2)
    else if c >= 2 then 1 else 0
  }

  lemma DropKeeps(a: int, p: int, k: nat) returns (h: nat)
    requires 0 <= a < 2 * p && p == 16 * k
    ensures 0 <= Drop(a, p) < p && a == 16 * h + Drop(a, p)
  {
    h := if a >= p then k else 0;
  }

  lemma HalfOfRest(a: nat, h: nat, c: nat)
    requires a == 16 * h + c && c < 16
    ensures a / 2 % 8 == c / 2
  {
    assert a / 2 == 8 * h + c / 2;
  }

  lemma MiddleBitsAre(a: Byte)
    ensures MiddleBits(a) == a / 2 % 8
  {
    var b := Drop(a, 128);
    var h0 := DropKeeps(a, 128, 8);
    var h1 := DropKeeps(b, 64, 4);
    b := Drop(b, 64);
    var h2 := DropKeeps(b, 32, 2);
    b := Drop(b, 32);
    var h3 := DropKeeps(b, 16, 1);
    HalfOfRest(a, h0 + h1 + h2 + h3, Drop(b, 16));
  }

  /** Shift-and-reduce written with integer arithmetic only. */
  function Next(a: int): int { if a < 128 then 2 * a else 2 * a - 227 - 8 * MiddleBits(a) }

  /** The bits of b = a / 2, and of b % 8. */
  lemma LowBits(b: nat) returns (h: nat, s3: nat, s2: nat, s1: nat)
    ensures b == 8 * h + 4 * s3 + 2 * s2 + s1 && s3 < 2 && s2 < 2 && s1 < 2
    ensures b % 8 == 4 * s3 + 2 * s2 + s1
  {
    h := b / 8;
    var u := b - 8 * h;
    s3 := if u < 4 then 0 else 1;
    s2 := if u - 4 * s3 < 2 then 0 else 1;
    s1 := u - 4 * s3 - 2 * s2;
  }

  lemma NextIsTimesX(a: Byte)
    ensures TimesX(a) == Next(a)
  {
    if 128 <= a {
      var b := a / 2;
      MiddleBitsAre(a);
      var h, s3, s2, s1 := LowBits(b);
      var a' := ReduceBits(h, s3, s2, s1, a - 2 * b);
    }
  }

  /** Eight powers on. */
  lemma Run8(i: nat, a0: int, a1: int, a2: int, a3: int, a4: int, a5: int, a6: int, a7: int, a8: int)
    requires Exp(i) == a0
    requires a1 == Next(a0) && a2 == Next(a1) && a3 == Next(a2) && a4 == Next(a3)
    requires a5 == Next(a4) && a6 == Next(a5) && a7 == Next(a6) && a8 == Next(a7)
    ensures Exp(i + 8) == a8
  {
    NextIsTimesX(a0);
    assert Exp(i + 1) == a1; NextIsTimesX(a1);
    assert Exp(i + 2) == a2; NextIsTimesX(a2);
    assert Exp(i + 3) == a3; NextIsTimesX(a3);
    assert Exp(i + 4) == a4; NextIsTimesX(a4);
    assert Exp(i + 5) == a5; NextIsTimesX(a5);
    assert Exp(i + 6) == a6; NextIsTimesX(a6);
    assert Exp(i + 7) == a7; NextIsTimesX(a7);
  }

  /** x^(17 r) for r <= 15. */
  function PowerOf17(r: nat): Byte
  {
    match r
    case 0 => 1 case 1 => 152 case 2 => 78 case 3 => 10 case 4 => 153
    case 5 => 214 case 6 => 68 case 7 => 147 case 8 => 79 case 9 => 146
    case 10 => 215 case 11 => 220 case 12 => 221 case 13 => 69 case 14 => 11 case _ => 1
  }

  lemma Row0(i: nat) requires Exp(i) == 1 ensures Exp(i + 17) == 152
  { Run8(i, 1, 2, 4, 8, 16, 32, 64, 128, 29); Run8(i + 8, 29, 58, 116, 232, 205, 135, 19, 38, 76); NextIsTimesX(76); }
  lemma Row1(i: nat) requires Exp(i) == 152 ensures Exp(i + 17) == 78
  {
    Run8(i, 152, 45, 90, 180, 117, 234, 201, 143, 3);
    Run8(i + 8, 3, 6, 12, 24, 48, 96, 192, 157, 39);
    NextIsTimesX(39);
  }
  lemma Row2(i: nat) requires Exp(i) == 78 ensures Exp(i + 17) == 10
  {
    Run8(i, 78, 156, 37, 74, 148, 53, 106, 212, 181);
    Run8(i + 8, 181, 119, 238, 193, 159, 35, 70, 140, 5);
    NextIsTimesX(5);
  }
  lemma Row3(i: nat) requires Exp(i) == 10 ensures Exp(i + 17) == 153
  {
    Run8(i, 10, 20, 40, 80, 160, 93, 186, 105, 210);
    Run8(i + 8, 210, 185, 111, 222, 161, 95, 190, 97, 194);
    NextIsTimesX(194);
  }
  lemma Row4(i: nat) requires Exp(i) == 153 ensures Exp(i + 17) == 214
  {
    Run8(i, 153, 47, 94, 188, 101, 202, 137, 15, 30);
    Run8(i + 8, 30, 60, 120, 240, 253, 231, 211, 187, 107);
    NextIsTimesX(107);
  }
  lemma Row5(i: nat) requires Exp(i) == 214 ensures Exp(i + 17) == 68
  {
    Run8(i, 214, 177, 127, 254, 225, 223, 163, 91, 182);
    Run8(i + 8, 182, 113, 226, 217, 175, 67, 134, 17, 34);
    NextIsTimesX(34);
  }
  lemma Row6(i: nat) requires Exp(i) == 68 ensures Exp(i + 17) == 147
  {
    Run8(i, 68, 136, 13, 26, 52, 104, 208, 189, 103);
    Run8(i + 8, 103, 206, 129, 31, 62, 124, 248, 237, 199);
    NextIsTimesX(199);
  }
  lemma Row7(i: nat) requires Exp(i) == 147 ensures Exp(i + 17) == 79
  {
    Run8(i, 147, 59, 118, 236, 197, 151, 51, 102, 204);
    Run8(i + 8, 204, 133, 23, 46, 92, 184, 109, 218, 169);
    NextIsTimesX(169);
  }
  lemma Row8(i: nat) requires Exp(i) == 79 ensures Exp(i + 17) == 146
  {
    Run8(i, 79, 158, 33, 66, 132, 21, 42, 84, 168);
    Run8(i + 8, 168, 77, 154, 41, 82, 164, 85, 170, 73);
    NextIsTimesX(73);
  }
  lemma Row9(i: nat) requires Exp(i) == 146 ensures Exp(i + 17) == 215
  {
    Run8(i, 146, 57, 114, 228, 213, 183, 115, 230, 209);
    Run8(i + 8, 209, 191, 99, 198, 145, 63, 126, 252, 229);
    NextIsTimesX(229);
  }
  lemma Row10(i: nat) requires Exp(i) == 215 ensures Exp(i + 17) == 220
  {
    Run8(i, 215, 179, 123, 246, 241, 255, 227, 219, 171);
    Run8(i + 8, 171, 75, 150, 49, 98, 196, 149, 55, 110);
    NextIsTimesX(110);
  }
  lemma Row11(i: nat) requires Exp(i) == 220 ensures Exp(i + 17) == 221
  {
    Run8(i, 220, 165, 87, 174, 65, 130, 25, 50, 100);
    Run8(i + 8, 100, 200, 141, 7, 14, 28, 56, 112, 224);
    NextIsTimesX(224);
  }
  lemma Row12(i: nat) requires Exp(i) == 221 ensures Exp(i + 17) == 69
  {
    Run8(i, 221, 167, 83, 166, 81, 162, 89, 178, 121);
    Run8(i + 8, 121, 242, 249, 239, 195, 155, 43, 86, 172);
    NextIsTimesX(172);
  }
  lemma Row13(i: nat) requires Exp(i) == 69 ensures Exp(i + 17) == 11
  {
    Run8(i, 69, 138, 9, 18, 36, 72, 144, 61, 122);
    Run8(i + 8, 122, 244, 245, 247, 243, 251, 235, 203, 139);
    NextIsTimesX(139);
  }
  lemma Row14(i: nat) requires Exp(i) == 11 ensures Exp(i + 17) == 1
  {
    Run8(i, 11, 22, 44, 88, 176, 125, 250, 233, 207);
    Run8(i + 8, 207, 131, 27, 54, 108, 216, 173, 71, 142);
    NextIsTimesX(142);
  }

  lemma {:induction false} ExpOfMultipleOf17(r: nat)
    requires r <= 15
    ensures Exp(17 * r) == PowerOf17(r)
  {
    if r > 0 {
      ExpOfMultipleOf17(r - 1);
      var i := 17 * (r - 1);
      match r - 1 {
        case 0 => Row0(i);
        case 1 => Row1(i);
        case 2 => Row2(i);
        case 3 => Row3(i);
        case 4 => Row4(i);
        case 5 => Row5(i);
        case 6 => Row6(i);
        case 7 => Row7(i);
        case 8 => Row8(i);
        case 9 => Row9(i);
        case 10 => Row10(i);
        case 11 => Row11(i);
        case 12 => Row12(i);
        case 13 => Row13(i);
        case 14 => Row14(i);
      }
    }
  }

  lemma Exp255(n: nat)
    requires n == 255
    ensures Exp(n) == 1
  {
    ExpOfMultipleOf17(n / 17);
  }

  lemma {:induction false} ExpMultiple(i: nat, n: nat)
    requires Exp(i) == 1
    ensures Exp(i * n) == 1
    decreases n
  {
    if n > 0 {
      ExpMultiple(i, n - 1);
      ExpAdd(i * (n - 1), i);
      MulOne(1);
      assert i * n == i * (n - 1) + i;
    }
  }

  /** A proper divisor of 255 = 3 * 5 * 17 divides 15, 51 or 85. */
  lemma DivisorOf255(i: nat, q: nat) returns (r: nat)
    requires 0 < i < 255 && i * q == 255
    ensures i * r == 15 || i * r == 51 || i * r == 85
  {
    if i <= 15 {
      r := if i == 1 then 15 else if i == 3 then 5 else if i == 5 then 3 else 1;
    } else {
      r := if q == 15 then 3 else 1;
    }
  }

  lemma NotOne(i: nat)
    requires i == 15 || i == 51 || i == 85
    ensures Exp(i) != 1
  {
    if i == 15 {
      ExpAdd(i, 2);
      MulOne(Exp(2));
      ExpOfMultipleOf17(1);
      assert Exp(2) == 4;
    } else {
      ExpOfMultipleOf17(i / 17);
    }
  }

  lemma RestIsOne(n: nat, r: nat)
    requires Exp(n) == 1 && n + r == 255
    ensures Exp(r) == 1
  {
    ExpAdd(n, r);
    MulOne(Exp(r));
    Exp255(n + r);
  }

  lemma DivisorIsNotOne(i: nat, q: nat)
    requires 0 < i < 255 && i * q == 255
    ensures Exp(i) != 1
  {
    if Exp(i) == 1 {
      var d := DivisorOf255(i, q);
      ExpMultiple(i, d);
      NotOne(i * d);
    }
  }

  lemma Divide(i: nat) returns (q: nat, n: nat, r: nat)
    requires 0 < i
    ensures n == i * q && n + r == 255 && r < i
  {
    q, r := 255 / i, 255 % i;
    n := i * q;
  }

  /** x^i = 1 only at multiples of 255: x is primitive. */
  lemma {:induction false} Primitive(i: nat)
    requires 0 < i < 255
    ensures Exp(i) != 1
  {
    if Exp(i) == 1 {
      var q, n, r := Divide(i);
      assert Exp(n) == 1 by { ExpMultiple(i, q); }
      RestIsOne(n, r);
      if r == 0 { DivisorIsNotOne(i, q); } else { Primitive(r); }
    }
  }

  lemma {:induction false} ExpInjective(i: nat, j: nat)
    requires i < j < 255
    ensures Exp(i) != Exp(j)
  {
    if i == 0 {
      Primitive(j);
    } else {
      ExpInjective(i - 1, j - 1);
      if Exp(i) == Exp(j) { TimesXInjective(Exp(i - 1), Exp(j - 1)); }
    }
  }

  lemma ExpPeriod(i: nat)
    ensures Exp(i + 255) == Exp(i)
  {
    ExpAdd(i, 255);
    Exp255(255);
    MulOne(Exp(i));
  }

  // ----- logarithms and inverses -----

  /** The first n powers. */
  ghost function PowersBelow(n: nat): set<int> { set i | 0 <= i < n :: Exp(i) as int }

  lemma {:induction false} PowersAreDistinct(n: nat)
    requires n <= 255
    ensures |PowersBelow(n)| == n
  {
    if n == 0 {
      assert PowersBelow(0) == {};
    } else {
      PowersAreDistinct(n - 1);
      assert PowersBelow(n) == PowersBelow(n - 1) + {Exp(n - 1) as int};
      forall i | 0 <= i < n - 1
        ensures Exp(i) != Exp(n - 1)
      {
        ExpInjective(i, n - 1);
      }
    }
  }

  /** Every non-zero byte is a power of x. */
  lemma EveryByteIsAPower(a: Byte)
    requires a != 0
    ensures exists i :: 0 <= i < 255 && Exp(i) == a
  {
    var powers := PowersBelow(255);
    forall i | 0 <= i < 255
      ensures Exp(i) != 0
    {
      ExpNonzero(i);
    }
    PowersAreDistinct(255);
    Pigeonhole(powers + {0, a as int}, 256);
  }

  ghost function Log(a: Byte): (i: nat)
    requires a != 0
    ensures i < 255 && Exp(i) == a
  {
    EveryByteIsAPower(a);
    var i :| 0 <= i < 255 && Exp(i) == a;
    i
  }

  lemma InverseExists(a: Byte)
    requires a != 0
    ensures Mul(a, Exp(255 - Log(a))) == 1
  {
    var i := Log(a);
    ExpAdd(i, 255 - i);
    Exp255(i + (255 - i));
  }

  /** The multiplicative inverse. */
  ghost function Inv(a: Byte): (b: Byte)
    requires a != 0
    ensures Mul(a, b) == 1 && b != 0
  {
    InverseExists(a);
    var b: Byte :| Mul(a, b) == 1;
    MulZero(a);
    b
  }

  lemma InverseIsUnique(a: Byte, b: Byte)
    requires a != 0 && Mul(a, b) == 1
    ensures b == Inv(a)
  {
    var c := Inv(a);
    MulAssoc(c, a, b);
    MulComm(a, c);
    MulOne(b);
    MulOne(c);
  }

  lemma NoZeroDivisors(a: Byte, b: Byte)
    ensures Mul(a, b) == 0 <==> a == 0 || b == 0
  {
    MulZero(a);
    MulZero(b);
    if a != 0 && Mul(a, b) == 0 {
      MulAssoc(Inv(a), a, b);
      MulComm(a, Inv(a));
      MulOne(b);
      MulZero(Inv(a));
    }
  }
}
