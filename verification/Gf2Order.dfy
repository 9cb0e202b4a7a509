/**
 The order of x modulo the CRC-32 polynomial: x^(2^32) = x.  It is what lets x2nmodp take the
 exponent of its table index modulo 32.
 */
module Gf2Order {
  import opened Basics
  import opened Gf2

  function Shift4(b: bv32): bv32 {
    Shift(Shift(Shift(Shift(b))))
  }

  function Pick(a: bv32, m: bv32, b: bv32): bv32 {
    if a & m != 0 then b else 0
  }

  /** Four terms of a product. */
  function Terms4(a: bv32, b: bv32, m0: bv32, m1: bv32, m2: bv32, m3: bv32): bv32 {
    var b1 := Shift(b);
    var b2 := Shift(b1);
    Add(Pick(a, m0, b), Add(Pick(a, m1, b1), Add(Pick(a, m2, b2), Pick(a, m3, Shift(b2)))))
  }

  lemma MulNothing(a: bv32, b: bv32)
    ensures MulMask(a, b, 0) == 0
  {
  }

  lemma MulStep(a: bv32, b: bv32, m: bv32)
    requires m != 0
    ensures MulMask(a, b, m) == Add(Pick(a, m, b), MulMask(a, Shift(b), Half(m)))
  {
    hide Add, Shift, Half;
  }

  lemma Unroll4(a: bv32, b: bv32, m0: bv32, m1: bv32, m2: bv32, m3: bv32)
    requires m0 != 0 && m1 == Half(m0) != 0 && m2 == Half(m1) != 0 && m3 == Half(m2) != 0
    ensures MulMask(a, b, m0) == Add(Terms4(a, b, m0, m1, m2, m3), MulMask(a, Shift4(b), Half(m3)))
  {
    hide Add, Shift, Half, Coef, Pick, MulMask;
    var b1, b2, b3 := Shift(b), Shift(Shift(b)), Shift(Shift(Shift(b)));
    var t0, t1, t2, t3 := Pick(a, m0, b), Pick(a, m1, b1), Pick(a, m2, b2), Pick(a, m3, b3);
    var rest := MulMask(a, Shift4(b), Half(m3));
    MulStep(a, b, m0);
    MulStep(a, b1, m1);
    MulStep(a, b2, m2);
    MulStep(a, b3, m3);
    AddAssoc(t2, t3, rest);
    AddAssoc(t1, Add(t2, t3), rest);
    AddAssoc(t0, Add(t1, Add(t2, t3)), rest);
  }

  /** A square computed from c(x) * x^(4i), i = 0 .. 7. */
  lemma SquareBy(c: bv32, c4: bv32, c8: bv32, c12: bv32, c16: bv32, c20: bv32, c24: bv32, c28: bv32, r: bv32)
    requires c4 == Shift4(c) && c8 == Shift4(c4) && c12 == Shift4(c8) && c16 == Shift4(c12)
    requires c20 == Shift4(c16) && c24 == Shift4(c20) && c28 == Shift4(c24)
    requires r == Add(Terms4(c, c, 0x80000000, 0x40000000, 0x20000000, 0x10000000),
                 Add(Terms4(c, c4, 0x08000000, 0x04000000, 0x02000000, 0x01000000),
                 Add(Terms4(c, c8, 0x00800000, 0x00400000, 0x00200000, 0x00100000),
                 Add(Terms4(c, c12, 0x00080000, 0x00040000, 0x00020000, 0x00010000),
                 Add(Terms4(c, c16, 0x00008000, 0x00004000, 0x00002000, 0x00001000),
                 Add(Terms4(c, c20, 0x00000800, 0x00000400, 0x00000200, 0x00000100),
                 Add(Terms4(c, c24, 0x00000080, 0x00000040, 0x00000020, 0x00000010),
                 Terms4(c, c28, 0x00000008, 0x00000004, 0x00000002, 0x00000001))))))))
    ensures Mul(c, c) == r
  {
    hide Add, Terms4, Shift4, MulMask, Shift, Pick;
    Unroll4(c, c, 0x80000000, 0x40000000, 0x20000000, 0x10000000);
    Unroll4(c, c4, 0x08000000, 0x04000000, 0x02000000, 0x01000000);
    Unroll4(c, c8, 0x00800000, 0x00400000, 0x00200000, 0x00100000);
    Unroll4(c, c12, 0x00080000, 0x00040000, 0x00020000, 0x00010000);
    Unroll4(c, c16, 0x00008000, 0x00004000, 0x00002000, 0x00001000);
    Unroll4(c, c20, 0x00000800, 0x00000400, 0x00000200, 0x00000100);
    Unroll4(c, c24, 0x00000080, 0x00000040, 0x00000020, 0x00000010);
    Unroll4(c, c28, 0x00000008, 0x00000004, 0x00000002, 0x00000001);
    MulNothing(c, Shift4(c28));
    AddLaws(Terms4(c, c28, 0x00000008, 0x00000004, 0x00000002, 0x00000001), 0);
  }

  /** One squaring of x^(2^i). */
  lemma SquareStep(i: nat, c: bv32, c4: bv32, c8: bv32, c12: bv32, c16: bv32, c20: bv32, c24: bv32, c28: bv32, r: bv32)
    requires X(Pow2(i)) == c
    requires c4 == Shift4(c) && c8 == Shift4(c4) && c12 == Shift4(c8) && c16 == Shift4(c12)
    requires c20 == Shift4(c16) && c24 == Shift4(c20) && c28 == Shift4(c24)
    requires r == Add(Terms4(c, c, 0x80000000, 0x40000000, 0x20000000, 0x10000000),
                 Add(Terms4(c, c4, 0x08000000, 0x04000000, 0x02000000, 0x01000000),
                 Add(Terms4(c, c8, 0x00800000, 0x00400000, 0x00200000, 0x00100000),
                 Add(Terms4(c, c12, 0x00080000, 0x00040000, 0x00020000, 0x00010000),
                 Add(Terms4(c, c16, 0x00008000, 0x00004000, 0x00002000, 0x00001000),
                 Add(Terms4(c, c20, 0x00000800, 0x00000400, 0x00000200, 0x00000100),
                 Add(Terms4(c, c24, 0x00000080, 0x00000040, 0x00000020, 0x00000010),
                 Terms4(c, c28, 0x00000008, 0x00000004, 0x00000002, 0x00000001))))))))
    ensures X(Pow2(i + 1)) == r
  {
    hide Add, Terms4, Shift4, MulMask, Shift, Pick, X;
    SquareBy(c, c4, c8, c12, c16, c20, c24, c28, r);
    XTimesX(Pow2(i), Pow2(i));
  }

  lemma Powers0To7()
    ensures X(Pow2(7)) == 0xa06a2517
  {
    assert X(1) == Shift(X(0)) == 0x40000000;
    assert Pow2(0) == 1;
    hide X, Pow2;
    SquareStep(0, 0x40000000, 0x04000000, 0x00400000, 0x00040000, 0x00004000, 0x00000400, 0x00000040, 0x00000004, 0x20000000);
    SquareStep(1, 0x20000000, 0x02000000, 0x00200000, 0x00020000, 0x00002000, 0x00000200, 0x00000020, 0x00000002, 0x08000000);
    SquareStep(2, 0x08000000, 0x00800000, 0x00080000, 0x00008000, 0x00000800, 0x00000080, 0x00000008, 0xedb88320, 0x00800000);
    SquareStep(3, 0x00800000, 0x00080000, 0x00008000, 0x00000800, 0x00000080, 0x00000008, 0xedb88320, 0x0edb8832, 0x00008000);
    SquareStep(4, 0x00008000, 0x00000800, 0x00000080, 0x00000008, 0xedb88320, 0x0edb8832, 0x3b83984b, 0xc8d98a08, 0xedb88320);
    SquareStep(5, 0xedb88320, 0x0edb8832, 0x3b83984b, 0xc8d98a08, 0xe1351b80, 0x0e1351b8, 0xed59b63b, 0xc5b428ef, 0xb1e6b092);
    SquareStep(6, 0xb1e6b092, 0x30704bc1, 0x1eb014d8, 0xec53826d, 0x8816eaf2, 0x33ef4e67, 0x533b85da, 0xd3e51bb5, 0xa06a2517);
  }

  lemma Powers7To14()
    requires X(Pow2(7)) == 0xa06a2517
    ensures X(Pow2(14)) == 0x4d47bae0
  {
    hide X, Pow2;
    SquareStep(7, 0xa06a2517, 0x5a03d36d, 0x8373efe2, 0x33591e36, 0x4e87f0bb, 0xcf89cc87, 0x5cfdedf4, 0x73139f4f, 0xed627dae);
    SquareStep(8, 0xed627dae, 0xaedcc5a2, 0x3183ec92, 0x38761e01, 0x1e307184, 0x773f4688, 0xeacb7748, 0xe3143454, 0x88d14467);
    SquareStep(9, 0x88d14467, 0x5888657a, 0xd35e25bf, 0xb0881047, 0x5b0df038, 0xe8085c23, 0x2859b56e, 0xa28f792e, 0xd7bbfe6a);
    SquareStep(10, 0xd7bbfe6a, 0xdbad1c0e, 0xadb033b8, 0xe763801b, 0xc5178b8d, 0x8a82aa6c, 0x93cce816, 0x448eafd9, 0xec447f11);
    SquareStep(11, 0xec447f11, 0x13735795, 0x6a5c648d, 0x8076149c, 0x9363a3f9, 0xf939a97b, 0xc4f2291b, 0xc72e911d, 0x8e7ea170);
    SquareStep(12, 0x8e7ea170, 0x08e7ea17, 0x508b0f9d, 0x83db622d, 0x8eee64f6, 0x455c8717, 0x5450b94d, 0x8396d940, 0x6427800e);
    SquareStep(13, 0x6427800e, 0xa6489a78, 0xe7dc0a87, 0x5e78b194, 0x733bca89, 0xf73c2fec, 0x9417004e, 0xa94b927c, 0x4d47bae0);
  }

  lemma Powers14To21()
    requires X(Pow2(14)) == 0x4d47bae0
    ensures X(Pow2(21)) == 0x6c8dedc4
  {
    hide X, Pow2;
    SquareStep(14, 0x4d47bae0, 0x04d47bae, 0xa047a5c2, 0x316a5a94, 0x75cae439, 0xf7533d07, 0x5f7042ec, 0x9e93c69e, 0x09fe548f);
    SquareStep(15, 0x09fe548f, 0xbd221754, 0x7d0e60e5, 0x6cbbb7fa, 0xd01d1897, 0x5d04a0b5, 0x6ebb1bff, 0xbb5643a3, 0x83852d0f);
    SquareStep(16, 0x83852d0f, 0xb585a0cc, 0x903c98bc, 0x92670b3b, 0xc247c33f, 0xb1998e2f, 0xb6a46afe, 0xab60a4d7, 0x30362f1a);
    SquareStep(17, 0x30362f1a, 0xd5d5c119, 0xfd52cf55, 0x64be7d01, 0x1bfcf7b4, 0x77638eeb, 0xcc178b62, 0x37af587e, 0x7b5a9cc3);
    SquareStep(18, 0x7b5a9cc3, 0x216c9960, 0x0216c996, 0x4d930dc1, 0x196e20b8, 0xec2e612b, 0xc5a3559e, 0xac50d721, 0x31fec169);
    SquareStep(19, 0x31fec169, 0xf3107f52, 0x345f273d, 0x859620a7, 0x585c1336, 0x4837a06b, 0xcfe2c98a, 0xda288f70, 0x9fec022a);
    SquareStep(20, 0x9fec022a, 0xdf2863ca, 0xdb2425d4, 0x7b6e03cd, 0x816532e8, 0xe5aed00e, 0xae500f78, 0xe75d83d7, 0x6c8dedc4);
  }

  lemma Powers21To27()
    requires X(Pow2(21)) == 0x6c8dedc4
    ensures X(Pow2(27)) == 0xa8a472c0
  {
    hide X, Pow2;
    SquareStep(21, 0x6c8dedc4, 0x70149f4c, 0x9c658b44, 0x7f1a1924, 0x712de002, 0x3c7cfec8, 0xee7f4ccc, 0x9583367c, 0x15d6874d);
    SquareStep(22, 0x15d6874d, 0x878ebaa0, 0x0878ebaa, 0xd6512d52, 0x360b321d, 0x85b361f5, 0x633067eb, 0xcd52b5f2, 0x5fde7a4e);
    SquareStep(23, 0x5fde7a4e, 0xa5f705dc, 0x913bb2ed, 0x8fc069fa, 0xde2aa577, 0x5de7db6b, 0xcebfce3a, 0xda3d5f0b, 0xbad90e37);
    SquareStep(24, 0xbad90e37, 0x5ba8e1df, 0xb8077c01, 0x163767a4, 0x77bf37ea, 0xd1ad5096, 0x40a8b451, 0x19bd9b21, 0x2e4e5eef);
    SquareStep(25, 0x2e4e5eef, 0xbf5917f2, 0x309bb1b7, 0x530cca27, 0x5535bd9e, 0xa559b9a1, 0x17e28bfe, 0xa174cac7, 0x4eaba214);
    SquareStep(26, 0x4eaba214, 0x7236fbb1, 0x1a947fdf, 0xbc14b5e1, 0x16765b3a, 0xd7b1c65b, 0xc61aafe9, 0xfc6e39ba, 0xa8a472c0);
  }

  lemma Powers27To32()
    requires X(Pow2(27)) == 0xa8a472c0
    ensures X(Pow2(32)) == 0x40000000
  {
    hide X, Pow2;
    SquareStep(27, 0xa8a472c0, 0x0a8a472c, 0x9bcc66c2, 0x32d2e6a4, 0x75f16ffa, 0xd189b517, 0x5d1dea6d, 0x83020c72, 0x429a969e);
    SquareStep(28, 0x429a969e, 0xa4234b11, 0x17f524d5, 0x6a1403b9, 0xf6aed37f, 0xb2d71f2b, 0xc04cc27e, 0xac0e2e5f, 0x148d302a);
    SquareStep(29, 0x148d302a, 0xd79e70ea, 0xdbaf44e6, 0x40089516, 0x49b2e809, 0xf494bdc4, 0x79950a4c, 0x9cfd9214, 0xc40ba6d0);
    SquareStep(30, 0xc40ba6d0, 0x0c40ba6d, 0x8617d972, 0x330f5d5f, 0xbe8d07c9, 0xfbe74338, 0xe206f713, 0x28f95fdd, 0xc4e22c3c);
    SquareStep(31, 0xc4e22c3c, 0x972ae073, 0x2fab9eab, 0xc99b0a66, 0x412bd1fe, 0xa4185f67, 0x5a44f4ca, 0xd372eca4, 0x40000000);
  }

  const PERIOD: nat := 0xffffffff

  lemma PeriodIsPower()
    ensures Pow2(32) == PERIOD + 1
  {
    assert Pow2(8) == 0x100;
    assert Pow2(16) == 0x10000 by { Pow2Sum(8, 8); }
    Pow2Sum(16, 16);
  }

  lemma {:induction false} Pow2Sum(m: nat, n: nat)
    ensures Pow2(m + n) == Pow2(m) * Pow2(n)
  {
    if n > 0 {
      Pow2Sum(m, n - 1);
    }
  }

  /** x^(2^32 - 1) = 1. */
  lemma FullPeriod()
    ensures X(PERIOD) == ONE
  {
    hide Shift, Pow2;
    Powers0To7();
    Powers7To14();
    Powers14To21();
    Powers21To27();
    Powers27To32();
    PeriodIsPower();
    assert X(PERIOD + 1) == Shift(X(PERIOD));
    assert X(1) == Shift(X(0));
    XOne();
    ShiftInjective(X(PERIOD), ONE);
  }

  lemma XOne()
    ensures X(1) == 0x40000000
  {
    assert X(1) == Shift(X(0));
  }

  lemma {:induction false} PeriodRepeats(e: nat, t: nat)
    ensures X(e + t * PERIOD) == X(e)
    decreases t
  {
    hide Shift;
    if t > 0 {
      PeriodRepeats(e, t - 1);
      FullPeriod();
      XTimesX(PERIOD, e + (t - 1) * PERIOD);
      XMul(0, X(e));
      assert PERIOD + (e + (t - 1) * PERIOD) == e + t * PERIOD;
    }
  }

  lemma PowerPastPeriod(k: nat)
    ensures X(Pow2(k + 32)) == X(Pow2(k))
  {
    hide X, Pow2;
    var p := Pow2(k);
    Pow2Sum(k, 32);
    PeriodIsPower();
    PeriodRepeats(p, p);
    assert p * (PERIOD + 1) == p + p * PERIOD;
  }

  /** The k & 31 of x2nmodp. */
  lemma {:induction false} PowersWrap(k: nat)
    ensures X(Pow2(k)) == X(Pow2(k % 32))
  {
    if k >= 32 {
      PowerPastPeriod(k - 32);
      PowersWrap(k - 32);
      hide X, Pow2;
      assert (k - 32) % 32 == k % 32;
    }
  }
}
