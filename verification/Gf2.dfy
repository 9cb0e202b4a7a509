/**
 Polynomials over GF(2) modulo the CRC-32 polynomial p(x), in the reflected form of crc32.c: the
 most significant bit is the coefficient of x^0, exclusive-or is addition, and a right shift
 multiplies by x.
 */
module Gf2 {
  /** p(x) without x^32. */
  const POLY: bv32 := 0xedb88320
  /** The polynomial 1. */
  const ONE: bv32 := 0x80000000

  /** Addition of polynomials. */
  function Add(u: bv32, v: bv32): bv32 {
    u ^ v
  }

  function Half(r: bv32): bv32 {
    r >> 1
  }

  predicate Odd(r: bv32) {
    r & 1 == 1
  }

  /** r(x) * x mod p(x) */
  function Shift(r: bv32): bv32 {
    if r & 1 == 1 then (r >> 1) ^ 0xedb88320 else r >> 1
  }

  /** r(x) * x^n mod p(x) */
  function ShiftN(r: bv32, n: nat): bv32 {
    if n == 0 then r else Shift(ShiftN(r, n - 1))
  }

  /** x^n mod p(x) */
  function X(n: nat): bv32 {
    ShiftN(ONE, n)
  }

  /** Whether a(x) has the coefficient of the single bit `m`. */
  predicate Coef(a: bv32, m: bv32) {
    a & m != 0
  }

  /** The part of a(x) * b(x) that belongs to the coefficients of a from the bit `m` downward. */
  function MulMask(a: bv32, b: bv32, m: bv32): bv32
    decreases m
  {
    if m == 0 then 0 else Add(if Coef(a, m) then b else 0, MulMask(a, Shift(b), Half(m)))
  }

  /** a(x) * b(x) mod p(x) */
  function Mul(a: bv32, b: bv32): bv32 {
    MulMask(a, b, ONE)
  }

  // ----- addition

  lemma AddLaws(u: bv32, v: bv32)
    ensures Add(u, v) == Add(v, u)
    ensures Add(u, 0) == u && Add(0, u) == u
    ensures Add(u, u) == 0
    ensures Add(Add(u, v), v) == u
  {
  }

  lemma AddAssoc(u: bv32, v: bv32, w: bv32)
    ensures Add(Add(u, v), w) == Add(u, Add(v, w))
  {
  }

  lemma AddSwap(s: bv32, t: bv32, u: bv32, v: bv32)
    ensures Add(Add(s, t), Add(u, v)) == Add(Add(s, u), Add(t, v))
  {
    hide Add;
    AddAssoc(s, t, Add(u, v));
    AddAssoc(t, u, v);
    AddLaws(t, u);
    AddAssoc(u, t, v);
    AddAssoc(s, u, Add(t, v));
  }

  // ----- multiplication by powers of x

  lemma HalfAdd(u: bv32, v: bv32)
    ensures Half(Add(u, v)) == Add(Half(u), Half(v))
    ensures Odd(Add(u, v)) <==> Odd(u) != Odd(v)
  {
    assert u & 1 == 0 || u & 1 == 1;
    assert v & 1 == 0 || v & 1 == 1;
    assert (u ^ v) & 1 == (u & 1) ^ (v & 1);
  }

  lemma ShiftByParts(r: bv32)
    ensures Shift(r) == if Odd(r) then Add(Half(r), POLY) else Half(r)
  {
  }

  lemma ShiftAdd(u: bv32, v: bv32)
    ensures Shift(Add(u, v)) == Add(Shift(u), Shift(v))
  {
    ShiftByParts(u);
    ShiftByParts(v);
    ShiftByParts(Add(u, v));
    hide Add, Half, Odd, Shift;
    HalfAdd(u, v);
    AddSwap(Half(u), if Odd(u) then POLY else 0, Half(v), if Odd(v) then POLY else 0);
    AddLaws(POLY, 0);
    AddLaws(Half(u), 0);
    AddLaws(Half(v), 0);
    AddLaws(Add(Half(u), Half(v)), 0);
  }

  lemma ShiftZero()
    ensures Shift(0) == 0
  {
  }

  lemma {:induction false} ShiftNLinear(u: bv32, v: bv32, n: nat)
    ensures ShiftN(Add(u, v), n) == Add(ShiftN(u, n), ShiftN(v, n))
  {
    hide Shift, Add;
    if n > 0 {
      ShiftNLinear(u, v, n - 1);
      ShiftAdd(ShiftN(u, n - 1), ShiftN(v, n - 1));
    }
  }

  lemma {:induction false} ShiftNSum(r: bv32, m: nat, n: nat)
    ensures ShiftN(ShiftN(r, m), n) == ShiftN(r, m + n)
  {
    hide Shift;
    if n > 0 {
      ShiftNSum(r, m, n - 1);
    }
  }

  lemma ShiftInjective(u: bv32, v: bv32)
    requires Shift(u) == Shift(v)
    ensures u == v
  {
    assert (u >> 1) & ONE == 0 && (v >> 1) & ONE == 0;
    assert POLY & ONE == ONE;
    assert ((u >> 1) ^ POLY) & ONE == ONE && ((v >> 1) ^ POLY) & ONE == ONE;
  }

  lemma {:induction false} ShiftNInjective(u: bv32, v: bv32, n: nat)
    requires ShiftN(u, n) == ShiftN(v, n)
    ensures u == v
  {
    hide Shift;
    if n > 0 {
      ShiftInjective(ShiftN(u, n - 1), ShiftN(v, n - 1));
      ShiftNInjective(u, v, n - 1);
    }
  }

  lemma {:induction false} ShiftNZero(n: nat)
    ensures ShiftN(0, n) == 0
  {
    hide Shift;
    ShiftZero();
    if n > 0 {
      ShiftNZero(n - 1);
    }
  }

  /** No power of x vanishes, so multmodp always terminates on one. */
  lemma XNonzero(n: nat)
    ensures X(n) != 0
  {
    hide Shift;
    if X(n) == 0 {
      ShiftNZero(n);
      ShiftNInjective(ONE, 0, n);
    }
  }

  // ----- multiplication

  lemma {:induction false} MulLinear(a: bv32, u: bv32, v: bv32, m: bv32)
    ensures MulMask(a, Add(u, v), m) == Add(MulMask(a, u, m), MulMask(a, v, m))
    decreases m
  {
    hide Shift, Add;
    AddLaws(0, 0);
    if m != 0 {
      ShiftAdd(u, v);
      MulLinear(a, Shift(u), Shift(v), Half(m));
      AddSwap(if Coef(a, m) then u else 0, MulMask(a, Shift(u), Half(m)),
              if Coef(a, m) then v else 0, MulMask(a, Shift(v), Half(m)));
    }
  }

  lemma {:induction false} MulShift(a: bv32, b: bv32, m: bv32)
    ensures MulMask(a, Shift(b), m) == Shift(MulMask(a, b, m))
    decreases m
  {
    hide Shift, Add;
    ShiftZero();
    if m != 0 {
      MulShift(a, Shift(b), Half(m));
      ShiftAdd(if Coef(a, m) then b else 0, MulMask(a, Shift(b), Half(m)));
    }
  }

  lemma {:induction false} MulShiftN(a: bv32, b: bv32, n: nat)
    ensures Mul(a, ShiftN(b, n)) == ShiftN(Mul(a, b), n)
  {
    hide Shift, MulMask;
    if n > 0 {
      MulShiftN(a, b, n - 1);
      MulShift(a, ShiftN(b, n - 1), ONE);
    }
  }

  /** A single bit, as the walking mask of multmodp always is. */
  predicate SingleBit(m: bv32) {
    m != 0 && m & (m - 1) == 0
  }

  lemma BitStep(m: bv32)
    requires SingleBit(m) && m != 1
    ensures SingleBit(Half(m)) && m & 1 == 0
    ensures (Half(m)) | ((Half(m)) - 1) == m - 1
  {
  }

  lemma MaskSplit(a: bv32, m: bv32)
    requires SingleBit(m)
    ensures Add(if Coef(a, m) then m else 0, a & (m - 1)) == a & (m | (m - 1))
  {
    assert a & m == 0 || a & m == m;
  }

  /** Multiplying a power of x that is a single bit picks the coefficients up one by one. */
  lemma {:induction false} MulSingleBit(a: bv32, m: bv32)
    requires SingleBit(m)
    ensures MulMask(a, m, m) == a & (m | (m - 1))
    decreases m
  {
    hide SingleBit, Add;
    AddLaws(a & m, 0);
    MaskSplit(a, m);
    if m == 1 {
      assert MulMask(a, Shift(m), Half(m)) == 0;
      assert a & (m - 1) == 0;
    } else {
      BitStep(m);
      MulSingleBit(a, Half(m));
    }
  }

  lemma MulOne(a: bv32)
    ensures Mul(a, ONE) == a
  {
    MulSingleBit(a, ONE);
    assert ONE | (ONE - 1) == 0xffffffff;
    assert a & 0xffffffff == a;
  }

  /** Multiplying by a power of x on the right is a shift. */
  lemma MulX(a: bv32, n: nat)
    ensures Mul(a, X(n)) == ShiftN(a, n)
  {
    hide Shift, MulMask, Mul;
    MulShiftN(a, ONE, n);
    MulOne(a);
  }

  lemma {:induction false} XMulPart(e: nat, c: bv32, k: nat, m: bv32)
    ensures Mul(X(e), MulMask(c, X(k), m)) == ShiftN(MulMask(c, X(k), m), e)
    decreases m
  {
    hide Shift, Add, X, Mul, ShiftN, Coef;
    if m == 0 {
      XMulZero(e);
    } else {
      XMulPart(e, c, k + 1, Half(m));
      XNext(k);
      var first, rest := if Coef(c, m) then X(k) else 0, MulMask(c, X(k + 1), Half(m));
      assert MulMask(c, X(k), m) == Add(first, rest);
      hide MulMask, Half;
      XMulSum(e, first, rest);
      XMulZero(e);
      XMulX(e, k);
    }
  }

  lemma XNext(k: nat)
    ensures X(k + 1) == Shift(X(k))
  {
    hide Shift;
    ShiftNSum(ONE, k, 1);
    assert ShiftN(X(k), 1) == Shift(ShiftN(X(k), 0));
  }

  lemma XMulZero(e: nat)
    ensures Mul(X(e), 0) == 0 == ShiftN(0, e)
  {
    ShiftNZero(e);
    MulZero(X(e), ONE);
  }

  lemma XMulX(e: nat, k: nat)
    ensures Mul(X(e), X(k)) == ShiftN(X(k), e)
  {
    hide Shift, Add, MulMask;
    MulX(X(e), k);
    ShiftNSum(ONE, e, k);
    ShiftNSum(ONE, k, e);
  }

  lemma XMulSum(e: nat, first: bv32, rest: bv32)
    ensures Mul(X(e), Add(first, rest)) == Add(Mul(X(e), first), Mul(X(e), rest))
    ensures ShiftN(Add(first, rest), e) == Add(ShiftN(first, e), ShiftN(rest, e))
  {
    hide Shift, Add, MulMask;
    MulLinear(X(e), first, rest, ONE);
    ShiftNLinear(first, rest, e);
  }

  lemma {:induction false} MulZero(a: bv32, m: bv32)
    ensures MulMask(a, 0, m) == 0
    decreases m
  {
    hide Shift, Add;
    ShiftZero();
    AddLaws(0, 0);
    if m != 0 {
      MulZero(a, Half(m));
    }
  }

  /** Multiplying by a power of x on the left is the same shift. */
  lemma XMul(e: nat, b: bv32)
    ensures Mul(X(e), b) == ShiftN(b, e)
  {
    hide Shift, MulMask;
    XMulPart(e, b, 0, ONE);
    MulOne(b);
  }

  lemma XTimesX(m: nat, n: nat)
    ensures Mul(X(m), X(n)) == X(m + n)
  {
    hide Shift, Mul;
    MulX(X(m), n);
    ShiftNSum(ONE, m, n);
  }
}
