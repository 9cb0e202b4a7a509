/**
 The matrix behind the transform is that of the discrete cosine transform: its rows are orthogonal and
 of equal length but for the rounding of the constants, and the k-th row changes its sign k times.
 */
module JpegCosines {
  import opened JpegDct

  /** The coefficients of one output. */
  function Row(k: nat): (s: seq<int>)
    requires k < 8
    ensures |s| == 8
  {
    match k
    case 0 => [1, 1, 1, 1, 1, 1, 1, 1]
    case 1 => [11363, 9633, 6437, 2260, -2260, -6437, -9633, -11363]
    case 2 => [10703, 4433, -4433, -10703, -10703, -4433, 4433, 10703]
    case 3 => [9633, -2259, -11362, -6436, 6436, 11362, 2259, -9633]
    case 4 => [1, -1, -1, 1, 1, -1, -1, 1]
    case 5 => [6437, -11362, 2261, 9633, -9633, -2261, 11362, -6437]
    case 6 => [4433, -10704, 10704, -4433, -4433, 10704, -10704, 4433]
    case _ => [2260, -6436, 9633, -11363, 11363, -9633, 6436, -2260]
  }

  function Dot(a: seq<int>, b: seq<int>): int
    requires |a| == |b| == 8
  {
    a[0] * b[0] + a[1] * b[1] + a[2] * b[2] + a[3] * b[3] + a[4] * b[4] + a[5] * b[5] + a[6] * b[6] + a[7] * b[7]
  }

  /** The transform is the product with these rows. */
  lemma FormIsDot(k: nat, s: seq<int>)
    requires k < 8 && |s| == 8
    ensures Form(k, s) == Dot(Row(k), s)
  {
  }

  function Abs(x: int): nat {
    if x < 0 then -x else x
  }

  /** Rows 0 and 4 need no constants; the others are scaled by 2^13. */
  predicate Scaled(k: nat) {
    k != 0 && k != 4
  }

  /** A row and itself, or another row. */
  predicate NearlyOrthonormal(k: nat, l: nat)
    requires k < 8 && l < 8
  {
    var d := Dot(Row(k), Row(l)) - if k != l then 0 else if Scaled(k) then 8 * 0x400_0000 else 8;
    if Scaled(k) && Scaled(l) then Abs(d) < 0x1_0000 else d == 0
  }

  lemma FirstRow(l: nat)
    requires l < 8
    ensures NearlyOrthonormal(0, l)
  {
  }

  lemma SecondRow(l: nat)
    requires l < 8
    ensures NearlyOrthonormal(1, l)
  {
  }

  lemma ThirdRow(l: nat)
    requires l < 8
    ensures NearlyOrthonormal(2, l)
  {
  }

  lemma FourthRow(l: nat)
    requires l < 8
    ensures NearlyOrthonormal(3, l)
  {
  }

  lemma FifthRow(l: nat)
    requires l < 8
    ensures NearlyOrthonormal(4, l)
  {
  }

  lemma SixthRow(l: nat)
    requires l < 8
    ensures NearlyOrthonormal(5, l)
  {
  }

  lemma SeventhRow(l: nat)
    requires l < 8
    ensures NearlyOrthonormal(6, l)
  {
  }

  lemma LastRow(l: nat)
    requires l < 8
    ensures NearlyOrthonormal(7, l)
  {
  }

  lemma RowsNearlyOrthonormal(k: nat, l: nat)
    requires k < 8 && l < 8
    ensures NearlyOrthonormal(k, l)
  {
    hide *;
    match k
    case 0 => FirstRow(l);
    case 1 => SecondRow(l);
    case 2 => ThirdRow(l);
    case 3 => FourthRow(l);
    case 4 => FifthRow(l);
    case 5 => SixthRow(l);
    case 6 => SeventhRow(l);
    case _ => LastRow(l);
  }

  function Change(a: int, b: int): nat {
    if (a < 0) != (b < 0) then 1 else 0
  }

  function SignChanges(s: seq<int>): nat
    requires |s| == 8
  {
    Change(s[0], s[1]) + Change(s[1], s[2]) + Change(s[2], s[3]) + Change(s[3], s[4]) + Change(s[4], s[5])
    + Change(s[5], s[6]) + Change(s[6], s[7])
  }

  /** The k-th row has the k-th frequency. */
  lemma RowFrequency(k: nat)
    requires k < 8
    ensures SignChanges(Row(k)) == k
  {
  }

  // ----- how far the coefficients are from the exact product

  /** The scale of a row. */
  function Unit(k: nat): nat {
    if Scaled(k) then 0x2000 else 1
  }

  /** The row products of a block, without any rounding. */
  function Products(p: seq<int32>, c: nat): (s: seq<int>)
    requires |p| == 64 && c < 8
    ensures |s| == 8
  {
    [Dot(Row(c), RowOf(p, 0)), Dot(Row(c), RowOf(p, 1)), Dot(Row(c), RowOf(p, 2)), Dot(Row(c), RowOf(p, 3)),
     Dot(Row(c), RowOf(p, 4)), Dot(Row(c), RowOf(p, 5)), Dot(Row(c), RowOf(p, 6)), Dot(Row(c), RowOf(p, 7))]
  }

  /** The same with the rounding of the first pass. */
  function Rounded(p: seq<int32>, c: nat): (s: seq<int>)
    requires |p| == 64 && c < 8
    ensures |s| == 8
  {
    [RowValue(p, 0, c), RowValue(p, 1, c), RowValue(p, 2, c), RowValue(p, 3, c),
     RowValue(p, 4, c), RowValue(p, 5, c), RowValue(p, 6, c), RowValue(p, 7, c)]
  }

  lemma FirstPass(p: seq<int32>, r: nat, c: nat)
    requires |p| == 64 && r < 8 && c < 8
    ensures 2 * Abs(Unit(c) * RowValue(p, r, c) - 4 * Dot(Row(c), RowOf(p, r))) <= if Scaled(c) then Unit(c) else 0
  {
    FormIsDot(c, RowOf(p, r));
    hide Row, Dot, RowOf, Form;
  }

  lemma Descaled(k: nat, v: int)
    requires k < 8
    ensures Abs(32 * (Unit(k) * Scaled2(k, v)) - v) <= 16 * Unit(k)
  {
    if Scaled(k) {
      var q := (v + 131072) / 262144;
      assert 262144 * q <= v + 131072 < 262144 * q + 262144;
    }
  }

  lemma SecondPass(p: seq<int32>, k: nat, c: nat)
    requires |p| == 64 && k < 8 && c < 8
    ensures Abs(32 * (Unit(k) * Transform(p, k, c)) - Dot(Row(k), Rounded(p, c))) <= 16 * Unit(k)
  {
    FormIsDot(k, Rounded(p, c));
    Descaled(k, Form(k, Rounded(p, c)));
    hide Row, Dot, RowValue, Form, Scaled2, Unit, Abs;
  }

  /** Entry by entry. */
  predicate Near(a: seq<int>, b: seq<int>, n: nat, h: nat)
    requires |a| == |b| == 8
  {
    forall i :: 0 <= i < 8 ==> Abs(n * b[i] - 4 * a[i]) <= h
  }

  lemma PlainProducts(k: nat, a: seq<int>, b: seq<int>)
    requires k < 8 && |a| == |b| == 8 && Near(a, b, 1, 0)
    ensures Dot(Row(k), b) == 4 * Dot(Row(k), a)
  {
    assert forall i :: 0 <= i < 8 ==> b[i] == 4 * a[i];
  }

  function Sum(w: seq<int>): nat
    requires |w| == 8
  {
    Abs(w[0]) + Abs(w[1]) + Abs(w[2]) + Abs(w[3]) + Abs(w[4]) + Abs(w[5]) + Abs(w[6]) + Abs(w[7])
  }

  lemma RowSum(k: nat)
    requires k < 8
    ensures Sum(Row(k)) <= 8 * Unit(k)
  {
  }

  lemma TermBounded(w: int, x: int)
    requires Abs(x) <= 0x1000
    ensures -0x1000 * Abs(w) <= w * x <= 0x1000 * Abs(w)
  {
    if w < 0 {
      Times(-0x1000, x, -w);
      Times(x, 0x1000, -w);
    } else {
      Times(-0x1000, x, w);
      Times(x, 0x1000, w);
    }
  }

  lemma SumBounded(t: seq<int>, b: seq<nat>)
    requires |t| == |b| == 8 && forall i :: 0 <= i < 8 ==> -0x1000 * b[i] <= t[i] <= 0x1000 * b[i]
    ensures -0x1000 * (b[0] + b[1] + b[2] + b[3] + b[4] + b[5] + b[6] + b[7])
         <= t[0] + t[1] + t[2] + t[3] + t[4] + t[5] + t[6] + t[7]
         <= 0x1000 * (b[0] + b[1] + b[2] + b[3] + b[4] + b[5] + b[6] + b[7])
  {
  }

  /** With entries of at most 2^12 a product with a row is at most 2^15 times its scale. */
  lemma Bounded(k: nat, e: seq<int>)
    requires k < 8 && |e| == 8 && forall i :: 0 <= i < 8 ==> Abs(e[i]) <= 0x1000
    ensures -0x8000 * Unit(k) <= Dot(Row(k), e) <= 0x8000 * Unit(k)
  {
    hide Row, Unit, Abs;
    RowSum(k);
    var w := Row(k);
    forall i | 0 <= i < 8
      ensures -0x1000 * Abs(w[i]) <= w[i] * e[i] <= 0x1000 * Abs(w[i])
    {
      TermBounded(w[i], e[i]);
    }
    SumBounded(seq(8, i requires 0 <= i < 8 => w[i] * e[i]), seq(8, i requires 0 <= i < 8 => Abs(w[i])));
  }

  lemma Term(w: int, a: int, b: int)
    ensures w * (0x2000 * b - 4 * a) == 0x2000 * (w * b) - 4 * (w * a)
  {
  }

  lemma Linear(w: seq<int>, a: seq<int>, b: seq<int>, e: seq<int>)
    requires |w| == |a| == |b| == |e| == 8 && forall i :: 0 <= i < 8 ==> e[i] == 0x2000 * b[i] - 4 * a[i]
    ensures Dot(w, e) == 0x2000 * Dot(w, b) - 4 * Dot(w, a)
  {
    forall i | 0 <= i < 8
      ensures w[i] * e[i] == 0x2000 * (w[i] * b[i]) - 4 * (w[i] * a[i])
    {
      Term(w[i], a[i], b[i]);
    }
  }

  lemma ScaledProducts(k: nat, a: seq<int>, b: seq<int>)
    requires k < 8 && |a| == |b| == 8 && Near(a, b, 0x2000, 0x1000)
    ensures Abs(0x2000 * Dot(Row(k), b) - 4 * Dot(Row(k), a)) <= 4 * 0x2000 * Unit(k)
  {
    hide Row, Dot, Unit;
    var e := seq(8, i requires 0 <= i < 8 => 0x2000 * b[i] - 4 * a[i]);
    Linear(Row(k), a, b, e);
    Bounded(k, e);
  }

  lemma RowsNear(p: seq<int32>, c: nat)
    requires |p| == 64 && c < 8
    ensures Near(Products(p, c), Rounded(p, c), Unit(c), if Scaled(c) then 0x1000 else 0)
  {
    hide Row, Dot, RowOf, RowValue;
    FirstPass(p, 0, c);
    FirstPass(p, 1, c);
    FirstPass(p, 2, c);
    FirstPass(p, 3, c);
    FirstPass(p, 4, c);
    FirstPass(p, 5, c);
    FirstPass(p, 6, c);
    FirstPass(p, 7, c);
  }

  lemma Times(a: int, b: int, n: nat)
    requires a <= b
    ensures a * n <= b * n
  {
  }

  lemma AbsAtMost(x: int, n: int)
    ensures Abs(x) <= n <==> -n <= x <= n
  {
  }

  lemma Chain(x: int, y: int, e: int, m: nat)
    requires Abs(32 * x - y) <= 16 * m && Abs(y - 4 * e) <= 4 * m
    ensures Abs(8 * x - e) <= 5 * m
  {
    hide Abs;
    AbsAtMost(32 * x - y, 16 * m);
    AbsAtMost(y - 4 * e, 4 * m);
    AbsAtMost(8 * x - e, 5 * m);
  }

  lemma ScaledChain(x: int, g: int, e: int, u: nat)
    requires Abs(32 * x - g) <= 16 * u && Abs(0x2000 * g - 4 * e) <= 4 * 0x2000 * u
    ensures Abs(8 * 0x2000 * x - e) <= 5 * 0x2000 * u
  {
    hide Abs;
    AbsAtMost(32 * x - g, 16 * u);
    AbsAtMost(32 * (0x2000 * x) - 0x2000 * g, 16 * (0x2000 * u));
    Chain(0x2000 * x, 0x2000 * g, e, 0x2000 * u);
  }

  /**
   Every coefficient is within five eighths of the product of the block with two rows of the matrix, as
   far as the scale of the rows and a factor of eight go: the two roundings to the nearest, and nothing else.
   */
  lemma TransformNear(p: seq<int32>, k: nat, c: nat)
    requires |p| == 64 && k < 8 && c < 8
    ensures Abs(8 * Unit(c) * (Unit(k) * Transform(p, k, c)) - Dot(Row(k), Products(p, c))) <= 5 * Unit(c) * Unit(k)
  {
    hide Row, Dot, Products, Rounded, Transform, Near;
    RowsNear(p, c);
    SecondPass(p, k, c);
    var x, g := Unit(k) * Transform(p, k, c), Dot(Row(k), Rounded(p, c));
    if Scaled(c) {
      ScaledProducts(k, Products(p, c), Rounded(p, c));
      ScaledChain(x, g, Dot(Row(k), Products(p, c)), Unit(k));
    } else {
      PlainProducts(k, Products(p, c), Rounded(p, c));
      Chain(x, g, Dot(Row(k), Products(p, c)), Unit(k));
    }
  }
}
