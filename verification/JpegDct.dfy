/**
 The forward DCT and the quantizer of jpge.cpp in 32-bit arithmetic.  Every intermediate value is
 shown to fit its machine type, and every coefficient to fit the entropy coder.
 */
module JpegDct {
  /** int32: an operation that leaves the range is a verification error. */
  newtype int32 = x: int | -0x8000_0000 <= x < 0x8000_0000

  /** static_cast<int16> */
  function Int16(v: int32): int32 {
    var low := v % 0x1_0000;
    if low < 0x8000 then low else low - 0x1_0000
  }

  predicate FitsInt16(v: int32) {
    -0x8000 <= v < 0x8000
  }

  lemma Int16Exact(v: int32)
    requires FitsInt16(v)
    ensures Int16(v) == v
  {
  }

  /** DCT_MUL */
  function Mul(v: int32, c: int32): (r: int32)
    requires FitsInt16(v) && -0x8000 <= c < 0x8000
    ensures r as int == v as int * c as int
  {
    Int16Exact(v);
    Bounded(v as int, c as int);
    Int16(v) * c
  }

  lemma Bounded(v: int, c: int)
    requires -0x8000 <= v < 0x8000 && -0x8000 <= c < 0x8000
    ensures -0x4000_0000 <= v * c <= 0x4000_0000
  {
    if c >= 0 {
      BoundedBy(v, c);
    } else {
      BoundedBy(v, -c);
      assert v * -c == -(v * c);
    }
  }

  lemma BoundedBy(v: int, c: int)
    requires -0x8000 <= v < 0x8000 && 0 <= c <= 0x8000
    ensures -0x4000_0000 <= v * c <= 0x4000_0000
  {
    Scale(-0x8000, v, c);
    Scale(v, 0x8000, c);
  }

  lemma Scale(a: int, b: int, c: int)
    requires a <= b && 0 <= c
    ensures a * c <= b * c
  {
  }

  /** DCT_DESCALE: add half and shift right; the shift rounds towards minus infinity. */
  function Descale(x: int32, n: nat): int32
    requires n == 5 || n == 11 || n == 18
    requires -0x4000_0000 <= x <= 0x4000_0000
  {
    if n == 5 then (x + 16) / 32 else if n == 11 then (x + 1024) / 2048 else (x + 131072) / 262144
  }

  /** Eight values from `lo` to `hi`. */
  predicate Within(s: seq<int32>, lo: int, hi: int) {
    |s| == 8 && forall i :: 0 <= i < 8 ==> lo <= s[i] as int <= hi
  }

  /**
   The one-dimensional transform as a matrix: the k-th output, scaled by 2^13 except for k = 0 and 4.
   The entries are the cosines of section A.3.3 of ITU-T T.81 in fixed point.
   */
  function Form(k: nat, s: seq<int>): int
    requires k < 8 && |s| == 8
  {
    Combination(k, s[0] + s[7], s[1] + s[6], s[2] + s[5], s[3] + s[4], s[3] - s[4], s[2] - s[5], s[1] - s[6],
        s[0] - s[7])
  }

  function Combination(k: nat, t0: int, t1: int, t2: int, t3: int, d4: int, d5: int, d6: int, d7: int): int
    requires k < 8
  {
    match k
    case 0 => t0 + t1 + t2 + t3
    case 1 => 11363 * d7 + 9633 * d6 + 6437 * d5 + 2260 * d4
    case 2 => 10703 * (t0 - t3) + 4433 * (t1 - t2)
    case 3 => 9633 * d7 - 2259 * d6 - 11362 * d5 - 6436 * d4
    case 4 => t0 - t1 - t2 + t3
    case 5 => 6437 * d7 - 11362 * d6 + 2261 * d5 + 9633 * d4
    case 6 => 4433 * (t0 - t3) - 10704 * (t1 - t2)
    case _ => 2260 * d7 - 6436 * d6 + 9633 * d5 - 11363 * d4
  }

  function Ints(s: seq<int32>): (r: seq<int>)
    ensures |r| == |s| && forall i :: 0 <= i < |s| ==> r[i] == s[i] as int
  {
    if s == [] then [] else Ints(s[..|s| - 1]) + [s[|s| - 1] as int]
  }

  /** What one pass makes of eight values from `lo` to `hi`: the even outputs. */
  predicate EvenBounds(s0: int32, s2: int32, s4: int32, s6: int32, lo: int, hi: int) {
    var m := hi - lo;
    && 8 * lo <= s0 as int <= 8 * hi
    && -4 * m <= s4 as int <= 4 * m
    && -30274 * m <= s2 as int <= 30274 * m
    && -30274 * m <= s6 as int <= 30274 * m
  }

  /** The odd outputs, for values that span at most `m`. */
  predicate OddBounds(s1: int32, s3: int32, s5: int32, s7: int32, m: int) {
    && -29693 * m <= s1 as int <= 29693 * m
    && -29693 * m <= s3 as int <= 29693 * m
    && -29693 * m <= s5 as int <= 29693 * m
    && -29693 * m <= s7 as int <= 29693 * m
  }

  predicate PassBounds(r: seq<int32>, lo: int, hi: int) {
    |r| == 8 && EvenBounds(r[0], r[2], r[4], r[6], lo, hi) && OddBounds(r[1], r[3], r[5], r[7], hi - lo)
  }

  /** The even half of DCT1D, from the sums t0 .. t3. */
  method EvenPart(t0: int32, t1: int32, t2: int32, t3: int32, ghost lo: int, ghost hi: int)
    returns (s0: int32, s2: int32, s4: int32, s6: int32)
    requires -4096 <= lo <= 0 <= hi <= 4096 && hi - lo <= 8160
    requires 2 * lo <= t0 as int <= 2 * hi && 2 * lo <= t1 as int <= 2 * hi
    requires 2 * lo <= t2 as int <= 2 * hi && 2 * lo <= t3 as int <= 2 * hi
    ensures EvenBounds(s0, s2, s4, s6, lo, hi)
    ensures s0 as int == t0 as int + t1 as int + t2 as int + t3 as int
    ensures s4 as int == t0 as int - t1 as int - t2 as int + t3 as int
    ensures s2 as int == 10703 * (t0 as int - t3 as int) + 4433 * (t1 as int - t2 as int)
    ensures s6 as int == 4433 * (t0 as int - t3 as int) - 10704 * (t1 as int - t2 as int)
  {
    var t10, t13, t11, t12 := t0 + t3, t0 - t3, t1 + t2, t1 - t2;
    var u1 := Mul(t12 + t13, 4433);
    s2, s6 := u1 + Mul(t13, 6270), u1 + Mul(t12, -15137);
    s0, s4 := t10 + t11, t10 - t11;
  }

  lemma OddForms(d4: int, d5: int, d6: int, d7: int, m: int)
    requires 0 <= m && -m <= d4 <= m && -m <= d5 <= m && -m <= d6 <= m && -m <= d7 <= m
    ensures -29693 * m <= 11363 * d7 + 2260 * d4 + 6437 * d5 + 9633 * d6 <= 29693 * m
    ensures -29693 * m <= 9633 * d7 - 6436 * d4 - 11362 * d5 - 2259 * d6 <= 29693 * m
    ensures -29693 * m <= 6437 * d7 + 9633 * d4 + 2261 * d5 - 11362 * d6 <= 29693 * m
    ensures -29693 * m <= 2260 * d7 - 11363 * d4 + 9633 * d5 - 6436 * d6 <= 29693 * m
  {
  }

  /** The odd half of DCT1D, from the differences t4 .. t7. */
  method OddPart(d4: int32, d5: int32, d6: int32, d7: int32, ghost m: int)
    returns (s1: int32, s3: int32, s5: int32, s7: int32)
    requires 0 <= m <= 8160
    requires -m <= d4 as int <= m && -m <= d5 as int <= m && -m <= d6 as int <= m && -m <= d7 as int <= m
    ensures OddBounds(s1, s3, s5, s7, m)
    ensures s1 as int == 11363 * d7 as int + 9633 * d6 as int + 6437 * d5 as int + 2260 * d4 as int
    ensures s3 as int == 9633 * d7 as int - 2259 * d6 as int - 11362 * d5 as int - 6436 * d4 as int
    ensures s5 as int == 6437 * d7 as int - 11362 * d6 as int + 2261 * d5 as int + 9633 * d4 as int
    ensures s7 as int == 2260 * d7 as int - 6436 * d6 as int + 9633 * d5 as int - 11363 * d4 as int
  {
    var u1, u2, u3, u4 := d4 + d7, d5 + d6, d4 + d6, d5 + d7;
    var z5 := Mul(u3 + u4, 9633);
    var t4, t5, t6, t7 := Mul(d4, 2446), Mul(d5, 16819), Mul(d6, 25172), Mul(d7, 12299);
    u1, u2, u3, u4 := Mul(u1, -7373), Mul(u2, -20995), Mul(u3, -16069), Mul(u4, -3196);
    s1, s3, s5, s7 := OddSums(t4, t5, t6, t7, u1, u2, u3, u4, z5, d4 as int, d5 as int, d6 as int, d7 as int, m);
  }

  /** The sums that end the odd half, of the products named after the variables of DCT1D. */
  method OddSums(t4: int32, t5: int32, t6: int32, t7: int32, u1: int32, u2: int32, v3: int32, v4: int32, z5: int32,
                 ghost d4: int, ghost d5: int, ghost d6: int, ghost d7: int, ghost m: int)
    returns (s1: int32, s3: int32, s5: int32, s7: int32)
    requires 0 <= m <= 8160 && -m <= d4 <= m && -m <= d5 <= m && -m <= d6 <= m && -m <= d7 <= m
    requires t4 as int == 2446 * d4 && t5 as int == 16819 * d5 && t6 as int == 25172 * d6 && t7 as int == 12299 * d7
    requires u1 as int == -7373 * (d4 + d7) && u2 as int == -20995 * (d5 + d6)
    requires v3 as int == -16069 * (d4 + d6) && v4 as int == -3196 * (d5 + d7)
    requires z5 as int == 9633 * (d4 + d5 + d6 + d7)
    ensures OddBounds(s1, s3, s5, s7, m)
    ensures s1 as int == 11363 * d7 + 9633 * d6 + 6437 * d5 + 2260 * d4
    ensures s3 as int == 9633 * d7 - 2259 * d6 - 11362 * d5 - 6436 * d4
    ensures s5 as int == 6437 * d7 - 11362 * d6 + 2261 * d5 + 9633 * d4
    ensures s7 as int == 2260 * d7 - 6436 * d6 + 9633 * d5 - 11363 * d4
  {
    hide OddBounds;
    s1 := Sum(t7, u1, v4, z5);
    s3 := Sum(t6, u2, v3, z5);
    s5 := Sum(t5, u2, v4, z5);
    s7 := Sum(t4, u1, v3, z5);
    OddResults(s1, s3, s5, s7, d4, d5, d6, d7, m);
  }

  lemma OddResults(s1: int32, s3: int32, s5: int32, s7: int32, d4: int, d5: int, d6: int, d7: int, m: int)
    requires 0 <= m && -m <= d4 <= m && -m <= d5 <= m && -m <= d6 <= m && -m <= d7 <= m
    requires s1 as int == 11363 * d7 + 9633 * d6 + 6437 * d5 + 2260 * d4
    requires s3 as int == 9633 * d7 - 2259 * d6 - 11362 * d5 - 6436 * d4
    requires s5 as int == 6437 * d7 - 11362 * d6 + 2261 * d5 + 9633 * d4
    requires s7 as int == 2260 * d7 - 6436 * d6 + 9633 * d5 - 11363 * d4
    ensures OddBounds(s1, s3, s5, s7, m)
  {
    OddForms(d4, d5, d6, d7, m);
  }

  method Sum(t: int32, u: int32, v: int32, z5: int32) returns (s: int32)
    requires -206000000 <= t <= 206000000 && -343000000 <= u <= 343000000
    requires -263000000 <= v <= 263000000 && -315000000 <= z5 <= 315000000
    ensures s as int == t as int + u as int + v as int + z5 as int
  {
    s := t + u + (v + z5);
  }

  /** The first line of DCT1D. */
  method Butterflies(s: seq<int32>, ghost lo: int, ghost hi: int)
    returns (t0: int32, t1: int32, t2: int32, t3: int32, t4: int32, t5: int32, t6: int32, t7: int32)
    requires Within(s, lo, hi) && -4096 <= lo <= 0 <= hi <= 4096 && hi - lo <= 8160
    ensures 2 * lo <= t0 as int <= 2 * hi && 2 * lo <= t1 as int <= 2 * hi
    ensures 2 * lo <= t2 as int <= 2 * hi && 2 * lo <= t3 as int <= 2 * hi
    ensures lo - hi <= t4 as int <= hi - lo && lo - hi <= t5 as int <= hi - lo
    ensures lo - hi <= t6 as int <= hi - lo && lo - hi <= t7 as int <= hi - lo
    ensures forall k :: 0 <= k < 8 ==>
      Form(k, Ints(s)) ==
          Combination(k, t0 as int, t1 as int, t2 as int, t3 as int, t4 as int, t5 as int, t6 as int, t7 as int)
  {
    hide Combination;
    t0, t7, t1, t6, t2, t5, t3, t4 :=
      s[0] + s[7], s[0] - s[7], s[1] + s[6], s[1] - s[6], s[2] + s[5], s[2] - s[5], s[3] + s[4], s[3] - s[4];
  }

  /** DCT1D */
  method Dct1D(s: seq<int32>, ghost lo: int, ghost hi: int) returns (r: seq<int32>)
    requires Within(s, lo, hi) && -4096 <= lo <= 0 <= hi <= 4096 && hi - lo <= 8160
    ensures PassBounds(r, lo, hi)
    ensures forall k :: 0 <= k < 8 ==> r[k] as int == Form(k, Ints(s))
  {
    hide Form, Ints, EvenBounds, OddBounds;
    var t0, t1, t2, t3, t4, t5, t6, t7 := Butterflies(s, lo, hi);
    var s0, s2, s4, s6 := EvenPart(t0, t1, t2, t3, lo, hi);
    var s1, s3, s5, s7 := OddPart(t4, t5, t6, t7, hi - lo);
    r := [s0, s1, s2, s3, s4, s5, s6, s7];
  }

  // ----- the two passes over a block

  /** Bounds of the values in column `c` after the row pass. */
  function ColumnLow(c: nat): int {
    if c == 0 then -4096 else -4080
  }

  function ColumnHigh(c: nat): int {
    if c == 0 then 4064 else 4080
  }

  /** A block of samples, as load_block_* produce it. */
  predicate Samples(p: seq<int32>) {
    |p| == 64 && forall i :: 0 <= i < 64 ==> -128 <= p[i] <= 127
  }

  /** The value in row `r` and column `c`. */
  function Cell(p: seq<int32>, r: nat, c: nat): int32
    requires |p| == 64 && r < 8 && c < 8
  {
    p[8 * r + c]
  }

  lemma CellApart(r: nat, c: nat, k: nat, d: nat)
    requires r < 8 && c < 8 && k < 8 && d < 8 && 8 * r + c == 8 * k + d
    ensures r == k && c == d
  {
  }

  predicate RowDone(p: seq<int32>, r: nat, c: nat)
    requires |p| == 64 && r < 8 && c < 8
  {
    ColumnLow(c) <= Cell(p, r, c) as int <= ColumnHigh(c)
  }

  predicate ColumnDone(p: seq<int32>, r: nat, c: nat)
    requires |p| == 64 && r < 8 && c < 8
  {
    Coefficient(Cell(p, r, c), 8 * r + c)
  }

  /** What quantization and entropy coding rely on: eleven bits for the mean, ten for the rest. */
  predicate Coefficient(v: int32, i: int) {
    if i == 0 then -1024 <= v <= 1016 else -1023 <= v <= 1023
  }

  /** Scaling after the row pass: two fraction bits are kept. */
  function Scaled1(c: nat, v: int): int {
    if c == 0 || c == 4 then 4 * v else (v + 1024) / 2048
  }

  /** Scaling after the column pass: fraction bits and the factor 8 are removed. */
  function Scaled2(k: nat, v: int): int {
    if k == 0 || k == 4 then (v + 16) / 32 else (v + 131072) / 262144
  }

  /** The value in row `r`, column `c` after the row pass over the block `p`. */
  function RowValue(p: seq<int32>, r: nat, c: nat): int
    requires |p| == 64 && r < 8 && c < 8
  {
    Scaled1(c, Form(c, RowOf(p, r)))
  }

  function RowOf(p: seq<int32>, r: nat): seq<int>
    requires |p| == 64 && r < 8
  {
    [Cell(p, r, 0) as int, Cell(p, r, 1) as int, Cell(p, r, 2) as int, Cell(p, r, 3) as int,
     Cell(p, r, 4) as int, Cell(p, r, 5) as int, Cell(p, r, 6) as int, Cell(p, r, 7) as int]
  }

  /** Coefficient (k, c) of the two-dimensional transform of the block `p`. */
  function Transform(p: seq<int32>, k: nat, c: nat): int
    requires |p| == 64 && k < 8 && c < 8
  {
    Scaled2(k, Form(k, [RowValue(p, 0, c), RowValue(p, 1, c), RowValue(p, 2, c), RowValue(p, 3, c),
                        RowValue(p, 4, c), RowValue(p, 5, c), RowValue(p, 6, c), RowValue(p, 7, c)]))
  }

  /** The end of the row pass for one row. */
  method ScaleRow(r: seq<int32>) returns (out: seq<int32>)
    requires PassBounds(r, -128, 127)
    ensures |out| == 8 && forall c :: 0 <= c < 8 ==> ColumnLow(c) <= out[c] as int <= ColumnHigh(c)
    ensures forall c :: 0 <= c < 8 ==> out[c] as int == Scaled1(c, r[c] as int)
  {
    out := [r[0] * 4, Descale(r[1], 11), Descale(r[2], 11), Descale(r[3], 11),
            r[4] * 4, Descale(r[5], 11), Descale(r[6], 11), Descale(r[7], 11)];
  }

  /** The end of the column pass for one column. */
  method ScaleColumn(r: seq<int32>, ghost c: nat) returns (out: seq<int32>)
    requires c < 8 && PassBounds(r, ColumnLow(c), ColumnHigh(c))
    ensures |out| == 8 && forall k :: 0 <= k < 8 ==> Coefficient(out[k], 8 * k + c)
    ensures forall k :: 0 <= k < 8 ==> out[k] as int == Scaled2(k, r[k] as int)
  {
    out := [Descale(r[0], 5), Descale(r[1], 18), Descale(r[2], 18), Descale(r[3], 18),
            Descale(r[4], 5), Descale(r[5], 18), Descale(r[6], 18), Descale(r[7], 18)];
  }

  /** Stores eight values, the first at `at` and the others `step` apart, as both passes do. */
  method Store(p: array<int32>, out: seq<int32>, r0: nat, c0: nat, byRow: bool)
    requires p.Length == 64 && |out| == 8 && r0 < 8 && c0 < 8
    modifies p
    ensures forall r, c :: 0 <= r < 8 && 0 <= c < 8 ==>
      Cell(p[..], r, c) == if byRow && r == r0 then out[c] else if !byRow && c == c0 then out[r]
          else Cell(old(p[..]), r, c)
  {
    for k := 0 to 8
      invariant forall r, c :: 0 <= r < 8 && 0 <= c < 8 ==>
        Cell(p[..], r, c) == if byRow && r == r0 && c < k then out[c] else if !byRow && c == c0 && r < k then out[r]
            else Cell(old(p[..]), r, c)
    {
      ghost var before := p[..];
      ghost var r', c' := if byRow then r0 else k, if byRow then k else c0;
      p[if byRow then 8 * r0 + k else 8 * k + c0] := out[k];
      forall r, c | 0 <= r < 8 && 0 <= c < 8
        ensures Cell(p[..], r, c) == if r == r' && c == c' then out[k] else Cell(before, r, c)
      {
        if 8 * r + c == 8 * r' + c' {
          CellApart(r, c, r', c');
        }
      }
    }
  }

  /** One turn of the loop over the rows. */
  method RowPass(p: array<int32>, row: nat)
    requires p.Length == 64 && row < 8
    requires forall c :: 0 <= c < 8 ==> -128 <= Cell(p[..], row, c) <= 127
    modifies p
    ensures forall c :: 0 <= c < 8 ==>
        RowDone(p[..], row, c) && Cell(p[..], row, c) as int == RowValue(old(p[..]), row, c)
    ensures forall r, c :: 0 <= r < 8 && 0 <= c < 8 && r != row ==> Cell(p[..], r, c) == Cell(old(p[..]), r, c)
  {
    hide PassBounds;
    var s := [Cell(p[..], row, 0), Cell(p[..], row, 1), Cell(p[..], row, 2), Cell(p[..], row, 3),
              Cell(p[..], row, 4), Cell(p[..], row, 5), Cell(p[..], row, 6), Cell(p[..], row, 7)];
    assert Ints(s) == RowOf(p[..], row);
    var r := Dct1D(s, -128, 127);
    var out := ScaleRow(r);
    Store(p, out, row, 0, true);
  }

  function ColumnOf(p: seq<int32>, c: nat): seq<int>
    requires |p| == 64 && c < 8
  {
    [Cell(p, 0, c) as int, Cell(p, 1, c) as int, Cell(p, 2, c) as int, Cell(p, 3, c) as int,
     Cell(p, 4, c) as int, Cell(p, 5, c) as int, Cell(p, 6, c) as int, Cell(p, 7, c) as int]
  }

  /** One turn of the loop over the columns. */
  method ColumnPass(p: array<int32>, c: nat)
    requires p.Length == 64 && c < 8
    requires forall r :: 0 <= r < 8 ==> RowDone(p[..], r, c)
    modifies p
    ensures forall r :: 0 <= r < 8 ==>
        ColumnDone(p[..], r, c) && Cell(p[..], r, c) as int == Scaled2(r, Form(r, ColumnOf(old(p[..]), c)))
    ensures forall r, d :: 0 <= r < 8 && 0 <= d < 8 && d != c ==> Cell(p[..], r, d) == Cell(old(p[..]), r, d)
  {
    hide PassBounds, Coefficient, Cell;
    var s := [Cell(p[..], 0, c), Cell(p[..], 1, c), Cell(p[..], 2, c), Cell(p[..], 3, c),
              Cell(p[..], 4, c), Cell(p[..], 5, c), Cell(p[..], 6, c), Cell(p[..], 7, c)];
    assert RowDone(p[..], 0, c) && RowDone(p[..], 1, c) && RowDone(p[..], 2, c) && RowDone(p[..], 3, c);
    assert RowDone(p[..], 4, c) && RowDone(p[..], 5, c) && RowDone(p[..], 6, c) && RowDone(p[..], 7, c);
    assert Ints(s) == ColumnOf(p[..], c);
    var r := Dct1D(s, ColumnLow(c), ColumnHigh(c));
    var out := ScaleColumn(r, c);
    Store(p, out, 0, c, false);
  }

  /** The loop over the rows. */
  method AllRows(p: array<int32>)
    requires p.Length == 64 && Samples(p[..])
    modifies p
    ensures forall r, c :: 0 <= r < 8 && 0 <= c < 8 ==>
        RowDone(p[..], r, c) && Cell(p[..], r, c) as int == RowValue(old(p[..]), r, c)
  {
    hide RowValue;
    ghost var was := p[..];
    assert forall r, c :: 0 <= r < 8 && 0 <= c < 8 ==> -128 <= Cell(p[..], r, c) <= 127;
    for row := 0 to 8
      invariant forall r, c :: 0 <= r < row && 0 <= c < 8 ==>
          RowDone(p[..], r, c) && Cell(p[..], r, c) as int == RowValue(was, r, c)
      invariant forall r, c :: row <= r < 8 && 0 <= c < 8 ==>
          -128 <= Cell(p[..], r, c) <= 127 && Cell(p[..], r, c) == Cell(was, r, c)
    {
      ghost var before := p[..];
      RowValueLocal(before, was, row);
      RowPass(p, row);
      forall r, c | 0 <= r < row && 0 <= c < 8
        ensures RowDone(p[..], r, c) && Cell(p[..], r, c) as int == RowValue(was, r, c)
      {
        assert RowDone(before, r, c);
      }
    }
  }

  /** Only the row itself matters to the row pass. */
  lemma RowValueLocal(p: seq<int32>, q: seq<int32>, r: nat)
    requires |p| == 64 && |q| == 64 && r < 8 && forall c :: 0 <= c < 8 ==> Cell(p, r, c) == Cell(q, r, c)
    ensures forall c :: 0 <= c < 8 ==> RowValue(p, r, c) == RowValue(q, r, c)
  {
    hide Form;
    assert RowOf(p, r) == RowOf(q, r);
  }

  /** The loop over the columns. */
  method AllColumns(p: array<int32>)
    requires p.Length == 64 && forall r, c :: 0 <= r < 8 && 0 <= c < 8 ==> RowDone(p[..], r, c)
    modifies p
    ensures forall r, c :: 0 <= r < 8 && 0 <= c < 8 ==>
      ColumnDone(p[..], r, c) && Cell(p[..], r, c) as int == Scaled2(r, Form(r, ColumnOf(old(p[..]), c)))
  {
    hide Form, Scaled2;
    ghost var was := p[..];
    for c := 0 to 8
      invariant forall r, d :: 0 <= r < 8 && 0 <= d < c ==>
        ColumnDone(p[..], r, d) && Cell(p[..], r, d) as int == Scaled2(r, Form(r, ColumnOf(was, d)))
      invariant forall r, d :: 0 <= r < 8 && c <= d < 8 ==> RowDone(p[..], r, d) && Cell(p[..], r, d) == Cell(was, r, d)
    {
      ghost var before := p[..];
      assert ColumnOf(before, c) == ColumnOf(was, c);
      ColumnPass(p, c);
      forall r, d | 0 <= r < 8 && 0 <= d < c
        ensures ColumnDone(p[..], r, d) && Cell(p[..], r, d) as int == Scaled2(r, Form(r, ColumnOf(was, d)))
      {
        assert ColumnDone(before, r, d);
      }
      forall r, d | 0 <= r < 8 && c < d < 8
        ensures RowDone(p[..], r, d)
      {
        assert RowDone(before, r, d);
      }
    }
  }

  /** DCT2D, in place: the transform of the block, with every coefficient inside the coder's range. */
  method Dct2D(p: array<int32>)
    requires p.Length == 64 && Samples(p[..])
    modifies p
    ensures forall i :: 0 <= i < 64 ==> Coefficient(p[i], i)
    ensures forall k, c :: 0 <= k < 8 && 0 <= c < 8 ==> Cell(p[..], k, c) as int == Transform(old(p[..]), k, c)
  {
    hide Form, RowValue, Scaled2, Coefficient;
    ghost var was := p[..];
    AllRows(p);
    ghost var middle := p[..];
    AllColumns(p);
    forall k, c | 0 <= k < 8 && 0 <= c < 8
      ensures Cell(p[..], k, c) as int == Transform(was, k, c)
    {
      assert ColumnOf(middle, c) == [RowValue(was, 0, c), RowValue(was, 1, c), RowValue(was, 2, c), RowValue(was, 3, c),
                                     RowValue(was, 4, c), RowValue(was, 5, c), RowValue(was, 6, c),
                                         RowValue(was, 7, c)];
    }
    forall i | 0 <= i < 64
      ensures Coefficient(p[i], i)
    {
      assert ColumnDone(p[..], i / 8, i % 8);
    }
  }

  // ----- quantization

  /**
   `r` times `q` is the multiple of `q` nearest to `value`; of two equally near, the one farther
   from zero.
   */
  predicate Nearest(value: int, q: int, r: int) {
    if value >= 0 then 0 <= r <= value && 2 * (r * q - value) <= q && 2 * (value - r * q) < q
    else value <= r <= 0 && 2 * (value - r * q) <= q && 2 * (r * q - value) < q
  }

  lemma NearestShrinks(value: int, q: int, r: int)
    requires Nearest(value, q, r)
    ensures 0 <= r <= value || value <= r <= 0
  {
  }

  lemma RoundedQuotient(a: int, q: int, r: int)
    requires 0 <= a && 1 <= q && r == (a + q / 2) / q
    ensures Nearest(a, q, r) && (a + q / 2 < q ==> r == 0)
  {
    Quotient(a + q / 2, q, r);
    QuotientRange(a, q, r, r * q);
  }

  lemma Quotient(j: int, q: int, r: int)
    requires 1 <= q && r == j / q
    ensures r * q <= j < r * q + q
  {
  }

  lemma QuotientRange(a: int, q: int, r: int, p: int)
    requires 0 <= a && 1 <= q && p == r * q && p <= a + q / 2 < p + q
    ensures 0 <= r <= a && (a + q / 2 < q ==> r == 0)
  {
    ScaleIf(r, -1, q);
    ScaleIf(a + 1, r, q);
    ScaleIf(1, r, q);
    ScaleIf(1, q, a);
    assert (a + 1) * q == a * q + q && -1 * q == -q && q * a == a * q;
  }

  lemma ScaleIf(x: int, y: int, c: int)
    requires 0 <= c
    ensures x <= y ==> x * c <= y * c
  {
  }

  /** One coefficient of load_quantized_coefficients. */
  method Quantize(value: int32, q: int32) returns (r: int32)
    requires 1 <= q <= 255 && -1024 <= value <= 1023
    ensures Nearest(value as int, q as int, r as int)
  {
    if value < 0 {
      var j := -value + q / 2;
      ghost var quotient := (-(value as int) + q as int / 2) / q as int;
      RoundedQuotient(-(value as int), q as int, quotient);
      assert -quotient * q as int == -(quotient * q as int);
      if j < q {
        r := 0;
      } else {
        r := -(j / q);
      }
    } else {
      var j := value + q / 2;
      RoundedQuotient(value as int, q as int, (value as int + q as int / 2) / q as int);
      if j < q {
        r := 0;
      } else {
        r := j / q;
      }
    }
  }

  /** s_zag */
  function Zag(i: nat): (k: nat)
    requires i < 64
    ensures k < 64 && (k == 0 <==> i == 0)
  {
    match i / 8
    case 0 =>
      (match i % 8
       case 0 => 0 case 1 => 1 case 2 => 8 case 3 => 16 case 4 => 9 case 5 => 2 case 6 => 3 case _ => 10)
    case 1 =>
      (match i % 8
       case 0 => 17 case 1 => 24 case 2 => 32 case 3 => 25 case 4 => 18 case 5 => 11 case 6 => 4 case _ => 5)
    case 2 =>
      (match i % 8
       case 0 => 12 case 1 => 19 case 2 => 26 case 3 => 33 case 4 => 40 case 5 => 48 case 6 => 41 case _ => 34)
    case 3 =>
      (match i % 8
       case 0 => 27 case 1 => 20 case 2 => 13 case 3 => 6 case 4 => 7 case 5 => 14 case 6 => 21 case _ => 28)
    case 4 =>
      (match i % 8
       case 0 => 35 case 1 => 42 case 2 => 49 case 3 => 56 case 4 => 57 case 5 => 50 case 6 => 43 case _ => 36)
    case 5 =>
      (match i % 8
       case 0 => 29 case 1 => 22 case 2 => 15 case 3 => 23 case 4 => 30 case 5 => 37 case 6 => 44 case _ => 51)
    case 6 =>
      (match i % 8
       case 0 => 58 case 1 => 59 case 2 => 52 case 3 => 45 case 4 => 38 case 5 => 31 case 6 => 39 case _ => 46)
    case _ =>
      (match i % 8
       case 0 => 53 case 1 => 60 case 2 => 61 case 3 => 54 case 4 => 47 case 5 => 55 case 6 => 62 case _ => 63)
  }

  /** load_quantized_coefficients: a quantized block in zigzag order keeps the bounds of the transform. */
  method LoadQuantized(samples: seq<int32>, quant: seq<int32>) returns (coefficients: seq<int>)
    requires |samples| == 64 && forall i :: 0 <= i < 64 ==> Coefficient(samples[i], i)
    requires |quant| == 64 && forall i :: 0 <= i < 64 ==> 1 <= quant[i] <= 255
    ensures |coefficients| == 64 && Encodable(coefficients)
    ensures forall i :: 0 <= i < 64 ==> Nearest(samples[Zag(i)] as int, quant[i] as int, coefficients[i])
  {
    hide Nearest, Zag;
    coefficients := [];
    for i := 0 to 64
      invariant |coefficients| == i && Encodable(coefficients)
      invariant forall k :: 0 <= k < i ==> Nearest(samples[Zag(k)] as int, quant[k] as int, coefficients[k])
    {
      var j := samples[Zag(i)];
      assert Coefficient(j, Zag(i));
      var r := Quantize(j, quant[i]);
      NearestShrinks(j as int, quant[i] as int, r as int);
      coefficients := coefficients + [r as int];
    }
  }

  /** Coefficients the entropy coder has symbols for. */
  predicate Encodable(b: seq<int>) {
    && (|b| > 0 ==> -1024 <= b[0] <= 1016)
    && forall i :: 1 <= i < |b| ==> -1023 <= b[i] <= 1023
  }
}
