/** The tables and loops of crc32.c, for N = 5 braids of W = 4 byte words on a little-endian machine. */
module Crc32Engine {
  import opened Basics
  import opened Gf2
  import opened Gf2Order
  import opened Crc32

  const N: nat := 5
  const W: nat := 4

  lemma NoTermsLeft(a: bv32, b: bv32, m: bv32)
    requires m == 0 || SingleBit(m)
    requires a & (m | (m - 1)) == 0 || m == 0
    ensures MulMask(a, b, m) == 0
    decreases m
  {
    if m != 0 {
      hide Shift;
      assert a & m == 0;
      AddLaws(0, 0);
      if m != 1 {
        BitStep(m);
        assert a & (m - 1) == 0;
      }
      NoTermsLeft(a, Shift(b), Half(m));
    }
  }

  /** a(x) has coefficients below the bit `m`. */
  predicate BitsBelow(a: bv32, m: bv32) {
    a & (m - 1) != 0
  }

  /** a(x) has coefficients at or below the bit `m`. */
  predicate BitsFrom(a: bv32, m: bv32) {
    a & (m | (m - 1)) != 0
  }

  lemma MaskAfter(a: bv32, m: bv32)
    requires SingleBit(m) && BitsFrom(a, m)
    requires !Coef(a, m) || BitsBelow(a, m)
    ensures SingleBit(Half(m)) && BitsFrom(a, Half(m)) && Half(m) < m
  {
    assert a & (m - 1) != 0;
    BitStep(m);
  }

  lemma LastTerm(a: bv32, b: bv32, m: bv32)
    requires SingleBit(m) && !BitsBelow(a, m)
    ensures MulMask(a, Shift(b), Half(m)) == 0
  {
    if m != 1 {
      BitStep(m);
    }
    NoTermsLeft(a, Shift(b), Half(m));
  }

  /** multmodp */
  method MultModP(a: bv32, b: bv32) returns (p: bv32)
    requires a != 0
    ensures p == Mul(a, b)
  {
    hide Add, Shift, SingleBit, Coef, Half, MulMask, BitsBelow, BitsFrom;
    var m, b' := ONE, b;
    p := 0;
    AddLaws(MulMask(a, b, m), 0);
    StartMask(a);
    while true
      invariant Add(p, MulMask(a, b', m)) == Mul(a, b)
      invariant SingleBit(m) && BitsFrom(a, m)
      decreases m
    {
      MulUnfold(a, b', m);
      var rest := MulMask(a, Shift(b'), Half(m));
      AddLaws(p, 0);
      AddLaws(rest, 0);
      if Coef(a, m) {
        AddAssoc(p, b', rest);
        p := Add(p, b');
        if !BitsBelow(a, m) {
          LastTerm(a, b', m);
          AddLaws(p, 0);
          break;
        }
      }
      MaskAfter(a, m);
      m := Half(m);
      b' := Shift(b');
    }
  }

  lemma StartMask(a: bv32)
    requires a != 0
    ensures SingleBit(ONE) && BitsFrom(a, ONE)
  {
    assert ONE | (ONE - 1) == 0xffffffff;
    assert a & 0xffffffff == a;
  }

  lemma MulUnfold(a: bv32, b: bv32, m: bv32)
    requires SingleBit(m)
    ensures MulMask(a, b, m) == Add(if Coef(a, m) then b else 0, MulMask(a, Shift(b), Half(m)))
  {
    hide Add, Shift, Coef, Half;
  }

  function Index(c: bv8): (i: nat)
    ensures i < 256
  {
    c as int
  }

  lemma IndexInjective(c: bv8, d: bv8)
    requires Index(c) == Index(d)
    ensures c == d
  {
    assert (c as int) as bv8 == c && (d as int) as bv8 == d;
  }

  method RunByte(c: bv8) returns (p: bv32)
    ensures p == ShiftN(c as bv32, 8)
  {
    hide Shift, ShiftN;
    p := c as bv32;
    ShiftNNothing(p);
    for j := 0 to 8
      invariant p == ShiftN(c as bv32, j)
    {
      ShiftNOnce(c as bv32, j);
      p := Shift(p);
    }
  }

  class Tables {
    const crcTable: array<bv32>
    const x2nTable: array<bv32>
    const braidTable: array2<bv32>

    /** crc_table[c] is the byte c run through the register. */
    ghost predicate BytesOk()
      reads crcTable
    {
      crcTable.Length == 256 && forall c: bv8 :: crcTable[Index(c)] == ShiftN(c as bv32, 8)
    }

    /** x2n_table[i] is x^(2^i). */
    ghost predicate PowersOk()
      reads x2nTable
    {
      x2nTable.Length == 32 && forall i :: 0 <= i < 32 ==> x2nTable[i] == X(Pow2(i))
    }

    /** crc_braid_table[k][c] is the byte c in place k of a word, moved on by a block. */
    ghost predicate BraidsOk()
      reads braidTable
    {
      && braidTable.Length0 == W && braidTable.Length1 == 256
      && forall k, c: bv8 :: 0 <= k < W ==> braidTable[k, Index(c)] == ShiftN((c as bv32) << 24, 8 * (N * W + 3 - k))
    }

    /** x2nmodp */
    method X2NModP(n: nat, k: nat) returns (p: bv32)
      requires PowersOk()
      ensures p == X(n * Pow2(k))
    {
      hide X, Pow2, Mul;
      p := ONE;
      var n': nat, k': nat := n, k;
      ghost var exponent: nat := 0;
      assert X(0) == ONE by { XNought(); }
      while n' > 0
        invariant exponent + n' * Pow2(k') == n * Pow2(k)
        invariant p == X(exponent)
      {
        var digit := n' % 2;
        HalveExponent(n', k');
        if digit == 1 {
          PowersWrap(k');
          XNonzero(Pow2(k' % 32));
          XTimesX(Pow2(k'), exponent);
          p := MultModP(x2nTable[k' % 32], p);
          exponent := Pow2(k') + exponent;
        }
        n' := n' / 2;
        k' := k' + 1;
      }
    }

    /** make_crc_table with braid for the little-endian tables; crc32.h holds what it prints. */
    constructor ()
      ensures BytesOk() && PowersOk() && BraidsOk()
      ensures fresh(crcTable) && fresh(x2nTable) && fresh(braidTable)
    {
      crcTable := new bv32[256];
      x2nTable := new bv32[32];
      braidTable := new bv32[W, 256];
      new;
      MakeBytes();
      MakePowers();
      MakeBraids();
    }

    method MakeBytes()
      requires crcTable.Length == 256
      modifies crcTable
      ensures BytesOk()
    {
      hide Shift, ShiftN, Index;
      var c: bv8 := 0;
      while true
        invariant forall d: bv8 :: d < c ==> crcTable[Index(d)] == ShiftN(d as bv32, 8)
        decreases 255 - c
      {
        var p := RunByte(c);
        forall d: bv8 | d < c ensures Index(d) != Index(c) {
          if Index(d) == Index(c) {
            IndexInjective(d, c);
          }
        }
        crcTable[Index(c)] := p;
        if c == 255 {
          break;
        }
        c := c + 1;
      }
    }

    method MakePowers()
      requires x2nTable.Length == 32
      modifies x2nTable
      ensures PowersOk()
    {
      hide X, Mul, Pow2;
      var p: bv32 := 0x40000000;
      assert X(Pow2(0)) == p by { XOne(); Pow2Nought(); }
      x2nTable[0] := p;
      for n := 1 to 32
        invariant p == X(Pow2(n - 1))
        invariant forall i :: 0 <= i < n ==> x2nTable[i] == X(Pow2(i))
      {
        XNonzero(Pow2(n - 1));
        XTimesX(Pow2(n - 1), Pow2(n - 1));
        Pow2Next(n - 1);
        p := MultModP(p, p);
        x2nTable[n] := p;
      }
    }

    /** One row of braid. */
    method MakeBraidRow(k: nat, p: bv32, ghost exponent: nat)
      requires k < W == braidTable.Length0 && braidTable.Length1 == 256 && p == X(exponent)
      modifies braidTable
      ensures forall c: bv8 :: braidTable[k, Index(c)] == ShiftN((c as bv32) << 24, exponent)
      ensures forall j, i :: 0 <= j < W && j != k && 0 <= i < 256 ==> braidTable[j, i] == old(braidTable[j, i])
    {
      hide ShiftN, Mul, Index, X;
      braidTable[k, Index(0)] := 0;
      assert ShiftN((0 as bv32) << 24, exponent) == 0 by { ShiftNZero(exponent); }
      var c: bv8 := 1;
      while true
        invariant c != 0
        invariant forall d: bv8 :: d < c ==> braidTable[k, Index(d)] == ShiftN((d as bv32) << 24, exponent)
        invariant forall j, i :: 0 <= j < W && j != k && 0 <= i < 256 ==> braidTable[j, i] == old(braidTable[j, i])
        decreases 255 - c
      {
        TopByteNonzero(c);
        var q := MultModP((c as bv32) << 24, p);
        MulX((c as bv32) << 24, exponent);
        forall d: bv8 | d < c ensures Index(d) != Index(c) {
          if Index(d) == Index(c) {
            IndexInjective(d, c);
          }
        }
        braidTable[k, Index(c)] := q;
        if c == 255 {
          break;
        }
        c := c + 1;
      }
    }

    method MakeBraids()
      requires PowersOk() && braidTable.Length0 == W && braidTable.Length1 == 256
      modifies braidTable
      ensures BraidsOk()
    {
      hide ShiftN, X, Index;
      for k := 0 to W
        invariant forall j, c: bv8 :: 0 <= j < k ==>
            braidTable[j, Index(c)] == ShiftN((c as bv32) << 24, 8 * (N * W + 3 - j))
      {
        var p := X2NModP(8 * (N * W + 3 - k), 0);
        Pow2Nought();
        MakeBraidRow(k, p, 8 * (N * W + 3 - k));
      }
    }

    /** The byte-wise step. */
    method StepByte(crc: bv32, b: bv8) returns (r: bv32)
      requires BytesOk()
      ensures r == ByteStep(crc, b)
    {
      hide ShiftN, Add, Low, LowByte, Down8;
      TableStep(crc, b);
      LowIsLowByte(Add(crc, b as bv32));
      r := Add(Down8(crc), crcTable[Index(Low(Add(crc, b as bv32)))]);
    }

    /** crc_word */
    method CrcWord(data: bv32) returns (r: bv32)
      requires BytesOk()
      ensures r == ShiftN(data, 8 * W)
    {
      hide ShiftN, Add, Low, LowByte, Down8;
      r := data;
      ShiftNNothing(data);
      for k := 0 to W
        invariant r == ShiftN(data, 8 * k)
      {
        TableShift(r);
        LowIsLowByte(r);
        ShiftNSum(data, 8 * k, 8);
        r := Add(Down8(r), crcTable[Index(Low(r))]);
      }
    }

    /** The inner loop of the braid: a word moved on by a whole block. */
    method BraidWord(word: bv32) returns (crc: bv32)
      requires BraidsOk()
      ensures crc == ShiftN(word, 8 * N * W)
    {
      hide ShiftN, Add, ByteOf, Lower, Placed;
      crc := braidTable[0, Index(ByteOf(word, 0))];
      PlacedShift(ByteOf(word, 0), 0);
      LowerStart(word);
      for k := 1 to W
        invariant crc == ShiftN(Lower(word, k), 8 * N * W)
      {
        PlacedShift(ByteOf(word, k), k);
        LowerNext(word, k);
        ShiftNLinear(Lower(word, k), Placed(ByteOf(word, k), k), 8 * N * W);
        crc := Add(crc, braidTable[k, Index(ByteOf(word, k))]);
      }
      LowerEnd(word);
    }

    /** The last block of words, which also brings the braids together. */
    method JoinBraids(u: seq<bv32>) returns (crc: bv32)
      requires BytesOk() && |u| == N
      ensures crc == WordRegister(0, u)
    {
      hide ShiftN, Add;
      WordUnroll5(u);
      AddLaws(u[0], 0);
      crc := CrcWord(u[0]);
      AddLaws(u[1], crc);
      crc := CrcWord(Add(u[1], crc));
      AddLaws(u[2], crc);
      crc := CrcWord(Add(u[2], crc));
      AddLaws(u[3], crc);
      crc := CrcWord(Add(u[3], crc));
      AddLaws(u[4], crc);
      crc := CrcWord(Add(u[4], crc));
    }

    /** One block on all braids: each word is added to its braid and moved on by a block. */
    method BraidBlock(u: seq<bv32>) returns (c: seq<bv32>)
      requires BraidsOk() && |u| == N
      ensures c == ShiftWords(u, 8 * N * W)
    {
      hide ShiftN;
      var c0 := BraidWord(u[0]);
      var c1 := BraidWord(u[1]);
      var c2 := BraidWord(u[2]);
      var c3 := BraidWord(u[3]);
      var c4 := BraidWord(u[4]);
      c := [c0, c1, c2, c3, c4];
    }

    /** The words of the next block, each with the state of its braid added. */
    method LoadBlock(c: seq<bv32>, data: seq<bv8>, at: nat) returns (u: seq<bv32>)
      requires |c| == N && at + N * W <= |data|
      ensures u == AddWords(c, Words(data, at, N))
    {
      hide Add, LoadAt;
      u := [Add(c[0], LoadAt(data, at)), Add(c[1], LoadAt(data, at + 4)), Add(c[2], LoadAt(data, at + 8)),
            Add(c[3], LoadAt(data, at + 12)), Add(c[4], LoadAt(data, at + 16))];
    }

    /** The braided loop over `blks` whole blocks. */
    method Blocks(crc: bv32, data: seq<bv8>, at: nat, blks: nat) returns (r: bv32)
      requires BytesOk() && BraidsOk()
      requires 1 <= blks && at + N * W * blks <= |data|
      ensures r == Register(crc, data[at..at + N * W * blks])
    {
      hide Add, ShiftN, Register, WordRegister, LoadAt, ShiftWords, AddWords, Words;
      RegisterOfWords(crc, data, at, N * blks);
      ghost var words := Words(data, at, N * blks);
      var c, left, pos := [crc, 0, 0, 0, 0], blks - 1, at;
      WordsSplit(data, at, N, N * (blks - 1));
      BraidStart(crc, Words(data, at, N), Words(data, at + N * W, N * (blks - 1)));
      while left > 0
        invariant |c| == N && 0 <= left < blks && pos == at + N * W * (blks - 1 - left)
        invariant WordRegister(crc, words) ==
            WordRegister(0, AddWords(c, Words(data, pos, N)) + Words(data, pos + N * W, N * left))
      {
        var u := LoadBlock(c, data, pos);
        ghost var next, rest := Words(data, pos + N * W, N), Words(data, pos + 2 * (N * W), N * (left - 1));
        WordsSplit(data, pos + N * W, N, N * (left - 1));
        BraidStep(u, next, rest);
        c := BraidBlock(u);
        pos := pos + N * W;
        left := left - 1;
      }
      var u := LoadBlock(c, data, pos);
      assert Words(data, pos + N * W, 0) == [];
      assert u + [] == u;
      r := JoinBraids(u);
    }

    /** Byte-wise steps from `at` up to `to`. */
    method Bytes(crc: bv32, data: seq<bv8>, at: nat, to: nat, ghost start: bv32) returns (r: bv32)
      requires BytesOk() && at <= to <= |data| && crc == Register(start, data[..at])
      ensures r == Register(start, data[..to])
    {
      hide Register, ByteStep;
      r := crc;
      for i := at to to
        invariant r == Register(start, data[..i])
      {
        RegisterNext(start, data, 0, i);
        r := StepByte(r, data[i]);
      }
    }

    /** crc32_z: `address` is where the buffer lies in memory, so that words are loaded from word boundaries. */
    method Crc32Z(crc: bv32, buf: Option<seq<bv8>>, address: nat) returns (r: bv32)
      requires BytesOk() && BraidsOk()
      ensures buf.None? ==> r == 0
      ensures buf.Some? ==> r == Crc(crc, buf.value)
    {
      hide Register, Add, ByteStep;
      if buf.None? {
        return 0;
      }
      var data := buf.value;
      ghost var start := Add(crc, ALL_ONES);
      r := Add(crc, ALL_ONES);
      var at, len := 0, |data|;
      assert data[..0] == data[0..0];
      RegisterOfNothing(start, data, 0);
      if len >= N * W + W - 1 {
        var boundary := (W - address % W) % W;
        while len > 0 && (address + at) % W != 0
          invariant at + len == |data| && 0 <= at <= boundary
          invariant r == Register(start, data[..at])
          decreases len
        {
          r := Bytes(r, data, at, at + 1, start);
          at, len := at + 1, len - 1;
        }
        var blks := len / (N * W);
        len := len - blks * N * W;
        var joined := Blocks(r, data, at, blks);
        assert data[..at] + data[at..at + N * W * blks] == data[..at + N * W * blks];
        RegisterConcat(start, data[..at], data[at..at + N * W * blks]);
        r, at := joined, at + N * W * blks;
      }
      while len >= 8
        invariant at + len == |data| && 0 <= len
        invariant r == Register(start, data[..at])
      {
        len := len - 8;
        r := Bytes(r, data, at, at + 8, start);
        at := at + 8;
      }
      r := Bytes(r, data, at, at + len, start);
      assert data[..|data|] == data;
      r := Add(r, ALL_ONES);
    }

    /** crc32_combine_gen64 */
    method CombineGen64(len2: nat) returns (op: bv32)
      requires PowersOk()
      ensures op == X(8 * len2) != 0
    {
      hide X, Pow2;
      op := X2NModP(len2, 3);
      EightIsPower();
      XNonzero(8 * len2);
    }

    /** crc32_combine_op and crc32_combine64: the checksum of two strings from theirs. */
    method Combine64(crc1: bv32, crc2: bv32, len2: nat) returns (r: bv32)
      requires PowersOk()
      ensures r == Add(ShiftN(crc1, 8 * len2), crc2)
      ensures forall a: seq<bv8>, b: seq<bv8> {:trigger Crc(0, a + b)} ::
        crc1 == Crc(0, a) && crc2 == Crc(0, b) && len2 == |b| ==> r == Crc(0, a + b)
    {
      hide X, Mul, ShiftN, Add, Crc;
      var op := CombineGen64(len2);
      var moved := MultModP(op, crc1);
      XMul(8 * len2, crc1);
      r := Add(moved, crc2);
      forall a: seq<bv8>, b: seq<bv8> | crc1 == Crc(0, a) && crc2 == Crc(0, b) && len2 == |b|
        ensures r == Crc(0, a + b)
      {
        CombineFormula(a, b);
      }
    }
  }

  lemma EightIsPower()
    ensures Pow2(3) == 8
  {
  }

  lemma WordsSplit(data: seq<bv8>, at: nat, m: nat, n: nat)
    requires at + 4 * (m + n) <= |data|
    ensures Words(data, at, m + n) == Words(data, at, m) + Words(data, at + 4 * m, n)
  {
    hide LoadAt;
    var u, v, w := Words(data, at, m), Words(data, at + 4 * m, n), Words(data, at, m + n);
    forall i | 0 <= i < m + n
      ensures w[i] == (u + v)[i]
    {
      if i >= m {
        assert v[i - m] == LoadAt(data, at + 4 * m + 4 * (i - m));
      }
    }
  }

  /** The first braid starts from the register, the others from zero. */
  lemma BraidStart(crc: bv32, first: seq<bv32>, rest: seq<bv32>)
    requires |first| == N
    ensures WordRegister(crc, first + rest) == WordRegister(0, AddWords([crc, 0, 0, 0, 0], first) + rest)
  {
    hide Add, ShiftN, WordRegister;
    var c := [crc, 0, 0, 0, 0];
    WordConcat(crc, first, rest);
    WordConcat(0, AddWords(c, first), rest);
    WordLinear(crc, first);
    WordSum(c, first);
    WordUnroll5(c);
    ShiftNSum(crc, 32, 32);
    ShiftNSum(crc, 64, 32);
    ShiftNSum(crc, 96, 32);
    ShiftNSum(crc, 128, 32);
    AddLaws(crc, 0);
    AddLaws(ShiftN(crc, 32), 0);
    AddLaws(ShiftN(crc, 64), 0);
    AddLaws(ShiftN(crc, 96), 0);
    AddLaws(ShiftN(crc, 128), 0);
  }

  lemma WordUnroll5(u: seq<bv32>)
    requires |u| == 5
    ensures WordRegister(0, u) ==
      ShiftN(Add(ShiftN(Add(ShiftN(Add(ShiftN(Add(ShiftN(Add(0, u[0]), 32), u[1]), 32), u[2]), 32), u[3]), 32), u[4]),
          32)
  {
    hide ShiftN, Add;
    assert u[..4][..3] == u[..3] && u[..3][..2] == u[..2] && u[..2][..1] == u[..1] && u[..1][..0] == [];
    assert WordRegister(0, u[..1]) == ShiftN(Add(0, u[0]), 32);
    assert WordRegister(0, u[..2]) == ShiftN(Add(WordRegister(0, u[..1]), u[1]), 32);
    assert WordRegister(0, u[..3]) == ShiftN(Add(WordRegister(0, u[..2]), u[2]), 32);
    assert WordRegister(0, u[..4]) == ShiftN(Add(WordRegister(0, u[..3]), u[3]), 32);
  }

  lemma TopByteNonzero(c: bv8)
    requires c != 0
    ensures (c as bv32) << 24 != 0
  {
  }

  /** (word >> (k << 3)) & 0xff */
  function ByteOf(word: bv32, k: nat): bv8
    requires k < W
  {
    match k
    case 0 => (word & 0xff) as bv8
    case 1 => ((word >> 8) & 0xff) as bv8
    case 2 => ((word >> 16) & 0xff) as bv8
    case _ => ((word >> 24) & 0xff) as bv8
  }

  /** A byte in place `k` of a word. */
  function Placed(c: bv8, k: nat): bv32
    requires k < W
  {
    match k
    case 0 => c as bv32
    case 1 => (c as bv32) << 8
    case 2 => (c as bv32) << 16
    case _ => (c as bv32) << 24
  }

  /** The lowest `k` bytes of a word. */
  function Lower(word: bv32, k: nat): bv32
    requires 1 <= k <= W
  {
    match k
    case 1 => word & 0xff
    case 2 => word & 0xffff
    case 3 => word & 0xffffff
    case _ => word
  }

  lemma LowerStart(word: bv32)
    ensures Lower(word, 1) == Placed(ByteOf(word, 0), 0)
  {
  }

  lemma LowerEnd(word: bv32)
    ensures Lower(word, W) == word
  {
  }

  lemma LowerNext(word: bv32, k: nat)
    requires 1 <= k < W
    ensures Lower(word, k + 1) == Add(Lower(word, k), Placed(ByteOf(word, k), k))
  {
    hide Add, Lower, Placed, ByteOf;
    WordBytes(word);
  }

  lemma WordBytes(word: bv32)
    ensures Lower(word, 2) == Add(Lower(word, 1), Placed(ByteOf(word, 1), 1))
    ensures Lower(word, 3) == Add(Lower(word, 2), Placed(ByteOf(word, 2), 2))
    ensures Lower(word, 4) == Add(Lower(word, 3), Placed(ByteOf(word, 3), 3))
  {
    hide Add, Lower, Placed, ByteOf;
    SecondByte(word);
    ThirdByte(word);
    FourthByte(word);
  }

  lemma SecondByte(word: bv32)
    ensures Lower(word, 2) == Add(Lower(word, 1), Placed(ByteOf(word, 1), 1))
  {
  }

  lemma ThirdByte(word: bv32)
    ensures Lower(word, 3) == Add(Lower(word, 2), Placed(ByteOf(word, 2), 2))
  {
  }

  lemma FourthByte(word: bv32)
    ensures Lower(word, 4) == Add(Lower(word, 3), Placed(ByteOf(word, 3), 3))
  {
  }

  /** The entry for a byte in place `k`, as braid computes it, is that byte moved on by a block. */
  lemma PlacedShift(c: bv8, k: nat)
    requires k < W
    ensures ShiftN((c as bv32) << 24, 8 * (N * W + 3 - k)) == ShiftN(Placed(c, k), 8 * N * W)
  {
    hide ShiftN;
    var top := (c as bv32) << 24;
    ByteUp(c);
    BytesUp(c);
    ShiftNSum(top, 24 - 8 * k, 8 * N * W);
    if k == 1 {
      ShiftNSum(top, 8, 8);
    } else if k == 3 {
      ShiftNNothing(top);
    }
  }

  /** n >>= 1, `k` times; the shift of a negative number rounds down. */
  function Halved(n: int, k: nat): int
    decreases k
  {
    if k == 0 then n else Halved(n / 2, k - 1)
  }

  lemma {:induction false} NegativeStays(n: int, k: nat)
    ensures n < 0 ==> Halved(n, k) < 0
    ensures 0 <= n < Pow2(k) ==> Halved(n, k) == 0
    decreases k
  {
    if k > 0 {
      NegativeStays(n / 2, k - 1);
    }
  }

  lemma {:induction false} BelowPow2(n: nat)
    ensures n < Pow2(n)
  {
    if n > 0 {
      BelowPow2(n - 1);
    }
  }

  /** The loop of x2nmodp ends exactly for lengths that are not negative. */
  lemma LoopEndsIff(n: int)
    ensures (exists k: nat :: Halved(n, k) == 0) <==> n >= 0
  {
    if n >= 0 {
      BelowPow2(n);
      NegativeStays(n, n);
    } else {
      forall k: nat
        ensures Halved(n, k) != 0
      {
        NegativeStays(n, k);
      }
    }
  }

  lemma XNought()
    ensures X(0) == ONE
  {
  }

  lemma HalveExponent(n: nat, k: nat)
    ensures n * Pow2(k) == (n % 2) * Pow2(k) + (n / 2) * Pow2(k + 1)
  {
    assert n == n % 2 + 2 * (n / 2);
    assert Pow2(k + 1) == 2 * Pow2(k);
    Distribute(n % 2, n / 2, Pow2(k));
  }

  lemma Distribute(r: nat, q: nat, p: nat)
    ensures (r + 2 * q) * p == r * p + q * (2 * p)
  {
  }

  lemma Pow2Nought()
    ensures Pow2(0) == 1
  {
  }

  lemma Pow2Next(n: nat)
    ensures Pow2(n + 1) == Pow2(n) + Pow2(n)
  {
  }

  lemma ShiftNOnce(r: bv32, n: nat)
    ensures ShiftN(r, n + 1) == Shift(ShiftN(r, n))
  {
  }
}
