/**
 CRC-32 as crc32.c computes it: tables, the byte-wise and braided loops, and the combination of two
 checksums, against the bit-at-a-time definition of section 8 of RFC 1952.
 */
module Crc32 {
  import opened Gf2
  import opened Gf2Order

  /** The register after one more byte, bit by bit. */
  function ByteStep(r: bv32, b: bv8): bv32 {
    ShiftN(Add(r, b as bv32), 8)
  }

  /** The register after a string of bytes. */
  function Register(r: bv32, data: seq<bv8>): bv32 {
    if data == [] then r else ByteStep(Register(r, data[..|data| - 1]), data[|data| - 1])
  }

  const ALL_ONES: bv32 := 0xffffffff

  /** The checksum of `data`, continuing from the checksum `crc` of what came before. */
  function Crc(crc: bv32, data: seq<bv8>): bv32 {
    Add(Register(Add(crc, ALL_ONES), data), ALL_ONES)
  }

  lemma {:induction false} RegisterConcat(r: bv32, a: seq<bv8>, b: seq<bv8>)
    ensures Register(r, a + b) == Register(Register(r, a), b)
  {
    hide ByteStep;
    if b == [] {
      assert a + b == a;
    } else {
      RegisterConcat(r, a, b[..|b| - 1]);
      assert (a + b)[..|a + b| - 1] == a + b[..|b| - 1];
    }
  }

  /** The register is a linear function of its start value, moved on by the length of the data. */
  lemma {:induction false} RegisterLinear(r: bv32, s: bv32, data: seq<bv8>)
    ensures Register(Add(r, s), data) == Add(ShiftN(r, 8 * |data|), Register(s, data))
  {
    hide Add, ShiftN, Shift;
    if data == [] {
      assert ShiftN(r, 0) == r by { ShiftNNothing(r); }
    } else {
      var init, last := data[..|data| - 1], data[|data| - 1] as bv32;
      RegisterLinear(r, s, init);
      var moved := ShiftN(r, 8 * |init|);
      AddAssoc(moved, Register(s, init), last);
      ShiftNLinear(moved, Add(Register(s, init), last), 8);
      ShiftNSum(r, 8 * |init|, 8);
    }
  }

  lemma ShiftNNothing(r: bv32)
    ensures ShiftN(r, 0) == r
  {
  }

  /** Two updates one after the other are one update over both strings. */
  lemma CrcConcat(crc: bv32, a: seq<bv8>, b: seq<bv8>)
    ensures Crc(Crc(crc, a), b) == Crc(crc, a + b)
  {
    hide Add, Register;
    RegisterConcat(Add(crc, ALL_ONES), a, b);
    AddLaws(Register(Add(crc, ALL_ONES), a), ALL_ONES);
  }

  /** What combining has to compute: the first checksum moved past the second string, plus the second. */
  lemma CombineFormula(a: seq<bv8>, b: seq<bv8>)
    ensures Crc(0, a + b) == Add(ShiftN(Crc(0, a), 8 * |b|), Crc(0, b))
  {
    hide Add, Register, ShiftN;
    var start := Add(0, ALL_ONES);
    var ra, rb := Register(start, a), Register(start, b);
    AddLaws(ALL_ONES, 0);
    RegisterConcat(start, a, b);
    // ra == crc(a) + ALL_ONES, so Register(ra, b) splits into the moved checksum and Register(ALL_ONES, b)
    AddLaws(ra, ALL_ONES);
    AddLaws(Add(ra, ALL_ONES), ALL_ONES);
    RegisterLinear(Add(ra, ALL_ONES), ALL_ONES, b);
    AddAssoc(ShiftN(Add(ra, ALL_ONES), 8 * |b|), rb, ALL_ONES);
  }

  // ----- bytes and words inside the register

  function LowByte(u: bv32): bv32 {
    u & 0xff
  }

  function Down8(u: bv32): bv32 {
    u >> 8
  }

  function ClearLow(u: bv32): bv32 {
    u & 0xffffff00
  }

  lemma EvenShift(v: bv32)
    requires !Odd(v)
    ensures Shift(v) == Half(v)
  {
  }

  lemma Shift8Steps(v: bv32)
    ensures ShiftN(v, 8) == Shift(Shift(Shift(Shift(Shift(Shift(Shift(Shift(v))))))))
  {
    hide Shift;
    assert ShiftN(v, 1) == Shift(v);
    assert ShiftN(v, 2) == Shift(ShiftN(v, 1));
    assert ShiftN(v, 3) == Shift(ShiftN(v, 2));
    assert ShiftN(v, 4) == Shift(ShiftN(v, 3));
    assert ShiftN(v, 5) == Shift(ShiftN(v, 4));
    assert ShiftN(v, 6) == Shift(ShiftN(v, 5));
    assert ShiftN(v, 7) == Shift(ShiftN(v, 6));
  }

  lemma Halves(v: bv32)
    ensures Half(v) == v >> 1 && Half(v >> 1) == v >> 2 && Half(v >> 2) == v >> 3 && Half(v >> 3) == v >> 4
    ensures Half(v >> 4) == v >> 5 && Half(v >> 5) == v >> 6 && Half(v >> 6) == v >> 7 && Half(v >> 7) == v >> 8
  {
  }

  lemma LowByteBits(v: bv32)
    requires v & 0xff == 0
    ensures v & 1 == 0 && (v >> 1) & 1 == 0 && (v >> 2) & 1 == 0 && (v >> 3) & 1 == 0
    ensures (v >> 4) & 1 == 0 && (v >> 5) & 1 == 0 && (v >> 6) & 1 == 0 && (v >> 7) & 1 == 0
  {
  }

  lemma LowBitsClear(v: bv32)
    requires LowByte(v) == 0
    ensures !Odd(v) && !Odd(Half(v)) && !Odd(Half(Half(v))) && !Odd(Half(Half(Half(v))))
    ensures var w := Half(Half(Half(Half(v))));
      !Odd(w) && !Odd(Half(w)) && !Odd(Half(Half(w))) && !Odd(Half(Half(Half(w))))
    ensures Half(Half(Half(Half(Half(Half(Half(Half(v)))))))) == Down8(v)
  {
    LowByteBits(v);
    Halves(v);
    hide Half;
  }

  /** A register whose low byte is clear just moves down by a byte. */
  lemma ClearShift8(v: bv32)
    requires LowByte(v) == 0
    ensures ShiftN(v, 8) == Down8(v)
  {
    LowBitsClear(v);
    hide Shift, ShiftN, Half, Odd, LowByte, Down8;
    Shift8Steps(v);
    var w := Half(Half(Half(Half(v))));
    EvenShift(v);
    EvenShift(Half(v));
    EvenShift(Half(Half(v)));
    EvenShift(Half(Half(Half(v))));
    EvenShift(w);
    EvenShift(Half(w));
    EvenShift(Half(Half(w)));
    EvenShift(Half(Half(Half(w))));
  }

  lemma SplitLowByte(u: bv32)
    ensures Add(LowByte(u), ClearLow(u)) == u
    ensures LowByte(ClearLow(u)) == 0
    ensures Down8(ClearLow(u)) == Down8(u)
  {
  }

  /** One table lookup does eight shifts. */
  lemma TableShift(u: bv32)
    ensures ShiftN(u, 8) == Add(Down8(u), ShiftN(LowByte(u), 8))
  {
    hide Add, ShiftN, LowByte, ClearLow, Down8;
    SplitLowByte(u);
    ShiftNLinear(LowByte(u), ClearLow(u), 8);
    ClearShift8(ClearLow(u));
    AddLaws(Down8(u), ShiftN(LowByte(u), 8));
  }

  lemma ByteMissesHigh(r: bv32, b: bv8)
    ensures Down8(Add(r, b as bv32)) == Down8(r)
  {
  }

  /** The byte-wise step of crc32_z. */
  lemma TableStep(r: bv32, b: bv8)
    ensures ByteStep(r, b) == Add(Down8(r), ShiftN(LowByte(Add(r, b as bv32)), 8))
  {
    hide Add, ShiftN, LowByte, Down8;
    TableShift(Add(r, b as bv32));
    ByteMissesHigh(r, b);
  }

  /** The low byte of a register, for a table lookup. */
  function Low(u: bv32): bv8 {
    (u & 0xff) as bv8
  }

  lemma LowIsLowByte(u: bv32)
    ensures Low(u) as bv32 == LowByte(u)
  {
  }

  /** A little-endian 32-bit load. */
  function Load(b0: bv8, b1: bv8, b2: bv8, b3: bv8): bv32 {
    Add(b0 as bv32, Add((b1 as bv32) << 8, Add((b2 as bv32) << 16, (b3 as bv32) << 24)))
  }

  lemma UpBits(c: bv8)
    ensures LowByte((c as bv32) << 8) == 0 && LowByte((c as bv32) << 16) == 0 && LowByte((c as bv32) << 24) == 0
    ensures Down8((c as bv32) << 8) == c as bv32
    ensures Down8((c as bv32) << 16) == (c as bv32) << 8
    ensures Down8((c as bv32) << 24) == (c as bv32) << 16
  {
  }

  lemma ByteUp(c: bv8)
    ensures ShiftN((c as bv32) << 8, 8) == c as bv32
    ensures ShiftN((c as bv32) << 16, 8) == (c as bv32) << 8
    ensures ShiftN((c as bv32) << 24, 8) == (c as bv32) << 16
  {
    hide ShiftN, LowByte, Down8;
    UpBits(c);
    ClearShift8((c as bv32) << 8);
    ClearShift8((c as bv32) << 16);
    ClearShift8((c as bv32) << 24);
  }

  // ----- words

  /** A value that `n` shifts bring to `v` may be added before those shifts. */
  lemma Absorb(t: bv32, n: nat, v: bv32, up: bv32)
    requires ShiftN(up, n) == v
    ensures ShiftN(Add(ShiftN(t, n), v), 8) == ShiftN(Add(t, up), n + 8)
  {
    hide Add, ShiftN;
    ShiftNLinear(t, up, n);
    ShiftNSum(Add(t, up), n, 8);
  }

  lemma BytesUp(c: bv8)
    ensures ShiftN((c as bv32) << 8, 8) == c as bv32
    ensures ShiftN((c as bv32) << 16, 16) == c as bv32
    ensures ShiftN((c as bv32) << 24, 24) == c as bv32
  {
    hide ShiftN;
    ByteUp(c);
    ShiftNSum((c as bv32) << 16, 8, 8);
    ShiftNSum((c as bv32) << 24, 8, 16);
  }

  /** Four bytes can be added to the register at once, as a little-endian word. */
  lemma LoadStep(r: bv32, b0: bv8, b1: bv8, b2: bv8, b3: bv8)
    ensures ByteStep(ByteStep(ByteStep(ByteStep(r, b0), b1), b2), b3) == ShiftN(Add(r, Load(b0, b1, b2, b3)), 32)
  {
    hide Add, ShiftN;
    var v0, v1, v2, v3 := b0 as bv32, (b1 as bv32) << 8, (b2 as bv32) << 16, (b3 as bv32) << 24;
    BytesUp(b1);
    BytesUp(b2);
    BytesUp(b3);
    Absorb(Add(r, v0), 8, b1 as bv32, v1);
    Absorb(Add(Add(r, v0), v1), 16, b2 as bv32, v2);
    Absorb(Add(Add(Add(r, v0), v1), v2), 24, b3 as bv32, v3);
    AddAssoc(r, v0, Add(v1, Add(v2, v3)));
    AddAssoc(Add(r, v0), v1, Add(v2, v3));
    AddAssoc(Add(Add(r, v0), v1), v2, v3);
  }

  /** The register after a string of words. */
  function WordRegister(r: bv32, words: seq<bv32>): bv32 {
    if words == [] then r else ShiftN(Add(WordRegister(r, words[..|words| - 1]), words[|words| - 1]), 32)
  }

  function LoadAt(data: seq<bv8>, at: nat): bv32
    requires at + 4 <= |data|
  {
    Load(data[at], data[at + 1], data[at + 2], data[at + 3])
  }

  /** The first `n` words of the data from `at` on. */
  function Words(data: seq<bv8>, at: nat, n: nat): (words: seq<bv32>)
    requires at + 4 * n <= |data|
    ensures |words| == n
    ensures forall i :: 0 <= i < n ==> words[i] == LoadAt(data, at + 4 * i)
  {
    if n == 0 then [] else Words(data, at, n - 1) + [LoadAt(data, at + 4 * (n - 1))]
  }

  lemma RegisterOfNothing(r: bv32, data: seq<bv8>, at: nat)
    requires at <= |data|
    ensures Register(r, data[at..at]) == r == WordRegister(r, Words(data, at, 0))
  {
    assert data[at..at] == [];
  }

  lemma RegisterNext(r: bv32, data: seq<bv8>, at: nat, e: nat)
    requires at <= e < |data|
    ensures Register(r, data[at..e + 1]) == ByteStep(Register(r, data[at..e]), data[e])
  {
    assert data[at..e + 1][..e - at] == data[at..e];
  }

  /** Four bytes more are one word more. */
  lemma RegisterNextWord(r: bv32, data: seq<bv8>, at: nat, e: nat)
    requires at <= e && e + 4 <= |data|
    ensures Register(r, data[at..e + 4]) == ShiftN(Add(Register(r, data[at..e]), LoadAt(data, e)), 32)
  {
    hide Add, ShiftN, Load, ByteStep, Register;
    RegisterNext(r, data, at, e);
    RegisterNext(r, data, at, e + 1);
    RegisterNext(r, data, at, e + 2);
    RegisterNext(r, data, at, e + 3);
    LoadStep(Register(r, data[at..e]), data[e], data[e + 1], data[e + 2], data[e + 3]);
  }

  lemma WordsNext(r: bv32, data: seq<bv8>, at: nat, n: nat)
    requires at + 4 * (n + 1) <= |data|
    ensures WordRegister(r, Words(data, at, n + 1)) ==
        ShiftN(Add(WordRegister(r, Words(data, at, n)), LoadAt(data, at + 4 * n)), 32)
  {
    hide Add, ShiftN, LoadAt;
    assert Words(data, at, n + 1)[..n] == Words(data, at, n);
  }

  lemma {:induction false} RegisterOfWords(r: bv32, data: seq<bv8>, at: nat, n: nat)
    requires at + 4 * n <= |data|
    ensures Register(r, data[at..at + 4 * n]) == WordRegister(r, Words(data, at, n))
  {
    hide Add, ShiftN, LoadAt, Register, WordRegister, Words;
    if n == 0 {
      RegisterOfNothing(r, data, at);
    } else {
      RegisterOfWords(r, data, at, n - 1);
      RegisterNextWord(r, data, at, at + 4 * (n - 1));
      WordsNext(r, data, at, n - 1);
    }
  }

  lemma {:induction false} WordConcat(r: bv32, u: seq<bv32>, v: seq<bv32>)
    ensures WordRegister(r, u + v) == WordRegister(WordRegister(r, u), v)
  {
    hide Add, ShiftN;
    if v == [] {
      assert u + v == u;
    } else {
      WordConcat(r, u, v[..|v| - 1]);
      assert (u + v)[..|u + v| - 1] == u + v[..|v| - 1];
    }
  }

  lemma {:induction false} WordLinear(r: bv32, words: seq<bv32>)
    ensures WordRegister(r, words) == Add(ShiftN(r, 32 * |words|), WordRegister(0, words))
  {
    hide Add, ShiftN;
    if words == [] {
      ShiftNNothing(r);
      AddLaws(r, 0);
    } else {
      var init, last := words[..|words| - 1], words[|words| - 1];
      WordLinear(r, init);
      AddAssoc(ShiftN(r, 32 * |init|), WordRegister(0, init), last);
      ShiftNLinear(ShiftN(r, 32 * |init|), Add(WordRegister(0, init), last), 32);
      ShiftNSum(r, 32 * |init|, 32);
    }
  }

  /** Word by word addition. */
  function AddWords(u: seq<bv32>, v: seq<bv32>): (w: seq<bv32>)
    requires |u| == |v|
    ensures |w| == |u|
    ensures forall i :: 0 <= i < |u| ==> w[i] == Add(u[i], v[i])
  {
    if u == [] then [] else AddWords(u[..|u| - 1], v[..|v| - 1]) + [Add(u[|u| - 1], v[|v| - 1])]
  }

  lemma {:induction false} WordSum(u: seq<bv32>, v: seq<bv32>)
    requires |u| == |v|
    ensures WordRegister(0, AddWords(u, v)) == Add(WordRegister(0, u), WordRegister(0, v))
  {
    hide Add, ShiftN;
    if u == [] {
      AddLaws(0, 0);
    } else {
      var u0, v0, a, b := u[..|u| - 1], v[..|v| - 1], u[|u| - 1], v[|v| - 1];
      WordSum(u0, v0);
      assert AddWords(u, v)[..|u| - 1] == AddWords(u0, v0);
      AddSwap(WordRegister(0, u0), WordRegister(0, v0), a, b);
      ShiftNLinear(Add(WordRegister(0, u0), a), Add(WordRegister(0, v0), b), 32);
    }
  }

  function ShiftWords(u: seq<bv32>, n: nat): (w: seq<bv32>)
    ensures |w| == |u|
    ensures forall i :: 0 <= i < |u| ==> w[i] == ShiftN(u[i], n)
  {
    if u == [] then [] else ShiftWords(u[..|u| - 1], n) + [ShiftN(u[|u| - 1], n)]
  }

  lemma {:induction false} WordScale(u: seq<bv32>, n: nat)
    ensures WordRegister(0, ShiftWords(u, n)) == ShiftN(WordRegister(0, u), n)
  {
    hide Add, ShiftN;
    if u == [] {
      ShiftNZero(n);
    } else {
      var u0, a := u[..|u| - 1], u[|u| - 1];
      WordScale(u0, n);
      assert ShiftWords(u, n)[..|u| - 1] == ShiftWords(u0, n);
      ShiftNLinear(WordRegister(0, u0), a, n);
      ShiftNSum(Add(WordRegister(0, u0), a), n, 32);
      ShiftNSum(Add(WordRegister(0, u0), a), 32, n);
    }
  }

  /**
   The braid: one block of words, each moved on by a whole block, may be added to the next block
   instead of being run through the register.
   */
  lemma BraidStep(u: seq<bv32>, v: seq<bv32>, rest: seq<bv32>)
    requires |u| == |v|
    ensures WordRegister(0, u + (v + rest)) == WordRegister(0, AddWords(ShiftWords(u, 32 * |u|), v) + rest)
  {
    hide Add, ShiftN, WordRegister, ShiftWords, AddWords;
    var n, moved := 32 * |u|, ShiftWords(u, 32 * |u|);
    var ru, rv := WordRegister(0, u), WordRegister(0, v);
    assert u + (v + rest) == (u + v) + rest;
    WordConcat(0, u + v, rest);
    WordConcat(0, u, v);
    WordLinear(ru, v);
    WordConcat(0, AddWords(moved, v), rest);
    WordSum(moved, v);
    WordScale(u, n);
  }
}
