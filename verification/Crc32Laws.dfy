/**
 What the conditioning of the checksum is for: the first four bytes count inverted, a text with its own
 checksum behind it always has the same checksum, and a change within four adjacent bytes never goes
 unnoticed.
 */
module Crc32Laws {
  import opened Gf2
  import opened Crc32

  /** The first four bytes inverted. */
  function FourInverted(data: seq<bv8>): (d: seq<bv8>)
    requires |data| >= 4
    ensures |d| == |data|
  {
    [data[0] ^ 0xff, data[1] ^ 0xff, data[2] ^ 0xff, data[3] ^ 0xff] + data[4..]
  }

  lemma RegisterOfFour(r: bv32, b0: bv8, b1: bv8, b2: bv8, b3: bv8)
    ensures Register(r, [b0, b1, b2, b3]) == ShiftN(Add(r, Load(b0, b1, b2, b3)), 32)
  {
    hide ByteStep;
    LoadStep(r, b0, b1, b2, b3);
    hide ShiftN;
    var s := [b0, b1, b2, b3];
    assert s[..3][..2] == s[..2] && s[..2][..1] == s[..1] && s[..1][..0] == [];
    assert Register(r, s[..1]) == ByteStep(r, b0);
    assert Register(r, s[..2]) == ByteStep(ByteStep(r, b0), b1);
    assert Register(r, s[..3]) == ByteStep(ByteStep(ByteStep(r, b0), b1), b2);
  }

  lemma LoadInverted(b0: bv8, b1: bv8, b2: bv8, b3: bv8)
    ensures Add(0xffffffff, Load(b0, b1, b2, b3)) == Add(0, Load(b0 ^ 0xff, b1 ^ 0xff, b2 ^ 0xff, b3 ^ 0xff))
  {
  }

  /** A checksum starts with its first four bytes inverted and ends inverted. */
  lemma Conditioning(data: seq<bv8>)
    requires |data| >= 4
    ensures Crc(0, data) == Add(Register(0, FourInverted(data)), 0xffffffff)
  {
    var b0, b1, b2, b3, rest := data[0], data[1], data[2], data[3], data[4..];
    var c0, c1, c2, c3 := b0 ^ 0xff, b1 ^ 0xff, b2 ^ 0xff, b3 ^ 0xff;
    assert data == [b0, b1, b2, b3] + rest;
    AddLaws(0, 0xffffffff);
    LoadInverted(b0, b1, b2, b3);
    hide Register, ShiftN, Add, Load;
    RegisterOfFour(0xffffffff, b0, b1, b2, b3);
    RegisterOfFour(0, c0, c1, c2, c3);
    RegisterConcat(0xffffffff, [b0, b1, b2, b3], rest);
    RegisterConcat(0, [c0, c1, c2, c3], rest);
  }

  // ----- the residue

  /** The bytes of a word, the low one first. */
  function Bytes(u: bv32): seq<bv8> {
    [Low(u), Low(u >> 8), Low(u >> 16), Low(u >> 24)]
  }

  lemma LoadBytes(u: bv32)
    ensures Load(Low(u), Low(u >> 8), Low(u >> 16), Low(u >> 24)) == u
  {
  }

  lemma FirstOnes()
    ensures ShiftN(0xffffffff, 8) == 0x2dfd1072
  {
    Shift8Steps(0xffffffff);
    assert Shift(0xffffffff) == 0x92477cdf && Shift(0x92477cdf) == 0xa49b3d4f && Shift(0xa49b3d4f) == 0xbff51d87;
    assert Shift(0xbff51d87) == 0xb2420de3 && Shift(0xb2420de3) == 0xb49985d1 && Shift(0xb49985d1) == 0xb7f441c8;
    assert Shift(0xb7f441c8) == 0x5bfa20e4 && Shift(0x5bfa20e4) == 0x2dfd1072;
  }

  lemma SecondOnes()
    ensures ShiftN(0x2dfd1072, 8) == 0xbe26ed00
  {
    Shift8Steps(0x2dfd1072);
    assert Shift(0x2dfd1072) == 0x16fe8839 && Shift(0x16fe8839) == 0xe6c7c73c && Shift(0xe6c7c73c) == 0x7363e39e;
    assert Shift(0x7363e39e) == 0x39b1f1cf && Shift(0x39b1f1cf) == 0xf1607bc7 && Shift(0xf1607bc7) == 0x9508bec3;
    assert Shift(0x9508bec3) == 0xa73cdc41 && Shift(0xa73cdc41) == 0xbe26ed00;
  }

  lemma ThirdOnes()
    ensures ShiftN(0xbe26ed00, 8) == 0x00be26ed
  {
    Shift8Steps(0xbe26ed00);
    assert Shift(0xbe26ed00) == 0x5f137680 && Shift(0x5f137680) == 0x2f89bb40 && Shift(0x2f89bb40) == 0x17c4dda0;
    assert Shift(0x17c4dda0) == 0x0be26ed0 && Shift(0x0be26ed0) == 0x05f13768 && Shift(0x05f13768) == 0x02f89bb4;
    assert Shift(0x02f89bb4) == 0x017c4dda && Shift(0x017c4dda) == 0x00be26ed;
  }

  lemma LastOnes()
    ensures ShiftN(0x00be26ed, 8) == 0xdebb20e3
  {
    Shift8Steps(0x00be26ed);
    assert Shift(0x00be26ed) == 0xede79056 && Shift(0xede79056) == 0x76f3c82b && Shift(0x76f3c82b) == 0xd6c16735;
    assert Shift(0xd6c16735) == 0x86d830ba && Shift(0x86d830ba) == 0x436c185d && Shift(0x436c185d) == 0xcc0e8f0e;
    assert Shift(0xcc0e8f0e) == 0x66074787 && Shift(0x66074787) == 0xdebb20e3;
  }

  /** A full register moved on by a word. */
  lemma OnesMoved()
    ensures ShiftN(0xffffffff, 32) == 0xdebb20e3
  {
    FirstOnes();
    SecondOnes();
    ThirdOnes();
    LastOnes();
    hide ShiftN;
    ShiftNSum(0xffffffff, 8, 8);
    ShiftNSum(0xffffffff, 16, 8);
    ShiftNSum(0xffffffff, 24, 8);
  }

  lemma InvertedSum(r: bv32)
    ensures Add(r, Add(r, 0xffffffff)) == 0xffffffff && Add(0xdebb20e3, 0xffffffff) == 0x2144df1c
  {
  }

  /** The residue: a text followed by its own checksum always has this checksum. */
  lemma Residue(data: seq<bv8>)
    ensures Crc(0, data + Bytes(Crc(0, data))) == 0x2144df1c
  {
    var r := Register(0xffffffff, data);
    var c := Crc(0, data);
    AddLaws(0, 0xffffffff);
    assert c == Add(r, 0xffffffff);
    InvertedSum(r);
    LoadBytes(c);
    OnesMoved();
    hide Register, ShiftN, Add, Load;
    RegisterConcat(0xffffffff, data, Bytes(c));
    RegisterOfFour(r, Low(c), Low(c >> 8), Low(c >> 16), Low(c >> 24));
  }

  // ----- what is detected

  lemma ShiftInjective(u: bv32, v: bv32)
    requires Shift(u) == Shift(v)
    ensures u == v
  {
  }

  lemma {:induction false} ShiftNInjective(u: bv32, v: bv32, n: nat)
    requires ShiftN(u, n) == ShiftN(v, n)
    ensures u == v
  {
    hide Shift;
    if n > 0 {
      ShiftInjective(ShiftN(u, n - 1), ShiftN(v, n - 1));
      ShiftNInjective(u, v, n - 1);
    }
  }

  lemma AddInjective(r: bv32, u: bv32, v: bv32)
    requires Add(r, u) == Add(r, v) || Add(u, r) == Add(v, r)
    ensures u == v
  {
  }

  /** The same bytes bring two registers together only if they were the same. */
  lemma {:induction false} RegisterInjective(r: bv32, s: bv32, data: seq<bv8>)
    requires Register(r, data) == Register(s, data)
    ensures r == s
  {
    hide Add, ShiftN;
    if data != [] {
      var init, last := data[..|data| - 1], data[|data| - 1] as bv32;
      ShiftNInjective(Add(Register(r, init), last), Add(Register(s, init), last), 8);
      AddInjective(last, Register(r, init), Register(s, init));
      RegisterInjective(r, s, init);
    }
  }

  lemma LoadInjective(a: seq<bv8>, b: seq<bv8>)
    requires |a| == |b| == 4 && Load(a[0], a[1], a[2], a[3]) == Load(b[0], b[1], b[2], b[3])
    ensures a == b
  {
    assert a[0] == b[0] && a[1] == b[1] && a[2] == b[2] && a[3] == b[3];
  }

  /** Four bytes are known by what they make of a register. */
  lemma FourInjective(r: bv32, a: seq<bv8>, b: seq<bv8>)
    requires |a| == |b| == 4 && Register(r, a) == Register(r, b)
    ensures a == b
  {
    hide Register, ShiftN, Add, Load;
    RegisterOfFour(r, a[0], a[1], a[2], a[3]);
    RegisterOfFour(r, b[0], b[1], b[2], b[3]);
    assert a == [a[0], a[1], a[2], a[3]] && b == [b[0], b[1], b[2], b[3]];
    var u, v := Load(a[0], a[1], a[2], a[3]), Load(b[0], b[1], b[2], b[3]);
    ShiftNInjective(Add(r, u), Add(r, v), 32);
    AddInjective(r, u, v);
    LoadInjective(a, b);
  }

  lemma SameRegister(crc: bv32, a: seq<bv8>, b: seq<bv8>)
    requires Crc(crc, a) == Crc(crc, b)
    ensures Register(Add(crc, ALL_ONES), a) == Register(Add(crc, ALL_ONES), b)
  {
    hide Register, Add;
    AddInjective(ALL_ONES, Register(Add(crc, ALL_ONES), a), Register(Add(crc, ALL_ONES), b));
  }

  /** Texts that differ only within four adjacent bytes have different checksums. */
  lemma BurstDetected(crc: bv32, front: seq<bv8>, a: seq<bv8>, b: seq<bv8>, back: seq<bv8>)
    requires |a| == |b| == 4 && a != b
    ensures Crc(crc, front + a + back) != Crc(crc, front + b + back)
  {
    hide *;
    var start := Add(crc, ALL_ONES);
    var r := Register(start, front);
    if Crc(crc, front + a + back) == Crc(crc, front + b + back) {
      SameRegister(crc, front + a + back, front + b + back);
      RegisterConcat(start, front + a, back);
      RegisterConcat(start, front + b, back);
      RegisterInjective(Register(start, front + a), Register(start, front + b), back);
      RegisterConcat(start, front, a);
      RegisterConcat(start, front, b);
      FourInjective(r, a, b);
    }
  }
}
