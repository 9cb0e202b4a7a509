/**
 Bytes as bits, and the byte stuffing of section F.1.2.3 of ITU-T T.81.
 */
module JpegBits {
  import opened Basics
  import opened BitStrings

  /** Bytes as bits. */
  function BytesBits(s: seq<byte>): (b: seq<bool>)
    ensures |b| == 8 * |s|
  {
    if s == [] then [] else BytesBits(s[..|s| - 1]) + BitsOf(s[|s| - 1], 8)
  }

  lemma BytesBitsAppend(s: seq<byte>, c: byte)
    ensures BytesBits(s + [c]) == BytesBits(s) + BitsOf(c, 8)
  {
    assert (s + [c])[..|s|] == s;
  }

  // ----- stuffing

  /** A zero byte follows every 0xFF, so that no marker appears in the scan. */
  function Stuff(s: seq<byte>): seq<byte> {
    if s == [] then [] else Stuffed(s[0]) + Stuff(s[1..])
  }

  function Stuffed(c: byte): seq<byte> {
    if c == 0xFF then [c, 0] else [c]
  }

  /**
   What a decoder makes of the bytes after the scan header: the entropy-coded bytes up to the first
   marker, which is a 0xFF with a byte other than zero after it, and whatever follows.
   */
  function Unstuff(s: seq<byte>): (seq<byte>, seq<byte>) {
    if |s| >= 2 && s[0] == 0xFF && s[1] != 0 then ([], s)
    else if s == [] then ([], [])
    else
      var (front, back) := Unstuff(if s[0] == 0xFF && |s| >= 2 then s[2..] else s[1..]);
      ([s[0]] + front, back)
  }

  lemma {:induction false} StuffAppend(s: seq<byte>, c: byte)
    ensures Stuff(s + [c]) == Stuff(s) + Stuffed(c)
  {
    if s == [] {
      assert s + [c] == [c] && [c][1..] == [];
      assert Stuff([c]) == Stuffed(c) + Stuff([]);
    } else {
      hide Stuffed;
      StuffAppend(s[1..], c);
      assert (s + [c])[1..] == s[1..] + [c] && (s + [c])[0] == s[0];
      Associate(Stuffed(s[0]), Stuff(s[1..]), Stuffed(c));
    }
  }

  lemma UnstuffStep(c: byte, t: seq<byte>)
    ensures Unstuff(Stuffed(c) + t) == ([c] + Unstuff(t).0, Unstuff(t).1)
  {
    var s := Stuffed(c) + t;
    assert s[|Stuffed(c)|..] == t;
  }

  /** A decoder finds the end of the scan, and the bytes that were packed, whatever the bytes are. */
  lemma {:induction false} StuffingUndone(s: seq<byte>, tail: seq<byte>)
    requires |tail| >= 2 && tail[0] == 0xFF && tail[1] != 0
    ensures Unstuff(Stuff(s) + tail) == (s, tail)
  {
    if s == [] {
      assert Stuff(s) + tail == tail;
    } else {
      hide Unstuff;
      StuffingUndone(s[1..], tail);
      assert Stuff(s) + tail == Stuffed(s[0]) + (Stuff(s[1..]) + tail);
      UnstuffStep(s[0], Stuff(s[1..]) + tail);
      assert s == [s[0]] + s[1..];
    }
  }

  /** No 0xFF in a scan is followed by anything but zero. */
  lemma {:induction false} StuffHasNoMarker(s: seq<byte>, i: nat)
    requires i < |Stuff(s)| && Stuff(s)[i] == 0xFF
    ensures i + 1 < |Stuff(s)| && Stuff(s)[i + 1] == 0
  {
    var n := |Stuffed(s[0])|;
    if i >= n {
      StuffHasNoMarker(s[1..], i - n);
    }
  }

  // ----- the bit buffer

  /** Bitwise or of two natural numbers. */
  function Or(a: nat, b: nat): nat {
    if a == 0 then b else if b == 0 then a
    else 2 * Or(a / 2, b / 2) + (if a % 2 == 1 || b % 2 == 1 then 1 else 0)
  }

  /** Or adds when the bits do not meet. */
  lemma {:induction false} OrDisjoint(k: nat, b: nat, n: nat)
    requires b < Pow2(n)
    ensures Or(Pow2(n) * k, b) == Pow2(n) * k + b
  {
    Pow2Unfold(0);
    if k != 0 && b != 0 {
      assert n > 0;
      Pow2Unfold(n - 1);
      hide Pow2;
      OrDisjoint(k, b / 2, n - 1);
      OrStep(Pow2(n - 1) * k, b);
      Scaled(Pow2(n - 1), k);
    }
  }

  lemma OrStep(x: nat, b: nat)
    requires Or(x, b / 2) == x + b / 2
    ensures Or(2 * x, b) == 2 * x + b
  {
  }

  lemma Scaled(x: nat, k: nat)
    ensures 2 * x * k == 2 * (x * k)
  {
  }
}
