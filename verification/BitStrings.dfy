/**
 Bit strings, most significant bit first, the numbers they spell, and codes made of them.
 */
module BitStrings {
  import opened Basics

  lemma {:induction false} Pow2Add(a: nat, b: nat)
    ensures Pow2(a + b) == Pow2(a) * Pow2(b)
  {
    hide Pow2;
    Pow2Unfold(a);
    if b > 0 {
      Pow2Add(a, b - 1);
      Pow2Unfold(b - 1);
      Pow2Unfold(a + b - 1);
      Doubled(Pow2(a), Pow2(b - 1));
    }
  }

  lemma Doubled(x: nat, y: nat)
    ensures x * (2 * y) == 2 * (x * y)
  {
  }

  lemma {:induction false} Pow2Monotone(a: nat, b: nat)
    requires a <= b
    ensures Pow2(a) <= Pow2(b)
  {
    if a < b {
      Pow2Monotone(a, b - 1);
    }
  }

  lemma Pow2Values()
    ensures Pow2(8) == 0x100 && Pow2(16) == 0x1_0000 && Pow2(24) == 0x100_0000
  {
    Pow2Add(8, 8);
    Pow2Add(8, 16);
  }

  /** The low `n` bits of `v`. */
  function BitsOf(v: nat, n: nat): (b: seq<bool>)
    ensures |b| == n
  {
    if n == 0 then [] else BitsOf(v / 2, n - 1) + [v % 2 == 1]
  }

  /** The number a bit string spells. */
  function Value(b: seq<bool>): nat {
    if b == [] then 0 else 2 * Value(b[..|b| - 1]) + Bit(b[|b| - 1])
  }

  lemma {:induction false} ValueOfBits(v: nat, n: nat)
    requires v < Pow2(n)
    ensures Value(BitsOf(v, n)) == v
  {
    hide Pow2, Value, Bit;
    Pow2Unfold(0);
    NoValue(v);
    if n > 0 {
      Pow2Unfold(n - 1);
      Halves(v, Pow2(n - 1));
      ValueOfBits(v / 2, n - 1);
      ValueAppend(BitsOf(v / 2, n - 1), v % 2 == 1);
    }
  }

  lemma NoValue(v: nat)
    ensures Value([]) == 0 && BitsOf(v, 0) == []
  {
  }

  lemma Halves(v: nat, p: nat)
    ensures v < 2 * p ==> v / 2 < p
    ensures 2 * (v / 2) + Bit(v % 2 == 1) == v
  {
  }

  lemma ValueAppend(b: seq<bool>, x: bool)
    ensures Value(b + [x]) == 2 * Value(b) + Bit(x)
  {
    assert (b + [x])[..|b|] == b;
  }

  lemma BitsOfNext(v: nat, x: bool, n: nat)
    ensures BitsOf(2 * v + Bit(x), n + 1) == BitsOf(v, n) + [x]
    ensures v < Pow2(n) ==> 2 * v + Bit(x) < Pow2(n + 1)
  {
    var w := 2 * v + Bit(x);
    assert w / 2 == v && (w % 2 == 1) == x;
    Pow2Unfold(n);
    hide Pow2;
  }

  lemma {:induction false} BitsOfValue(b: seq<bool>)
    ensures Value(b) < Pow2(|b|) && BitsOf(Value(b), |b|) == b
  {
    Pow2Unfold(0);
    hide Pow2, Bit;
    if b == [] {
      assert BitsOf(0, 0) == [];
    } else {
      var n := |b| - 1;
      BitsOfValue(b[..n]);
      hide BitsOf;
      BitsOfNext(Value(b[..n]), b[n], n);
      assert b == b[..n] + [b[n]];
    }
  }

  lemma {:induction false} ValueConcat(a: seq<bool>, b: seq<bool>)
    ensures Value(a + b) == Value(a) * Pow2(|b|) + Value(b)
  {
    Pow2Unfold(0);
    hide Pow2, Bit;
    if b == [] {
      assert a + b == a;
    } else {
      var n := |b| - 1;
      ValueConcat(a, b[..n]);
      assert (a + b)[..|a + b| - 1] == a + b[..n];
      Pow2Unfold(n);
      Doubled(Value(a), Pow2(n));
    }
  }

  /** The first bit counts for as much as there are bits after it. */
  lemma ValueFirst(b: seq<bool>)
    requires b != []
    ensures Value(b) == (if b[0] then Pow2(|b| - 1) else 0) + Value(b[1..]) && Value(b[1..]) < Pow2(|b| - 1)
  {
    hide Pow2, Value;
    assert b == [b[0]] + b[1..];
    ValueConcat([b[0]], b[1..]);
    BitsOfValue(b[1..]);
    OneBit(b[0]);
  }

  lemma OneBit(x: bool)
    ensures Value([x]) == Bit(x)
  {
    NoValue(0);
    ValueAppend([], x);
    assert [] + [x] == [x];
  }

  /** A string begins another one exactly if the other's number is in its share. */
  lemma PrefixShare(u: seq<bool>, s: seq<bool>)
    requires |u| <= |s|
    ensures var share := Pow2(|s| - |u|); u <= s <==> Value(u) * share <= Value(s) < Value(u) * share + share
  {
    hide *;
    var front, rest := s[..|u|], s[|u|..];
    assert s == front + rest;
    assert u <= s <==> u == front;
    ValueConcat(front, rest);
    BitsOfValue(rest);
    SameValue(u, front);
    SameMultiple(Value(u), Value(front), Value(rest), Pow2(|rest|));
  }

  lemma SameValue(a: seq<bool>, b: seq<bool>)
    requires |a| == |b|
    ensures Value(a) == Value(b) <==> a == b
  {
    hide *;
    BitsOfValue(a);
    BitsOfValue(b);
  }

  lemma SameMultiple(a: nat, b: nat, r: nat, m: nat)
    requires r < m
    ensures a == b <==> a * m <= b * m + r < a * m + m
  {
    if a < b {
      Times(a + 1, b, m);
    } else if b < a {
      Times(b + 1, a, m);
    }
  }

  lemma Times(a: nat, b: nat, m: nat)
    requires a <= b
    ensures a * m <= b * m
  {
  }

  lemma Nested(a: nat, b: nat, m: nat, w: nat)
    requires a * m <= b < a * m + m && w > 0
    ensures a * (m * w) <= b * w < a * (m * w) + m * w
  {
    Times(a * m, b, w);
    Times(b + 1, a * m + m, w);
    assert a * m * w == a * (m * w);
    assert (a * m + m) * w == a * m * w + m * w;
  }

  predicate AllOnes(b: seq<bool>) {
    forall i :: 0 <= i < |b| ==> b[i]
  }

  lemma {:induction false} Ones(n: nat)
    ensures AllOnes(BitsOf(Pow2(n) - 1, n))
  {
    if n > 0 {
      Ones(n - 1);
      assert (Pow2(n) - 1) / 2 == Pow2(n - 1) - 1 && (Pow2(n) - 1) % 2 == 1;
    }
  }

  /** A symbol and its code word. */
  datatype Code = Code(symbol: nat, word: seq<bool>)

  /** No code word begins another one. */
  ghost predicate PrefixFree(codes: seq<Code>) {
    forall i, j :: 0 <= i < |codes| && 0 <= j < |codes| && i != j ==> !(codes[i].word <= codes[j].word)
  }
}
