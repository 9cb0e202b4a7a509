/**
 Canonical Huffman codes from a list of code lengths (Annex C of ITU-T T.81) and decoding with them.
 */
module JpegHuffman {
  import opened Basics
  import opened BitStrings
  import opened JpegBits

  /** uint */
  type uint32 = x: int | 0 <= x < 0x1_0000_0000

  // ----- code lengths

  /** bits[l] codes of length l for l = 1 .. 16, at most 256 in all. */
  predicate Lengths(bits: seq<nat>) {
    |bits| == 17 && |Sizes(bits, 16)| <= 256
  }

  function Repeat(l: nat, n: nat): (s: seq<nat>)
    ensures |s| == n && forall i :: 0 <= i < n ==> s[i] == l
  {
    if n == 0 then [] else Repeat(l, n - 1) + [l]
  }

  /** The lengths of the codes no longer than `l`, in the order the codes are assigned. */
  function Sizes(bits: seq<nat>, l: nat): (s: seq<nat>)
    requires l < |bits|
    ensures forall i :: 0 <= i < |s| ==> 1 <= s[i] <= l
    ensures forall i, j :: 0 <= i < j < |s| ==> s[i] <= s[j]
  {
    if l == 0 then [] else Sizes(bits, l - 1) + Repeat(l, bits[l])
  }

  /** Lengths as Sizes lists them. */
  predicate Ordered(sizes: seq<nat>) {
    && (forall i :: 0 <= i < |sizes| ==> 1 <= sizes[i] <= 16)
    && (forall i, j :: 0 <= i < j < |sizes| ==> sizes[i] <= sizes[j])
  }

  /** The share of the 2^16 longest codes that a code of length `size` takes. */
  function Share(size: nat): nat
    requires size <= 16
  {
    Pow2(16 - size)
  }

  /** What the first `p` codes take together. */
  function Space(sizes: seq<nat>, p: nat): nat
    requires Ordered(sizes) && p <= |sizes|
  {
    if p == 0 then 0 else Space(sizes, p - 1) + Share(sizes[p - 1])
  }

  /** Kraft's inequality. */
  predicate Kraft(sizes: seq<nat>)
    requires Ordered(sizes)
  {
    Space(sizes, |sizes|) <= Pow2(16)
  }

  /** Kraft's sum, length by length. */
  function KraftSum(bits: seq<nat>, l: nat): nat
    requires l < |bits| && l <= 16
  {
    if l == 0 then 0 else KraftSum(bits, l - 1) + bits[l] * Share(l)
  }

  lemma {:induction false} SpacePrefix(s: seq<nat>, t: seq<nat>, p: nat)
    requires Ordered(s) && Ordered(t) && p <= |s| <= |t| && s == t[..|s|]
    ensures Space(s, p) == Space(t, p)
  {
    if p > 0 {
      SpacePrefix(s, t, p - 1);
    }
  }

  lemma {:induction false} SpaceOfRun(sizes: seq<nat>, p: nat, l: nat, n: nat)
    requires Ordered(sizes) && 1 <= l <= 16 && p + n <= |sizes|
    requires forall i :: p <= i < p + n ==> sizes[i] == l
    ensures Space(sizes, p + n) == Space(sizes, p) + n * Share(l)
  {
    if n > 0 {
      SpaceOfRun(sizes, p, l, n - 1);
      assert n * Share(l) == (n - 1) * Share(l) + Share(l);
    }
  }

  lemma SpaceOfLength(bits: seq<nat>, l: nat)
    requires 1 <= l < |bits| && l <= 16
    ensures Space(Sizes(bits, l), |Sizes(bits, l)|) ==
        Space(Sizes(bits, l - 1), |Sizes(bits, l - 1)|) + bits[l] * Share(l)
  {
    hide Space, Pow2, Share;
    var s, t := Sizes(bits, l - 1), Sizes(bits, l);
    SpacePrefix(s, t, |s|);
    SpaceOfRun(t, |s|, l, bits[l]);
  }

  /** The two ways to add up Kraft's sum agree. */
  lemma {:induction false} SpaceIsKraftSum(bits: seq<nat>, l: nat)
    requires l < |bits| && l <= 16
    ensures Space(Sizes(bits, l), |Sizes(bits, l)|) == KraftSum(bits, l)
  {
    hide Pow2, Share;
    if l > 0 {
      SpaceIsKraftSum(bits, l - 1);
      SpaceOfLength(bits, l);
      hide Space, Sizes;
    }
  }

  lemma {:induction false} SpaceGrows(sizes: seq<nat>, p: nat, q: nat)
    requires Ordered(sizes) && p <= q <= |sizes|
    ensures Space(sizes, p) <= Space(sizes, q)
  {
    if p < q {
      SpaceGrows(sizes, p, q - 1);
    }
  }

  // ----- canonical codes

  /** The p-th code starts where the codes before it end. */
  predicate IsCode(sizes: seq<nat>, p: nat, code: nat)
    requires Ordered(sizes) && p < |sizes|
  {
    code * Share(sizes[p]) == Space(sizes, p)
  }

  /** Every entry of huff_code is the canonical code. */
  predicate Canonical(sizes: seq<nat>, codes: seq<nat>)
    requires Ordered(sizes)
  {
    |codes| == |sizes| && forall p :: 0 <= p < |sizes| ==> IsCode(sizes, p, codes[p])
  }

  /** A code fits its length when the space up to its end is not exhausted. */
  lemma FitsIffSpace(sizes: seq<nat>, p: nat, code: nat)
    requires Ordered(sizes) && p < |sizes| && IsCode(sizes, p, code)
    ensures code < Pow2(sizes[p]) <==> Space(sizes, p + 1) <= Pow2(16)
  {
    hide Pow2;
    Pow2Add(sizes[p], 16 - sizes[p]);
    Fits(code, Pow2(sizes[p]), Share(sizes[p]));
  }

  lemma Fits(code: nat, limit: nat, w: nat)
    requires w > 0
    ensures code < limit <==> code * w + w <= limit * w
  {
    if code < limit {
      Times(code + 1, limit, w);
    } else {
      Times(limit, code, w);
    }
  }

  /** All codes fit their lengths exactly when the lengths satisfy Kraft's inequality. */
  lemma CodesFitIffKraft(sizes: seq<nat>, codes: seq<nat>)
    requires Ordered(sizes) && Canonical(sizes, codes)
    ensures (forall p :: 0 <= p < |sizes| ==> codes[p] < Pow2(sizes[p])) <==> Kraft(sizes)
  {
    hide Pow2, IsCode;
    if Kraft(sizes) {
      forall p | 0 <= p < |sizes|
        ensures codes[p] < Pow2(sizes[p])
      {
        SpaceGrows(sizes, p + 1, |sizes|);
        FitsIffSpace(sizes, p, codes[p]);
      }
    } else {
      var n := |sizes| - 1;
      FitsIffSpace(sizes, n, codes[n]);
    }
  }

  /** Three codes of one bit: the third does not fit, and no prefix code has these lengths. */
  lemma CodesThatDoNotFit()
    ensures Ordered([1, 1, 1]) && Canonical([1, 1, 1], [0, 1, 2]) && 2 >= Pow2(1) && !Kraft([1, 1, 1])
  {
    var sizes := [1, 1, 1];
    Pow2Values();
    Pow2Unfold(0);
    Pow2Unfold(15);
    hide Pow2;
    assert Share(1) == 0x8000;
    hide Share;
    assert Space(sizes, 0) == 0;
    assert Space(sizes, 1) == 0x8000;
    assert Space(sizes, 2) == 0x1_0000;
    assert Space(sizes, 3) == 0x1_8000;
    hide Space;
    assert IsCode(sizes, 0, 0) && IsCode(sizes, 1, 1) && IsCode(sizes, 2, 2);
  }

  function Book(sizes: seq<nat>, codes: seq<nat>, val: seq<nat>): (b: seq<Code>)
    requires |codes| == |sizes| <= |val|
    ensures |b| == |sizes|
    ensures forall p :: 0 <= p < |b| ==> b[p] == Code(val[p], BitsOf(codes[p], sizes[p]))
  {
    seq(|sizes|, p requires 0 <= p < |sizes| => Code(val[p], BitsOf(codes[p], sizes[p])))
  }

  /** A code word that begins with another one lies in the other's share of the space. */
  lemma PrefixNests(sizes: seq<nat>, p: nat, q: nat, a: nat, b: nat)
    requires Ordered(sizes) && p < |sizes| && q < |sizes|
    requires IsCode(sizes, p, a) && IsCode(sizes, q, b) && a < Pow2(sizes[p]) && b < Pow2(sizes[q])
    requires BitsOf(a, sizes[p]) <= BitsOf(b, sizes[q])
    ensures Space(sizes, p) <= Space(sizes, q) < Space(sizes, p + 1)
  {
    hide Pow2, BitsOf, Value;
    var u, v := BitsOf(a, sizes[p]), BitsOf(b, sizes[q]);
    var rest := v[|u|..];
    assert v == u + rest;
    ValueOfBits(a, sizes[p]);
    ValueOfBits(b, sizes[q]);
    ValueConcat(u, rest);
    BitsOfValue(rest);
    var w := Share(sizes[q]);
    Pow2Add(|rest|, 16 - sizes[q]);
    assert Share(sizes[p]) == Pow2(|rest|) * w;
    Nested(a, b, Pow2(|rest|), w);
  }

  /** The canonical codes are prefix-free for any lengths that satisfy Kraft's inequality. */
  lemma CanonicalIsPrefixFree(sizes: seq<nat>, codes: seq<nat>, val: seq<nat>)
    requires Ordered(sizes) && Canonical(sizes, codes) && |sizes| <= |val| && Kraft(sizes)
    ensures PrefixFree(Book(sizes, codes, val))
  {
    hide Pow2, Space, BitsOf, IsCode, Kraft;
    var book := Book(sizes, codes, val);
    CodesFitIffKraft(sizes, codes);
    forall p, q | 0 <= p < |book| && 0 <= q < |book| && p != q
      ensures !(book[p].word <= book[q].word)
    {
      NotNested(sizes, p, q, codes[p], codes[q]);
    }
  }

  /** Different codes have different shares, so that neither begins the other. */
  lemma NotNested(sizes: seq<nat>, p: nat, q: nat, a: nat, b: nat)
    requires Ordered(sizes) && p < |sizes| && q < |sizes| && p != q
    requires IsCode(sizes, p, a) && IsCode(sizes, q, b) && a < Pow2(sizes[p]) && b < Pow2(sizes[q])
    ensures !(BitsOf(a, sizes[p]) <= BitsOf(b, sizes[q]))
  {
    hide Pow2, BitsOf, IsCode;
    if p < q {
      SpaceGrows(sizes, p + 1, q);
    } else {
      SpaceGrows(sizes, q + 1, p);
    }
    if BitsOf(a, sizes[p]) <= BitsOf(b, sizes[q]) {
      PrefixNests(sizes, p, q, a, b);
    }
  }

  // ----- decoding

  /** The first entry from `p` on whose word begins the bits, or |book|. */
  function Match(book: seq<Code>, b: seq<bool>, p: nat): (r: nat)
    requires p <= |book|
    ensures p <= r <= |book|
    ensures r < |book| ==> book[r].word <= b
    ensures forall i :: p <= i < r ==> !(book[i].word <= b)
    decreases |book| - p
  {
    if p == |book| || book[p].word <= b then p else Match(book, b, p + 1)
  }

  predicate Has(book: seq<Code>, symbol: nat) {
    exists p :: 0 <= p < |book| && book[p].symbol == symbol
  }

  /** The code word of a symbol. */
  function Word(book: seq<Code>, symbol: nat): (w: seq<bool>)
    requires Has(book, symbol)
    ensures exists p :: 0 <= p < |book| && book[p] == Code(symbol, w)
  {
    if book[|book| - 1].symbol == symbol then book[|book| - 1].word
    else
      assert Has(book[..|book| - 1], symbol);
      Word(book[..|book| - 1], symbol)
  }

  /** With a prefix-free book only the entry that was written matches. */
  lemma MatchesOwn(book: seq<Code>, symbol: nat, rest: seq<bool>)
    requires PrefixFree(book) && Has(book, symbol)
    ensures var p := Match(book, Word(book, symbol) + rest, 0);
      p < |book| && book[p] == Code(symbol, Word(book, symbol))
  {
    var w := Word(book, symbol);
    var q :| 0 <= q < |book| && book[q] == Code(symbol, w);
    var b := w + rest;
    assert w <= b;
    var p := Match(book, b, 0);
    PrefixesNest(book[p].word, w, b);
  }

  lemma PrefixesNest(v: seq<bool>, w: seq<bool>, b: seq<bool>)
    requires v <= b && w <= b
    ensures v <= w || w <= v
  {
    assert if |v| <= |w| then w[..|v|] == v else v[..|w|] == w;
  }

  // ----- compute_huffman_table

  /** The first loop: huff_size, ended by a zero. */
  method ComputeSizes(bits: seq<nat>, huffSize: array<nat>) returns (lastP: nat)
    requires Lengths(bits) && huffSize.Length == 257
    modifies huffSize
    ensures lastP == |Sizes(bits, 16)| && huffSize[..lastP] == Sizes(bits, 16) && huffSize[lastP] == 0
  {
    var p := 0;
    for l := 1 to 17
      invariant p == |Sizes(bits, l - 1)| <= 256
      invariant huffSize[..p] == Sizes(bits, l - 1)
    {
      SizesPrefix(bits, l, 16);
      p := AppendLength(huffSize, p, l, bits[l]);
    }
    huffSize[p] := 0;
    lastP := p;
  }

  /** The inner loop: `n` codes of length `l`. */
  method AppendLength(huffSize: array<nat>, p0: nat, l: nat, n: nat) returns (p: nat)
    requires p0 + n <= huffSize.Length
    modifies huffSize
    ensures p == p0 + n && huffSize[..p] == old(huffSize[..p0]) + Repeat(l, n)
  {
    p := p0;
    for i := 0 to n
      invariant p == p0 + i
      invariant huffSize[..p] == old(huffSize[..p0]) + Repeat(l, i)
    {
      huffSize[p] := l;
      p := p + 1;
    }
  }

  lemma {:induction false} SizesPrefix(bits: seq<nat>, l: nat, m: nat)
    requires |bits| == 17 && l <= m <= 16
    ensures |Sizes(bits, l)| <= |Sizes(bits, m)|
  {
    if l < m {
      SizesPrefix(bits, l, m - 1);
    }
  }

  lemma {:induction false} SpaceBounded(sizes: seq<nat>, p: nat)
    requires Ordered(sizes) && p <= |sizes|
    ensures Space(sizes, p) <= p * 0x8000
  {
    hide Pow2;
    if p > 0 {
      SpaceBounded(sizes, p - 1);
      Pow2Monotone(16 - sizes[p - 1], 15);
      Pow2Values();
      Pow2Unfold(15);
    }
  }

  /** What the second loop keeps: the next code of length `si` starts at the space taken so far. */
  predicate NextCode(sizes: seq<nat>, p: nat, si: nat, code: nat)
    requires Ordered(sizes) && p <= |sizes|
  {
    && (p < |sizes| ==> si <= sizes[p])
    && (si <= 16 ==> code * Share(si) == Space(sizes, p))
    && (p < |sizes| || si <= 16 ==> code <= 0x80_0000)
    && code <= 0x100_0000
  }

  /** The inner loop: all codes of one length. */
  method AssignLength(huffSize: array<nat>, huffCode: array<nat>, ghost sizes: seq<nat>, p0: nat, si: nat,
      code0: uint32)
    returns (p: nat, code: uint32)
    requires huffSize != huffCode && huffSize.Length == 257 && huffCode.Length == 257
    requires |sizes| <= 256 && Ordered(sizes) && huffSize[..|sizes|] == sizes && huffSize[|sizes|] == 0
    requires p0 < |sizes| && 1 <= si <= 16 && NextCode(sizes, p0, si, code0)
    requires forall i :: 0 <= i < p0 ==> IsCode(sizes, i, huffCode[i]) && huffCode[i] <= 0x80_0000
    modifies huffCode
    ensures p0 <= p <= |sizes| && (p < |sizes| ==> sizes[p] > si) && code * Share(si) == Space(sizes, p)
    ensures forall i :: 0 <= i < p ==> IsCode(sizes, i, huffCode[i]) && huffCode[i] <= 0x80_0000
    ensures code <= 0x80_0000
  {
    p, code := p0, code0;
    while huffSize[p] == si
      invariant p0 <= p <= |sizes| && NextCode(sizes, p, si, code) && code <= 0x80_0000
      invariant forall i :: 0 <= i < p ==> IsCode(sizes, i, huffCode[i]) && huffCode[i] <= 0x80_0000
      invariant huffSize[..|sizes|] == sizes && huffSize[|sizes|] == 0
      decreases |sizes| - p
    {
      assert sizes[p] == si;
      huffCode[p] := code;
      assert (code + 1) * Share(si) == code * Share(si) + Share(si);
      p, code := p + 1, code + 1;
      CodeBounded(sizes, p, si, code);
    }
  }

  lemma CodeBounded(sizes: seq<nat>, p: nat, si: nat, code: nat)
    requires Ordered(sizes) && p <= |sizes| <= 256 && si <= 16 && code * Share(si) == Space(sizes, p)
    ensures code <= 0x80_0000
  {
    hide Pow2, Space;
    SpaceBounded(sizes, p);
    AtLeast(code, Share(si));
  }

  /** From one length to the next: twice the code, half the share. */
  lemma ShiftKeeps(sizes: seq<nat>, p: nat, si: nat, code: nat)
    requires Ordered(sizes) && p <= |sizes| <= 256 && 1 <= si <= 16 && code * Share(si) == Space(sizes, p)
    requires code <= 0x80_0000 && (p < |sizes| ==> sizes[p] > si)
    ensures NextCode(sizes, p, si + 1, 2 * code)
  {
    hide Space, Pow2, Share;
    if si < 16 {
      ShareHalves(si, code);
      CodeBounded(sizes, p, si + 1, 2 * code);
    }
  }

  lemma ShareHalves(si: nat, code: nat)
    requires si < 16
    ensures (2 * code) * Share(si + 1) == code * Share(si)
  {
    Regroup(code, Share(si + 1));
  }

  lemma Regroup(code: nat, w: nat)
    ensures (2 * code) * w == code * (2 * w)
  {
  }

  lemma AtLeast(code: nat, w: nat)
    requires w > 0
    ensures code <= code * w
  {
  }

  /** The second loop: huff_code.  `code` never leaves 32 bits. */
  method AssignCodes(huffSize: array<nat>, huffCode: array<nat>, ghost sizes: seq<nat>)
    requires huffSize != huffCode && huffSize.Length == 257 && huffCode.Length == 257
    requires |sizes| <= 256 && Ordered(sizes) && huffSize[..|sizes|] == sizes && huffSize[|sizes|] == 0
    modifies huffCode
    ensures Canonical(sizes, huffCode[..|sizes|])
    ensures forall i :: 0 <= i < |sizes| ==> huffCode[i] <= 0x80_0000
  {
    var code: uint32, si, p := 0, huffSize[0], 0;
    while huffSize[p] != 0
      invariant p <= |sizes| && NextCode(sizes, p, si, code) && (p < |sizes| ==> 1 <= si)
      invariant forall i :: 0 <= i < p ==> huffCode[i] <= 0x80_0000
      invariant forall i :: 0 <= i < p ==> IsCode(sizes, i, huffCode[i])
      invariant huffSize[..|sizes|] == sizes && huffSize[|sizes|] == 0
      invariant p < |sizes| ==> si <= 16
      decreases |sizes| - p, if p < |sizes| then sizes[p] - si else 0
    {
      assert sizes[p] == huffSize[p];
      p, code := AssignLength(huffSize, huffCode, sizes, p, si, code);
      ShiftKeeps(sizes, p, si, code);
      code, si := 2 * code, si + 1;
    }
    assert p == |sizes|;
  }

  /** What compute_huffman_table leaves in codes and code_sizes. */
  ghost predicate TableOf(codes: seq<nat>, codeSizes: seq<nat>, sizes: seq<nat>, canonical: seq<nat>, val: seq<nat>,
      n: nat)
    requires n <= |sizes| == |canonical| <= |val|
  {
    && |codes| == 256 && |codeSizes| == 256
    && (forall p :: 0 <= p < n && val[p] < 256 && (forall q :: p < q < n ==> val[q] != val[p]) ==>
          codes[val[p]] == canonical[p] && codeSizes[val[p]] == sizes[p])
    && (forall s :: 0 <= s < 256 && s !in val[..n] ==> codes[s] == 0 && codeSizes[s] == 0)
  }

  /**
   compute_huffman_table: every symbol listed gets its canonical code (the last one if it is listed
   twice), every other symbol a code of size zero.
   */
  method ComputeHuffmanTable(codes: array<nat>, codeSizes: array<nat>, bits: seq<nat>, val: seq<nat>)
      returns (ghost canonical: seq<nat>)
    requires codes != codeSizes && codes.Length == 256 && codeSizes.Length == 256
    requires Lengths(bits) && |Sizes(bits, 16)| <= |val| && forall p :: 0 <= p < |val| ==> val[p] < 256
    modifies codes, codeSizes
    ensures Canonical(Sizes(bits, 16), canonical)
    ensures TableOf(codes[..], codeSizes[..], Sizes(bits, 16), canonical, val, |Sizes(bits, 16)|)
  {
    var huffSize, huffCode := new nat[257], new nat[257];
    var lastP := ComputeSizes(bits, huffSize);
    ghost var sizes := Sizes(bits, 16);
    AssignCodes(huffSize, huffCode, sizes);
    canonical := huffCode[..lastP];
    Fill(codes, codeSizes, huffSize, huffCode, lastP, val);
  }

  /** The two calls of memset and the last loop. */
  method Fill(codes: array<nat>, codeSizes: array<nat>, huffSize: array<nat>, huffCode: array<nat>, lastP: nat,
      val: seq<nat>)
    requires codes != codeSizes && codes.Length == 256 && codeSizes.Length == 256
    requires huffSize !in {codes, codeSizes} && huffCode !in {codes, codeSizes}
    requires lastP <= huffSize.Length && lastP <= huffCode.Length
    requires lastP <= |val| && forall p :: 0 <= p < |val| ==> val[p] < 256
    modifies codes, codeSizes
    ensures TableOf(codes[..], codeSizes[..], huffSize[..lastP], huffCode[..lastP], val, lastP)
  {
    ghost var sizes, canonical := huffSize[..lastP], huffCode[..lastP];
    for s := 0 to 256
      invariant forall t :: 0 <= t < s ==> codes[t] == 0 && codeSizes[t] == 0
    {
      codes[s], codeSizes[s] := 0, 0;
    }
    for p := 0 to lastP
      invariant huffSize[..lastP] == sizes && huffCode[..lastP] == canonical
      invariant TableOf(codes[..], codeSizes[..], sizes, canonical, val, p)
    {
      ghost var c0, z0 := codes[..], codeSizes[..];
      codes[val[p]], codeSizes[val[p]] := huffCode[p], huffSize[p];
      assert codes[..] == c0[val[p] := canonical[p]] && codeSizes[..] == z0[val[p] := sizes[p]];
      TableGrows(c0, z0, sizes, canonical, val, p);
    }
  }

  lemma TableGrows(codes: seq<nat>, codeSizes: seq<nat>, sizes: seq<nat>, canonical: seq<nat>, val: seq<nat>, n: nat)
    requires n < |sizes| == |canonical| <= |val| && val[n] < 256 && TableOf(codes, codeSizes, sizes, canonical, val, n)
    ensures TableOf(codes[val[n] := canonical[n]], codeSizes[val[n] := sizes[n]], sizes, canonical, val, n + 1)
  {
    assert val[..n + 1] == val[..n] + [val[n]];
  }
}
