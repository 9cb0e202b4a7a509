/**
 The entropy-coded scan of a baseline JPEG image (section F.1.2 of ITU-T T.81): what the encoder
 writes for a list of quantized blocks, a decoder that is defined without it, and their round trip.
 */
module JpegScan {
  import opened Basics
  import opened BitStrings
  import opened JpegBits
  import opened JpegHuffman
  import opened JpegDct

  // ----- amplitudes

  /** The number of bits of a natural number. */
  function NBits(a: nat): nat {
    if a == 0 then 0 else 1 + NBits(a / 2)
  }

  lemma {:induction false} NBitsSpans(a: nat)
    ensures a < Pow2(NBits(a)) && (a > 0 ==> Pow2(NBits(a) - 1) <= a)
  {
    if a > 0 {
      NBitsSpans(a / 2);
    }
  }

  lemma {:induction false} NBitsAtMost(a: nat, k: nat)
    requires a < Pow2(k)
    ensures NBits(a) <= k
  {
    if a > 0 {
      NBitsAtMost(a / 2, k - 1);
    }
  }

  function Abs(v: int): nat {
    if v < 0 then -v else v
  }

  /** The size category of a value. */
  function Category(v: int): nat {
    NBits(Abs(v))
  }

  /** The low bits written for a value: those of v, or of v - 1 if v is negative. */
  function Amplitude(v: int): (m: nat)
    ensures m < Pow2(Category(v))
  {
    (if v < 0 then v - 1 else v) % Pow2(Category(v))
  }

  /** EXTEND of section F.2.2.1. */
  function Extend(m: nat, n: nat): int {
    if n == 0 then 0 else if m < Pow2(n - 1) then m - Pow2(n) + 1 else m
  }

  lemma ExtendUndoes(v: int)
    ensures Extend(Amplitude(v), Category(v)) == v
  {
    NBitsSpans(Abs(v));
    var n := Category(v);
    if n > 0 {
      assert Pow2(n) == 2 * Pow2(n - 1);
      hide Pow2, NBits;
      Reduce(if v < 0 then v - 1 else v, Pow2(n));
    }
  }

  lemma Reduce(x: int, m: int)
    requires m > 0 && -m <= x < m
    ensures x % m == if x < 0 then x + m else x
  {
    if x < 0 {
      assert x == m * -1 + (x + m);
    }
  }

  /** Ten bits hold a quantized coefficient, eleven the difference of two means. */
  lemma CategoryBounds(v: int)
    ensures -1023 <= v <= 1023 ==> Category(v) <= 10
    ensures -2047 <= v <= 2047 ==> Category(v) <= 11
    ensures v != 0 ==> Category(v) >= 1
  {
    assert Pow2(10) == 1024;
    if Abs(v) < Pow2(10) {
      NBitsAtMost(Abs(v), 10);
    }
    if Abs(v) < Pow2(11) {
      NBitsAtMost(Abs(v), 11);
    }
  }

  // ----- what is written

  /** The two books of a component. */
  datatype Books = Books(dc: seq<Code>, ac: seq<Code>)

  /** A code for every symbol that a quantized block can need. */
  ghost predicate Covers(b: Books) {
    && (forall n :: 0 <= n <= 11 ==> Has(b.dc, n))
    && CoversAc(b.ac)
  }

  ghost predicate CoversAc(ac: seq<Code>) {
    && Has(ac, 0) && Has(ac, 0xF0)
    && forall run, n :: 0 <= run < 16 && 1 <= n <= 10 ==> Has(ac, RunSize(run, n))
  }

  function RunSize(run: nat, n: nat): nat {
    16 * run + n
  }

  /** A quantized block in zigzag order. */
  predicate Block(b: seq<int>) {
    |b| == 64 && Encodable(b)
  }

  ghost function ValueBits(book: seq<Code>, symbol: nat, v: int): seq<bool>
    requires Has(book, symbol)
  {
    Word(book, symbol) + BitsOf(Amplitude(v), Category(v))
  }

  ghost function DcBits(dc: seq<Code>, diff: int): seq<bool>
    requires (forall n :: 0 <= n <= 11 ==> Has(dc, n)) && -2047 <= diff <= 2047
  {
    CategoryBounds(diff);
    ValueBits(dc, Category(diff), diff)
  }

  /** The coefficients from `i` on, with `run` zeros still to be told. */
  ghost function AcBits(ac: seq<Code>, b: seq<int>, i: nat, run: nat): seq<bool>
    requires CoversAc(ac) && Block(b) && 1 <= i <= 64
    decreases 64 - i, run
  {
    if i == 64 then
      if run > 0 then Word(ac, 0) else []
    else if b[i] == 0 then AcBits(ac, b, i + 1, run + 1)
    else if run >= 16 then Word(ac, 0xF0) + AcBits(ac, b, i, run - 16)
    else
      CategoryBounds(b[i]);
      ValueBits(ac, RunSize(run, Category(b[i])), b[i]) + AcBits(ac, b, i + 1, 0)
  }

  predicate Mean(v: int) {
    -1024 <= v <= 1016
  }

  ghost function BlockBits(books: Books, pred: int, b: seq<int>): seq<bool>
    requires Covers(books) && Block(b) && Mean(pred)
  {
    DcBits(books.dc, b[0] - pred) + AcBits(books.ac, b, 1, 0)
  }

  /** A block and its component. */
  datatype Coded = Coded(component: nat, block: seq<int>)

  predicate Codable(c: Coded) {
    c.component < 3 && Block(c.block)
  }

  predicate AllCodable(blocks: seq<Coded>) {
    forall i :: 0 <= i < |blocks| ==> Codable(blocks[i])
  }

  /** The predictions of the three components. */
  predicate Predictions(preds: seq<int>) {
    |preds| == 3 && forall c :: 0 <= c < 3 ==> Mean(preds[c])
  }

  /** Component 0 uses the luminance books, the others the chrominance books. */
  datatype BookPair = BookPair(luma: Books, chroma: Books)

  function BooksFor(pair: BookPair, component: nat): Books {
    if component == 0 then pair.luma else pair.chroma
  }

  ghost predicate Usable(pair: BookPair) {
    && Covers(pair.luma) && PrefixFree(pair.luma.dc) && PrefixFree(pair.luma.ac)
    && Covers(pair.chroma) && PrefixFree(pair.chroma.dc) && PrefixFree(pair.chroma.ac)
  }

  /** The predictions after a list of blocks. */
  function After(blocks: seq<Coded>, preds: seq<int>): (r: seq<int>)
    requires Predictions(preds) && AllCodable(blocks)
    ensures Predictions(r)
  {
    if blocks == [] then preds
    else
      var last := blocks[|blocks| - 1];
      assert Codable(last);
      After(blocks[..|blocks| - 1], preds)[last.component := last.block[0]]
  }

  ghost function ScanBits(pair: BookPair, blocks: seq<Coded>, preds: seq<int>): seq<bool>
    requires Usable(pair) && Predictions(preds) && AllCodable(blocks)
  {
    if blocks == [] then []
    else
      var front, last := blocks[..|blocks| - 1], blocks[|blocks| - 1];
      assert Codable(last);
      ScanBits(pair, front, preds)
      + BlockBits(BooksFor(pair, last.component), After(front, preds)[last.component], last.block)
  }

  // ----- the decoder

  /** One symbol and the bits after it. */
  function DecodeSymbol(book: seq<Code>, s: seq<bool>): (r: Option<(nat, seq<bool>)>) {
    var p := Match(book, s, 0);
    if p == |book| then None else Some((book[p].symbol, s[|book[p].word|..]))
  }

  /** A value of `n` bits and the bits after it. */
  function DecodeAmplitude(n: nat, s: seq<bool>): Option<(int, seq<bool>)> {
    if |s| < n then None else Some((Extend(Value(s[..n]), n), s[n..]))
  }

  function Zeros(n: nat): (z: seq<int>)
    ensures |z| == n && forall i :: 0 <= i < n ==> z[i] == 0
  {
    if n == 0 then [] else Zeros(n - 1) + [0]
  }

  /** The coefficients from `k` on (section F.2.2.2). */
  function DecodeAc(ac: seq<Code>, s: seq<bool>, k: nat): Option<(seq<int>, seq<bool>)>
    requires k <= 64
    decreases 64 - k
  {
    if k == 64 then Some(([], s))
    else match DecodeSymbol(ac, s)
      case None => None
      case Some((symbol, s1)) =>
        var run, n := symbol / 16, symbol % 16;
        if symbol == 0 then Some((Zeros(64 - k), s1))
        else if k + run >= 64 then None
        else if n == 0 then
          if run != 15 then None
          else match DecodeAc(ac, s1, k + 16)
            case None => None
            case Some((more, s2)) => Some((Zeros(16) + more, s2))
        else match DecodeAmplitude(n, s1)
          case None => None
          case Some((v, s2)) =>
            match DecodeAc(ac, s2, k + run + 1)
            case None => None
            case Some((more, s3)) => Some((Zeros(run) + [v] + more, s3))
  }

  function DecodeBlock(books: Books, pred: int, s: seq<bool>): Option<(seq<int>, seq<bool>)> {
    match DecodeSymbol(books.dc, s)
    case None => None
    case Some((n, s1)) =>
      match DecodeAmplitude(n, s1)
      case None => None
      case Some((diff, s2)) =>
        match DecodeAc(books.ac, s2, 1)
        case None => None
        case Some((ac, s3)) => Some(([pred + diff] + ac, s3))
  }

  /** One block for each of the components listed. */
  function DecodeScan(pair: BookPair, components: seq<nat>, preds: seq<int>, s: seq<bool>): Option<(seq<Coded>,
      seq<bool>)>
    requires |preds| == 3 && forall i :: 0 <= i < |components| ==> components[i] < 3
  {
    if components == [] then Some(([], s))
    else
      var c := components[0];
      match DecodeBlock(BooksFor(pair, c), preds[c], s)
      case None => None
      case Some((b, s1)) =>
        if b == [] then None
        else match DecodeScan(pair, components[1..], preds[c := b[0]], s1)
          case None => None
          case Some((more, s2)) => Some(([Coded(c, b)] + more, s2))
  }

  // ----- round trips

  lemma SymbolReadBack(book: seq<Code>, symbol: nat, rest: seq<bool>)
    requires PrefixFree(book) && Has(book, symbol)
    ensures DecodeSymbol(book, Word(book, symbol) + rest) == Some((symbol, rest))
  {
    MatchesOwn(book, symbol, rest);
    var w := Word(book, symbol);
    assert (w + rest)[|w|..] == rest;
  }

  lemma AmplitudeReadBack(v: int, rest: seq<bool>)
    ensures DecodeAmplitude(Category(v), BitsOf(Amplitude(v), Category(v)) + rest) == Some((v, rest))
  {
    var n := Category(v);
    var s := BitsOf(Amplitude(v), n) + rest;
    assert s[..n] == BitsOf(Amplitude(v), n) && s[n..] == rest;
    ValueOfBits(Amplitude(v), n);
    ExtendUndoes(v);
  }

  lemma ValueReadBack(book: seq<Code>, symbol: nat, v: int, rest: seq<bool>)
    requires PrefixFree(book) && Has(book, symbol)
    ensures DecodeSymbol(book, ValueBits(book, symbol, v) + rest) ==
        Some((symbol, BitsOf(Amplitude(v), Category(v)) + rest))
  {
    SymbolReadBack(book, symbol, BitsOf(Amplitude(v), Category(v)) + rest);
    assert ValueBits(book, symbol, v) + rest == Word(book, symbol) + (BitsOf(Amplitude(v), Category(v)) + rest);
  }

  /** Zeros counted in `run` come back with whatever is told next. */
  lemma {:induction false} AcReadBack(ac: seq<Code>, b: seq<int>, i: nat, run: nat, rest: seq<bool>)
    requires PrefixFree(ac) && CoversAc(ac) && Block(b) && 1 <= i <= 64 && run < i
    requires forall j :: i - run <= j < i ==> b[j] == 0
    ensures DecodeAc(ac, AcBits(ac, b, i, run) + rest, i - run) == Some((b[i - run..], rest))
    decreases 64 - i, run
  {
    hide DecodeAc, PrefixFree, CoversAc, Word, ValueBits, Category;
    if i == 64 {
      EndReadBack(ac, b, run, rest);
    } else if b[i] == 0 {
      AcReadBack(ac, b, i + 1, run + 1, rest);
    } else if run >= 16 {
      AcReadBack(ac, b, i, run - 16, rest);
      RunReadBack(ac, b, i, run, rest);
    } else {
      AcReadBack(ac, b, i + 1, 0, rest);
      CoefficientReadBack(ac, b, i, run, rest);
    }
  }

  lemma EndReadBack(ac: seq<Code>, b: seq<int>, run: nat, rest: seq<bool>)
    requires PrefixFree(ac) && CoversAc(ac) && Block(b) && run < 64
    requires forall j :: 64 - run <= j < 64 ==> b[j] == 0
    ensures DecodeAc(ac, AcBits(ac, b, 64, run) + rest, 64 - run) == Some((b[64 - run..], rest))
  {
    if run > 0 {
      SymbolReadBack(ac, 0, rest);
      assert b[64 - run..] == Zeros(run);
    } else {
      assert AcBits(ac, b, 64, run) + rest == rest && b[64..] == [];
    }
  }

  /** The decoder's turn for sixteen zeros. */
  lemma DecodeRun(ac: seq<Code>, s: seq<bool>, s1: seq<bool>, k: nat, more: seq<int>, rest: seq<bool>)
    requires k + 16 < 64 && DecodeSymbol(ac, s) == Some((0xF0, s1)) && DecodeAc(ac, s1, k + 16) == Some((more, rest))
    ensures DecodeAc(ac, s, k) == Some((Zeros(16) + more, rest))
  {
    hide DecodeSymbol, DecodeAmplitude, Zeros;
  }

  lemma RunReadBack(ac: seq<Code>, b: seq<int>, i: nat, run: nat, rest: seq<bool>)
    requires PrefixFree(ac) && CoversAc(ac) && Block(b) && 1 <= i < 64 && 16 <= run < i && b[i] != 0
    requires forall j :: i - run <= j < i ==> b[j] == 0
    requires DecodeAc(ac, AcBits(ac, b, i, run - 16) + rest, i - run + 16) == Some((b[i - run + 16..], rest))
    ensures DecodeAc(ac, AcBits(ac, b, i, run) + rest, i - run) == Some((b[i - run..], rest))
  {
    hide DecodeAc, DecodeSymbol, PrefixFree, Word, ValueBits, Category;
    var k, tail := i - run, AcBits(ac, b, i, run - 16) + rest;
    assert AcBits(ac, b, i, run) + rest == Word(ac, 0xF0) + tail;
    SymbolReadBack(ac, 0xF0, tail);
    DecodeRun(ac, Word(ac, 0xF0) + tail, tail, k, b[k + 16..], rest);
    assert b[k..] == Zeros(16) + b[k + 16..];
  }

  /** The decoder's turn for a run and the coefficient that ends it. */
  lemma DecodeCoefficient(ac: seq<Code>, s: seq<bool>, s1: seq<bool>, s2: seq<bool>, k: nat, run: nat, n: nat, v: int,
      more: seq<int>, rest: seq<bool>)
    requires k + run < 64 && run < 16 && 1 <= n < 16 && DecodeSymbol(ac, s) == Some((RunSize(run, n), s1))
    requires DecodeAmplitude(n, s1) == Some((v, s2)) && DecodeAc(ac, s2, k + run + 1) == Some((more, rest))
    ensures DecodeAc(ac, s, k) == Some((Zeros(run) + [v] + more, rest))
  {
    hide DecodeSymbol, DecodeAmplitude, Zeros;
    assert RunSize(run, n) / 16 == run && RunSize(run, n) % 16 == n;
  }

  lemma CoefficientReadBack(ac: seq<Code>, b: seq<int>, i: nat, run: nat, rest: seq<bool>)
    requires PrefixFree(ac) && CoversAc(ac) && Block(b) && 1 <= i < 64 && run < i && run < 16 && b[i] != 0
    requires forall j :: i - run <= j < i ==> b[j] == 0
    requires DecodeAc(ac, AcBits(ac, b, i + 1, 0) + rest, i + 1) == Some((b[i + 1..], rest))
    ensures DecodeAc(ac, AcBits(ac, b, i, run) + rest, i - run) == Some((b[i - run..], rest))
  {
    hide DecodeAc, DecodeSymbol, DecodeAmplitude, PrefixFree, ValueBits, Category, BitsOf, Amplitude;
    var v, tail := b[i], AcBits(ac, b, i + 1, 0) + rest;
    CategoryBounds(v);
    var n := Category(v);
    var s := ValueBits(ac, RunSize(run, n), v) + tail;
    assert AcBits(ac, b, i, run) + rest == s;
    ValueReadBack(ac, RunSize(run, n), v, tail);
    AmplitudeReadBack(v, tail);
    DecodeCoefficient(ac, s, BitsOf(Amplitude(v), n) + tail, tail, i - run, run, n, v, b[i + 1..], rest);
    assert b[i - run..] == Zeros(run) + [v] + b[i + 1..];
  }

  lemma BlockReadBack(books: Books, pred: int, b: seq<int>, rest: seq<bool>)
    requires Covers(books) && PrefixFree(books.dc) && PrefixFree(books.ac) && Block(b) && Mean(pred)
    ensures DecodeBlock(books, pred, BlockBits(books, pred, b) + rest) == Some((b, rest))
  {
    hide DecodeAc, DecodeSymbol, DecodeAmplitude, PrefixFree, ValueBits, Category, BitsOf, Amplitude, AcBits, Match;
    var diff := b[0] - pred;
    CategoryBounds(diff);
    var tail := AcBits(books.ac, b, 1, 0) + rest;
    assert BlockBits(books, pred, b) + rest == ValueBits(books.dc, Category(diff), diff) + tail;
    ValueReadBack(books.dc, Category(diff), diff, tail);
    AmplitudeReadBack(diff, tail);
    AcReadBack(books.ac, b, 1, 0, rest);
    assert b == [b[0]] + b[1..];
  }

  function Components(blocks: seq<Coded>): (c: seq<nat>)
    ensures |c| == |blocks| && forall i :: 0 <= i < |c| ==> c[i] == blocks[i].component
  {
    seq(|blocks|, i requires 0 <= i < |blocks| => blocks[i].component)
  }

  lemma {:induction false} ScanFront(pair: BookPair, blocks: seq<Coded>, preds: seq<int>)
    requires Usable(pair) && Predictions(preds) && AllCodable(blocks)
    requires blocks != []
    ensures var first := blocks[0];
      assert Codable(first);
      var next := preds[first.component := first.block[0]];
      && ScanBits(pair, blocks, preds) ==
         BlockBits(BooksFor(pair, first.component), preds[first.component], first.block) +
             ScanBits(pair, blocks[1..], next)
      && After(blocks, preds) == After(blocks[1..], next)
  {
    var n := |blocks| - 1;
    hide BlockBits;
    if n > 0 {
      ScanFront(pair, blocks[..n], preds);
      assert blocks[..n][1..] == blocks[1..][..n - 1];
    } else {
      assert blocks[..n] == [] && blocks[1..] == [];
    }
  }

  /** The scan decodes to the blocks it was made of, and the decoder stops where it ends. */
  lemma {:induction false} ScanReadBack(pair: BookPair, blocks: seq<Coded>, preds: seq<int>, rest: seq<bool>)
    requires Usable(pair) && Predictions(preds) && AllCodable(blocks)
    ensures DecodeScan(pair, Components(blocks), preds, ScanBits(pair, blocks, preds) + rest) == Some((blocks, rest))
  {
    hide BlockBits, DecodeBlock, After, PrefixFree, Covers;
    var s := ScanBits(pair, blocks, preds) + rest;
    if blocks == [] {
      assert s == rest;
    } else {
      assert Codable(blocks[0]);
      ScanFront(pair, blocks, preds);
      var first := blocks[0];
      var next := preds[first.component := first.block[0]];
      var tail := ScanBits(pair, blocks[1..], next) + rest;
      assert s == BlockBits(BooksFor(pair, first.component), preds[first.component], first.block) + tail;
      BlockReadBack(BooksFor(pair, first.component), preds[first.component], first.block, tail);
      ScanReadBack(pair, blocks[1..], next, rest);
      assert Components(blocks)[1..] == Components(blocks[1..]);
      assert blocks == [first] + blocks[1..];
    }
  }
}
