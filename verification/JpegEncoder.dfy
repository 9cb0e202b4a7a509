/**
 The entropy coder of jpge.cpp: the bit buffer, byte stuffing, the output buffer, and the coding of
 blocks.  What it writes is the scan of module JpegScan.
 */
module JpegEncoder {
  import opened Basics
  import opened BitStrings
  import opened JpegBits
  import opened JpegHuffman
  import opened JpegScan
  import opened JpegTables
  import opened JpegMarkers
  import D = JpegDct
  import JpegZigzag

  const OUT_BUF_SIZE := 512

  // ----- arithmetic of the bit buffer

  /**
   The 24 low bits hold `n` bits of value `v`, left aligned; bytes already sent are above them.
   */
  predicate Holding(buffer: nat, n: nat, v: nat)
    requires n <= 24
  {
    buffer < 0x1_0000_0000 && buffer % 0x100_0000 == v * Pow2(24 - n) && v < Pow2(n)
  }

  lemma AddBits(buffer: nat, n: nat, v: nat, bits: nat, len: nat)
    requires n + len <= 24 && Holding(buffer, n, v) && bits < Pow2(len)
    ensures Holding(Or(buffer, bits * Pow2(24 - n - len)), n + len, v * Pow2(len) + bits)
  {
    hide Pow2, Or;
    OrIsSum(buffer, n, v, bits, len);
    Pow2Add(24 - n - len, len);
    Pow2Add(24 - n, n);
    Pow2Add(n, len);
    Pow2Values();
    Joined(buffer, v, bits, Pow2(n), Pow2(len), Pow2(24 - n - len));
  }

  lemma OrIsSum(buffer: nat, n: nat, v: nat, bits: nat, len: nat)
    requires n + len <= 24 && Holding(buffer, n, v) && bits < Pow2(len)
    ensures Or(buffer, bits * Pow2(24 - n - len)) == buffer + bits * Pow2(24 - n - len)
  {
    hide Pow2, Or;
    var unit, low := Pow2(24 - n), Pow2(24 - n - len);
    Pow2Add(len, 24 - n - len);
    Pow2Add(24 - n, n);
    Pow2Values();
    Aligned(buffer / 0x100_0000, unit, Pow2(n), v);
    Product(bits, Pow2(len), low);
    OrDisjoint(buffer / 0x100_0000 * Pow2(n) + v, bits * low, 24 - n);
  }

  lemma Aligned(top: nat, unit: nat, m: nat, v: nat)
    requires unit * m == 0x100_0000
    ensures unit * (top * m + v) == top * 0x100_0000 + v * unit
  {
    Distribute(unit, top, m, v);
  }

  lemma Joined(buffer: nat, v: nat, bits: nat, m: nat, l: nat, low: nat)
    requires buffer < 0x1_0000_0000 && v < m && bits < l && low > 0
    requires low * l * m == 0x100_0000 && buffer % 0x100_0000 == v * (low * l)
    ensures buffer + bits * low < 0x1_0000_0000
    ensures (buffer + bits * low) % 0x100_0000 == (v * l + bits) * low
    ensures v * l + bits < m * l
  {
    Tail(v, m, bits, l);
    Distribute(low, v, l, bits);
    Product(v * l + bits, m * l, low);
    assert m * l * low == low * l * m by {
      Commuted(m, l, low);
    }
    assert (v * l + bits) * low == v * (low * l) + bits * low;
    Carried(buffer, bits * low);
  }

  lemma Commuted(a: nat, b: nat, c: nat)
    ensures a * b * c == c * b * a
  {
    assert c * b * a == a * (c * b);
  }

  lemma Carried(buffer: nat, x: nat)
    requires buffer < 0x1_0000_0000 && buffer % 0x100_0000 + x < 0x100_0000
    ensures buffer + x < 0x1_0000_0000 && (buffer + x) % 0x100_0000 == buffer % 0x100_0000 + x
  {
  }

  lemma Product(a: nat, b: nat, w: nat)
    requires a < b
    ensures a * w + w <= b * w
  {
    Times(a + 1, b, w);
  }

  lemma Distribute(u: nat, a: nat, m: nat, b: nat)
    ensures u * (a * m + b) == a * (u * m) + b * u
    ensures (a * m + b) * u == a * (u * m) + b * u
  {
    assert u * (a * m + b) == u * (a * m) + u * b;
    assert u * (a * m) == a * (u * m);
  }

  lemma Tail(v: nat, m: nat, x: nat, unit: nat)
    requires v < m && x < unit
    ensures v * unit + x < m * unit
  {
    Product(v, m, unit);
  }

  /** The byte that leaves, and the buffer after the shift. */
  lemma TakeByte(buffer: nat, n: nat, hi: nat, lo: nat)
    requires 8 <= n <= 24 && lo < Pow2(n - 8) && Holding(buffer, n, hi * Pow2(n - 8) + lo)
    ensures buffer / 0x1_0000 % 0x100 == hi
    ensures Holding(buffer * 0x100 % 0x1_0000_0000, n - 8, lo)
  {
    hide Pow2;
    Pow2Add(24 - n, n - 8);
    Pow2Add(8, 24 - n);
    Pow2Add(8, n - 8);
    Pow2Values();
    TakeTop(buffer, hi, lo, Pow2(n - 8), Pow2(24 - n));
  }

  lemma TakeTop(buffer: nat, hi: nat, lo: nat, m: nat, low: nat)
    requires low * m == 0x1_0000 && lo < m && hi * m + lo < 0x100 * m
    requires buffer < 0x1_0000_0000 && buffer % 0x100_0000 == (hi * m + lo) * low
    ensures buffer / 0x1_0000 % 0x100 == hi
    ensures buffer * 0x100 % 0x1_0000_0000 % 0x100_0000 == lo * (0x100 * low)
  {
    Distribute(low, hi, m, lo);
    Product(lo, m, low);
    Swapped(m, low);
    Below(hi, lo, m, 0x100);
    var x := lo * low;
    Positive(m, low);
    Regrouped(lo, low);
    ShiftOut(buffer, hi, x);
  }

  lemma Swapped(a: nat, b: nat)
    ensures a * b == b * a
  {
  }

  lemma Positive(m: nat, low: nat)
    requires low * m > 0
    ensures m > 0 && low > 0
  {
  }

  lemma Regrouped(a: nat, w: nat)
    ensures a * (0x100 * w) == a * w * 0x100
  {
  }

  lemma Below(hi: nat, lo: nat, w: nat, m: nat)
    requires hi * w + lo < m * w
    ensures hi < m
  {
    TimesIf(m, hi, w);
  }

  lemma TimesIf(a: nat, b: nat, w: nat)
    ensures a <= b ==> a * w <= b * w
  {
  }

  lemma DivMod(x: nat, m: nat, q: nat, r: nat)
    requires m > 0 && r < m && x == q * m + r
    ensures x / m == q && x % m == r
  {
    assert x == x / m * m + x % m;
    TimesIf(q + 1, x / m, m);
    TimesIf(x / m + 1, q, m);
  }

  lemma ShiftOut(buffer: nat, hi: nat, r: nat)
    requires buffer < 0x1_0000_0000 && hi < 0x100 && r < 0x1_0000 && buffer % 0x100_0000 == hi * 0x1_0000 + r
    ensures buffer / 0x1_0000 % 0x100 == hi
    ensures buffer * 0x100 % 0x1_0000_0000 % 0x100_0000 == r * 0x100
  {
    var top := buffer / 0x100_0000;
    DivMod(buffer, 0x1_0000, top * 0x100 + hi, r);
    DivMod(top * 0x100 + hi, 0x100, top, hi);
    DivMod(buffer * 0x100, 0x1_0000_0000, top, hi * 0x100_0000 + r * 0x100);
    DivMod(hi * 0x100_0000 + r * 0x100, 0x100_0000, hi, r * 0x100);
  }

  // ----- what is put together

  /** Before the first block of a scan all predictions are zero. */
  function NoPredictions(): (r: seq<int>)
    ensures Predictions(r) && r == [0, 0, 0]
  {
    [0, 0, 0]
  }

  /** The pad of process_end_of_image. */
  lemma SevenOnes()
    ensures AllOnes(BitsOf(0x7F, 7)) && 0x7F < Pow2(7)
  {
    Ones(7);
    assert Pow2(7) == 0x80;
    hide BitsOf;
  }

  /** The loop that counts the bits of a difference. */
  method CountBits(a: nat) returns (nbits: nat)
    ensures nbits == NBits(a)
  {
    var temp1 := a;
    nbits := 0;
    while temp1 != 0
      invariant NBits(a) == nbits + NBits(temp1)
    {
      nbits, temp1 := nbits + 1, temp1 / 2;
    }
  }

  /** The loop that counts the bits of a coefficient, which shifts before it tests. */
  method CountBitsOfNonzero(a: nat) returns (nbits: nat)
    requires a > 0
    ensures nbits == NBits(a)
  {
    var temp1: nat := a / 2;
    nbits := 1;
    while temp1 != 0
      invariant NBits(a) == nbits + NBits(temp1)
    {
      nbits, temp1 := nbits + 1, temp1 / 2;
    }
  }

  /** The last bits put are the ones that wait. */
  lemma Whole(bytes: seq<bool>, pending: seq<bool>, s: seq<bool>, put: seq<bool>)
    requires bytes + pending == s + put && |pending| <= |put|
    ensures bytes == s + put[..|put| - |pending|]
  {
    assert bytes == (bytes + pending)[..|bytes|];
  }

  lemma ScanGrows(pair: BookPair, blocks: seq<Coded>, c: Coded, preds: seq<int>)
    requires Usable(pair) && Predictions(preds) && AllCodable(blocks) && Codable(c)
    ensures AllCodable(blocks + [c]) && Mean(After(blocks, preds)[c.component])
    ensures ScanBits(pair, blocks + [c], preds) ==
      ScanBits(pair, blocks, preds) + BlockBits(BooksFor(pair, c.component), After(blocks, preds)[c.component], c.block)
    ensures After(blocks + [c], preds) == After(blocks, preds)[c.component := c.block[0]]
  {
    hide BlockBits, Usable;
    assert (blocks + [c])[..|blocks|] == blocks;
  }

  lemma NoAmplitude(v: int)
    ensures Category(v) == 0 ==> BitsOf(Amplitude(v), Category(v)) == []
  {
  }

  lemma NothingStuffed()
    ensures Stuff([]) == []
  {
  }

  /** m_huff_bits and m_huff_val. */
  function StandardLists(): seq<Huff> {
    [Huff(DcLumaBits(), DcValues()), Huff(DcChromaBits(), DcValues()),
     Huff(AcLumaBits(), AcLumaValues()), Huff(AcChromaBits(), AcChromaValues())]
  }

  /** Counts are no more than their sum. */
  lemma {:induction false} CountsFit(bits: seq<nat>, l: nat, m: nat)
    requires 0 < l <= m < |bits|
    ensures bits[l] <= Total(bits, m)
  {
    if l < m {
      CountsFit(bits, l, m - 1);
    }
  }

  lemma ListsFit(bits: seq<nat>, val: seq<nat>)
    requires |bits| == 17 && bits[0] == 0 && Total(bits, 16) == |val| < 256
    requires forall p :: 0 <= p < |val| ==> val[p] < 256
    ensures ByteLists(Huff(bits, val))
  {
    hide Total;
    forall l | 0 < l < 17
      ensures bits[l] < 256
    {
      CountsFit(bits, l, 16);
    }
  }

  lemma StandardListsFit()
    ensures ByteLists(StandardLists()[0]) && ByteLists(StandardLists()[1])
    ensures ByteLists(StandardLists()[2]) && ByteLists(StandardLists()[3])
  {
    hide AcLumaVal, AcChromaVal, Total, DcValues, AcLumaValues, AcChromaValues, ByteLists, RunSize;
    DcLumaBitsSum();
    DcChromaBitsSum();
    AcLumaBitsSum();
    AcChromaBitsSum();
    assert DcLumaBits()[0] == 0 && DcChromaBits()[0] == 0 && AcLumaBits()[0] == 0 && AcChromaBits()[0] == 0;
    assert |DcLumaBits()| == 17 && |DcChromaBits()| == 17 && |AcLumaBits()| == 17 && |AcChromaBits()| == 17;
    hide DcLumaBits, DcChromaBits, AcLumaBits, AcChromaBits;
    forall p | 0 <= p < 162
      ensures AcLumaValues()[p] < 256 && AcChromaValues()[p] < 256
    {
      AcValuesAreBytes(p);
    }
    ListsFit(DcLumaBits(), DcValues());
    ListsFit(DcChromaBits(), DcValues());
    ListsFit(AcLumaBits(), AcLumaValues());
    ListsFit(AcChromaBits(), AcChromaValues());
  }

  /** The books are the canonical ones of the picture's lists. */
  ghost predicate Matching(p: Picture, pair: BookPair) {
    && |p.huffs| == 4
    && IsBook(pair.luma.dc, p.huffs[0].bits, p.huffs[0].val) && IsBook(pair.luma.ac, p.huffs[2].bits, p.huffs[2].val)
    && IsBook(pair.chroma.dc, p.huffs[1].bits, p.huffs[1].val) &&
        IsBook(pair.chroma.ac, p.huffs[3].bits, p.huffs[3].val)
  }

  /** Quantizers are 1 to 255. */
  ghost predicate QuantizersOk(p: Picture) {
    && |p.quants| == 2 && |p.quants[0]| == |p.quants[1]| == 64
    && forall t, i :: 0 <= t < 2 && 0 <= i < 64 ==> p.quants[t][i] > 0
  }

  // ----- a decoder of the whole stream

  /** The books of the tables that the scan selects. */
  ghost predicate BooksOf(info: Info, pair: BookPair) {
    forall c :: 0 <= c < |info.scan| ==>
      var dc, ac := info.scan[c].dc, 0x10 + info.scan[c].ac;
      && dc in info.huffs && IsBook(BooksFor(pair, c).dc, info.huffs[dc].bits, info.huffs[dc].val)
      && ac in info.huffs && IsBook(BooksFor(pair, c).ac, info.huffs[ac].bits, info.huffs[ac].val)
  }

  /** The stream alone gives a decoder the tables, and with the books of these tables the blocks. */
  ghost predicate Decodes(stream: seq<byte>, p: Picture, blocks: seq<Coded>) {
    Proportioned(p) && (forall i :: 0 <= i < |Components(blocks)| ==> Components(blocks)[i] < 3) &&
        exists packed, pad ::
      && ReadHeader(stream) == Some((InfoOf(p), Stuff(packed) + Marker(0xD9)))
      && Unstuff(Stuff(packed) + Marker(0xD9)) == (packed, Marker(0xD9)) && |pad| < 8 && AllOnes(pad)
      && forall pair :: BooksOf(InfoOf(p), pair) ==>
           DecodeScan(pair, Components(blocks), NoPredictions(), BytesBits(packed)) == Some((blocks, pad))
  }

  /** The books of the header are those of the coder, as far as the picture has components. */
  lemma BooksFound(p: Picture, pair: BookPair, found: BookPair)
    requires Proportioned(p) && Matching(p, pair) && BooksOf(InfoOf(p), found)
    ensures found.luma == pair.luma && (!p.sampling.YOnly? ==> found == pair)
  {
    hide IsBook, ByteLists;
    var info := InfoOf(p);
    assert info.scan[0] == Selection(1, 0, 0);
    BookIsUnique(found.luma.dc, pair.luma.dc, p.huffs[0].bits, p.huffs[0].val);
    BookIsUnique(found.luma.ac, pair.luma.ac, p.huffs[2].bits, p.huffs[2].val);
    if !p.sampling.YOnly? {
      assert info.scan[1] == Selection(2, 1, 1);
      BookIsUnique(found.chroma.dc, pair.chroma.dc, p.huffs[1].bits, p.huffs[1].val);
      BookIsUnique(found.chroma.ac, pair.chroma.ac, p.huffs[3].bits, p.huffs[3].val);
    }
  }

  /** A scan of luma blocks does not need the books of the other components. */
  lemma {:induction false} LumaAlone(a: BookPair, b: BookPair, components: seq<nat>, preds: seq<int>, s: seq<bool>)
    requires a.luma == b.luma && |preds| == 3 && forall i :: 0 <= i < |components| ==> components[i] == 0
    ensures DecodeScan(a, components, preds, s) == DecodeScan(b, components, preds, s)
  {
    hide DecodeBlock;
    if components != [] {
      var r := DecodeBlock(a.luma, preds[0], s);
      if r.Some? && r.value.0 != [] {
        LumaAlone(a, b, components[1..], preds[0 := r.value.0[0]], r.value.1);
      }
    }
  }

  lemma {:induction false} ComponentsBelow(blocks: seq<Coded>, n: nat)
    requires forall i :: 0 <= i < |blocks| ==> blocks[i].component < n
    ensures forall i :: 0 <= i < |Components(blocks)| ==> Components(blocks)[i] < n
  {
  }

  /** A finished stream decodes. */
  lemma StreamDecodes(p: Picture, pair: BookPair, blocks: seq<Coded>, packed: seq<byte>, pad: seq<bool>)
    requires Proportioned(p) && Matching(p, pair) && |pad| < 8 && AllOnes(pad)
    requires forall i :: 0 <= i < |blocks| ==> blocks[i].component < NumComponents(p.sampling)
    requires Unstuff(Stuff(packed) + Marker(EOI)) == (packed, Marker(EOI))
    requires forall i :: 0 <= i < |Components(blocks)| ==> Components(blocks)[i] < 3
    requires DecodeScan(pair, Components(blocks), NoPredictions(), BytesBits(packed)) == Some((blocks, pad))
    ensures Decodes(Header(p) + (Stuff(packed) + Marker(EOI)), p, blocks)
  {
    hide Matching, Proportioned, Header, DecodeScan, Unstuff, Stuff, BytesBits, ReadHeader, InfoOf, BooksOf;
    HeaderReadBack(p, Stuff(packed) + Marker(EOI));
    ComponentsBelow(blocks, NumComponents(p.sampling));
    forall found | BooksOf(InfoOf(p), found)
      ensures DecodeScan(found, Components(blocks), NoPredictions(), BytesBits(packed)) == Some((blocks, pad))
    {
      BooksFound(p, pair, found);
      if p.sampling.YOnly? {
        LumaAlone(found, pair, Components(blocks), NoPredictions(), BytesBits(packed));
      }
    }
  }

  /**
   Where the zigzag walk meets a cell, the block has the quantized transform of the samples for this row
   and column; the quantizers are listed in the same order.
   */
  ghost predicate IsTransform(samples: seq<D.int32>, quant: seq<D.int32>, b: seq<int>) {
    && |samples| == 64 && D.Samples(samples) && |quant| == 64 && |b| == 64
    && forall row, column :: 0 <= row < 8 && 0 <= column < 8 ==>
         var k := JpegZigzag.Met(row, column);
         D.Nearest(D.Transform(samples, row, column), quant[k] as int, b[k])
  }

  /** m_quantization_tables[component > 0] */
  function QuantTable(p: Picture, component: nat): (q: seq<D.int32>)
    requires QuantizersOk(p)
    ensures |q| == 64 && forall i :: 0 <= i < 64 ==>
      1 <= q[i] <= 255 && q[i] as int == p.quants[if component > 0 then 1 else 0][i]
  {
    var table := p.quants[if component > 0 then 1 else 0];
    seq(64, i requires 0 <= i < 64 => table[i] as D.int32)
  }

  /** A block of the component was added, and it is the transform of the samples. */
  ghost predicate OneMore(was: seq<Coded>, now: seq<Coded>, component: nat, samples: seq<D.int32>,
      quant: seq<D.int32>) {
    && |now| == |was| + 1 && now[..|was|] == was && now[|was|].component == component
    && IsTransform(samples, quant, now[|was|].block)
  }

  method TransformBlock(samples: array<D.int32>, quant: seq<D.int32>) returns (b: seq<int>)
    requires samples.Length == 64 && D.Samples(samples[..])
    requires |quant| == 64 && forall i :: 0 <= i < 64 ==> 1 <= quant[i] <= 255
    modifies samples
    ensures IsTransform(old(samples[..]), quant, b) && Block(b)
  {
    hide D.Transform, D.Nearest, D.Zag, D.Coefficient;
    ghost var was := samples[..];
    D.Dct2D(samples);
    b := D.LoadQuantized(samples[..], quant);
    forall row, column | 0 <= row < 8 && 0 <= column < 8
      ensures var k := JpegZigzag.Met(row, column);
        D.Nearest(D.Transform(was, row, column), quant[k] as int, b[k])
    {
      JpegZigzag.MetByZag(row, column);
      assert D.Cell(samples[..], row, column) == samples[8 * row + column];
    }
  }

  /** The stream takes the first `n` writes. */
  ghost predicate AllAccepted(accepts: nat -> bool, n: nat) {
    forall k: nat :: k < n ==> accepts(k)
  }

  class Encoder {
    const picture: Picture

    // the output buffer and the stream behind it
    const outBuf: array<byte>
    var outAt: nat
    var outLeft: nat
    var ok: bool
    var stream: seq<byte>
    var puts: nat
    const accepts: nat -> bool
    ghost var emitted: seq<byte>

    // the bit buffer
    var bitBuffer: nat
    var bitsIn: nat
    ghost var start: seq<byte>
    ghost var packed: seq<byte>
    ghost var pending: seq<bool>

    // the blocks
    const lastDc: array<int>
    const tables: seq<HuffTable>
    ghost const pair: BookPair
    ghost var blocks: seq<Coded>

    /** What was accepted by the stream, and the buffer, are what was emitted, until a write fails. */
    ghost predicate Output()
      reads `outAt, `outLeft, `ok, `stream, `puts, `emitted, outBuf
    {
      && outBuf.Length == OUT_BUF_SIZE && outAt + outLeft == OUT_BUF_SIZE && outLeft > 0
      && stream <= emitted && (ok <==> AllAccepted(accepts, puts))
      && (ok ==> stream + outBuf[..outAt] == emitted)
    }

    /** Whole bytes of the scan are emitted, stuffed; the rest waits in the bit buffer. */
    ghost predicate Bits()
      reads `bitBuffer, `bitsIn, `start, `packed, `pending, `emitted
    {
      && bitsIn == |pending| <= 24 && Holding(bitBuffer, bitsIn, Value(pending))
      && emitted == start + Stuff(packed)
    }

    /** The bits of the scan so far. */
    ghost function Scan(): seq<bool>
      reads `packed, `pending
    {
      BytesBits(packed) + pending
    }

    ghost predicate Tables() {
      && |tables| == 4 && Usable(pair)
      && Holds(tables[0], pair.luma.dc) && Holds(tables[2], pair.luma.ac)
      && Holds(tables[1], pair.chroma.dc) && Holds(tables[3], pair.chroma.ac)
    }

    /** The scan is that of the blocks coded so far. */
    ghost predicate Valid()
      reads `outAt, `outLeft, `ok, `stream, `puts, `emitted, outBuf
      reads `bitBuffer, `bitsIn, `start, `packed, `pending, `blocks, lastDc
    {
      && Output() && Bits() && bitsIn < 8 && Tables() && AllCodable(blocks)
      && lastDc.Length == 3 && lastDc[..] == After(blocks, NoPredictions())
      && Scan() == ScanBits(pair, blocks, NoPredictions())
      && forall i :: 0 <= i < |blocks| ==> blocks[i].component < NumComponents(picture.sampling)
    }

    /** The part of jpg_open before the markers.  The tables never change after it. */
    constructor (width: nat, height: nat, sampling: Sampling, quants: seq<seq<byte>>, accepts: nat -> bool)
      requires |quants| == 2 && |quants[0]| == 64 && |quants[1]| == 64
      requires forall t, i :: 0 <= t < 2 && 0 <= i < 64 ==> quants[t][i] > 0
      ensures picture == Picture(width, height, sampling, quants, StandardLists()) && Proportioned(picture)
      ensures QuantizersOk(picture) && Matching(picture, pair)
      ensures Valid() && blocks == [] && emitted == [] && this.accepts == accepts && puts == 0
      ensures start == [] && packed == [] && pending == []
      ensures fresh(outBuf) && fresh(lastDc)
    {
      hide IsBook, PrefixFree, Lists, AcLumaValues, AcChromaValues, DcValues, Proper, Holds, CoversAc, Has, ByteLists;
      AllProper();
      StandardListsFit();
      picture := Picture(width, height, sampling, quants, StandardLists());
      var dcLuma, b0 := BuildTable(DcLumaBits(), DcValues());
      var acLuma, b2 := BuildTable(AcLumaBits(), AcLumaValues());
      var dcChroma, b1 := BuildTable(DcChromaBits(), DcValues());
      var acChroma, b3 := BuildTable(AcChromaBits(), AcChromaValues());
      DcCovered(b0);
      AcLumaCovered(b2);
      DcCovered(b1);
      AcChromaCovered(b3);
      tables := [dcLuma, dcChroma, acLuma, acChroma];
      pair := BookPair(Books(b0, b2), Books(b1, b3));
      this.accepts := accepts;
      outBuf := new byte[OUT_BUF_SIZE](_ => 0);
      lastDc := new int[3](_ => 0);
      outAt, outLeft := 0, OUT_BUF_SIZE;
      ok, stream, puts, emitted := true, [], 0, [];
      bitBuffer, bitsIn := 0, 0;
      start, packed, pending, blocks := [], [], [], [];
      new;
      hide Tables;
      StartsValid();
    }

    /** With proper tables and nothing emitted yet, the scan of no blocks is there. */
    lemma StartsValid()
      requires Tables() && outBuf.Length == OUT_BUF_SIZE && outAt == 0 && outLeft == OUT_BUF_SIZE
      requires ok && stream == [] && puts == 0 && emitted == [] && bitBuffer == 0 && bitsIn == 0
      requires start == [] && packed == [] && pending == [] && blocks == []
      requires lastDc.Length == 3 && forall i :: 0 <= i < 3 ==> lastDc[i] == 0
      ensures Valid()
    {
      hide Tables;
      assert lastDc[..] == [0, 0, 0];
    }

    /** flush_output_buffer */
    method FlushOutputBuffer()
      requires outBuf.Length == OUT_BUF_SIZE && outAt + outLeft == OUT_BUF_SIZE
      requires stream <= emitted && (ok <==> AllAccepted(accepts, puts)) && (ok ==> stream + outBuf[..outAt] == emitted)
      modifies `ok, `stream, `puts, `outAt, `outLeft
      ensures Output() && outAt == 0
    {
      if outLeft != OUT_BUF_SIZE {
        if ok {
          ok := accepts(puts);
          puts := puts + 1;
          if ok {
            stream := stream + outBuf[..outAt];
          }
        }
      }
      outAt := 0;
      outLeft := OUT_BUF_SIZE;
    }

    /** emit_byte */
    method EmitByte(c: byte)
      requires Output()
      modifies `ok, `stream, `puts, `outAt, `outLeft, `emitted, outBuf
      ensures Output() && emitted == old(emitted) + One(c)
    {
      ghost var was := outBuf[..outAt];
      outBuf[outAt] := c;
      outAt := outAt + 1;
      outLeft := outLeft - 1;
      emitted := emitted + [c];
      assert outBuf[..outAt] == was + [c];
      if outLeft == 0 {
        FlushOutputBuffer();
      }
    }

    /** A byte of the scan, with the zero that follows 0xFF. */
    method EmitStuffed(c: byte)
      requires Output()
      modifies `ok, `stream, `puts, `outAt, `outLeft, `emitted, outBuf
      ensures Output() && emitted == old(emitted) + Stuffed(c)
    {
      EmitByte(c);
      if c == 0xFF {
        EmitByte(0);
      }
    }

    /** The turn of put_bits that sends one byte. */
    method SendByte()
      requires Output() && Bits() && bitsIn >= 8
      modifies `ok, `stream, `puts, `outAt, `outLeft, `emitted, outBuf
      modifies `bitBuffer, `bitsIn, `packed, `pending
      ensures Output() && Bits() && bitsIn == old(bitsIn) - 8 && Scan() == old(Scan())
    {
      hide Pow2, BitsOf, Value, BytesBits, Holding, Stuff, Stuffed;
      ghost var hi, lo := pending[..8], pending[8..];
      TopByte();
      var c: byte := bitBuffer / 0x1_0000 % 0x100;
      EmitStuffed(c);
      StuffAppend(packed, c);
      BytesBitsAppend(packed, c);
      Associate(start, Stuff(packed), Stuffed(c));
      Associate(BytesBits(packed), hi, lo);
      packed, pending := packed + [c], lo;
      bitBuffer := bitBuffer * 0x100 % 0x1_0000_0000;
      bitsIn := bitsIn - 8;
    }

    /** The byte at the top of the bit buffer is the first eight bits that wait. */
    lemma TopByte()
      requires Bits() && bitsIn >= 8
      ensures pending == pending[..8] + pending[8..]
      ensures BitsOf(bitBuffer / 0x1_0000 % 0x100, 8) == pending[..8]
      ensures Holding(bitBuffer * 0x100 % 0x1_0000_0000, bitsIn - 8, Value(pending[8..]))
    {
      hide Pow2, BitsOf, Value, Stuff;
      var hi, lo := pending[..8], pending[8..];
      assert pending == hi + lo;
      ValueConcat(hi, lo);
      BitsOfValue(hi);
      BitsOfValue(lo);
      TakeByte(bitBuffer, bitsIn, Value(hi), Value(lo));
    }

    /** put_bits */
    method PutBits(bits: nat, len: nat)
      requires Output() && Bits() && bitsIn < 8 && len <= 16 && bits < Pow2(len)
      modifies `ok, `stream, `puts, `outAt, `outLeft, `emitted, outBuf
      modifies `bitBuffer, `bitsIn, `packed, `pending
      ensures Output() && Bits() && bitsIn < 8 && Scan() == old(Scan()) + BitsOf(bits, len)
    {
      hide Pow2, Value, BytesBits, Stuff, Or, BitsOf;
      ghost var was := Scan();
      AddBits(bitBuffer, bitsIn, Value(pending), bits, len);
      ValueConcat(pending, BitsOf(bits, len));
      ValueOfBits(bits, len);
      bitsIn := bitsIn + len;
      bitBuffer := Or(bitBuffer, bits * Pow2(24 - bitsIn));
      pending := pending + BitsOf(bits, len);
      assert Scan() == was + BitsOf(bits, len);
      while bitsIn >= 8
        invariant Output() && Bits() && Scan() == was + BitsOf(bits, len)
        modifies `ok, `stream, `puts, `outAt, `outLeft, `emitted, outBuf
        modifies `bitBuffer, `bitsIn, `packed, `pending
      {
        SendByte();
      }
    }

    /** put_bits of a symbol's code. */
    method PutSymbol(t: HuffTable, symbol: nat, ghost book: seq<Code>)
      requires Output() && Bits() && bitsIn < 8 && symbol < 256 && Has(book, symbol) && Holds(t, book)
      modifies `ok, `stream, `puts, `outAt, `outLeft, `emitted, outBuf
      modifies `bitBuffer, `bitsIn, `packed, `pending
      ensures Output() && Bits() && bitsIn < 8 && Scan() == old(Scan()) + Word(book, symbol)
    {
      hide Pow2, BitsOf, Word, Has, BytesBits, Stuff;
      assert HoldsSymbol(t, book, symbol);
      PutBits(t.codes[symbol], t.sizes[symbol]);
    }

    /** put_bits of the low bits of a value: of v, or of v - 1 if v is negative. */
    method PutAmplitude(v: int, nbits: nat)
      requires Output() && Bits() && bitsIn < 8 && nbits == Category(v) <= 16
      modifies `ok, `stream, `puts, `outAt, `outLeft, `emitted, outBuf
      modifies `bitBuffer, `bitsIn, `packed, `pending
      ensures Output() && Bits() && bitsIn < 8 && Scan() == old(Scan()) + BitsOf(Amplitude(v), Category(v))
    {
      hide BitsOf, BytesBits, Stuff, Category;
      var temp2 := v;
      if v < 0 {
        temp2 := temp2 - 1;
      }
      PutBits(temp2 % Pow2(nbits), nbits);
    }

    /** The mean of a block, as a difference to the one before it in the same component. */
    method CodeDc(t: HuffTable, diff: int, ghost dc: seq<Code>)
      requires Output() && Bits() && bitsIn < 8 && Holds(t, dc) && -2047 <= diff <= 2047
      requires forall n :: 0 <= n <= 11 ==> Has(dc, n)
      modifies `ok, `stream, `puts, `outAt, `outLeft, `emitted, outBuf
      modifies `bitBuffer, `bitsIn, `packed, `pending
      ensures Output() && Bits() && bitsIn < 8 && Scan() == old(Scan()) + DcBits(dc, diff)
    {
      hide Holds, Has, BitsOf, BytesBits, Stuff, NBits, Word, Holding, Amplitude;
      CategoryBounds(diff);
      var nbits := CountBits(Abs(diff));
      ghost var s0 := Scan();
      PutSymbol(t, nbits, dc);
      ghost var s1 := Scan();
      NoAmplitude(diff);
      if nbits != 0 {
        PutAmplitude(diff, nbits);
      }
      assert Scan() == s1 + BitsOf(Amplitude(diff), Category(diff));
    }

    /** Runs of sixteen zeros before a coefficient. */
    method CodeRuns(t: HuffTable, run: nat, ghost ac: seq<Code>, ghost b: seq<int>, ghost i: nat) returns (runLen: nat)
      requires Output() && Bits() && bitsIn < 8 && Holds(t, ac) && CoversAc(ac)
      requires Block(b) && 1 <= i < 64 && b[i] != 0
      modifies `ok, `stream, `puts, `outAt, `outLeft, `emitted, outBuf
      modifies `bitBuffer, `bitsIn, `packed, `pending
      ensures Output() && Bits() && bitsIn < 8 && runLen < 16
      ensures Scan() + AcBits(ac, b, i, runLen) == old(Scan()) + AcBits(ac, b, i, run)
    {
      hide Holds, BytesBits, Stuff, Holding, Word, ValueBits, Scan;
      runLen := run;
      while runLen >= 16
        invariant Output() && Bits() && bitsIn < 8
        invariant Scan() + AcBits(ac, b, i, runLen) == old(Scan()) + AcBits(ac, b, i, run)
        modifies `ok, `stream, `puts, `outAt, `outLeft, `emitted, outBuf
        modifies `bitBuffer, `bitsIn, `packed, `pending
      {
        ghost var s0 := Scan();
        PutSymbol(t, 0xF0, ac);
        Associate(s0, Word(ac, 0xF0), AcBits(ac, b, i, runLen - 16));
        runLen := runLen - 16;
      }
    }

    /** A nonzero coefficient after fewer than sixteen zeros. */
    method CodeCoefficient(t: HuffTable, runLen: nat, v: int, ghost ac: seq<Code>)
      requires Output() && Bits() && bitsIn < 8 && Holds(t, ac) && CoversAc(ac)
      requires runLen < 16 && v != 0 && -1023 <= v <= 1023
      modifies `ok, `stream, `puts, `outAt, `outLeft, `emitted, outBuf
      modifies `bitBuffer, `bitsIn, `packed, `pending
      ensures Output() && Bits() && bitsIn < 8
      ensures Has(ac, RunSize(runLen, Category(v)))
      ensures Scan() == old(Scan()) + ValueBits(ac, RunSize(runLen, Category(v)), v)
    {
      hide Holds, Has, BitsOf, BytesBits, Stuff, NBits, Word, Holding, Amplitude;
      CategoryBounds(v);
      var nbits := CountBitsOfNonzero(Abs(v));
      PutSymbol(t, RunSize(runLen, nbits), ac);
      PutAmplitude(v, nbits);
    }

    /** The loop over the coefficients after the mean. */
    method CodeAc(t: HuffTable, b: seq<int>, ghost ac: seq<Code>)
      requires Output() && Bits() && bitsIn < 8 && Holds(t, ac) && CoversAc(ac) && Block(b)
      modifies `ok, `stream, `puts, `outAt, `outLeft, `emitted, outBuf
      modifies `bitBuffer, `bitsIn, `packed, `pending
      ensures Output() && Bits() && bitsIn < 8 && Scan() == old(Scan()) + AcBits(ac, b, 1, 0)
    {
      hide Holds, BytesBits, Stuff, Holding, Word, ValueBits, Scan, Has, Category, Output, Bits;
      ghost var goal := Scan() + AcBits(ac, b, 1, 0);
      var runLen, i := 0, 1;
      while i < 64
        invariant 1 <= i <= 64
        invariant Output() && Bits() && bitsIn < 8
        invariant Scan() + AcBits(ac, b, i, runLen) == goal
        modifies `ok, `stream, `puts, `outAt, `outLeft, `emitted, outBuf
        modifies `bitBuffer, `bitsIn, `packed, `pending
      {
        if b[i] == 0 {
          runLen := runLen + 1;
        } else {
          runLen := CodeRuns(t, runLen, ac, b, i);
          ghost var s0 := Scan();
          CodeCoefficient(t, runLen, b[i], ac);
          Associate(s0, ValueBits(ac, RunSize(runLen, Category(b[i])), b[i]), AcBits(ac, b, i + 1, 0));
          runLen := 0;
        }
        i := i + 1;
      }
      if runLen != 0 {
        PutSymbol(t, 0, ac);
      }
    }

    /** code_coefficients_pass_two: one more block in the scan. */
    method CodeCoefficientsPassTwo(component: nat, b: seq<int>)
      requires Valid() && component < NumComponents(picture.sampling) && Block(b)
      modifies `ok, `stream, `puts, `outAt, `outLeft, `emitted, outBuf
      modifies `bitBuffer, `bitsIn, `packed, `pending, `blocks, lastDc
      ensures Valid() && blocks == old(blocks) + [Coded(component, b)]
      ensures start == old(start)
    {
      hide Holds, BytesBits, Stuff, Holding, Word, DcBits, AcBits, Scan, Has, Output, Bits, PrefixFree, CoversAc,
          ScanBits, After;
      ghost var books := BooksFor(pair, component);
      assert Mean(lastDc[..][component]);
      ghost var pred := lastDc[component];
      var diff := b[0] - lastDc[component];
      ghost var dcs, s0 := lastDc[..], Scan();
      lastDc[component] := b[0];
      assert lastDc[..] == dcs[component := b[0]];
      CodeDc(tables[if component == 0 then 0 else 1], diff, books.dc);
      ghost var s1 := Scan();
      CodeAc(tables[if component == 0 then 2 else 3], b, books.ac);
      Associate(s0, DcBits(books.dc, diff), AcBits(books.ac, b, 1, 0));
      assert Scan() == s0 + BlockBits(books, pred, b);
      ScanGrows(pair, blocks, Coded(component, b), NoPredictions());
      blocks := blocks + [Coded(component, b)];
    }

    /** code_block: the transform of the samples, quantized, is the block that is coded. */
    method CodeBlock(component: nat, samples: array<D.int32>)
      requires Valid() && QuantizersOk(picture) && component < NumComponents(picture.sampling)
      requires samples.Length == 64 && D.Samples(samples[..])
      modifies `ok, `stream, `puts, `outAt, `outLeft, `emitted, outBuf
      modifies `bitBuffer, `bitsIn, `packed, `pending, `blocks, lastDc, samples
      ensures Valid() && start == old(start)
      ensures OneMore(old(blocks), blocks, component, old(samples[..]), QuantTable(picture, component))
    {
      hide Valid, IsTransform, QuantizersOk;
      var b := TransformBlock(samples, QuantTable(picture, component));
      CodeCoefficientsPassTwo(component, b);
    }

    /** emit_marker */
    method EmitMarker(marker: byte)
      requires Output()
      modifies `ok, `stream, `puts, `outAt, `outLeft, `emitted, outBuf
      ensures Output() && emitted == old(emitted) + Marker(marker)
    {
      EmitByte(0xFF);
      EmitByte(marker);
    }

    /** emit_word */
    method EmitWord(i: nat)
      requires Output()
      modifies `ok, `stream, `puts, `outAt, `outLeft, `emitted, outBuf
      ensures Output() && emitted == old(emitted) + Word16(i)
    {
      EmitByte(i / 256 % 256);
      EmitByte(i % 256);
    }

    /** The marker and the length of a segment. */
    method BeginSegment(marker: byte, length: nat)
      requires Output()
      modifies `ok, `stream, `puts, `outAt, `outLeft, `emitted, outBuf
      ensures Output() && emitted == old(emitted) + (Marker(marker) + Word16(length))
    {
      EmitMarker(marker);
      EmitWord(length);
    }

    /** The parts in the order in which they are emitted. */
    lemma JfifSegment(was: seq<byte>)
      ensures was + (Marker(APP0) + Word16(16)) + JfifName() + JfifVersion() + Word16(1) + Word16(1) + JfifThumbnail()
           == was + Segment(APP0, Jfif())
    {
      JfifRead(NOTHING);
      hide JfifName, JfifVersion, JfifThumbnail, Word16, Marker;
    }

    /** emit_jfif_app0 */
    method EmitJfifApp0()
      requires Output()
      modifies `ok, `stream, `puts, `outAt, `outLeft, `emitted, outBuf
      ensures Output() && emitted == old(emitted) + Segment(APP0, Jfif())
    {
      ghost var was := emitted;
      BeginSegment(APP0, 2 + 4 + 1 + 2 + 1 + 2 + 2 + 1 + 1);
      EmitJfifName();
      EmitJfifVersion();
      EmitWord(1);
      EmitWord(1);
      EmitJfifThumbnail();
      JfifSegment(was);
      hide *;
    }

    method EmitJfifName()
      requires Output()
      modifies `ok, `stream, `puts, `outAt, `outLeft, `emitted, outBuf
      ensures Output() && emitted == old(emitted) + JfifName()
    {
      hide Output;
      EmitByte(0x4A);
      EmitByte(0x46);
      EmitByte(0x49);
      EmitByte(0x46);
      EmitByte(0);
    }

    method EmitJfifVersion()
      requires Output()
      modifies `ok, `stream, `puts, `outAt, `outLeft, `emitted, outBuf
      ensures Output() && emitted == old(emitted) + JfifVersion()
    {
      hide Output;
      EmitByte(1);
      EmitByte(1);
      EmitByte(0);
    }

    method EmitJfifThumbnail()
      requires Output()
      modifies `ok, `stream, `puts, `outAt, `outLeft, `emitted, outBuf
      ensures Output() && emitted == old(emitted) + JfifThumbnail()
    {
      hide Output;
      EmitByte(0);
      EmitByte(0);
    }

    /** A loop of emit_byte over a table. */
    method EmitBytes(s: seq<byte>)
      requires Output()
      modifies `ok, `stream, `puts, `outAt, `outLeft, `emitted, outBuf
      ensures Output() && emitted == old(emitted) + s
    {
      hide Output;
      ghost var was := emitted;
      for i := 0 to |s|
        invariant Output() && emitted == was + s[..i]
        modifies `ok, `stream, `puts, `outAt, `outLeft, `emitted, outBuf
      {
        EmitByte(s[i]);
      }
    }

    /** emit_dqt */
    method EmitDqt()
      requires Output() && Proportioned(picture)
      modifies `ok, `stream, `puts, `outAt, `outLeft, `emitted, outBuf
      ensures Output() && emitted == old(emitted) + Quants(picture)
    {
      hide Output, ByteLists;
      EmitQuant(0);
      if NumComponents(picture.sampling) == 3 {
        EmitQuant(1);
      }
    }

    /** A turn of the loop of emit_dqt. */
    method EmitQuant(i: nat)
      requires Output() && Proportioned(picture) && i < 2
      modifies `ok, `stream, `puts, `outAt, `outLeft, `emitted, outBuf
      ensures Output() && emitted == old(emitted) + Segment(DQT, QuantBody(i, picture.quants[i]))
    {
      hide Output, ByteLists, Word16;
      ghost var was := emitted;
      BeginSegment(DQT, 64 + 1 + 2);
      EmitByte(i);
      EmitBytes(picture.quants[i]);
      assert emitted == was + Segment(DQT, QuantBody(i, picture.quants[i]));
    }

    /** emit_sof */
    method EmitSof()
      requires Output()
      modifies `ok, `stream, `puts, `outAt, `outLeft, `emitted, outBuf
      ensures Output() && emitted == old(emitted) + Segment(SOF0, FrameBody(picture))
    {
      hide Output, FrameComponents, Word16, Marker, HSamp, VSamp;
      ghost var was := emitted;
      var n := NumComponents(picture.sampling);
      BeginSegment(SOF0, 3 * n + 2 + 5 + 1);
      EmitByte(8);
      EmitWord(picture.height);
      EmitWord(picture.width);
      EmitByte(n);
      EmitFrameComponents();
      FrameComponentsRead(picture.sampling);
      assert emitted == was + Segment(SOF0, FrameBody(picture));
    }

    /** The loop of emit_sof. */
    method EmitFrameComponents()
      requires Output()
      modifies `ok, `stream, `puts, `outAt, `outLeft, `emitted, outBuf
      ensures Output()
      ensures emitted == old(emitted) + FrameComponents(picture.sampling, NumComponents(picture.sampling))
    {
      hide Output, FrameComponents;
      ghost var was := emitted;
      var n, s := NumComponents(picture.sampling), picture.sampling;
      ComponentsNext(s, 0);
      for i := 0 to n
        invariant Output() && emitted == was + FrameComponents(s, i)
        modifies `ok, `stream, `puts, `outAt, `outLeft, `emitted, outBuf
      {
        ComponentsNext(s, i);
        EmitByte(i + 1);
        EmitByte(HSamp(s, i) * 16 + VSamp(s, i));
        EmitByte(if i > 0 then 1 else 0);
      }
    }

    /** emit_dht */
    method EmitDht(h: Huff, id: byte)
      requires Output() && ByteLists(h)
      modifies `ok, `stream, `puts, `outAt, `outLeft, `emitted, outBuf
      ensures Output() && emitted == old(emitted) + Segment(DHT, HuffBody(id, h))
    {
      hide Output, Total, Word16;
      ghost var was := emitted;
      var length := 0;
      TotalNext(h.bits, 0);
      for i := 1 to 17
        invariant length == Total(h.bits, i - 1) && Output() && emitted == was
      {
        TotalNext(h.bits, i);
        length := length + h.bits[i];
      }
      BeginSegment(DHT, length + 2 + 1 + 16);
      EmitByte(id);
      EmitBytes(Bytes(h.bits[1..]));
      EmitBytes(Bytes(h.val));
      assert emitted == was + Segment(DHT, HuffBody(id, h));
    }

    /** emit_dhts */
    method EmitDhts()
      requires Output() && Proportioned(picture)
      modifies `ok, `stream, `puts, `outAt, `outLeft, `emitted, outBuf
      ensures Output() && emitted == old(emitted) + Huffs(picture)
    {
      hide Output, ByteLists, HuffBody, Segment;
      ghost var was := emitted;
      EmitDht(picture.huffs[0], 0);
      EmitDht(picture.huffs[2], 0x10);
      if NumComponents(picture.sampling) == 3 {
        EmitDht(picture.huffs[1], 1);
        EmitDht(picture.huffs[3], 0x11);
      }
      assert emitted == was + Huffs(picture);
    }

    /** emit_sos */
    method EmitSos()
      requires Output()
      modifies `ok, `stream, `puts, `outAt, `outLeft, `emitted, outBuf
      ensures Output() && emitted == old(emitted) + Segment(SOS, ScanBody(picture.sampling))
    {
      hide Output, ScanComponents, Word16, Marker, Spectrum;
      ghost var was := emitted;
      var n := NumComponents(picture.sampling);
      SelectionsRead(picture.sampling, NOTHING);
      BeginSegment(SOS, 2 * n + 2 + 1 + 3);
      EmitByte(n);
      EmitScanComponents();
      EmitSpectrum();
      assert emitted == was + Segment(SOS, ScanBody(picture.sampling));
    }

    /** The loop of emit_sos. */
    method EmitScanComponents()
      requires Output()
      modifies `ok, `stream, `puts, `outAt, `outLeft, `emitted, outBuf
      ensures Output() && emitted == old(emitted) + ScanComponents(NumComponents(picture.sampling))
    {
      hide Output, ScanComponents;
      ghost var was := emitted;
      var n := NumComponents(picture.sampling);
      ComponentsNext(picture.sampling, 0);
      for i := 0 to n
        invariant Output() && emitted == was + ScanComponents(i)
        modifies `ok, `stream, `puts, `outAt, `outLeft, `emitted, outBuf
      {
        ComponentsNext(picture.sampling, i);
        EmitByte(i + 1);
        EmitByte(if i == 0 then 0 else 0x11);
      }
    }

    method EmitSpectrum()
      requires Output()
      modifies `ok, `stream, `puts, `outAt, `outLeft, `emitted, outBuf
      ensures Output() && emitted == old(emitted) + Spectrum()
    {
      hide Output;
      EmitByte(0);
      EmitByte(63);
      EmitByte(0);
    }

    /** The markers that jpg_open writes. */
    method EmitMarkers()
      requires Output() && Proportioned(picture)
      modifies `ok, `stream, `puts, `outAt, `outLeft, `emitted, outBuf
      ensures Output() && emitted == old(emitted) + Header(picture)
    {
      hide *;
      ghost var was := emitted;
      EmitMarker(SOI);
      EmitJfifApp0();
      EmitDqt();
      EmitSof();
      EmitDhts();
      EmitSos();
      HeaderAppended(was, picture);
    }

    /** The header is written before the scan. */
    method EmitHeader()
      requires Valid() && Proportioned(picture) && blocks == [] && packed == [] && pending == []
      modifies `ok, `stream, `puts, `outAt, `outLeft, `emitted, outBuf, `start
      ensures Valid() && start == old(start) + Header(picture)
    {
      hide BytesBits, Holding, ScanBits, After, Output, Holds, Usable, Stuff, Proportioned, Header;
      NothingStuffed();
      EmitMarkers();
      start := emitted;
    }

    /**
     process_end_of_image: if no write failed, the stream is the header, the scan padded with ones,
     and the end marker; and a decoder gets back every block, from the stream alone if it has its header.
     */
    method ProcessEndOfImage() returns (ghost pad: seq<bool>)
      requires Valid()
      modifies `ok, `stream, `puts, `outAt, `outLeft, `emitted, outBuf
      modifies `bitBuffer, `bitsIn, `packed, `pending
      ensures ok <==> AllAccepted(accepts, puts)
      ensures stream <= start + Stuff(packed) + Marker(EOI)
      ensures ok ==> stream == start + Stuff(packed) + Marker(EOI)
      ensures ok && Proportioned(picture) && Matching(picture, pair) && start == Header(picture) ==>
          Decodes(stream, picture, blocks)
      ensures |pad| < 8 && AllOnes(pad) && Unstuff(Stuff(packed) + Marker(EOI)) == (packed, Marker(EOI))
      ensures DecodeScan(pair, Components(blocks), NoPredictions(), BytesBits(packed)) == Some((blocks, pad))
    {
      hide *;
      pad := FinishScan();
      Associate(start, Stuff(packed), Marker(EOI));
      if Proportioned(picture) && Matching(picture, pair) {
        StreamDecodes(picture, pair, blocks, packed, pad);
      }
    }

    /** The padding, the end marker and the last flush. */
    method FinishScan() returns (ghost pad: seq<bool>)
      requires Valid()
      modifies `ok, `stream, `puts, `outAt, `outLeft, `emitted, outBuf
      modifies `bitBuffer, `bitsIn, `packed, `pending
      ensures stream <= start + Stuff(packed) + Marker(EOI) && (ok ==> stream == start + Stuff(packed) + Marker(EOI))
      ensures ok <==> AllAccepted(accepts, puts)
      ensures |pad| < 8 && AllOnes(pad) && Unstuff(Stuff(packed) + Marker(EOI)) == (packed, Marker(EOI))
      ensures AllCodable(blocks) && forall i :: 0 <= i < |blocks| ==>
          blocks[i].component < NumComponents(picture.sampling)
      ensures forall i :: 0 <= i < |Components(blocks)| ==> Components(blocks)[i] < 3
      ensures DecodeScan(pair, Components(blocks), NoPredictions(), BytesBits(packed)) == Some((blocks, pad))
    {
      hide BitsOf, BytesBits, Stuff, Holding, Pow2, ScanBits, DecodeScan, After, Unstuff, Value, Usable, Holds;
      ghost var s := Scan();
      SevenOnes();
      PutBits(0x7F, 7);
      FinishStream();
      pad := ReadBack(s);
    }

    /** The last part of process_end_of_image. */
    method FinishStream()
      requires Output()
      modifies `ok, `stream, `puts, `outAt, `outLeft, `emitted, outBuf
      ensures emitted == old(emitted) + Marker(EOI) && stream <= emitted && (ok ==> stream == emitted)
      ensures ok <==> AllAccepted(accepts, puts)
    {
      EmitMarker(EOI);
      FlushOutputBuffer();
      if ok {
        ok := accepts(puts);
        puts := puts + 1;
      }
    }

    /** The padded scan decodes to the blocks. */
    lemma ReadBack(s: seq<bool>) returns (pad: seq<bool>)
      requires Tables() && AllCodable(blocks) && s == ScanBits(pair, blocks, NoPredictions())
      requires |pending| < 8 && Scan() == s + BitsOf(0x7F, 7)
      ensures |pad| < 8 && AllOnes(pad) && Unstuff(Stuff(packed) + Marker(EOI)) == (packed, Marker(EOI))
      ensures DecodeScan(pair, Components(blocks), NoPredictions(), BytesBits(packed)) == Some((blocks, pad))
    {
      hide BitsOf, BytesBits, Stuff, ScanBits, DecodeScan, Unstuff, Usable, Holds, Components;
      StuffingUndone(packed, Marker(EOI));
      SevenOnes();
      Whole(BytesBits(packed), pending, s, BitsOf(0x7F, 7));
      pad := BitsOf(0x7F, 7)[..7 - |pending|];
      ScanReadBack(pair, blocks, NoPredictions(), pad);
    }
  }
}
