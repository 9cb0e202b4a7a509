/**
 The marker segments that jpge.cpp writes before a scan, and a reader of such segments that follows
 sections B.2.2 to B.2.4 of ITU-T T.81.
 */
module JpegMarkers {
  import opened Basics
  import opened JpegTables

  const SOI: byte := 0xD8
  const EOI: byte := 0xD9
  const SOF0: byte := 0xC0
  const DHT: byte := 0xC4
  const SOS: byte := 0xDA
  const DQT: byte := 0xDB
  const APP0: byte := 0xE0

  datatype Sampling = YOnly | H1V1 | H2V1 | H2V2

  /** The lists of a Huffman table: how many codes have each length, and the symbols in order. */
  datatype Huff = Huff(bits: seq<nat>, val: seq<nat>)

  /** What the encoder knows of a picture; the lists are in the order of m_huff_bits. */
  datatype Picture = Picture(width: nat, height: nat, sampling: Sampling, quants: seq<seq<byte>>, huffs: seq<Huff>)

  function NumComponents(s: Sampling): nat {
    if s.YOnly? then 1 else 3
  }

  function HSamp(s: Sampling, component: nat): byte {
    if component == 0 && (s.H2V1? || s.H2V2?) then 2 else 1
  }

  function VSamp(s: Sampling, component: nat): byte {
    if component == 0 && s.H2V2? then 2 else 1
  }

  /** A list of counts and symbols that all fit in bytes. */
  predicate ByteLists(h: Huff) {
    && |h.bits| == 17 && h.bits[0] == 0 && Total(h.bits, |h.bits| - 1) == |h.val| <= 256
    && (forall l :: 0 <= l < 17 ==> h.bits[l] < 256) && (forall p :: 0 <= p < |h.val| ==> h.val[p] < 256)
  }

  ghost predicate Proportioned(p: Picture) {
    && |p.quants| == 2 && |p.quants[0]| == 64 && |p.quants[1]| == 64
    && |p.huffs| == 4 && ByteLists(p.huffs[0]) && ByteLists(p.huffs[1]) && ByteLists(p.huffs[2]) &&
        ByteLists(p.huffs[3])
  }

  // ----- what is written

  /** emit_word; only the low sixteen bits are written. */
  function Word16(i: nat): (s: seq<byte>)
    ensures |s| == 2
  {
    [i / 256 % 256, i % 256]
  }

  function One(b: byte): seq<byte> {
    [b]
  }

  /** emit_marker */
  function Marker(marker: byte): (s: seq<byte>)
    ensures |s| == 2
  {
    [0xFF, marker]
  }

  function Segment(marker: byte, body: seq<byte>): seq<byte> {
    Marker(marker) + Word16(|body| + 2) + body
  }

  /** "JFIF" and a zero. */
  function JfifName(): seq<byte> {
    [0x4A, 0x46, 0x49, 0x46, 0]
  }

  /** The version and the density unit. */
  function JfifVersion(): seq<byte> {
    [1, 1, 0]
  }

  function JfifDensity(): seq<byte> {
    Word16(1) + Word16(1)
  }

  /** No thumbnail. */
  function JfifThumbnail(): seq<byte> {
    [0, 0]
  }

  function Jfif(): seq<byte> {
    JfifName() + (JfifVersion() + (JfifDensity() + JfifThumbnail()))
  }

  function QuantBody(id: byte, table: seq<byte>): seq<byte> {
    One(id) + table
  }

  function FrameComponent(s: Sampling, i: nat): seq<byte>
    requires i < 3
  {
    [i + 1, HSamp(s, i) * 16 + VSamp(s, i), if i > 0 then 1 else 0]
  }

  function FrameComponents(s: Sampling, n: nat): seq<byte>
    requires n <= 3
  {
    if n == 0 then [] else FrameComponents(s, n - 1) + FrameComponent(s, n - 1)
  }

  /** The fixed part of a frame header. */
  function FrameSize(p: Picture): seq<byte> {
    One(8) + Word16(p.height) + Word16(p.width) + One(NumComponents(p.sampling))
  }

  function FrameBody(p: Picture): seq<byte> {
    FrameSize(p) + FrameComponents(p.sampling, NumComponents(p.sampling))
  }

  function Bytes(s: seq<nat>): (b: seq<byte>)
    requires forall i :: 0 <= i < |s| ==> s[i] < 256
    ensures |b| == |s| && forall i :: 0 <= i < |s| ==> b[i] == s[i]
  {
    seq(|s|, i requires 0 <= i < |s| => s[i])
  }

  function HuffBody(id: byte, h: Huff): seq<byte>
    requires ByteLists(h)
  {
    One(id) + Bytes(h.bits[1..]) + Bytes(h.val)
  }

  function ScanComponents(n: nat): seq<byte>
    requires n <= 3
  {
    if n == 0 then [] else ScanComponents(n - 1) + [n, if n == 1 then 0 else 0x11]
  }

  /** All coefficients, none approximated. */
  function Spectrum(): seq<byte> {
    [0, 63, 0]
  }

  function ScanBody(s: Sampling): seq<byte> {
    One(NumComponents(s)) + ScanComponents(NumComponents(s)) + Spectrum()
  }

  function Quants(p: Picture): seq<byte>
    requires Proportioned(p)
  {
    Segment(DQT, QuantBody(0, p.quants[0])) + if p.sampling.YOnly? then [] else Segment(DQT, QuantBody(1, p.quants[1]))
  }

  function Huffs(p: Picture): seq<byte>
    requires Proportioned(p)
  {
    Segment(DHT, HuffBody(0, p.huffs[0])) + Segment(DHT, HuffBody(0x10, p.huffs[2]))
    + if p.sampling.YOnly? then [] else Segment(DHT, HuffBody(1, p.huffs[1])) + Segment(DHT, HuffBody(0x11, p.huffs[3]))
  }

  /** The markers of jpg_open. */
  function Header(p: Picture): seq<byte>
    requires Proportioned(p)
  {
    Marker(SOI) + Segment(APP0, Jfif()) + Quants(p) + Segment(SOF0, FrameBody(p)) + Huffs(p) +
        Segment(SOS, ScanBody(p.sampling))
  }

  // ----- a reader

  datatype Component = Component(id: byte, h: nat, v: nat, quant: byte)

  /** A component of a scan and its two tables. */
  datatype Selection = Selection(id: byte, dc: nat, ac: nat)

  /** The version of the file format, and the density of the picture. */
  datatype Format = Format(major: byte, minor: byte, unit: byte, x: nat, y: nat)

  /** What a decoder has read; tables are kept by their destinations. */
  datatype Info = Info(format: Option<Format>, quants: map<byte, seq<byte>>, huffs: map<byte, Huff>,
                       width: nat, height: nat, components: seq<Component>, scan: seq<Selection>)

  const NOTHING := Info(None, map[], map[], 0, 0, [], [])

  function Get16(s: seq<byte>): nat
    requires |s| >= 2
  {
    s[0] as int * 256 + s[1] as int
  }

  /** The identifying segment of a JFIF file; a segment of another kind says nothing. */
  function ReadJfif(s: seq<byte>, info: Info): Option<Info> {
    if |s| >= 14 && s[0] == 0x4A && s[1] == 0x46 && s[2] == 0x49 && s[3] == 0x46 && s[4] == 0 then
      Some(info.(format := Some(Format(s[5], s[6], s[7], Get16(s[8..]), Get16(s[10..])))))
    else Some(info)
  }

  /** Any number of quantization tables of eight-bit values. */
  function ReadQuants(s: seq<byte>, info: Info): Option<Info>
    decreases |s|
  {
    if s == [] then Some(info)
    else if |s| < 65 || s[0] >= 4 then None
    else ReadQuants(s[65..], info.(quants := info.quants[s[0] := s[1..65]]))
  }

  /** Any number of Huffman tables. */
  function ReadHuffs(s: seq<byte>, info: Info): Option<Info>
    decreases |s|
  {
    if s == [] then Some(info)
    else if |s| < 17 then None
    else
      var bits := [0] + Ints(s[1..17]);
      var n := Total(bits, |bits| - 1);
      if |s| < 17 + n then None
      else ReadHuffs(s[17 + n..], info.(huffs := info.huffs[s[0] := Huff(bits, Ints(s[17..17 + n]))]))
  }

  function Ints(s: seq<byte>): (b: seq<nat>)
    ensures |b| == |s| && forall i :: 0 <= i < |s| ==> b[i] == s[i]
  {
    seq(|s|, i requires 0 <= i < |s| => s[i])
  }

  function ReadComponents(s: seq<byte>): seq<Component>
    decreases |s|
  {
    if |s| < 3 then [] else [Component(s[0], s[1] as int / 16, s[1] as int % 16, s[2])] + ReadComponents(s[3..])
  }

  function ReadFrame(s: seq<byte>, info: Info): Option<Info> {
    if |s| < 6 || s[0] != 8 || |s| != 6 + 3 * (s[5] as int) then None
    else Some(info.(height := Get16(s[1..]), width := Get16(s[3..]), components := ReadComponents(s[6..])))
  }

  function ReadSelections(s: seq<byte>): seq<Selection>
    decreases |s|
  {
    if |s| < 2 then [] else [Selection(s[0], s[1] as int / 16, s[1] as int % 16)] + ReadSelections(s[2..])
  }

  function ReadScan(s: seq<byte>, info: Info): Option<Info> {
    if |s| < 4 || |s| != 4 + 2 * (s[0] as int) || s[|s| - 3] != 0 || s[|s| - 2] != 63 || s[|s| - 1] != 0 then None
    else Some(info.(scan := ReadSelections(s[1..|s| - 3])))
  }

  /** Segments up to the start of a scan, and what comes after its header; others are passed over. */
  function ReadSegments(s: seq<byte>, info: Info): Option<(Info, seq<byte>)>
    decreases |s|
  {
    if |s| < 4 || s[0] != 0xFF || Get16(s[2..]) < 2 || |s| < 2 + Get16(s[2..]) then None
    else
      var end := 2 + Get16(s[2..]);
      var body, rest := s[4..end], s[end..];
      if s[1] == 0xDA then
        var r := ReadScan(body, info);
        if r.None? then None else Some((r.value, rest))
      else
        var r := if s[1] == 0xDB then ReadQuants(body, info)
                 else if s[1] == 0xC4 then ReadHuffs(body, info)
                 else if s[1] == 0xC0 then ReadFrame(body, info)
                 else if s[1] == 0xE0 then ReadJfif(body, info)
                 else Some(info);
        if r.None? then None else ReadSegments(rest, r.value)
  }

  function ReadHeader(s: seq<byte>): Option<(Info, seq<byte>)> {
    if |s| < 2 || s[0] != 0xFF || s[1] != 0xD8 then None else ReadSegments(s[2..], NOTHING)
  }

  // ----- the header is read back

  /** The effect of one segment other than that of a scan. */
  function Applied(marker: byte, body: seq<byte>, info: Info): Option<Info> {
    if marker == 0xDB then ReadQuants(body, info)
    else if marker == 0xC4 then ReadHuffs(body, info)
    else if marker == 0xC0 then ReadFrame(body, info)
    else if marker == 0xE0 then ReadJfif(body, info)
    else Some(info)
  }

  lemma SegmentShape(marker: byte, body: seq<byte>, rest: seq<byte>)
    requires |body| < 65534
    ensures var s := Segment(marker, body) + rest;
      && |s| == 4 + |body| + |rest| && s[0] == 0xFF && s[1] == marker && Get16(s[2..]) == |body| + 2
      && s[4..4 + |body|] == body && s[4 + |body|..] == rest
  {
    var s := Segment(marker, body) + rest;
    assert s[2..][0] == (|body| + 2) / 256 % 256 && s[2..][1] == (|body| + 2) % 256;
  }

  lemma SegmentRead(marker: byte, body: seq<byte>, rest: seq<byte>, info: Info)
    requires |body| < 65534 && marker != 0xDA && Applied(marker, body, info).Some?
    ensures ReadSegments(Segment(marker, body) + rest, info) == ReadSegments(rest, Applied(marker, body, info).value)
  {
    hide Segment, ReadQuants, ReadHuffs, ReadFrame, ReadJfif, Get16;
    SegmentShape(marker, body, rest);
  }

  lemma ScanRead(body: seq<byte>, rest: seq<byte>, info: Info)
    requires |body| < 65534 && ReadScan(body, info).Some?
    ensures ReadSegments(Segment(SOS, body) + rest, info) == Some((ReadScan(body, info).value, rest))
  {
    hide Segment, ReadScan, Get16;
    SegmentShape(SOS, body, rest);
  }

  lemma QuantRead(id: byte, table: seq<byte>, info: Info)
    requires id < 4 && |table| == 64
    ensures ReadQuants(QuantBody(id, table), info) == Some(info.(quants := info.quants[id := table]))
  {
    var s := QuantBody(id, table);
    assert s[1..65] == table && s[65..] == [];
  }

  lemma HuffRead(id: byte, h: Huff, info: Info)
    requires ByteLists(h)
    ensures ReadHuffs(HuffBody(id, h), info) == Some(info.(huffs := info.huffs[id := h]))
  {
    hide Total;
    var s, n := HuffBody(id, h), |h.val|;
    assert [0] + Ints(s[1..17]) == h.bits;
    assert Ints(s[17..17 + n]) == h.val && s[17 + n..] == [];
    assert |s| == 17 + n;
    assert ReadHuffs([], info.(huffs := info.huffs[id := h])) == Some(info.(huffs := info.huffs[id := h]));
  }

  /** The components as a decoder sees them. */
  function ComponentsOf(s: Sampling): seq<Component> {
    seq(NumComponents(s), i requires 0 <= i < NumComponents(s) =>
      Component(i + 1, HSamp(s, i), VSamp(s, i), if i > 0 then 1 else 0))
  }

  function SelectionsOf(s: Sampling): seq<Selection> {
    seq(NumComponents(s), i requires 0 <= i < NumComponents(s) =>
      Selection(i + 1, if i > 0 then 1 else 0, if i > 0 then 1 else 0))
  }

  /** What a decoder knows after the header. */
  function InfoOf(p: Picture): Info
    requires Proportioned(p)
  {
    Info(Some(Format(1, 1, 0, 1, 1)),
         if p.sampling.YOnly? then map[0 := p.quants[0]] else map[0 := p.quants[0], 1 := p.quants[1]],
         if p.sampling.YOnly? then map[0 := p.huffs[0], 0x10 := p.huffs[2]]
         else map[0 := p.huffs[0], 0x10 := p.huffs[2], 1 := p.huffs[1], 0x11 := p.huffs[3]],
         p.width % 0x1_0000, p.height % 0x1_0000, ComponentsOf(p.sampling), SelectionsOf(p.sampling))
  }

  lemma QuantsRead(p: Picture, rest: seq<byte>, info: Info)
    requires Proportioned(p) && info.quants == map[]
    ensures ReadSegments(Quants(p) + rest, info) == ReadSegments(rest, info.(quants := InfoOf(p).quants))
  {
    hide ReadSegments, ReadQuants, ReadHuffs, ReadFrame, Segment, ReadScan, ByteLists;
    var first, second := Segment(DQT, QuantBody(0, p.quants[0])), Segment(DQT, QuantBody(1, p.quants[1]));
    var info1 := info.(quants := map[0 := p.quants[0]]);
    QuantRead(0, p.quants[0], info);
    if p.sampling.YOnly? {
      SegmentRead(DQT, QuantBody(0, p.quants[0]), rest, info);
      assert first + [] == first;
    } else {
      SegmentRead(DQT, QuantBody(0, p.quants[0]), second + rest, info);
      QuantRead(1, p.quants[1], info1);
      SegmentRead(DQT, QuantBody(1, p.quants[1]), rest, info1);
      Associate(first, second, rest);
      assert map[0 := p.quants[0]][1 := p.quants[1]] == map[0 := p.quants[0], 1 := p.quants[1]];
    }
  }

  /** One table of emit_dht. */
  lemma HuffSegmentRead(id: byte, h: Huff, rest: seq<byte>, info: Info)
    requires ByteLists(h)
    ensures ReadSegments(Segment(DHT, HuffBody(id, h)) + rest, info) ==
        ReadSegments(rest, info.(huffs := info.huffs[id := h]))
  {
    hide ReadSegments, ReadQuants, ReadHuffs, ReadFrame, Segment, ReadScan;
    HuffRead(id, h, info);
    SegmentRead(DHT, HuffBody(id, h), rest, info);
  }

  lemma HuffsRead(p: Picture, rest: seq<byte>, info: Info)
    requires Proportioned(p) && info.huffs == map[]
    ensures ReadSegments(Huffs(p) + rest, info) == ReadSegments(rest, info.(huffs := InfoOf(p).huffs))
  {
    hide ReadSegments, Segment, HuffBody, ByteLists;
    var s0, s2 := Segment(DHT, HuffBody(0, p.huffs[0])), Segment(DHT, HuffBody(0x10, p.huffs[2]));
    var s1, s3 := Segment(DHT, HuffBody(1, p.huffs[1])), Segment(DHT, HuffBody(0x11, p.huffs[3]));
    var luma := map[0 := p.huffs[0], 0x10 := p.huffs[2]];
    var info1, info2 := info.(huffs := map[0 := p.huffs[0]]), info.(huffs := luma);
    assert map[0 := p.huffs[0]][0x10 := p.huffs[2]] == luma;
    if p.sampling.YOnly? {
      HuffSegmentRead(0, p.huffs[0], s2 + rest, info);
      HuffSegmentRead(0x10, p.huffs[2], rest, info1);
      assert s0 + s2 + [] + rest == s0 + (s2 + rest);
    } else {
      var info3 := info.(huffs := luma[1 := p.huffs[1]]);
      HuffSegmentRead(0, p.huffs[0], s2 + (s1 + (s3 + rest)), info);
      HuffSegmentRead(0x10, p.huffs[2], s1 + (s3 + rest), info1);
      HuffSegmentRead(1, p.huffs[1], s3 + rest, info2);
      HuffSegmentRead(0x11, p.huffs[3], rest, info3);
      FourParts(s0, s2, s1, s3, rest);
      assert luma[1 := p.huffs[1]][0x11 := p.huffs[3]] == InfoOf(p).huffs;
    }
  }

  lemma FourParts(a: seq<byte>, b: seq<byte>, c: seq<byte>, d: seq<byte>, e: seq<byte>)
    ensures a + b + (c + d) + e == a + (b + (c + (d + e)))
  {
  }

  lemma ComponentsNext(s: Sampling, i: nat)
    requires i < 3
    ensures FrameComponents(s, 0) == [] && ScanComponents(0) == []
    ensures FrameComponents(s, i + 1) ==
            FrameComponents(s, i) + One(i + 1) + One(HSamp(s, i) * 16 + VSamp(s, i)) + One(if i > 0 then 1 else 0)
    ensures ScanComponents(i + 1) == ScanComponents(i) + One(i + 1) + One(if i == 0 then 0 else 0x11)
  {
  }

  lemma ReadComponentsNext(s: seq<byte>, rest: seq<byte>)
    requires |s| == 3
    ensures ReadComponents(s + rest) ==
            [Component(s[0], s[1] as int / 16, s[1] as int % 16, s[2])] + ReadComponents(rest)
    ensures ReadComponents([]) == []
  {
    assert (s + rest)[3..] == rest;
  }

  /** The components, first to last. */
  lemma FrameComponentsList(s: Sampling)
    ensures FrameComponents(s, 1) == FrameComponent(s, 0) + []
    ensures FrameComponents(s, 3) == FrameComponent(s, 0) + (FrameComponent(s, 1) + (FrameComponent(s, 2) + []))
  {
    assert FrameComponents(s, 0) == [];
    assert FrameComponents(s, 2) == FrameComponents(s, 1) + FrameComponent(s, 1);
  }

  /** The components of a picture in three colours. */
  lemma ThreeComponents(s: Sampling)
    ensures s.YOnly? ==> ComponentsOf(s) == [Component(1, 1, 1, 0)]
    ensures var a, b, c := Component(1, HSamp(s, 0), VSamp(s, 0), 0), Component(2, 1, 1, 1), Component(3, 1, 1, 1);
      !s.YOnly? ==> ComponentsOf(s) == [a] + ([b] + ([c] + []))
  {
  }

  lemma FrameComponentsRead(s: Sampling)
    ensures var n := NumComponents(s);
      |FrameComponents(s, n)| == 3 * n && ReadComponents(FrameComponents(s, n)) == ComponentsOf(s)
  {
    hide FrameComponents, ReadComponents, ComponentsOf;
    FrameComponentsList(s);
    ThreeComponents(s);
    var b, c := FrameComponent(s, 1), FrameComponent(s, 2);
    if s.YOnly? {
      ReadComponentsNext(FrameComponent(s, 0), []);
    } else {
      ReadComponentsNext(c, []);
      ReadComponentsNext(b, c + []);
      ReadComponentsNext(FrameComponent(s, 0), b + (c + []));
    }
  }

  lemma FrameRead(p: Picture, info: Info)
    ensures |FrameBody(p)| <= 15 && ReadFrame(FrameBody(p), info) == Some(info.(
      width := p.width % 0x1_0000, height := p.height % 0x1_0000, components := ComponentsOf(p.sampling)))
  {
    FrameComponentsRead(p.sampling);
    hide FrameComponents, ReadComponents, ComponentsOf;
    var s := FrameBody(p);
    assert s[6..] == FrameComponents(p.sampling, NumComponents(p.sampling));
    WordRead(p.height);
    WordRead(p.width);
    assert s[1..][..2] == Word16(p.height) && s[3..][..2] == Word16(p.width);
  }

  /** The low sixteen bits come back. */
  lemma WordRead(i: nat)
    ensures i / 256 % 256 * 256 + i % 256 == i % 0x1_0000
  {
  }

  lemma SelectionListsRead()
    ensures ReadSelections([1, 0]) == [Selection(1, 0, 0)]
    ensures ReadSelections([1, 0, 2, 0x11, 3, 0x11]) == [Selection(1, 0, 0), Selection(2, 1, 1), Selection(3, 1, 1)]
  {
    var s: seq<byte> := [1, 0, 2, 0x11, 3, 0x11];
    assert s[2..] == [2, 0x11, 3, 0x11] && s[2..][2..] == [3, 0x11] && s[2..][2..][2..] == [];
    assert ReadSelections(s[2..][2..]) == [Selection(3, 1, 1)];
    assert ReadSelections(s[2..]) == [Selection(2, 1, 1), Selection(3, 1, 1)];
    assert [1 as byte, 0][2..] == [];
  }

  lemma SelectionsRead(s: Sampling, info: Info)
    ensures |ScanBody(s)| <= 10 && ReadScan(ScanBody(s), info) == Some(info.(scan := SelectionsOf(s)))
  {
    SelectionListsRead();
    hide ReadSelections;
    var b, n := ScanBody(s), NumComponents(s);
    assert ScanComponents(0) == [] && ScanComponents(1) == [1, 0];
    if s.YOnly? {
      assert b[1..|b| - 3] == [1, 0];
      assert SelectionsOf(s) == [Selection(1, 0, 0)];
    } else {
      assert ScanComponents(2) == [1, 0, 2, 0x11];
      assert ScanComponents(3) == [1, 0, 2, 0x11, 3, 0x11];
      assert b[1..|b| - 3] == [1, 0, 2, 0x11, 3, 0x11];
      assert SelectionsOf(s) == [Selection(1, 0, 0), Selection(2, 1, 1), Selection(3, 1, 1)];
    }
  }

  /** What a decoder learns from the header, and where it finds the scan. */
  lemma HeaderReadBack(p: Picture, rest: seq<byte>)
    requires Proportioned(p)
    ensures ReadHeader(Header(p) + rest) == Some((InfoOf(p), rest))
  {
    hide ReadSegments, ReadScan, ReadFrame, ReadQuants, ReadHuffs, ReadJfif, Segment, Quants, Huffs, FrameBody,
        ScanBody, Jfif,
        Proportioned;
    var app, frame, scan := Segment(APP0, Jfif()), Segment(SOF0, FrameBody(p)), Segment(SOS, ScanBody(p.sampling));
    var t3 := frame + (Huffs(p) + (scan + rest));
    HeaderParts(app, Quants(p), frame, Huffs(p), scan, rest);
    var i0 := NOTHING.(format := Some(Format(1, 1, 0, 1, 1)));
    var i1 := i0.(quants := InfoOf(p).quants);
    var i2 := i1.(width := p.width % 0x1_0000, height := p.height % 0x1_0000, components := ComponentsOf(p.sampling));
    var i3 := i2.(huffs := InfoOf(p).huffs);
    JfifRead(NOTHING);
    SegmentRead(APP0, Jfif(), Quants(p) + t3, NOTHING);
    QuantsRead(p, t3, i0);
    FrameRead(p, i1);
    SegmentRead(SOF0, FrameBody(p), Huffs(p) + (scan + rest), i1);
    HuffsRead(p, scan + rest, i2);
    SelectionsRead(p.sampling, i3);
    ScanRead(ScanBody(p.sampling), rest, i3);
  }

  lemma JfifRead(info: Info)
    ensures |Jfif()| == 14 && ReadJfif(Jfif(), info) == Some(info.(format := Some(Format(1, 1, 0, 1, 1))))
  {
    var s := Jfif();
    assert s[8..][0] == 0 && s[8..][1] == 1 && s[10..][0] == 0 && s[10..][1] == 1;
  }

  lemma HeaderAppended(was: seq<byte>, p: Picture)
    requires Proportioned(p)
    ensures was + Marker(SOI) + Segment(APP0, Jfif()) + Quants(p) + Segment(SOF0, FrameBody(p)) + Huffs(p)
            + Segment(SOS, ScanBody(p.sampling)) == was + Header(p)
  {
    hide Segment, Quants, Huffs, FrameBody, ScanBody, Marker, Jfif, Proportioned;
  }

  lemma HeaderParts(a: seq<byte>, b: seq<byte>, c: seq<byte>, d: seq<byte>, e: seq<byte>, rest: seq<byte>)
    ensures var whole := Marker(SOI) + a + b + c + d + e + rest;
      |whole| >= 2 && whole[0] == 0xFF && whole[1] == SOI && whole[2..] == a + (b + (c + (d + (e + rest))))
  {
  }

  /** A decoder sees the true size of a picture exactly when it fits in sixteen bits. */
  lemma SizeReadIff(p: Picture)
    requires Proportioned(p)
    ensures InfoOf(p).width == p.width && InfoOf(p).height == p.height <==> p.width < 0x1_0000 && p.height < 0x1_0000
  {
  }

  // ----- the order of the blocks

  /** The components of the blocks of one MCU, in order. */
  function McuOrder(s: Sampling): seq<nat> {
    match s
    case YOnly => [0]
    case H1V1 => [0, 1, 2]
    case H2V1 => [0, 0, 1, 2]
    case H2V2 => [0, 0, 0, 0, 1, 2]
  }

  function McuWidth(s: Sampling): (w: nat)
    ensures w > 0
  {
    if s.H2V1? || s.H2V2? then 16 else 8
  }

  function McuHeight(s: Sampling): (h: nat)
    ensures h > 0
  {
    if s.H2V2? then 16 else 8
  }

  function RoundedUp(n: nat, unit: nat): nat
    requires unit > 0
  {
    (n + unit - 1) / unit
  }

  /** m_mcus_per_row */
  function McusPerRow(p: Picture): nat {
    RoundedUp(p.width, McuWidth(p.sampling))
  }

  /** The number of MCUs. */
  function McuCount(p: Picture): nat {
    McusPerRow(p) * RoundedUp(p.height, McuHeight(p.sampling))
  }

  function Repeated(order: seq<nat>, k: nat): seq<nat> {
    if k == 0 then [] else Repeated(order, k - 1) + order
  }

  lemma RepeatedNext(order: seq<nat>, k: nat)
    ensures Repeated(order, 0) == [] && Repeated(order, k + 1) == Repeated(order, k) + order
  {
  }

  /** The components of one MCU as section A.2.3 of ITU-T T.81 has them; a lone component has one block. */
  function OrderOf(components: seq<Component>): seq<nat> {
    if |components| == 1 then [0] else Interleaved(components)
  }

  function Interleaved(components: seq<Component>): seq<nat> {
    if components == [] then []
    else
      var last := components[|components| - 1];
      Interleaved(components[..|components| - 1]) + Repeated([|components| - 1], last.h * last.v)
  }

  function MostH(components: seq<Component>): nat {
    if components == [] then 1 else Max(MostH(components[1..]), components[0].h)
  }

  function MostV(components: seq<Component>): nat {
    if components == [] then 1 else Max(MostV(components[1..]), components[0].v)
  }

  function Max(a: nat, b: nat): (m: nat)
    ensures m >= a && m >= b
  {
    if a >= b then a else b
  }

  /** The components of all blocks of the scan, as a decoder expects them from the header. */
  function ScanOrder(info: Info): seq<nat> {
    var c := info.components;
    if MostH(c) < 1 || MostV(c) < 1 then []
    else Repeated(OrderOf(c), RoundedUp(info.width, 8 * MostH(c)) * RoundedUp(info.height, 8 * MostV(c)))
  }

  lemma InterleavedThree(a: Component, b: Component, c: Component)
    ensures Interleaved([a, b, c]) == Repeated([0], a.h * a.v) + Repeated([1], b.h * b.v) + Repeated([2], c.h * c.v)
  {
    hide Repeated;
    var s := [a, b, c];
    assert s[..2] == [a, b] && [a, b][..1] == [a] && [a][..0] == [];
    assert Interleaved([]) == [];
    assert Interleaved([a]) == Repeated([0], a.h * a.v);
    assert Interleaved([a, b]) == Interleaved([a]) + Repeated([1], b.h * b.v);
  }

  lemma MostOfThree(a: Component, b: Component, c: Component)
    requires b.h == b.v == c.h == c.v == 1 && a.h >= 1 && a.v >= 1
    ensures MostH([a, b, c]) == a.h && MostV([a, b, c]) == a.v
  {
    var s := [a, b, c];
    assert s[1..] == [b, c] && [b, c][1..] == [c] && [c][1..] == [];
    assert MostH([c]) == 1 && MostV([c]) == 1;
    assert MostH([b, c]) == 1 && MostV([b, c]) == 1;
  }

  /** Up to four blocks of a component. */
  lemma RepeatedFew(n: nat)
    ensures Repeated([n], 1) == [n] && Repeated([n], 2) == [n, n] && Repeated([n], 4) == [n, n, n, n]
  {
    assert Repeated([n], 1) == [n];
    assert Repeated([n], 3) == [n, n, n];
  }

  /** A first component with `n` blocks, and two with one each. */
  lemma ColourOrder(a: Component, b: Component, c: Component, n: nat)
    requires b.h == b.v == c.h == c.v == 1 && a.h >= 1 && a.v >= 1 && n == a.h * a.v
    ensures OrderOf([a, b, c]) == Repeated([0], n) + Repeated([1], 1) + Repeated([2], 1)
    ensures MostH([a, b, c]) == a.h && MostV([a, b, c]) == a.v
  {
    hide Interleaved, Repeated, MostH, MostV;
    InterleavedThree(a, b, c);
    MostOfThree(a, b, c);
  }

  lemma LoneOrder(c: Component)
    requires c.h == c.v == 1
    ensures OrderOf([c]) == [0] && MostH([c]) == 1 && MostV([c]) == 1
  {
    assert [c][1..] == [];
  }

  /** The factors and blocks of the first component. */
  lemma FirstComponent(s: Sampling) returns (n: nat)
    ensures n == HSamp(s, 0) * VSamp(s, 0) && McuWidth(s) == 8 * HSamp(s, 0) && McuHeight(s) == 8 * VSamp(s, 0)
    ensures s.YOnly? || McuOrder(s) == Repeated([0], n) + Repeated([1], 1) + Repeated([2], 1)
  {
    RepeatedFew(0);
    RepeatedFew(1);
    RepeatedFew(2);
    hide Repeated;
    n := match s case YOnly => 1 case H1V1 => 1 case H2V1 => 2 case H2V2 => 4;
  }

  lemma OrderFound(s: Sampling)
    ensures OrderOf(ComponentsOf(s)) == McuOrder(s)
    ensures 8 * MostH(ComponentsOf(s)) == McuWidth(s) && 8 * MostV(ComponentsOf(s)) == McuHeight(s)
  {
    hide ComponentsOf, OrderOf, MostH, MostV, Repeated;
    var n := FirstComponent(s);
    ThreeComponents(s);
    if s.YOnly? {
      LoneOrder(Component(1, 1, 1, 0));
    } else {
      hide McuOrder, HSamp, VSamp, McuWidth, McuHeight;
      var a, b, c := Component(1, HSamp(s, 0), VSamp(s, 0), 0), Component(2, 1, 1, 1), Component(3, 1, 1, 1);
      assert ComponentsOf(s) == [a, b, c];
      ColourOrder(a, b, c, n);
    }
  }

  /** Of a picture whose size fits in sixteen bits, a decoder knows the order of the blocks. */
  lemma OrderReadBack(p: Picture)
    requires Proportioned(p) && p.width < 0x1_0000 && p.height < 0x1_0000
    ensures ScanOrder(InfoOf(p)) ==
      Repeated(McuOrder(p.sampling), McuCount(p))
  {
    hide Proportioned, OrderOf, McuOrder, MostH, MostV, ComponentsOf, Repeated, RoundedUp;
    OrderFound(p.sampling);
  }
}
