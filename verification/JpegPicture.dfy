/**
 A whole picture from jpg_open to process_end_of_image: the rows of MCUs, the blocks of each MCU, and
 what a decoder gets from the finished stream.
 */
module JpegPicture {
  import opened Basics
  import opened JpegScan
  import opened JpegMarkers
  import opened JpegEncoder
  import D = JpegDct
  import CameraFrames

  /** The samples that load_block gives for every block of the scan. */
  type Source = nat -> seq<D.int32>

  ghost predicate IsSource(samples: Source) {
    forall i: nat :: |samples(i)| == 64 && D.Samples(samples(i))
  }

  /** The blocks have the components of `order`, and each is the quantized transform of its samples. */
  ghost predicate Done(p: Picture, samples: Source, order: seq<nat>, blocks: seq<Coded>) {
    QuantizersOk(p) && Components(blocks) == order && forall i :: 0 <= i < |blocks| ==>
        IsBlock(p, samples(i), blocks[i])
  }

  ghost predicate IsBlock(p: Picture, samples: seq<D.int32>, c: Coded)
    requires QuantizersOk(p)
  {
    IsTransform(samples, QuantTable(p, c.component), c.block)
  }

  lemma DoneNext(p: Picture, samples: Source, order: seq<nat>, was: seq<Coded>, now: seq<Coded>, component: nat)
    requires Done(p, samples, order, was)
    requires OneMore(was, now, component, samples(|order|), QuantTable(p, component))
    ensures Done(p, samples, order + [component], now) && |was| == |order|
  {
    hide IsTransform, QuantizersOk;
    assert now == was + [now[|was|]];
    assert Components(now) == Components(was) + [component];
    forall i | 0 <= i < |now|
      ensures IsBlock(p, samples(i), now[i])
    {
      assert i < |was| ==> now[i] == was[i];
    }
  }

  lemma NothingDone(p: Picture, samples: Source)
    requires QuantizersOk(p)
    ensures Done(p, samples, [], [])
  {
  }

  lemma SourceAt(samples: Source, i: nat)
    requires IsSource(samples)
    ensures |samples(i)| == 64 && D.Samples(samples(i))
  {
  }

  lemma HasQuantizers(p: Picture, samples: Source, order: seq<nat>, blocks: seq<Coded>)
    requires Done(p, samples, order, blocks)
    ensures QuantizersOk(p)
  {
  }

  /** m_sample_array */
  method LoadSamples(samples: seq<D.int32>) returns (a: array<D.int32>)
    ensures fresh(a) && a[..] == samples && a.Length == |samples|
  {
    a := new D.int32[|samples|](i requires 0 <= i < |samples| => samples[i]);
  }

  /** A load_block and code_block. */
  method CodeNext(e: Encoder, samples: Source, component: nat, at: nat, ghost order: seq<nat>)
    requires e.Valid() && IsSource(samples) && Done(e.picture, samples, order, e.blocks) && at == |order|
    requires component < NumComponents(e.picture.sampling)
    modifies e, e.outBuf, e.lastDc
    ensures e.Valid() && e.start == old(e.start) && Done(e.picture, samples, order + [component], e.blocks)
  {
    hide *;
    ghost var was := e.blocks;
    HasQuantizers(e.picture, samples, order, e.blocks);
    SourceAt(samples, at);
    var a := LoadSamples(samples(at));
    e.CodeBlock(component, a);
    DoneNext(e.picture, samples, order, was, e.blocks, component);
  }

  /** One turn of a loop of process_mcu_row: the blocks of one MCU. */
  method CodeMcu(e: Encoder, samples: Source, at: nat, ghost order: seq<nat>)
    requires e.Valid() && IsSource(samples) && Done(e.picture, samples, order, e.blocks) && at == |order|
    modifies e, e.outBuf, e.lastDc
    ensures e.Valid() && e.start == old(e.start)
    ensures Done(e.picture, samples, order + McuOrder(e.picture.sampling), e.blocks)
  {
    hide Encoder.Valid, IsSource, Done;
    var s := e.picture.sampling;
    CodeNext(e, samples, 0, at, order);
    if NumComponents(s) == 1 {
      return;
    }
    ghost var luma := order + [0];
    var n := at + 1;
    if HSamp(s, 0) == 2 {
      CodeNext(e, samples, 0, n, luma);
      luma, n := luma + [0], n + 1;
    }
    if VSamp(s, 0) == 2 {
      CodeNext(e, samples, 0, n, luma);
      CodeNext(e, samples, 0, n + 1, luma + [0]);
      luma, n := luma + [0] + [0], n + 2;
    }
    CodeNext(e, samples, 1, n, luma);
    CodeNext(e, samples, 2, n + 1, luma + [1]);
    assert luma + [1] + [2] == order + McuOrder(s);
  }

  /** process_mcu_row, when `k` MCUs are done. */
  method ProcessMcuRow(e: Encoder, samples: Source, k: nat)
    requires e.Valid() && IsSource(samples)
    requires Done(e.picture, samples, Repeated(McuOrder(e.picture.sampling), k), e.blocks)
    modifies e, e.outBuf, e.lastDc
    ensures e.Valid() && e.start == old(e.start)
    ensures Done(e.picture, samples, Repeated(McuOrder(e.picture.sampling), k + McusPerRow(e.picture)), e.blocks)
  {
    hide *;
    ghost var order := McuOrder(e.picture.sampling);
    for i := 0 to McusPerRow(e.picture)
      invariant e.Valid() && e.start == old(e.start) && Done(e.picture, samples, Repeated(order, k + i), e.blocks)
    {
      RepeatedNext(order, k + i);
      var at := BlocksBefore(e.picture.sampling, k + i);
      CodeMcu(e, samples, at, Repeated(order, k + i));
    }
  }

  /** How many blocks there are in `k` MCUs. */
  function BlocksBefore(s: Sampling, k: nat): (n: nat)
    ensures n == |Repeated(McuOrder(s), k)|
  {
    if k == 0 then 0 else BlocksBefore(s, k - 1) + |McuOrder(s)|
  }

  /**
   The scan lines one by one, a row of MCUs when it is full, and at the end what is left, until a write
   fails.  If none did, the stream alone gives a decoder the blocks, each the quantized transform of its
   samples, and the decoder knows their order if the size of the picture fits in sixteen bits.
   */
  method EncodePicture(width: nat, height: nat, sampling: Sampling, quants: seq<seq<byte>>, accepts: nat -> bool,
                       samples: Source)
      returns (stream: seq<byte>, ok: bool, puts: nat, ghost p: Picture, ghost blocks: seq<Coded>)
    requires |quants| == 2 && |quants[0]| == 64 && |quants[1]| == 64 && IsSource(samples)
    requires forall t, i :: 0 <= t < 2 && 0 <= i < 64 ==> quants[t][i] > 0
    ensures p == Picture(width, height, sampling, quants, StandardLists()) && Proportioned(p)
    ensures ok <==> AllAccepted(accepts, puts)
    ensures ok ==> Done(p, samples, Components(blocks), blocks) && Decodes(stream, p, blocks)
    ensures ok && width < 0x1_0000 && height < 0x1_0000 ==> Components(blocks) == ScanOrder(InfoOf(p))
  {
    hide *;
    var e := new Encoder(width, height, sampling, quants, accepts);
    e.EmitHeader();
    p := e.picture;
    ok := CodeRows(e, samples);
    ValidOk(e);
    if ok {
      ghost var pad := e.ProcessEndOfImage();
      ok := e.ok;
    }
    stream, puts, blocks := e.stream, e.puts, e.blocks;
    if width < 0x1_0000 && height < 0x1_0000 {
      OrderReadBack(p);
    }
  }

  lemma ValidOk(e: Encoder)
    requires e.Valid()
    ensures e.ok <==> AllAccepted(e.accepts, e.puts)
  {
    hide AllAccepted, Encoder.Tables, Encoder.Bits;
  }

  /** load_mcu for every line, and the last row of process_end_of_image. */
  method CodeRows(e: Encoder, samples: Source) returns (ok: bool)
    requires e.Valid() && e.blocks == [] && QuantizersOk(e.picture) && IsSource(samples)
    modifies e, e.outBuf, e.lastDc
    ensures e.Valid() && e.start == old(e.start) && ok == e.ok
    ensures ok ==> Done(e.picture, samples, Components(e.blocks), e.blocks)
    ensures ok ==> Components(e.blocks) == Repeated(McuOrder(e.picture.sampling), McuCount(e.picture))
  {
    hide *;
    var p := e.picture;
    ghost var order := McuOrder(p.sampling);
    var unit, perRow := McuHeight(p.sampling), McusPerRow(p);
    var ofs, rows := 0, 0;
    NothingDone(p, samples);
    RepeatedNext(order, 0);
    ZeroTimes(perRow);
    for y := 0 to p.height
      invariant e.Valid() && e.start == old(e.start) && ofs < unit && y == unit * rows + ofs
      invariant Done(p, samples, Repeated(order, perRow * rows), e.blocks)
    {
      if !e.ok {
        return false;
      }
      ofs := ofs + 1;
      if ofs == unit {
        ProcessMcuRow(e, samples, perRow * rows);
        OneMoreTimes(perRow, rows);
        OneMoreTimes(unit, rows);
        ofs, rows := 0, rows + 1;
      }
    }
    if !e.ok {
      return false;
    }
    RowsRoundedUp(p, rows, ofs);
    if ofs != 0 {
      ProcessMcuRow(e, samples, perRow * rows);
      OneMoreTimes(perRow, rows);
    }
    OrderDone(p, samples, Repeated(order, McuCount(p)), e.blocks);
    return e.ok;
  }

  lemma OrderDone(p: Picture, samples: Source, order: seq<nat>, blocks: seq<Coded>)
    requires Done(p, samples, order, blocks)
    ensures Components(blocks) == order
  {
  }

  lemma ZeroTimes(n: nat)
    ensures n * 0 == 0
  {
  }

  lemma OneMoreTimes(n: nat, k: nat)
    ensures n * (k + 1) == n * k + n
  {
  }

  lemma RowsRoundedUp(p: Picture, rows: nat, ofs: nat)
    requires p.height == McuHeight(p.sampling) * rows + ofs && ofs < McuHeight(p.sampling)
    ensures McuCount(p) == McusPerRow(p) * if ofs == 0 then rows else rows + 1
  {
    hide McusPerRow;
    var unit := McuHeight(p.sampling);
    var k := if ofs == 0 then rows else rows + 1;
    OneMoreTimes(unit, rows);
    DivMod(p.height + unit - 1, unit, k, p.height + unit - 1 - unit * k);
  }

  /** What the encoder writes passes the checks that the camera driver makes of its frames. */
  lemma StreamIsImage(p: Picture, scan: seq<byte>)
    requires Proportioned(p)
    ensures CameraFrames.StartsImage(Header(p) + scan + Marker(EOI)) &&
        CameraFrames.EndsImage(Header(p) + scan + Marker(EOI))
  {
    HeaderBegins(p);
    assert Marker(EOI)[0] == 0xFF && Marker(EOI)[1] == 0xD9;
    hide Header, Marker, Proportioned;
    FirstAndLast(Header(p), scan, Marker(EOI));
  }

  lemma FirstAndLast(a: seq<byte>, b: seq<byte>, c: seq<byte>)
    requires |a| >= 3 && |c| == 2
    ensures var s := a + b + c;
      && |s| >= 5 && s[0] == a[0] && s[1] == a[1] && s[2] == a[2] && s[|s| - 2] == c[0] && s[|s| - 1] == c[1]
  {
  }

  lemma HeaderBegins(p: Picture)
    requires Proportioned(p)
    ensures |Header(p)| >= 3 && Header(p)[0] == 0xFF && Header(p)[1] == 0xD8 && Header(p)[2] == 0xFF
  {
    hide Proportioned, Quants, Huffs, FrameBody, ScanBody, Jfif;
  }
}
