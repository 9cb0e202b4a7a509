/**
 The resumable gzip header writer inside deflate(): whatever room each call is given, the bytes are
 those of one header, cut where the room ends.
 */
module GzipHeader {
  import opened Basics
  import opened Crc32
  import opened Flushing

  /** A C string without its terminator. */
  type CString = s: seq<bv8> | forall i :: 0 <= i < |s| ==> s[i] != 0 witness []

  /** gz_header; of `extraLen` only the low sixteen bits are used, and of `os` the low eight. */
  datatype GzHead = GzHead(
    text: bool, time: bv32, os: bv32, extra: Option<seq<bv8>>, extraLen: bv32,
    name: Option<CString>, comment: Option<CString>, hcrc: bool)

  /** What the header depends on. */
  datatype Config = Config(level: int, strategy: int, osCode: bv8, head: Option<GzHead>)

  datatype Status = Gzip | Extra | Name | Comment | Hcrc | Busy

  function Rank(s: Status): nat {
    match s case Gzip => 0 case Extra => 1 case Name => 2 case Comment => 3 case Hcrc => 4 case Busy => 5
  }

  // ----- the format of section 2.3 of RFC 1952

  /** Byte `k` of a number, counted from the least significant. */
  function ByteOf(v: bv32, k: nat): bv8 {
    if k == 0 then (v & 0xff) as bv8 else ByteOf(v >> 8, k - 1)
  }

  function ExtraFlags(level: int, strategy: int): bv8 {
    if level == 9 then 2 else if strategy >= 2 || level < 2 then 4 else 0
  }

  function Flags(h: GzHead): bv8 {
    (if h.text then 1 else 0) + (if h.hcrc then 2 else 0) + (if h.extra == None then 0 else 4)
    + (if h.name == None then 0 else 8) + (if h.comment == None then 0 else 16)
  }

  function ExtraSize(h: GzHead): nat {
    if h.extra.None? then 0 else (h.extraLen & 0xffff) as nat
  }

  /** The extra field has the bytes its length announces. */
  predicate Sound(c: Config) {
    c.head.Some? && c.head.value.extra.Some? ==> ExtraSize(c.head.value) <= |c.head.value.extra.value|
  }

  function Plain(c: Config): seq<bv8> {
    [31, 139, 8, 0, 0, 0, 0, 0, ExtraFlags(c.level, c.strategy), c.osCode]
  }

  function Fixed(c: Config): seq<bv8>
    requires c.head.Some?
  {
    var h := c.head.value;
    [31, 139, 8, Flags(h), ByteOf(h.time, 0), ByteOf(h.time, 1), ByteOf(h.time, 2), ByteOf(h.time, 3),
     ExtraFlags(c.level, c.strategy), ByteOf(h.os, 0)]
    + if h.extra.None? then [] else [ByteOf(h.extraLen, 0), ByteOf(h.extraLen, 1)]
  }

  lemma FixedParts(c: Config)
    requires c.head.Some?
    ensures |Fixed(c)| >= 10
    ensures var h := c.head.value;
      Fixed(c) == Fixed(c)[..10] + if h.extra.None? then [] else [ByteOf(h.extraLen, 0), ByteOf(h.extraLen, 1)]
  {
    hide ByteOf, ExtraFlags, Flags;
  }

  function ExtraField(c: Config): (s: seq<bv8>)
    requires c.head.Some? && Sound(c)
    ensures |s| == ExtraSize(c.head.value)
  {
    var h := c.head.value;
    if h.extra.None? then [] else h.extra.value[..ExtraSize(h)]
  }

  function Terminated(s: Option<CString>): seq<bv8> {
    if s.None? then [] else s.value + [0]
  }

  function StringLength(s: Option<CString>): (n: nat)
    ensures n <= |Terminated(s)|
  {
    if s.None? then 0 else |s.value|
  }

  /** Everything that the header CRC covers. */
  function Covered(c: Config): seq<bv8>
    requires c.head.Some? && Sound(c)
  {
    Fixed(c) + ExtraField(c) + Terminated(c.head.value.name) + Terminated(c.head.value.comment)
  }

  function CrcField(crc: bv32): seq<bv8> {
    [(crc & 0xff) as bv8, ((crc >> 8) & 0xff) as bv8]
  }

  /** The whole header. */
  function Header(c: Config): seq<bv8>
    requires Sound(c)
  {
    if c.head.None? then Plain(c)
    else Covered(c) + if c.head.value.hcrc then CrcField(Crc(0, Covered(c))) else []
  }

  // ----- how far a header has got

  /** The bytes put when the writer is in `status`, `i` bytes into the field of that status. */
  ghost function Target(c: Config, status: Status, i: nat): seq<bv8>
    requires Sound(c) && InRange(c, status, i)
  {
    match status
    case Gzip => []
    case Extra => Fixed(c) + ExtraField(c)[..i]
    case Name => Fixed(c) + ExtraField(c) + Terminated(c.head.value.name)[..i]
    case Comment => Fixed(c) + ExtraField(c) + Terminated(c.head.value.name) + Terminated(c.head.value.comment)[..i]
    case Hcrc => Covered(c)
    case Busy => Header(c)
  }

  predicate InRange(c: Config, status: Status, i: nat)
    requires Sound(c)
  {
    && (c.head.None? ==> status in {Gzip, Busy})
    && (status == Extra ==> i <= |ExtraField(c)|)
    && (status == Name ==> i <= StringLength(c.head.value.name))
    && (status == Comment ==> i <= StringLength(c.head.value.comment))
  }

  /** Every stage is a beginning of the header. */
  lemma TargetIsPrefix(c: Config, status: Status, i: nat)
    requires Sound(c) && InRange(c, status, i)
    ensures Target(c, status, i) <= Header(c)
  {
    hide Fixed, ExtraField, Terminated, CrcField, Crc, Plain, ExtraSize;
    if c.head.Some? {
      var f, e, n, m := Fixed(c), ExtraField(c), Terminated(c.head.value.name), Terminated(c.head.value.comment);
      match status {
        case Extra => Beginning(f + e[..i], f + e, n + m);
        case Name => Beginning(f + e + n[..i], f + e + n, m);
        case Comment => Beginning(f + e + n + m[..i], Covered(c), []);
        case _ =>
      }
    }
  }

  lemma ExtraGrows(c: Config, i: nat, j: nat)
    requires Sound(c) && c.head.Some? && i <= j <= |ExtraField(c)|
    ensures Target(c, Extra, i) + ExtraField(c)[i..j] == Target(c, Extra, j)
  {
    hide ExtraField, Fixed;
    var e := ExtraField(c);
    assert e[..i] + e[i..j] == e[..j];
  }

  /** A finished field is the start of the next one. */
  lemma NextField(c: Config)
    requires Sound(c) && c.head.Some?
    ensures Target(c, Extra, |ExtraField(c)|) == Target(c, Name, 0)
    ensures c.head.value.extra.None? ==> Target(c, Extra, 0) == Target(c, Name, 0)
    ensures c.head.value.name.None? ==> Target(c, Name, 0) == Target(c, Comment, 0)
    ensures c.head.value.comment.None? ==> Target(c, Comment, 0) == Target(c, Hcrc, 0)
  {
    hide Fixed;
  }

  lemma Beginning(part: seq<bv8>, whole: seq<bv8>, rest: seq<bv8>)
    requires part <= whole
    ensures part <= whole + rest
  {
  }

  // ----- flushes

  const Z_FINISH := 4

  datatype Ret = ZOk | ZBufError

  /** The arguments of one call of deflate(): room for output, kind of flush, input at hand. */
  datatype Arguments = Arguments(availOut: nat, flush: int, availIn: nat)

  /** The calls' room, added up. */
  function Room(calls: seq<Arguments>): nat {
    if calls == [] then 0 else Room(calls[..|calls| - 1]) + calls[|calls| - 1].availOut
  }

  lemma RoomOfNothing()
    ensures Room([]) == 0
  {
  }

  lemma RoomNext(calls: seq<Arguments>, i: nat)
    requires i < |calls|
    ensures Room(calls[..i + 1]) == Room(calls[..i]) + calls[i].availOut
  {
    assert calls[..i + 1][..i] == calls[..i];
  }

  /** -1 and -2, the values of last_flush during a header, are below every flush. */
  lemma RankOfNegative(flush: int, last: int)
    ensures 0 <= flush <= 5 && last < 0 ==> FlushRank(flush) > FlushRank(last)
  {
  }

  lemma BusyIsHeader(c: Config, i: nat)
    requires Sound(c)
    ensures Target(c, Busy, i) == Header(c)
  {
  }

  /** The fields of deflate_state and z_stream that the header uses. */
  class Writer {
    const config: Config
    const buf: array<bv8>
    var pending: nat
    var pendingOut: nat
    var status: Status
    var gzindex: nat
    var lastFlush: int
    var adler: bv32
    var availOut: nat
    var out: seq<bv8>

    /** pending_buf: at least lit_bufsize times four bytes, lit_bufsize being 128 or more. */
    ghost predicate Shape()
      reads `pending, `pendingOut
    {
      buf.Length >= 512 && Sound(config) && pendingOut + pending <= buf.Length && (pending == 0 ==> pendingOut == 0)
    }

    /** All bytes put: those handed out and those pending. */
    ghost function Put(): seq<bv8>
      requires Shape()
      reads `pending, `pendingOut, `out, buf
    {
      out + buf[pendingOut..pendingOut + pending]
    }

    /** The header CRC has seen the bytes `seen`. */
    ghost predicate Summed(seen: seq<bv8>)
      reads `adler
    {
      config.head.Some? && config.head.value.hcrc ==> adler == Crc(0, seen)
    }

    /** Between calls: how far the header is, and that its CRC has seen each byte once. */
    ghost predicate Valid()
      reads `pending, `pendingOut, `out, `status, `gzindex, `adler, buf
    {
      && Shape() && InRange(config, status, gzindex)
      && Put() == Target(config, status, gzindex)
      && (status !in {Gzip, Busy} ==> Summed(Put()))
      && (status == Gzip ==> pending == 0)
    }

    ghost predicate Finished()
      reads `status, `pending
    {
      status == Busy && pending == 0
    }

    constructor (config: Config, bufSize: nat)
      requires Sound(config) && bufSize >= 512
      ensures Valid() && status == Gzip && out == [] && this.config == config && fresh(buf) && lastFlush == -2
    {
      this.config := config;
      buf := new bv8[bufSize](_ => 0);
      pending, pendingOut, status, gzindex, adler, availOut, out := 0, 0, Gzip, 0, 0, 0, [];
      lastFlush := -2;
    }

    /** flush_pending */
    method FlushPending()
      requires Shape()
      modifies `pending, `pendingOut, `out, `availOut
      ensures Shape() && Put() == old(Put()) && |out| + availOut == old(|out| + availOut)
      ensures pending <= old(pending) && (pending != 0 ==> availOut == 0)
    {
      var len := Min(pending, availOut);
      if len == 0 {
        return;
      }
      assert buf[pendingOut..pendingOut + pending] ==
          buf[pendingOut..pendingOut + len] + buf[pendingOut + len..pendingOut + pending];
      out := out + buf[pendingOut..pendingOut + len];
      pendingOut := pendingOut + len;
      availOut := availOut - len;
      pending := pending - len;
      if pending == 0 {
        pendingOut := 0;
      }
    }

    /** put_byte */
    method PutByte(c: bv8)
      requires Shape() && pendingOut == 0 && pending < buf.Length
      modifies `pending, buf
      ensures Shape() && pending == old(pending) + 1 && Put() == old(Put()) + [c]
      ensures buf[..old(pending)] == old(buf[..pending])
      ensures out + buf[..old(pending)] == old(Put())
    {
      ghost var was := buf[..pending];
      buf[pending] := c;
      pending := pending + 1;
      assert buf[..pending] == was + [c];
      assert Put() == out + was + [c];
    }

    /** zmemcpy into the pending buffer */
    method PutAll(data: seq<bv8>)
      requires Shape() && pendingOut == 0 && pending + |data| <= buf.Length
      modifies `pending, buf
      ensures Shape() && pending == old(pending) + |data| && Put() == old(Put()) + data
      ensures out + buf[..old(pending)] == old(Put())
    {
      ghost var put, at := Put(), pending;
      for i := 0 to |data|
        invariant Shape() && pendingOut == 0 && pending == at + i && Put() == put + data[..i]
        invariant out + buf[..at] == put
      {
        ghost var front := buf[..pending];
        PutByte(data[i]);
        assert buf[..at] == front[..at];
      }
      assert data[..|data|] == data;
    }

    lemma PutAtFront()
      requires Shape() && pendingOut == 0
      ensures Put() == out + buf[..pending]
    {
    }

    /** HCRC_UPDATE: only the bytes before `beg` had been seen. */
    method HcrcUpdate(beg: nat)
      requires Shape() && pendingOut == 0 && beg <= pending && config.head.Some?
      requires Summed(out + buf[..beg])
      modifies `adler
      ensures Summed(Put())
    {
      hide Crc;
      assert out + buf[..pending] == out + buf[..beg] + buf[beg..pending];
      CrcConcat(0, out + buf[..beg], buf[beg..pending]);
      if config.head.value.hcrc && pending > beg {
        adler := Crc(adler, buf[beg..pending]);
      }
    }

    /** The bytes before the extra field. */
    method PutFixed()
      requires Shape() && pending == 0 && config.head.Some?
      modifies `pending, buf
      ensures Shape() && Put() == old(Put()) + Fixed(config)
    {
      hide ByteOf, ExtraFlags, Flags, ExtraSize, Put, Fixed;
      var h := config.head.value;
      ghost var put := Put();
      PutTen(h);
      FixedParts(config);
      if h.extra.Some? {
        PutAll([ByteOf(h.extraLen, 0), ByteOf(h.extraLen, 1)]);
        Associate(put, Fixed(config)[..10], [ByteOf(h.extraLen, 0), ByteOf(h.extraLen, 1)]);
      }
    }

    /** The bytes that are always there. */
    method PutTen(h: GzHead)
      requires Shape() && pending == 0 && config.head == Some(h)
      modifies `pending, buf
      ensures Shape() && pending == 10 && |Fixed(config)| >= 10 && Put() == old(Put()) + Fixed(config)[..10]
    {
      hide ByteOf, ExtraFlags, Flags, ExtraSize, Put;
      ghost var put := Put();
      PutAll([31, 139, 8, Flags(h)]);
      PutAll([ByteOf(h.time, 0), ByteOf(h.time, 1), ByteOf(h.time, 2), ByteOf(h.time, 3)]);
      PutAll([ExtraFlags(config.level, config.strategy), ByteOf(h.os, 0)]);
      assert Put() == put + Fixed(config)[..10];
    }

    /** The GZIP state without a gz_header. */
    method WritePlain() returns (stop: bool)
      requires Valid() && status == Gzip && config.head.None?
      modifies `pending, `pendingOut, `out, `availOut, `status, `lastFlush, buf
      ensures Valid() && |out| + availOut == old(|out| + availOut) && status == Busy
      ensures if stop then availOut == 0 && pending != 0 && lastFlush == -1
          else pending == 0 && lastFlush == old(lastFlush)
    {
      hide ExtraFlags;
      PutAll([31, 139, 8, 0, 0, 0, 0, 0]);
      PutAll([ExtraFlags(config.level, config.strategy), config.osCode]);
      status := Busy;
      assert Put() == Plain(config);
      FlushPending();
      stop := pending != 0;
      if stop {
        lastFlush := -1;
      }
    }

    /** The GZIP state with a gz_header. */
    method WriteFixed()
      requires Valid() && status == Gzip && config.head.Some?
      modifies `pending, `adler, `gzindex, `status, buf
      ensures Valid() && status == Extra && pendingOut == 0
    {
      hide Crc, Fixed, ExtraField;
      adler := 0;
      assert Put() == [] && pendingOut == 0 && out == [];
      PutFixed();
      if config.head.value.hcrc {
        adler := Crc(adler, buf[..pending]);
      }
      gzindex := 0;
      status := Extra;
      assert ExtraField(config)[..0] == [];
      assert buf[..pending] == Put();
    }

    /** The next part of the extra field, up to the end of the pending buffer. */
    method FillBuffer(data: seq<bv8>)
      requires Valid() && status == Extra && pendingOut == 0
      requires data == ExtraField(config) && pending + |data| - gzindex > buf.Length
      modifies `pending, `adler, `gzindex, buf
      ensures Valid() && pending == buf.Length && gzindex == old(gzindex) + (buf.Length - old(pending))
    {
      hide Crc, ExtraField, Fixed, Put;
      var beg := pending;
      var copy := buf.Length - pending;
      PutAll(data[gzindex..gzindex + copy]);
      ExtraGrows(config, gzindex, gzindex + copy);
      HcrcUpdate(beg);
      gzindex := gzindex + copy;
    }

    /** As much of the extra field as the pending buffer takes, when it does not take all of it. */
    method ExtraChunk(data: seq<bv8>) returns (stop: bool)
      requires Valid() && status == Extra && pendingOut == 0
      requires data == ExtraField(config) && pending + |data| - gzindex > buf.Length
      modifies `pending, `pendingOut, `out, `availOut, `adler, `gzindex, `lastFlush, buf
      ensures Valid() && |out| + availOut == old(|out| + availOut)
      ensures gzindex == old(gzindex) + (buf.Length - old(pending))
      ensures if stop then availOut == 0 && pending != 0 && lastFlush == -1
          else pending == 0 && lastFlush == old(lastFlush)
    {
      hide Crc, ExtraField, Fixed, Put, InRange, Target, Summed;
      FillBuffer(data);
      FlushPending();
      stop := pending != 0;
      if stop {
        lastFlush := -1;
      }
    }

    /** The loop of the EXTRA state. */
    method ExtraChunks(data: seq<bv8>) returns (stop: bool)
      requires Valid() && status == Extra && pendingOut == 0 && data == ExtraField(config)
      modifies `pending, `pendingOut, `out, `availOut, `adler, `gzindex, `lastFlush, buf
      ensures Valid() && |out| + availOut == old(|out| + availOut)
      ensures if stop then availOut == 0 && pending != 0 && lastFlush == -1
        else pendingOut == 0 && lastFlush == old(lastFlush) && pending + |data| - gzindex <= buf.Length
    {
      hide Crc, ExtraField, Target, Put, Summed;
      while pending + (|data| - gzindex) > buf.Length
        invariant Valid() && status == Extra && pendingOut == 0
        invariant |out| + availOut == old(|out| + availOut) && lastFlush == old(lastFlush)
        decreases |data| - gzindex + (if pending == buf.Length then 1 else 0)
      {
        stop := ExtraChunk(data);
        if stop {
          return;
        }
      }
      stop := false;
    }

    /** The EXTRA state. */
    method WriteExtra() returns (stop: bool)
      requires Valid() && status == Extra && pendingOut == 0
      modifies `pending, `pendingOut, `out, `availOut, `adler, `gzindex, `status, `lastFlush, buf
      ensures Valid() && |out| + availOut == old(|out| + availOut)
      ensures if stop then availOut == 0 && pending != 0 && lastFlush == -1 && status == Extra
        else pendingOut == 0 && lastFlush == old(lastFlush) && status == Name && gzindex == 0
    {
      hide Crc, Target, Put, ExtraField;
      stop := false;
      NextField(config);
      if config.head.value.extra.Some? {
        var data := ExtraField(config);
        stop := ExtraChunks(data);
        if stop {
          return;
        }
        var beg := pending;
        PutAll(data[gzindex..]);
        ExtraGrows(config, gzindex, |data|);
        HcrcUpdate(beg);
        gzindex := 0;
      }
      status := Name;
    }

    /** The turn of a string loop that finds the pending buffer full. */
    method Drain(beg: nat) returns (stop: bool)
      requires Shape() && pendingOut == 0 && beg <= pending && config.head.Some? && Summed(out + buf[..beg])
      modifies `pending, `pendingOut, `out, `availOut, `adler, `lastFlush
      ensures Shape() && |out| + availOut == old(|out| + availOut) && Put() == old(Put()) && Summed(Put())
      ensures if stop then availOut == 0 && pending != 0 && lastFlush == -1
        else pending == 0 && lastFlush == old(lastFlush) && Summed(out + buf[..0])
    {
      hide Put, Summed;
      HcrcUpdate(beg);
      FlushPending();
      stop := pending != 0;
      if stop {
        lastFlush := -1;
      } else {
        PutAtFront();
      }
    }

    /** The loop of the NAME and COMMENT states: a string with its terminator, after the bytes `base`. */
    method WriteString(s: CString, ghost base: seq<bv8>) returns (stop: bool)
      requires Shape() && pendingOut == 0 && gzindex <= |s| && config.head.Some?
      requires Put() == base + (s + [0])[..gzindex] && Summed(Put())
      modifies `pending, `pendingOut, `out, `availOut, `adler, `gzindex, `lastFlush, buf
      ensures Shape() && |out| + availOut == old(|out| + availOut) && Summed(Put())
      ensures if stop then availOut == 0 && pending != 0 && lastFlush == -1 && gzindex <= |s| &&
          Put() == base + (s + [0])[..gzindex]
        else pendingOut == 0 && lastFlush == old(lastFlush) && Put() == base + (s + [0])
    {
      hide Crc, Put, Summed;
      var beg: nat := pending;
      assert out + buf[..beg] == Put() by {
        PutAtFront();
      }
      var more := true;
      while more
        invariant Shape() && pendingOut == 0 && beg <= pending && gzindex <= |s| + 1 && (more <==> gzindex <= |s|)
        invariant Put() == base + (s + [0])[..gzindex] && Summed(out + buf[..beg])
        invariant |out| + availOut == old(|out| + availOut) && lastFlush == old(lastFlush)
        decreases |s| + 1 - gzindex
      {
        if pending == buf.Length {
          stop := Drain(beg);
          if stop {
            return;
          }
          beg := 0;
        }
        ghost var seen := out + buf[..beg];
        assert Summed(seen);
        var val := if gzindex < |s| then s[gzindex] else 0;
        gzindex := gzindex + 1;
        ghost var front := buf[..pending];
        PutByte(val);
        assert buf[..beg] == front[..beg];
        assert out + buf[..beg] == seen;
        assert (s + [0])[..gzindex] == (s + [0])[..gzindex - 1] + [val];
        more := val != 0;
      }
      HcrcUpdate(beg);
      assert (s + [0])[..gzindex] == s + [0];
      stop := false;
    }

    /** The NAME state. */
    method WriteName() returns (stop: bool)
      requires Valid() && status == Name && pendingOut == 0
      modifies `pending, `pendingOut, `out, `availOut, `adler, `gzindex, `status, `lastFlush, buf
      ensures Valid() && |out| + availOut == old(|out| + availOut)
      ensures if stop then availOut == 0 && pending != 0 && lastFlush == -1 && status == Name
        else pendingOut == 0 && lastFlush == old(lastFlush) && status == Comment && gzindex == 0
    {
      hide Crc, Fixed, ExtraField;
      stop := false;
      if config.head.value.name.Some? {
        stop := WriteString(config.head.value.name.value, Fixed(config) + ExtraField(config));
        if stop {
          return;
        }
        gzindex := 0;
      }
      status := Comment;
    }

    /** The COMMENT state. */
    method WriteComment() returns (stop: bool)
      requires Valid() && status == Comment && pendingOut == 0
      modifies `pending, `pendingOut, `out, `availOut, `adler, `gzindex, `status, `lastFlush, buf
      ensures Valid() && |out| + availOut == old(|out| + availOut)
      ensures if stop then availOut == 0 && pending != 0 && lastFlush == -1 && status == Comment
        else pendingOut == 0 && lastFlush == old(lastFlush) && status == Hcrc
    {
      hide Crc, Fixed, ExtraField;
      stop := false;
      var h := config.head.value;
      if h.comment.Some? {
        stop := WriteString(h.comment.value, Fixed(config) + ExtraField(config) + Terminated(h.name));
        if stop {
          return;
        }
      }
      status := Hcrc;
    }

    /** The HCRC state. */
    method WriteCrc() returns (stop: bool)
      requires Valid() && status == Hcrc && pendingOut == 0
      modifies `pending, `pendingOut, `out, `availOut, `adler, `status, `lastFlush, buf
      ensures Valid() && |out| + availOut == old(|out| + availOut)
      ensures if stop then availOut == 0 && pending != 0 && lastFlush == -1 && status in {Hcrc, Busy}
        else Finished() && lastFlush == old(lastFlush)
    {
      hide Crc, Covered, Put, CrcField;
      stop := true;
      if config.head.value.hcrc {
        if pending + 2 > buf.Length {
          FlushPending();
          if pending != 0 {
            lastFlush := -1;
            return;
          }
        }
        CrcLength(adler);
        PutAll(CrcField(adler));
        adler := 0;
      }
      stop := LeaveHeader();
    }

    lemma CrcLength(crc: bv32)
      ensures |CrcField(crc)| == 2
    {
    }

    /** The header is complete; what is pending goes out first. */
    method LeaveHeader() returns (stop: bool)
      requires Shape() && Put() == Header(config) && pendingOut == 0
      modifies `pending, `pendingOut, `out, `availOut, `status, `lastFlush
      ensures Valid() && |out| + availOut == old(|out| + availOut) && status == Busy
      ensures if stop then availOut == 0 && pending != 0 && lastFlush == -1
          else Finished() && lastFlush == old(lastFlush)
    {
      hide Header, Put;
      status := Busy;
      FlushPending();
      stop := pending != 0;
      if stop {
        lastFlush := -1;
      }
    }

    /** The states in the order of the code; `stop` says that the call ends here. */
    method WriteFields() returns (stop: bool)
      requires Valid() && pendingOut == 0
      requires pending != 0 ==> status !in {Gzip, Busy}
      modifies `pending, `pendingOut, `out, `availOut, `adler, `gzindex, `status, `lastFlush, buf
      ensures Valid() && |out| + availOut == old(|out| + availOut) && Rank(status) >= Rank(old(status))
      ensures if stop then availOut == 0 && pending != 0 && lastFlush == -1
          else Finished() && lastFlush == old(lastFlush)
    {
      hide Valid;
      stop := false;
      if status == Gzip {
        if config.head.None? {
          stop := WritePlain();
          return;
        }
        WriteFixed();
      }
      if status == Extra {
        stop := WriteExtra();
      }
      if !stop && status == Name {
        stop := WriteName();
      }
      if !stop && status == Comment {
        stop := WriteComment();
      }
      if !stop && status == Hcrc {
        stop := WriteCrc();
      }
    }

    /** What was handed out is the header, cut after as many bytes. */
    lemma OutIsPrefix()
      requires Valid()
      ensures Shape() && out == Header(config)[..|out|] && |out| <= |Header(config)|
      ensures Finished() ==> |out| == |Header(config)|
    {
      hide Header, Target, Summed;
      TargetIsPrefix(config, status, gzindex);
      BusyIsHeader(config, gzindex);
      assert out <= Put();
    }

    /**
     The part of deflate() up to the header's end.  A call with room hands out exactly that much more
     of the header, or all that is left of it.
     */
    method Call(avail: nat, flush: int, availIn: nat) returns (ret: Ret, done: bool)
      requires Valid() && !Finished() && 0 <= flush <= 5
      modifies `pending, `pendingOut, `out, `availOut, `adler, `gzindex, `status, `lastFlush, buf
      ensures Valid() && Rank(status) >= Rank(old(status)) && (done ==> Finished())
      ensures avail == 0 ==> ret == ZBufError && lastFlush == old(lastFlush)
      ensures avail > 0 && old(lastFlush) < 0 ==> ret == ZOk
      ensures ret == ZBufError ==> out == old(out) && status == old(status)
      ensures ret == ZOk ==> out == Header(config)[..Min(|old(out)| + avail, |Header(config)|)]
      ensures ret == ZOk && !done ==> availOut == 0 && lastFlush == -1
    {
      hide Valid, Header, FlushRank;
      OutIsPrefix();
      availOut := avail;
      done := false;
      if availOut == 0 {
        return ZBufError, false;
      }
      RankOfNegative(flush, lastFlush);
      var oldFlush := lastFlush;
      lastFlush := flush;
      if pending != 0 {
        FlushFirst();
        if availOut == 0 {
          OutIsPrefix();
          lastFlush := -1;
          return ZOk, false;
        }
      } else if availIn == 0 && FlushRank(flush) <= FlushRank(oldFlush) && flush != Z_FINISH {
        return ZBufError, false;
      }
      var stop := WriteFields();
      OutIsPrefix();
      return ZOk, !stop;
    }

    /** flush_pending at the start of a call keeps the header where it is. */
    method FlushFirst()
      requires Valid()
      modifies `pending, `pendingOut, `out, `availOut
      ensures Valid() && |out| + availOut == old(|out| + availOut) && (pending != 0 ==> availOut == 0)
      ensures pending == 0 ==> pendingOut == 0
    {
      hide Target, Put, Summed, InRange;
      FlushPending();
    }

    /**
     However the room is divided among calls, what comes out is one header, up to the room there was.
     */
    method Run(calls: seq<Arguments>)
      requires Valid() && out == [] && status == Gzip && lastFlush == -2
      requires forall i :: 0 <= i < |calls| ==> 0 <= calls[i].flush <= 5
      modifies `pending, `pendingOut, `out, `availOut, `adler, `gzindex, `status, `lastFlush, buf
      ensures Valid() && out == Header(config)[..Min(Room(calls), |Header(config)|)]
    {
      hide Valid, Header, FlushRank, Room;
      RoomOfNothing();
      OutIsPrefix();
      for i := 0 to |calls|
        invariant Valid() && Sound(config) && (!Finished() ==> lastFlush < 0)
        invariant out == Header(config)[..Min(Room(calls[..i]), |Header(config)|)]
      {
        RoomNext(calls, i);
        OutIsPrefix();
        if !(status == Busy && pending == 0) {
          var ret, done := Call(calls[i].availOut, calls[i].flush, calls[i].availIn);
        }
      }
      assert calls[..|calls|] == calls;
    }
  }
}
