/**
 A reader of the member header of section 2.3 of RFC 1952, written from the format alone: it gets
 from what GzipHeader writes everything that was asked for.
 */
module GzipFormat {
  import opened Basics
  import opened Crc32
  import opened GzipHeader
  import GzReader

  /** What a header says. */
  datatype Info = Info(
    text: bool, time: bv32, best: bool, fastest: bool, os: bv8, extra: Option<seq<bv8>>,
    name: Option<seq<bv8>>, comment: Option<seq<bv8>>)

  /** A number of two bytes, the low one first. */
  function Get16(lo: bv8, hi: bv8): bv32 {
    (lo as bv32) | ((hi as bv32) << 8)
  }

  function Get32(a: bv8, b: bv8, c: bv8, d: bv8): bv32 {
    Get16(a, b) | (Get16(c, d) << 16)
  }

  function Length(lo: bv8, hi: bv8): nat {
    Get16(lo, hi) as nat
  }

  /** A field that announces its length in two bytes. */
  function ReadExtra(present: bool, s: seq<bv8>): Option<(Option<seq<bv8>>, seq<bv8>)> {
    if !present then Some((None, s))
    else if |s| < 2 || |s| < 2 + Length(s[0], s[1]) then None
    else Some((Some(s[2..2 + Length(s[0], s[1])]), s[2 + Length(s[0], s[1])..]))
  }

  /** Where the first zero is, or the length. */
  function FindZero(s: seq<bv8>): (n: nat)
    ensures n <= |s|
  {
    if s == [] || s[0] == 0 then 0 else 1 + FindZero(s[1..])
  }

  /** A string that ends with a zero byte. */
  function ReadString(present: bool, s: seq<bv8>): Option<(Option<seq<bv8>>, seq<bv8>)> {
    if !present then Some((None, s))
    else if FindZero(s) == |s| then None
    else Some((Some(s[..FindZero(s)]), s[FindZero(s) + 1..]))
  }

  /** The two low bytes of the checksum of all that came before. */
  function ReadCrc(present: bool, before: seq<bv8>, s: seq<bv8>): Option<seq<bv8>> {
    if !present then Some(s)
    else if |s| < 2 || Get16(s[0], s[1]) != Crc(0, before) & 0xffff then None
    else Some(s[2..])
  }

  /** The header, and what comes after it. */
  function Read(s: seq<bv8>): Option<(Info, seq<bv8>)> {
    if |s| < 10 || s[0] != 31 || s[1] != 139 || s[2] != 8 || s[3] & 0xe0 != 0 then None
    else
      match ReadExtra(s[3] & 4 != 0, s[10..])
      case None => None
      case Some((extra, s1)) =>
        match ReadString(s[3] & 8 != 0, s1)
        case None => None
        case Some((name, s2)) =>
          match ReadString(s[3] & 16 != 0, s2)
          case None => None
          case Some((comment, s3)) =>
            if |s3| > |s| then None
            else match ReadCrc(s[3] & 2 != 0, s[..|s| - |s3|], s3)
              case None => None
              case Some(rest) =>
                Some((Info(s[3] & 1 != 0, Get32(s[4], s[5], s[6], s[7]), s[8] == 2, s[8] == 4, s[9], extra, name,
                    comment), rest))
  }

  /** What a header is asked to say. */
  function InfoOf(c: Config): Info
    requires Sound(c)
  {
    var fastest := c.level != 9 && (c.strategy >= 2 || c.level < 2);
    match c.head
    case None => Info(false, 0, c.level == 9, fastest, c.osCode, None, None, None)
    case Some(h) =>
      Info(h.text, h.time, c.level == 9, fastest, (h.os & 0xff) as bv8,
           if h.extra.None? then None else Some(h.extra.value[..ExtraSize(h)]),
           if h.name.None? then None else Some(h.name.value), if h.comment.None? then None else Some(h.comment.value))
  }

  // ----- the fields one by one

  /** The bytes of a number give the number. */
  lemma BytesOf(v: bv32)
    ensures Get16(ByteOf(v, 0), ByteOf(v, 1)) == v & 0xffff
    ensures Get32(ByteOf(v, 0), ByteOf(v, 1), ByteOf(v, 2), ByteOf(v, 3)) == v
  {
    assert ByteOf(v, 1) == ((v >> 8) & 0xff) as bv8;
    assert ByteOf(v >> 8, 1) == ((v >> 8 >> 8) & 0xff) as bv8;
    assert ByteOf(v, 2) == ByteOf(v >> 8, 1);
    assert ByteOf(v, 3) == ByteOf(v >> 8, 2) == ByteOf(v >> 8 >> 8, 1);
    FourParts(v);
  }

  lemma FourParts(v: bv32)
    ensures Get16((v & 0xff) as bv8, ((v >> 8) & 0xff) as bv8) == v & 0xffff
    ensures Get32((v & 0xff) as bv8, ((v >> 8) & 0xff) as bv8, ((v >> 8 >> 8) & 0xff) as bv8,
        ((v >> 8 >> 8 >> 8) & 0xff) as bv8) == v
  {
  }

  /** Each flag is a bit of its own. */
  lemma FlagBits(h: GzHead)
    ensures var f := Flags(h);
      && f & 0xe0 == 0 && (f & 1 != 0 <==> h.text) && (f & 2 != 0 <==> h.hcrc) && (f & 4 != 0 <==> h.extra.Some?)
      && (f & 8 != 0 <==> h.name.Some?) && (f & 16 != 0 <==> h.comment.Some?)
  {
  }

  lemma {:induction false} ZeroFound(s: CString, rest: seq<bv8>)
    ensures FindZero(s + [0] + rest) == |s|
  {
    if s != [] {
      assert (s + [0] + rest)[1..] == s[1..] + [0] + rest;
      ZeroFound(s[1..], rest);
    }
  }

  lemma StringRead(s: Option<CString>, rest: seq<bv8>)
    ensures ReadString(s.Some?, Terminated(s) + rest) == Some((if s.None? then None else Some(s.value), rest))
  {
    if s.Some? {
      var v := s.value;
      ZeroFound(v, rest);
      assert (v + [0] + rest)[..|v|] == v && (v + [0] + rest)[|v| + 1..] == rest;
    } else {
      assert Terminated(s) + rest == rest;
    }
  }

  function LengthBytes(h: GzHead): seq<bv8> {
    if h.extra.None? then [] else [ByteOf(h.extraLen, 0), ByteOf(h.extraLen, 1)]
  }

  lemma LengthRead(h: GzHead)
    ensures h.extra.Some? ==> Length(ByteOf(h.extraLen, 0), ByteOf(h.extraLen, 1)) == ExtraSize(h)
  {
    BytesOf(h.extraLen);
    hide Get16, ByteOf;
  }

  lemma ExtraRead(h: GzHead, field: seq<bv8>, rest: seq<bv8>)
    requires if h.extra.Some? then ExtraSize(h) <= |h.extra.value| && field == h.extra.value[..ExtraSize(h)]
        else field == []
    ensures ReadExtra(h.extra.Some?, LengthBytes(h) + (field + rest))
         == Some((if h.extra.None? then None else Some(field), rest))
  {
    LengthRead(h);
    hide Length, ByteOf, ExtraSize;
    var s := LengthBytes(h) + (field + rest);
    if h.extra.Some? {
      assert s[2..2 + |field|] == field && s[2 + |field|..] == rest;
    } else {
      assert s == rest;
    }
  }

  lemma CrcRead(present: bool, before: seq<bv8>, rest: seq<bv8>)
    ensures ReadCrc(present, before, (if present then CrcField(Crc(0, before)) else []) + rest) == Some(rest)
  {
    if present {
      FieldRead(Crc(0, before));
      hide Crc, CrcField, Get16;
      var field := CrcField(Crc(0, before));
      assert (field + rest)[2..] == rest;
    } else {
      assert [] + rest == rest;
    }
  }

  lemma FieldRead(crc: bv32)
    ensures |CrcField(crc)| == 2 && Get16(CrcField(crc)[0], CrcField(crc)[1]) == crc & 0xffff
  {
    FourParts(crc);
  }

  // ----- the whole header

  function FixedTen(c: Config): (s: seq<bv8>)
    ensures |s| == 10
  {
    if c.head.None? then Plain(c)
    else
      var h := c.head.value;
      [31, 139, 8, Flags(h), ByteOf(h.time, 0), ByteOf(h.time, 1), ByteOf(h.time, 2), ByteOf(h.time, 3),
       ExtraFlags(c.level, c.strategy), ByteOf(h.os, 0)]
  }

  /** What follows the ten bytes, as the reader meets it. */
  lemma HeaderParts(c: Config, rest: seq<bv8>)
    requires Sound(c) && c.head.Some?
    ensures var h := c.head.value;
      var crc := if h.hcrc then CrcField(Crc(0, Covered(c))) else [];
      && Header(c) + rest
         == FixedTen(c) +
             (LengthBytes(h) + (ExtraField(c) + (Terminated(h.name) + (Terminated(h.comment) + (crc + rest)))))
      && Header(c) + rest == Covered(c) + (crc + rest)
  {
    var h := c.head.value;
    var crc := if h.hcrc then CrcField(Crc(0, Covered(c))) else [];
    FixedSplit(c);
    hide Fixed, FixedTen, LengthBytes, ExtraField, Terminated, CrcField, Crc, Sound;
    Associate(Covered(c), crc, rest);
    Regroup(FixedTen(c), LengthBytes(h), ExtraField(c), Terminated(h.name), Terminated(h.comment), crc + rest);
  }

  lemma FixedSplit(c: Config)
    requires c.head.Some?
    ensures Fixed(c) == FixedTen(c) + LengthBytes(c.head.value)
  {
    hide ByteOf, Flags, ExtraFlags;
  }

  lemma Regroup(a: seq<bv8>, b: seq<bv8>, c: seq<bv8>, d: seq<bv8>, e: seq<bv8>, f: seq<bv8>)
    ensures a + b + c + d + e + f == a + (b + (c + (d + (e + f))))
  {
  }

  lemma TenBytes(c: Config, more: seq<bv8>)
    ensures var s := FixedTen(c) + more;
      && |s| >= 10 && s[0] == 31 && s[1] == 139 && s[2] == 8 && s[10..] == more
      && s[3] == (if c.head.Some? then Flags(c.head.value) else 0)
      && s[8] == ExtraFlags(c.level, c.strategy)
      && s[9] == (if c.head.Some? then ByteOf(c.head.value.os, 0) else c.osCode)
      && Get32(s[4], s[5], s[6], s[7]) == if c.head.Some? then c.head.value.time else 0
  {
    if c.head.Some? {
      BytesOf(c.head.value.time);
    }
    hide Flags, ByteOf, ExtraFlags;
  }

  /** The fields one after the other. */
  lemma ReadFields(s: seq<bv8>, s1: seq<bv8>, s2: seq<bv8>, s3: seq<bv8>, rest: seq<bv8>, info: Info)
    requires |s| >= 10 && s[0] == 31 && s[1] == 139 && s[2] == 8 && s[3] & 0xe0 == 0
    requires ReadExtra(s[3] & 4 != 0, s[10..]) == Some((info.extra, s1))
    requires ReadString(s[3] & 8 != 0, s1) == Some((info.name, s2))
    requires ReadString(s[3] & 16 != 0, s2) == Some((info.comment, s3))
    requires |s3| <= |s| && ReadCrc(s[3] & 2 != 0, s[..|s| - |s3|], s3) == Some(rest)
    requires info.text == (s[3] & 1 != 0) && info.time == Get32(s[4], s[5], s[6], s[7])
    requires info.best == (s[8] == 2) && info.fastest == (s[8] == 4) && info.os == s[9]
    ensures Read(s) == Some((info, rest))
  {
    hide ReadExtra, ReadString, ReadCrc, Get32;
  }

  lemma NoFields(s: seq<bv8>)
    ensures ReadExtra(false, s) == Some((None, s)) && ReadString(false, s) == Some((None, s))
    ensures ReadCrc(false, [], s) == Some(s)
  {
  }

  lemma InfoParts(c: Config)
    requires Sound(c)
    ensures var i := InfoOf(c); var x := ExtraFlags(c.level, c.strategy);
      && i.best == (x == 2) && i.fastest == (x == 4)
      && (c.head.None? ==> i == Info(false, 0, i.best, i.fastest, c.osCode, None, None, None))
  {
    hide ExtraSize;
  }

  lemma GivenParts(c: Config)
    requires Sound(c) && c.head.Some?
    ensures var i, h := InfoOf(c), c.head.value;
      && i.text == h.text && i.time == h.time && i.os == ByteOf(h.os, 0)
      && i.extra == (if h.extra.None? then None else Some(ExtraField(c)))
      && i.name == (if h.name.None? then None else Some(h.name.value))
      && i.comment == (if h.comment.None? then None else Some(h.comment.value))
      && if h.extra.Some? then ExtraSize(h) <= |h.extra.value| && ExtraField(c) == h.extra.value[..ExtraSize(h)]
         else ExtraField(c) == []
  {
    hide ExtraSize;
  }

  /** A header is read as what it was asked to say. */
  lemma HeaderReadBack(c: Config, rest: seq<bv8>)
    requires Sound(c)
    ensures Read(Header(c) + rest) == Some((InfoOf(c), rest))
  {
    if c.head.None? {
      PlainReadBack(c, rest);
    } else {
      GivenReadBack(c, rest);
    }
  }

  lemma PlainReadBack(c: Config, rest: seq<bv8>)
    requires Sound(c) && c.head.None?
    ensures Read(Header(c) + rest) == Some((InfoOf(c), rest))
  {
    TenBytes(c, rest);
    InfoParts(c);
    assert Header(c) == FixedTen(c);
    var s := FixedTen(c) + rest;
    var zero: bv8 := 0;
    assert zero & 0xe0 == 0 && zero & 1 == 0 && zero & 2 == 0 && zero & 4 == 0 && zero & 8 == 0 && zero & 16 == 0;
    hide FixedTen, Plain, Header, ReadExtra, ReadString, ReadCrc, Get32, ExtraFlags, Read;
    NoFields(rest);
    assert ReadCrc(false, s[..|s| - |rest|], rest) == Some(rest) by { NoCrc(s[..|s| - |rest|], rest); }
    ReadFields(s, rest, rest, rest, rest, InfoOf(c));
  }

  lemma NoCrc(before: seq<bv8>, s: seq<bv8>)
    ensures ReadCrc(false, before, s) == Some(s)
  {
  }

  lemma GivenReadBack(c: Config, rest: seq<bv8>)
    requires Sound(c) && c.head.Some?
    ensures Read(Header(c) + rest) == Some((InfoOf(c), rest))
  {
    hide *;
    var h := c.head.value;
    InfoParts(c);
    GivenParts(c);
    FlagBits(h);
    var crc := if h.hcrc then CrcField(Crc(0, Covered(c))) else [];
    var s3 := crc + rest;
    var s2 := Terminated(h.comment) + s3;
    var s1 := Terminated(h.name) + s2;
    var s := Header(c) + rest;
    HeaderParts(c, rest);
    TenBytes(c, LengthBytes(h) + (ExtraField(c) + s1));
    ExtraRead(h, ExtraField(c), s1);
    StringRead(h.name, s2);
    StringRead(h.comment, s3);
    CrcRead(h.hcrc, Covered(c), rest);
    assert s[..|s| - |s3|] == Covered(c);
    ReadFields(s, s1, s2, s3, rest, InfoOf(c));
  }

  /** The reader of gzread.c knows a member by its header. */
  lemma HeaderIsMagic(c: Config, rest: seq<bv8>, file: GzReader.File)
    requires Sound(c) && |file.bytes| == |Header(c) + rest|
    requires forall i :: 0 <= i < |file.bytes| ==> file.bytes[i] == (Header(c) + rest)[i] as int
    ensures GzReader.Magic(file, 0)
  {
    var s := Header(c) + rest;
    HeaderReadBack(c, rest);
    assert Read(s).Some?;
    hide Header, InfoOf;
    assert |s| >= 10 && s[0] == 31 && s[1] == 139;
    assert file.bytes[0] == 31 && file.bytes[1] == 139;
  }
}
