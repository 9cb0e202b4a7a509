/**
 The three-byte rolling hash of deflate (UPDATE_HASH).  `hash_shift * MIN_MATCH >= hash_bits`
 makes a key forget every byte but the last three, and `hash_bits >= 8` keeps the last byte whole.
 */
module RollingHash {

  /** hash_shift, hash_mask and hash_size of deflate_state. */
  datatype Params = Params(shift: bv5, mask: bv32, size: nat)

  /** The settings that deflateInit2_ derives from hash_bits = memLevel + 7. */
  predicate Setting(p: Params) {
    || (p.shift == 3 && ((p.mask == 0xff && p.size == 0x100) || (p.mask == 0x1ff && p.size == 0x200)))
    || (p.shift == 4 && ((p.mask == 0x3ff && p.size == 0x400) || (p.mask == 0x7ff && p.size == 0x800)
                         || (p.mask == 0xfff && p.size == 0x1000)))
    || (p.shift == 5 && ((p.mask == 0x1fff && p.size == 0x2000) || (p.mask == 0x3fff && p.size == 0x4000)
                         || (p.mask == 0x7fff && p.size == 0x8000)))
    || (p.shift == 6 && p.mask == 0xffff && p.size == 0x10000)
  }

  function ForMemLevel(memLevel: nat): (p: Params)
    requires 1 <= memLevel <= 9
    ensures Setting(p)
  {
    match memLevel
    case 1 => Params(3, 0xff, 0x100)
    case 2 => Params(3, 0x1ff, 0x200)
    case 3 => Params(4, 0x3ff, 0x400)
    case 4 => Params(4, 0x7ff, 0x800)
    case 5 => Params(4, 0xfff, 0x1000)
    case 6 => Params(5, 0x1fff, 0x2000)
    case 7 => Params(5, 0x3fff, 0x4000)
    case 8 => Params(5, 0x7fff, 0x8000)
    case _ => Params(6, 0xffff, 0x10000)
  }

  function Mix(shift: bv5, mask: bv32, h: bv32, c: bv32): bv32 {
    ((h << shift) ^ c) & mask
  }

  /** UPDATE_HASH. */
  function Update(p: Params, h: bv32, c: bv8): bv32 {
    Mix(p.shift, p.mask, h, c as bv32)
  }

  /** The key of a three-byte string, from a key that has seen nothing else. */
  function Hash3(p: Params, a: bv8, b: bv8, c: bv8): bv32 {
    Update(p, Update(p, a as bv32, b), c)
  }

  /** A key as an index of the head table. */
  function Index(h: bv32): nat {
    h as int
  }

  lemma IndexInjective(x: bv32, y: bv32)
    requires Index(x) == Index(y)
    ensures x == y
  {
    assert x == (x as int) as bv32;
  }

  lemma RollingShift3(s: bv5, m: bv32, h: bv32, a: bv32, b: bv32, c: bv32, d: bv32)
    requires s == 3 && (m == 0xff || m == 0x1ff)
    requires a & 0xff == a && b & 0xff == b && c & 0xff == c && d & 0xff == d
    requires Mix(s, m, h, c) == Mix(s, m, Mix(s, m, a, b), c)
    ensures Mix(s, m, Mix(s, m, h, c), d) == Mix(s, m, Mix(s, m, b, c), d)
  {
  }

  lemma RollingShift4(s: bv5, m: bv32, h: bv32, a: bv32, b: bv32, c: bv32, d: bv32)
    requires s == 4 && (m == 0x3ff || m == 0x7ff || m == 0xfff)
    requires a & 0xff == a && b & 0xff == b && c & 0xff == c && d & 0xff == d
    requires Mix(s, m, h, c) == Mix(s, m, Mix(s, m, a, b), c)
    ensures Mix(s, m, Mix(s, m, h, c), d) == Mix(s, m, Mix(s, m, b, c), d)
  {
  }

  lemma RollingShift5(s: bv5, m: bv32, h: bv32, a: bv32, b: bv32, c: bv32, d: bv32)
    requires s == 5 && (m == 0x1fff || m == 0x3fff || m == 0x7fff)
    requires a & 0xff == a && b & 0xff == b && c & 0xff == c && d & 0xff == d
    requires Mix(s, m, h, c) == Mix(s, m, Mix(s, m, a, b), c)
    ensures Mix(s, m, Mix(s, m, h, c), d) == Mix(s, m, Mix(s, m, b, c), d)
  {
  }

  lemma RollingShift6(s: bv5, m: bv32, h: bv32, a: bv32, b: bv32, c: bv32, d: bv32)
    requires s == 6 && m == 0xffff
    requires a & 0xff == a && b & 0xff == b && c & 0xff == c && d & 0xff == d
    requires Mix(s, m, h, c) == Mix(s, m, Mix(s, m, a, b), c)
    ensures Mix(s, m, Mix(s, m, h, c), d) == Mix(s, m, Mix(s, m, b, c), d)
  {
  }

  lemma ByteBits(c: bv8)
    ensures (c as bv32) & 0xff == c as bv32
  {
  }

  /** A key that is right for `a b` stays right for `b c`: the byte `a` drops out. */
  lemma Rolling(p: Params, h: bv32, a: bv8, b: bv8, c: bv8, d: bv8)
    requires Setting(p)
    requires Update(p, h, c) == Hash3(p, a, b, c)
    ensures Update(p, Update(p, h, c), d) == Hash3(p, b, c, d)
  {
    hide Mix;
    ByteBits(a); ByteBits(b); ByteBits(c); ByteBits(d);
    var a', b', c', d' := a as bv32, b as bv32, c as bv32, d as bv32;
    if p.shift == 3 {
      RollingShift3(p.shift, p.mask, h, a', b', c', d');
    } else if p.shift == 4 {
      RollingShift4(p.shift, p.mask, h, a', b', c', d');
    } else if p.shift == 5 {
      RollingShift5(p.shift, p.mask, h, a', b', c', d');
    } else {
      RollingShift6(p.shift, p.mask, h, a', b', c', d');
    }
  }

  lemma MixLastByte(s: bv5, m: bv32, h: bv32, c: bv8, d: bv8)
    requires m & 0xff == 0xff
    requires Mix(s, m, h, c as bv32) == Mix(s, m, h, d as bv32)
    ensures c == d
  {
  }

  /** Equal keys and equal first two bytes force an equal third byte. */
  lemma ThirdByte(p: Params, a: bv8, b: bv8, c: bv8, d: bv8)
    requires Setting(p)
    requires Hash3(p, a, b, c) == Hash3(p, a, b, d)
    ensures c == d
  {
    hide Mix;
    MixLastByte(p.shift, p.mask, Update(p, a as bv32, b), c, d);
  }

  lemma MaskRange(x: bv32)
    ensures (x & 0xff) as int < 0x100
    ensures (x & 0x1ff) as int < 0x200
    ensures (x & 0x3ff) as int < 0x400
    ensures (x & 0x7ff) as int < 0x800
    ensures (x & 0xfff) as int < 0x1000
    ensures (x & 0x1fff) as int < 0x2000
    ensures (x & 0x3fff) as int < 0x4000
    ensures (x & 0x7fff) as int < 0x8000
    ensures (x & 0xffff) as int < 0x10000
  {
  }

  lemma MixMasked(s: bv5, m: bv32, h: bv32, c: bv32)
    ensures Mix(s, m, h, c) & m == Mix(s, m, h, c)
  {
  }

  /** Every key is an index of the head table. */
  lemma KeyInTable(p: Params, h: bv32, c: bv8)
    requires Setting(p)
    ensures Index(Update(p, h, c)) < p.size
  {
    hide Mix;
    MixMasked(p.shift, p.mask, h, c as bv32);
    MaskRange(Update(p, h, c));
  }
}
