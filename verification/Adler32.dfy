/**
 Adler-32 as adler32.c computes it: sums reduced once per block, reduction without division, and the
 combination of two checksums, against the definition of section 8.2 of RFC 1950.
 */
module Adler32 {
  import opened Basics

  newtype uint32 = x: int | 0 <= x < 0x1_0000_0000
  newtype int64 = x: int | -0x8000_0000_0000_0000 <= x < 0x8000_0000_0000_0000
  /** The largest prime below 65536. */
  const BASE := 65521

  const NMAX := 5552

  // ----- the definition

  /** s1 and s2 of RFC 1950. */
  datatype Sums = Sums(a: nat, b: nat)

  predicate Reduced(s: Sums) {
    s.a < BASE && s.b < BASE
  }

  function Step(s: Sums, x: byte): (r: Sums)
    ensures Reduced(r)
  {
    var a := (s.a + x) % BASE;
    Sums(a, (s.b + a) % BASE)
  }

  function Update(s: Sums, data: seq<byte>): (r: Sums)
    ensures Reduced(s) ==> Reduced(r)
  {
    if data == [] then s else Step(Update(s, data[..|data| - 1]), data[|data| - 1])
  }

  /** The checksum word: s2 above s1. */
  function Pack(s: Sums): (v: nat)
    requires Reduced(s)
    ensures v < 0x1_0000_0000
  {
    s.b * 0x1_0000 + s.a
  }

  function Unpack(v: nat): Sums {
    Sums(v % 0x1_0000, v / 0x1_0000)
  }

  const INITIAL := Sums(1, 0)

  /** Updating over a, then b, is updating over both. */
  lemma {:induction false} UpdateConcat(s: Sums, a: seq<byte>, b: seq<byte>)
    ensures Update(s, a + b) == Update(Update(s, a), b)
  {
    if b == [] {
      assert a + b == a;
    } else {
      UpdateConcat(s, a, b[..|b| - 1]);
      assert (a + b)[..|a + b| - 1] == a + b[..|b| - 1];
    }
  }

  // ----- residues

  lemma ModPlus(x: int, k: int, m: int)
    requires m > 0
    ensures (x + k * m) % m == x % m
  {
    assert x == x / m * m + x % m;
    assert x + k * m == (x / m + k) * m + x % m by {
      Distribute(x / m, k, m);
    }
    ModUnique(x + k * m, m, x / m + k, x % m);
  }

  lemma Distribute(a: int, b: int, m: int)
    ensures (a + b) * m == a * m + b * m
  {
  }

  lemma ModUnique(x: int, m: int, q: int, r: int)
    requires m > 0 && 0 <= r < m && x == q * m + r
    ensures x % m == r
  {
    var d := x / m - q;
    assert d * m == r - x % m by {
      Distribute(x / m, -q, m);
      assert -q * m == -(q * m);
    }
    AtLeastOne(d, m);
  }

  lemma AtLeastOne(d: int, m: int)
    requires m > 0
    ensures d >= 1 ==> d * m >= m
    ensures d <= -1 ==> d * m <= -m
  {
  }

  /** Adding to a number or to its residue is the same. */
  lemma ModAdd(x: int, y: int)
    ensures (x % BASE + y) % BASE == (x + y) % BASE
  {
    ModPlus(x % BASE + y, x / BASE, BASE);
  }

  // ----- reduction without division

  /** CHOP: 65536 is 15 more than BASE. */
  method Chop(a: uint32) returns (r: uint32)
    ensures r as int == a as int % 0x1_0000 + 15 * (a as int / 0x1_0000)
    ensures r as int % BASE == a as int % BASE
  {
    var tmp := a / 0x1_0000;
    r := a % 0x1_0000;
    r := r + (tmp * 16 - tmp);
    ModPlus(r as int, a as int / 0x1_0000, BASE);
  }

  /** MOD28 on the numbers below 2^28. */
  method Mod28(a: uint32) returns (r: uint32)
    requires a < 0x1000_0000
    ensures r as int == a as int % BASE
  {
    r := Chop(a);
    if r >= 65521 {
      r := r - 65521;
      ModPlus(r as int, 1, BASE);
    }
  }

  /** MOD on all 32-bit numbers. */
  method Mod(a: uint32) returns (r: uint32)
    ensures r as int == a as int % BASE
  {
    r := Chop(a);
    r := Mod28(r);
  }

  /** A turn of MOD63 that moves the part above 2^16 down. */
  method Fold16(a: int64) returns (r: int64)
    requires 0 <= a < 0x80_0000_0000
    ensures 0 <= r < 0x800_0000 && r as int % BASE == a as int % BASE
    ensures a < 0x800_0000 ==> r < 2 * 65521
  {
    var tmp := a / 0x1_0000;
    r := a % 0x1_0000;
    r := r + (tmp * 16 - tmp);
    ModPlus(r as int, a as int / 0x1_0000, BASE);
  }

  /** The first turn of MOD63: 2^32 is 225 more than a multiple of BASE. */
  method Fold32(a: int64) returns (r: int64)
    requires a >= 0
    ensures 0 <= r < 0x80_0000_0000 && r as int % BASE == a as int % BASE
  {
    var tmp := a / 0x1_0000_0000;
    r := a % 0x1_0000_0000;
    r := r + (tmp * 256 - tmp * 32 + tmp);
    ModPlus(r as int, tmp as int * 65551, BASE);
  }

  /** MOD63 on all lengths. */
  method Mod63(a: int64) returns (r: int64)
    requires a >= 0
    ensures r as int == a as int % BASE
  {
    r := Fold32(a);
    r := Fold16(r);
    r := Fold16(r);
    if r >= 65521 {
      r := r - 65521;
      ModPlus(r as int, 1, BASE);
    }
  }

  // ----- sums that are not reduced

  /** The largest value of sum2 after `k` bytes of 255 and two sums of at most `first`. */
  function Peak(first: nat, k: nat): nat {
    if k == 0 then first else Peak(first, k - 1) + first + 255 * k
  }

  lemma {:induction false} PeakFormula(first: nat, k: nat)
    ensures 2 * Peak(first, k) == 2 * (first * (k + 1)) + 255 * k * (k + 1)
  {
    if k > 0 {
      PeakFormula(first, k - 1);
      Squares(first, k);
    }
  }

  lemma Squares(first: nat, k: nat)
    ensures 255 * k * (k + 1) == 255 * (k - 1) * k + 2 * (255 * k)
    ensures first * (k + 1) == first * k + first
  {
  }

  /**
   NMAX is the largest number of bytes after which sum2 is sure to fit 32 bits if it starts reduced;
   and it is small enough for all 16-bit starts.
   */
  lemma NmaxIsLargest()
    ensures Peak(BASE - 1, NMAX) < 0x1_0000_0000 <= Peak(BASE - 1, NMAX + 1)
    ensures Peak(0xffff, NMAX) < 0x1_0000_0000
  {
    hide Peak;
    PeakFormula(BASE - 1, NMAX);
    PeakFormula(BASE - 1, NMAX + 1);
    PeakFormula(0xffff, NMAX);
  }

  lemma {:induction false} PeakGrows(first: nat, k: nat, m: nat)
    requires k <= m
    ensures Peak(first, k) <= Peak(first, m)
  {
    if k < m {
      PeakGrows(first, k, m - 1);
    }
  }

  /** The running sums stand for reduced ones, and are no larger than `k` bytes can make them. */
  predicate Stands(adler: uint32, sum2: uint32, k: nat, s: Sums) {
    && adler as int % BASE == s.a && sum2 as int % BASE == s.b
    && adler as int <= 0xffff + 255 * k && sum2 as int <= Peak(0xffff, k)
  }

  /** DO1: no sum overflows within NMAX bytes. */
  method Do1(adler: uint32, sum2: uint32, x: byte, ghost k: nat, ghost s: Sums) returns (a: uint32, b: uint32)
    requires k < NMAX && Stands(adler, sum2, k, s)
    ensures Stands(a, b, k + 1, Step(s, x))
  {
    hide Peak;
    Room(k);
    a := adler + x as uint32;
    b := sum2 + a;
    StepOfResidues(adler as int, sum2 as int, x, s);
  }

  lemma Room(k: nat)
    requires k < NMAX
    ensures Peak(0xffff, k) + 0xffff + 255 * (k + 1) == Peak(0xffff, k + 1) < 0x1_0000_0000
  {
    hide Peak;
    NmaxIsLargest();
    PeakGrows(0xffff, k + 1, NMAX);
    PeakNext(k);
  }

  /** A step may be taken on any numbers that stand for the sums. */
  lemma StepOfResidues(a: int, b: int, x: int, s: Sums)
    requires a % BASE == s.a && b % BASE == s.b && 0 <= x < 256
    ensures Step(s, x) == Sums((a + x) % BASE, (b + (a + x)) % BASE)
  {
    ModAdd(a, x);
    ModAdd(b, (a + x) % BASE);
    ModAdd(a + x, b);
  }

  lemma PeakNext(k: nat)
    ensures Peak(0xffff, k + 1) == Peak(0xffff, k) + 0xffff + 255 * (k + 1) && Peak(0xffff, 0) == 0xffff
  {
  }

  /** The byte-at-a-time loops, and DO16: `data` is summed without reduction. */
  method SumBytes(adler: uint32, sum2: uint32, data: seq<byte>, ghost k: nat, ghost s: Sums)
      returns (a: uint32, b: uint32)
    requires k + |data| <= NMAX && Stands(adler, sum2, k, s)
    ensures Stands(a, b, k + |data|, Update(s, data))
  {
    a, b := adler, sum2;
    for i := 0 to |data|
      invariant Stands(a, b, k + i, Update(s, data[..i]))
    {
      assert data[..i + 1][..i] == data[..i];
      a, b := Do1(a, b, data[i], k + i, Update(s, data[..i]));
    }
    assert data[..|data|] == data;
  }

  // ----- adler32_z

  /** The sums that any two numbers stand for. */
  function Residue(s: Sums): (r: Sums)
    ensures Reduced(r)
  {
    Sums(s.a % BASE, s.b % BASE)
  }

  lemma ReducedResidue(s: Sums)
    ensures Reduced(s) ==> Residue(s) == s
  {
  }

  /** Both sums after MOD: a reduced pair. */
  method Reduce(adler: uint32, sum2: uint32, ghost k: nat, ghost s: Sums) returns (a: uint32, b: uint32)
    requires Stands(adler, sum2, k, s)
    ensures a as int == s.a && b as int == s.b
  {
    a := Mod(adler);
    b := Mod(sum2);
  }

  lemma ModSmall(x: int)
    ensures 0 <= x < BASE ==> x % BASE == x
  {
  }

  /** The word made of two sums. */
  method Join(a: uint32, b: uint32) returns (r: uint32)
    requires a < 65521 && b <= 0xffff
    ensures Unpack(r as int) == Sums(a as int, b as int)
    ensures b < 65521 ==> r as int == Pack(Sums(a as int, b as int))
  {
    r := b * 0x1_0000 + a;
  }

  /** A single byte: one subtraction reduces the first sum always, the second if it was not too large. */
  method OneByte(adler: uint32, sum2: uint32, x: byte) returns (a: uint32, b: uint32)
    requires adler <= 0xffff && sum2 <= 0xffff
    ensures var u := Step(Residue(Sums(adler as int, sum2 as int)), x);
      a as int == u.a && b as int % BASE == u.b && b <= 0xffff && (b < 65521 <==> sum2 as int + u.a < 2 * BASE)
  {
    ModAdd(adler as int, x);
    a := adler + x as uint32;
    if a >= 65521 {
      a := a - 65521;
      ModPlus(a as int, 1, BASE);
    }
    ModSmall(a as int);
    b := sum2 + a;
    ModAdd(sum2 as int, a as int);
    if b >= 65521 {
      b := b - 65521;
      ModPlus(b as int, 1, BASE);
    }
  }

  /** Fewer than 16 bytes: one subtraction reduces the first sum. */
  method FewBytes(adler: uint32, sum2: uint32, data: seq<byte>) returns (a: uint32, b: uint32)
    requires adler <= 0xffff && sum2 <= 0xffff && |data| < 16
    ensures Sums(a as int, b as int) == Update(Residue(Sums(adler as int, sum2 as int)), data)
  {
    hide Update, Peak;
    ghost var s := Residue(Sums(adler as int, sum2 as int));
    PeakNext(0);
    a, b := SumBytes(adler, sum2, data, 0, s);
    PeakGrows(0xffff, |data|, 15);
    PeakFormula(0xffff, 15);
    if a >= 65521 {
      a := a - 65521;
      ModPlus(a as int, 1, BASE);
    }
    ModSmall(a as int);
    b := Mod28(b);
  }

  /** Blocks of NMAX bytes, then the rest, each reduced once. */
  method ManyBytes(adler: uint32, sum2: uint32, data: seq<byte>) returns (a: uint32, b: uint32)
    requires adler <= 0xffff && sum2 <= 0xffff && data != []
    ensures Sums(a as int, b as int) == Update(Residue(Sums(adler as int, sum2 as int)), data)
  {
    ghost var s := Residue(Sums(adler as int, sum2 as int));
    a, b := adler, sum2;
    var at := 0;
    while |data| - at >= NMAX
      invariant 0 <= at <= |data| && a <= 0xffff && b <= 0xffff
      invariant Residue(Sums(a as int, b as int)) == Update(s, data[..at])
      invariant at > 0 ==> a < 65521 && b < 65521
    {
      a, b := Block(a, b, data[at..at + NMAX]);
      assert data[..at] + data[at..at + NMAX] == data[..at + NMAX];
      UpdateConcat(s, data[..at], data[at..at + NMAX]);
      ReducedResidue(Sums(a as int, b as int));
      at := at + NMAX;
    }
    if at < |data| {
      a, b := Block(a, b, data[at..]);
      UpdateConcat(s, data[..at], data[at..]);
      assert data[..at] + data[at..] == data;
    } else {
      assert data[..at] == data;
      ReducedResidue(Sums(a as int, b as int));
    }
  }

  /** At most NMAX bytes and one reduction. */
  method Block(adler: uint32, sum2: uint32, data: seq<byte>) returns (a: uint32, b: uint32)
    requires adler <= 0xffff && sum2 <= 0xffff && |data| <= NMAX
    ensures a < 65521 && b < 65521 && Sums(a as int, b as int) == Update(Residue(Sums(adler as int, sum2 as int)), data)
  {
    hide Update, Peak;
    ghost var s := Residue(Sums(adler as int, sum2 as int));
    PeakNext(0);
    a, b := SumBytes(adler, sum2, data, 0, s);
    a, b := Reduce(a, b, |data|, Update(s, data));
  }

  /**
   adler32_z for every start word: both halves of the result are right modulo BASE, and the result is
   the checksum itself but for one byte after a second sum that was so large that one subtraction
   leaves it too large.  From a checksum it always is.  Without a buffer it is the initial checksum.
   */
  method Adler32Z(adler: uint32, buf: Option<seq<byte>>) returns (r: uint32)
    ensures buf.None? ==> r as int == Pack(INITIAL)
    ensures buf.Some? ==>
      var s, t := Unpack(adler as int), Unpack(r as int);
      var u := Update(Residue(s), buf.value);
      t.a == u.a && t.b % BASE == u.b && (r as int == Pack(u) <==> !(|buf.value| == 1 && s.b + u.a >= 2 * BASE))
    ensures buf.Some? && Reduced(Unpack(adler as int)) ==> r as int == Pack(Update(Unpack(adler as int), buf.value))
  {
    if buf.None? {
      return 1;
    }
    var data := buf.value;
    var sum2, low := adler / 0x1_0000, adler % 0x1_0000;
    ghost var s := Unpack(adler as int);
    ReducedResidue(s);
    r := Checksum(low, sum2, data);
  }

  /** A start word for which one byte leaves the second sum too large. */
  lemma StartTooLarge()
    ensures var s := Unpack(0xffff_fff0); s.b + Step(Residue(s), 0).a >= 2 * BASE
  {
  }

  /** All lengths. */
  method Checksum(low: uint32, sum2: uint32, data: seq<byte>) returns (r: uint32)
    requires low <= 0xffff && sum2 <= 0xffff
    ensures var t, u := Unpack(r as int), Update(Residue(Sums(low as int, sum2 as int)), data);
      t.a == u.a && t.b % BASE == u.b && (r as int == Pack(u) <==> !(|data| == 1 && sum2 as int + u.a >= 2 * BASE))
  {
    hide Update, Residue;
    var a, b;
    if |data| == 1 {
      a, b := OneByte(low, sum2, data[0]);
      OneIsStep(Residue(Sums(low as int, sum2 as int)), data);
    } else if |data| < 16 {
      a, b := FewBytes(low, sum2, data);
    } else {
      a, b := ManyBytes(low, sum2, data);
    }
    ModSmall(b as int);
    r := Join(a, b);
    PackUnpack(r as int, Update(Residue(Sums(low as int, sum2 as int)), data));
  }

  lemma PackUnpack(r: nat, u: Sums)
    requires Reduced(u)
    ensures r == Pack(u) <==> Unpack(r) == u
  {
  }

  lemma OneIsStep(s: Sums, data: seq<byte>)
    requires |data| == 1
    ensures Update(s, data) == Step(s, data[0])
  {
    assert data[..0] == [];
  }

  // ----- adler32_combine_

  /** The sum of all bytes, and the sum of these sums after each byte. */
  function Plain(data: seq<byte>): nat {
    if data == [] then 0 else Plain(data[..|data| - 1]) + data[|data| - 1]
  }

  function Weighted(data: seq<byte>): nat {
    if data == [] then 0 else Weighted(data[..|data| - 1]) + Plain(data)
  }

  /** A product, by name. */
  function Mul(n: int, a: int): int {
    n * a
  }

  /** The checksum in closed form. */
  lemma {:induction false} ClosedForm(s: Sums, data: seq<byte>)
    requires Reduced(s)
    ensures Update(s, data).a == (s.a + Plain(data)) % BASE
    ensures Update(s, data).b == (s.b + Mul(|data|, s.a) + Weighted(data)) % BASE
  {
    hide Mul;
    if data == [] {
      ModSmall(s.a);
      ModSmall(s.b);
      NoneOf(s.a);
    } else {
      var front, x := data[..|data| - 1], data[|data| - 1];
      ClosedForm(s, front);
      NextForm(s.a, s.b, Plain(front), Weighted(front), Mul(|front|, s.a), x);
      OneMore(|front|, s.a);
      hide Plain;
    }
  }

  lemma OneMore(n: nat, a: nat)
    ensures Mul(n + 1, a) == Mul(n, a) + a
  {
  }

  lemma NoneOf(a: nat)
    ensures Mul(0, a) == 0
  {
  }

  lemma NextForm(a: int, b: int, p: int, w: int, m: int, x: int)
    ensures ((a + p) % BASE + x) % BASE == (a + (p + x)) % BASE
    ensures ((b + m + w) % BASE + (a + (p + x)) % BASE) % BASE == (b + (m + a) + (w + (p + x))) % BASE
  {
    ModAdd(a + p, x);
    ModAdd(b + m + w, (a + (p + x)) % BASE);
    ModAdd(a + (p + x), b + m + w);
  }

  /** The checksum of a text in closed form. */
  lemma OwnForm(data: seq<byte>)
    ensures Update(INITIAL, data).a == (1 + Plain(data)) % BASE
    ensures Update(INITIAL, data).b == (|data| + Weighted(data)) % BASE
  {
    ClosedForm(INITIAL, data);
    hide Update, Plain, Weighted;
  }

  /** The first sum of a joined text. */
  lemma CombineFirst(a: seq<byte>, b: seq<byte>)
    ensures Update(INITIAL, a + b).a == (Update(INITIAL, a).a + Update(INITIAL, b).a - 1) % BASE
  {
    hide Update, Plain, Mul, Weighted;
    var s := Update(INITIAL, a);
    UpdateConcat(INITIAL, a, b);
    ClosedForm(s, b);
    OwnForm(b);
    ModAdd(1 + Plain(b), s.a - 1);
  }

  /** The second sum of a joined text. */
  lemma CombineSecond(a: seq<byte>, b: seq<byte>)
    ensures var s, t := Update(INITIAL, a), Update(INITIAL, b);
      Update(INITIAL, a + b).b == (Mul(|b|, s.a) + s.b + t.b - |b|) % BASE
  {
    hide Update, Plain, Mul, Weighted;
    var s := Update(INITIAL, a);
    UpdateConcat(INITIAL, a, b);
    ClosedForm(s, b);
    OwnForm(b);
    SecondForm(|b|, Mul(|b|, s.a), s.b, Weighted(b));
  }

  lemma SecondForm(n: int, m: int, sb: int, w: int)
    ensures (sb + m + w) % BASE == (m + sb + (n + w) % BASE - n) % BASE
  {
    ModAdd(n + w, m + sb - n);
  }

  lemma ProductFits(rem: int, a: int)
    requires 0 <= rem < BASE && 0 <= a < BASE
    ensures 0 <= rem * a <= 65520 * 65520
  {
    Times(rem, 65520, a);
    Times(a, 65520, 65520);
  }

  lemma Times(a: int, b: int, w: int)
    requires a <= b && 0 <= w
    ensures a * w <= b * w
  {
  }

  /** The length matters only modulo BASE. */
  lemma LengthResidue(n: nat, rem: int, a: int, c: int)
    requires rem == n % BASE
    ensures (Mul(n, a) + c - n) % BASE == (Mul(rem, a) % BASE + c - rem) % BASE
  {
    var k := n / BASE;
    ModAdd(rem * a, c - rem);
    assert n == rem + k * BASE;
    assert n * a + c - n == rem * a + c - rem + (k * a - k) * BASE by {
      Expand(rem, k, a);
    }
    ModPlus(rem * a + c - rem, k * a - k, BASE);
  }

  lemma Expand(rem: int, k: int, a: int)
    ensures (rem + k * BASE) * a == rem * a + k * a * BASE
  {
    assert (rem + k * BASE) * a == rem * a + k * BASE * a;
    assert k * BASE * a == k * a * BASE;
  }

  /** Three conditional subtractions reduce both sums. */
  method Subtract(sum1: uint32, sum2: uint32) returns (a: uint32, b: uint32)
    requires sum1 < 3 * 65521 && sum2 < 4 * 65521
    ensures a as int == sum1 as int % BASE && b as int == sum2 as int % BASE
  {
    a, b := sum1, sum2;
    if a >= 65521 {
      a := a - 65521;
    }
    if a >= 65521 {
      a := a - 65521;
    }
    if b >= 2 * 65521 {
      b := b - 2 * 65521;
    }
    if b >= 65521 {
      b := b - 65521;
    }
  }

  /** The arithmetic of adler32_combine_ on the sums of both parts. */
  method CombineSums(a1: uint32, b1: uint32, a2: uint32, b2: uint32, rem: uint32) returns (a: uint32, b: uint32)
    requires a1 < 65521 && b1 < 65521 && a2 < 65521 && b2 < 65521 && rem < 65521
    ensures a as int == (a1 as int + a2 as int - 1) % BASE
    ensures b as int == (Mul(rem as int, a1 as int) % BASE + (b1 as int + b2 as int) - rem as int) % BASE
  {
    ProductFits(rem as int, a1 as int);
    var sum2 := rem * a1;
    sum2 := Mod(sum2);
    a, b := AddAndSubtract(a1, b1, a2, b2, rem, sum2);
  }

  method AddAndSubtract(a1: uint32, b1: uint32, a2: uint32, b2: uint32, rem: uint32, product: uint32)
      returns (a: uint32, b: uint32)
    requires a1 < 65521 && b1 < 65521 && a2 < 65521 && b2 < 65521 && rem < 65521 && product < 65521
    ensures a as int == (a1 as int + a2 as int - 1) % BASE
    ensures b as int == (product as int + (b1 as int + b2 as int) - rem as int) % BASE
  {
    var sum1 := a1 + (a2 + 65521 - 1);
    var sum2 := product + (b1 + b2 + 65521 - rem);
    ModPlus(a1 as int + a2 as int - 1, 1, BASE);
    ModPlus(product as int + (b1 as int + b2 as int) - rem as int, 1, BASE);
    a, b := Subtract(sum1, sum2);
  }

  /** The sums of a joined text from those of its parts. */
  lemma JoinedSums(first: seq<byte>, second: seq<byte>, rem: int)
    requires rem == |second| % BASE
    ensures var s, t := Update(INITIAL, first), Update(INITIAL, second);
      var u := Update(INITIAL, first + second);
      u.a == (s.a + t.a - 1) % BASE && u.b == (Mul(rem, s.a) % BASE + (s.b + t.b) - rem) % BASE
  {
    hide Update, Mul;
    var s, t := Update(INITIAL, first), Update(INITIAL, second);
    CombineFirst(first, second);
    CombineSecond(first, second);
    LengthResidue(|second|, rem, s.a, s.b + t.b);
  }

  /** The two halves of a checksum word. */
  method Split(v: uint32, ghost s: Sums) returns (a: uint32, b: uint32)
    requires Reduced(s) && v as int == Pack(s)
    ensures a as int == s.a && b as int == s.b
  {
    a, b := v % 0x1_0000, v / 0x1_0000;
  }

  /**
   adler32_combine_: the checksum of a text from those of its two parts and the second one's length.  A negative
   length gives a word that is no checksum.
   */
  method Combine(adler1: uint32, adler2: uint32, len2: int64, ghost first: seq<byte>, ghost second: seq<byte>)
      returns (r: uint32)
    requires adler1 as int == Pack(Update(INITIAL, first)) && adler2 as int == Pack(Update(INITIAL, second))
    requires len2 >= 0 ==> len2 as int == |second|
    ensures r as int == if len2 < 0 then 0xffff_ffff else Pack(Update(INITIAL, first + second))
  {
    hide Update, Mul, Pack;
    if len2 < 0 {
      return 0xffff_ffff;
    }
    var rem := Mod63(len2);
    JoinedSums(first, second, rem as int);
    var a1, b1 := Split(adler1, Update(INITIAL, first));
    var a2, b2 := Split(adler2, Update(INITIAL, second));
    var a, b := CombineSums(a1, b1, a2, b2, rem as uint32);
    r := Join(a, b);
  }
}
