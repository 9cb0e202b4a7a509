/**
 The dictionary of deflate: `head[key]` is the most recent string with that key and
 `prev[index & w_mask]` the one before it, both as window indices with 0 for "none".

 The invariants speak of positions in the whole input (`base` + window index), so that moving the
 window only changes `base`.  `inserted` is the set of positions whose strings were ever inserted.
 */
module HashChains {
  import opened Basics
  import opened RollingHash

  /** An entry of head and prev (16 bits). */
  type Pos = x: int | 0 <= x < 0x10000

  function HashAt(p: Params, data: seq<bv8>, at: int): bv32
    requires 0 <= at && at + 3 <= |data|
  {
    Hash3(p, data[at], data[at + 1], data[at + 2])
  }

  /** The key of the string at a position, as an index of the head table. */
  function KeyAt(p: Params, data: seq<bv8>, at: int): int
    requires 0 <= at && at + 3 <= |data|
  {
    Index(HashAt(p, data, at))
  }

  /** `a & b` */
  function And(a: nat, b: nat): nat {
    if a == 0 || b == 0 then 0
    else 2 * And(a / 2, b / 2) + if a % 2 == 1 && b % 2 == 1 then 1 else 0
  }

  ghost predicate PowerOfTwo(w: nat) {
    exists k: nat :: w == Pow2(k)
  }

  /** Where the link of a window index is kept. */
  function Slot(wSize: nat, index: int): (slot: int)
    requires 0 <= index < 2 * wSize
    ensures 0 <= slot < wSize
  {
    if index < wSize then index else index - wSize
  }

  /** index & w_mask */
  lemma {:induction false} MaskOfPower(k: nat, index: nat)
    requires index < 2 * Pow2(k)
    ensures And(index, Pow2(k) - 1) == Slot(Pow2(k), index)
  {
    if k > 0 && index > 0 {
      MaskOfPower(k - 1, index / 2);
    }
  }

  lemma SlotIsMask(wSize: nat, index: nat)
    requires PowerOfTwo(wSize) && index < 2 * wSize
    ensures And(index, wSize - 1) == Slot(wSize, index)
  {
    var k :| wSize == Pow2(k);
    MaskOfPower(k, index);
  }

  lemma SlotIsRemainder(wSize: nat, index: int)
    requires 0 <= index < 2 * wSize
    ensures Slot(wSize, index) == index % wSize
  {
    var quotient := index / wSize;
    assert index == wSize * quotient + index % wSize;
    if quotient < 0 {
      MultipleAtMost(wSize, quotient, -1);
    } else if quotient > 1 {
      MultipleAtMost(wSize, 2, quotient);
    }
  }

  lemma MultipleAtMost(w: nat, a: int, b: int)
    requires a <= b
    ensures w * a <= w * b
  {
  }

  /** Inserted strings lie whole inside the input read so far, before `hi`. */
  ghost predicate InsertedOk(data: seq<bv8>, inserted: set<int>, hi: int) {
    forall a :: a in inserted ==> 0 <= a < hi && a + 3 <= |data|
  }

  /** `index` names an inserted string of the given key. */
  ghost predicate Names(p: Params, data: seq<bv8>, base: int, inserted: set<int>, index: int, key: int) {
    && base + index in inserted
    && 0 <= base + index && base + index + 3 <= |data|
    && KeyAt(p, data, base + index) == key
  }

  ghost predicate HeadsOk(p: Params, data: seq<bv8>, base: int, inserted: set<int>, head: seq<Pos>) {
    && |head| == p.size
    && forall k :: 0 <= k < |head| && head[k] != 0 ==> Names(p, data, base, inserted, head[k], k)
  }

  /** The link of the string at window index `index`. */
  ghost predicate LinkOk(p: Params, data: seq<bv8>, base: int, inserted: set<int>, link: int, index: int)
    requires 0 <= base + index && base + index + 3 <= |data|
  {
    link == 0 || (link < index && Names(p, data, base, inserted, link, KeyAt(p, data, base + index)))
  }

  /**
   Links of strings less than w_size before `top` are right: their slot of the ring has not been
   reused yet.
   */
  ghost predicate LinksOk(p: Params, wSize: nat, data: seq<bv8>, base: int, inserted: set<int>, prev: seq<Pos>,
      top: int) {
    && |prev| == wSize
    && forall index :: 0 < index < 2 * wSize && base + index in inserted && top < base + index + wSize
         && 0 <= base + index && base + index + 3 <= |data|
         ==> LinkOk(p, data, base, inserted, prev[Slot(wSize, index)], index)
  }

  lemma InsertedWeaken(data: seq<bv8>, inserted: set<int>, hi: int, hi': int)
    requires InsertedOk(data, inserted, hi) && hi <= hi'
    ensures InsertedOk(data, inserted, hi')
  {
  }

  /** Strings that need their three bytes cannot start in the last two. */
  lemma InsertedBeforeEnd(data: seq<bv8>, inserted: set<int>, hi: int)
    requires InsertedOk(data, inserted, hi)
    ensures InsertedOk(data, inserted, |data| - 2)
  {
  }

  lemma LinksAdvance(p: Params, wSize: nat, data: seq<bv8>, base: int, inserted: set<int>, prev: seq<Pos>, top: int,
      top': int)
    requires LinksOk(p, wSize, data, base, inserted, prev, top) && top <= top'
    ensures LinksOk(p, wSize, data, base, inserted, prev, top')
  {
  }

  /** Reading more input changes no key. */
  lemma GrowKeeps(p: Params, wSize: nat, data: seq<bv8>, more: seq<bv8>, base: int, inserted: set<int>,
                  head: seq<Pos>, prev: seq<Pos>, hi: int, top: int)
    requires InsertedOk(data, inserted, hi)
    requires HeadsOk(p, data, base, inserted, head)
    requires LinksOk(p, wSize, data, base, inserted, prev, top)
    ensures InsertedOk(data + more, inserted, hi)
    ensures HeadsOk(p, data + more, base, inserted, head)
    ensures LinksOk(p, wSize, data + more, base, inserted, prev, top)
  {
    hide Hash3, Index, Slot;
    forall a | a in inserted
      ensures KeyAt(p, data + more, a) == KeyAt(p, data, a)
    {
    }
    forall index | 0 < index < 2 * wSize && base + index in inserted && top < base + index + wSize
      ensures LinkOk(p, data + more, base, inserted, prev[Slot(wSize, index)], index)
    {
      assert LinkOk(p, data, base, inserted, prev[Slot(wSize, index)], index);
    }
  }

  /** INSERT_STRING: the new string heads its chain, and no live slot of the ring is lost. */
  lemma InsertKeeps(p: Params, wSize: nat, data: seq<bv8>, base: int, inserted: set<int>,
                    head: seq<Pos>, prev: seq<Pos>, top: int, str: Pos)
    requires 0 <= base && 0 <= str < 2 * wSize && base + str + 3 <= |data|
    requires InsertedOk(data, inserted, base + str)
    requires HeadsOk(p, data, base, inserted, head)
    requires LinksOk(p, wSize, data, base, inserted, prev, top)
    requires base + str <= top < base + str + wSize
    requires KeyAt(p, data, base + str) < p.size
    ensures
      var key := KeyAt(p, data, base + str);
      var inserted' := inserted + {base + str};
      && InsertedOk(data, inserted', base + str + 1)
      && HeadsOk(p, data, base, inserted', head[key := str])
      && LinksOk(p, wSize, data, base, inserted', prev[Slot(wSize, str) := head[key]], top)
  {
    hide HashAt, Index;
    var key := KeyAt(p, data, base + str);
    var inserted' := inserted + {base + str};
    var prev' := prev[Slot(wSize, str) := head[key]];
    forall index | 0 < index < 2 * wSize && base + index in inserted' && top < base + index + wSize
      ensures LinkOk(p, data, base, inserted', prev'[Slot(wSize, index)], index)
    {
      if index == str {
      } else {
        assert base + index in inserted;
        assert LinkOk(p, data, base, inserted, prev[Slot(wSize, index)], index);
      }
    }
  }

  /** The chain that INSERT_STRING continues holds earlier strings of the same key. */
  lemma HeadEntry(p: Params, data: seq<bv8>, base: int, inserted: set<int>, head: seq<Pos>, hi: int, at: int)
    requires InsertedOk(data, inserted, hi)
    requires HeadsOk(p, data, base, inserted, head)
    requires 0 <= at && at + 3 <= |data|
    requires KeyAt(p, data, at) < p.size
    ensures
      var first := head[KeyAt(p, data, at)];
      first != 0 ==> base + first < hi && Names(p, data, base, inserted + {at}, first, KeyAt(p, data, at))
  {
  }

  /** Following a link of a chain that is still within reach leads to an earlier string of the same key. */
  lemma ChainStep(p: Params, wSize: nat, data: seq<bv8>, base: int, inserted: set<int>, prev: seq<Pos>, top: int,
                  index: int, key: int)
    requires LinksOk(p, wSize, data, base, inserted, prev, top)
    requires 0 < index < 2 * wSize && top < base + index + wSize
    requires Names(p, data, base, inserted, index, key)
    ensures
      var next := prev[Slot(wSize, index)];
      next != 0 ==> next < index && Names(p, data, base, inserted, next, key)
  {
  }

  /** Strings of one key that agree in two bytes agree in the third. */
  lemma SameThirdByte(p: Params, data: seq<bv8>, a: int, b: int)
    requires Setting(p)
    requires 0 <= a && a + 3 <= |data| && 0 <= b && b + 3 <= |data|
    requires KeyAt(p, data, a) == KeyAt(p, data, b)
    requires data[a] == data[b] && data[a + 1] == data[b + 1]
    ensures data[a + 2] == data[b + 2]
  {
    hide Hash3, Index;
    IndexInjective(HashAt(p, data, a), HashAt(p, data, b));
    ThirdByte(p, data[a], data[a + 1], data[a + 2], data[b + 2]);
  }

  /** slide_hash on one entry. */
  function Slid(wSize: nat, m: Pos): Pos {
    if m >= wSize then m - wSize else 0
  }

  /** After a slide every surviving entry still names the same string, now at a lower index. */
  lemma SlideKeeps(p: Params, wSize: nat, data: seq<bv8>, base: int, inserted: set<int>,
                   head: seq<Pos>, prev: seq<Pos>, head': seq<Pos>, prev': seq<Pos>, top: int)
    requires InsertedOk(data, inserted, base + 2 * wSize)
    requires HeadsOk(p, data, base, inserted, head)
    requires LinksOk(p, wSize, data, base, inserted, prev, top)
    requires |head'| == |head| && forall k :: 0 <= k < |head| ==> head'[k] == Slid(wSize, head[k])
    requires |prev'| == |prev| && forall k :: 0 <= k < |prev| ==> prev'[k] == Slid(wSize, prev[k])
    ensures HeadsOk(p, data, base + wSize, inserted, head')
    ensures LinksOk(p, wSize, data, base + wSize, inserted, prev', top)
  {
    hide HashAt, Index;
    var base' := base + wSize;
    forall k | 0 <= k < |head'| && head'[k] != 0
      ensures Names(p, data, base', inserted, head'[k], k)
    {
      assert Names(p, data, base, inserted, head[k], k);
      assert base + head[k] == base' + head'[k];
    }
    forall index | 0 < index < 2 * wSize && base' + index in inserted && top < base' + index + wSize
      ensures LinkOk(p, data, base', inserted, prev'[Slot(wSize, index)], index)
    {
      var before := index + wSize;
      assert base + before == base' + index;
      assert LinkOk(p, data, base, inserted, prev[Slot(wSize, before)], before);
      assert Slot(wSize, before) == Slot(wSize, index);
      assert base + prev[Slot(wSize, before)] == base' + (prev[Slot(wSize, before)] - wSize);
    }
  }

  /** With an empty head table and no data in the window, old strings cannot be reached any more. */
  lemma ForgetKeeps(p: Params, wSize: nat, data: seq<bv8>, inserted: set<int>, hi: int, head: seq<Pos>, prev: seq<Pos>)
    requires InsertedOk(data, inserted, hi)
    requires |head| == p.size && forall k :: 0 <= k < |head| ==> head[k] == 0
    requires |prev| == wSize
    ensures InsertedOk(data, inserted, |data|)
    ensures HeadsOk(p, data, |data|, inserted, head)
    ensures LinksOk(p, wSize, data, |data|, inserted, prev, |data|)
  {
  }
}
