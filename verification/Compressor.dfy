/**
 The string matcher of deflate: sliding window, hash chains, longest match search and the
 compression loops that turn input bytes into literal and copy symbols.
 */
module Compressor {
  import opened Basics
  import opened Flushing
  import opened Lz77
  import opened RollingHash
  import opened HashChains

  const MIN_LOOKAHEAD := MAX_MATCH + MIN_MATCH + 1
  const TOO_FAR := 4096

  /** The compression function in use. */
  datatype Strategy = Fast | Slow | Rle | HuffmanOnly

  /** Return values of deflate. */
  datatype Result = Ok | StreamEnd | StreamError | BufError

  /** One call of deflate: the input it supplies, its flush parameter and the room for output. */
  datatype Call = Call(chunk: seq<bv8>, flush: Flush, room: nat)

  /** How many bytes the first `n` pieces of output take. */
  function Produced(bytes: nat -> nat, n: nat): nat {
    if n == 0 then 0 else Produced(bytes, n - 1) + bytes(n - 1)
  }

  lemma ProducedNext(bytes: nat -> nat, n: nat)
    ensures Produced(bytes, 0) == 0 && Produced(bytes, n + 1) == Produced(bytes, n) + bytes(n)
  {
  }

  /** No call but the last one has Z_FINISH. */
  predicate FinishLast(calls: seq<Call>) {
    forall k :: 0 <= k < |calls| - 1 ==> !calls[k].flush.Finish?
  }

  ghost function Input(calls: seq<Call>): seq<bv8> {
    if calls == [] then [] else Input(calls[..|calls| - 1]) + calls[|calls| - 1].chunk
  }

  /** w_size for window bits 9 to 15; 8 is taken as 9. */
  function WindowSize(windowBits: nat): (size: nat)
    requires 8 <= windowBits <= 15
    ensures 512 <= size <= 32768
  {
    match windowBits
    case 8 => 512
    case 9 => 512
    case 10 => 1024
    case 11 => 2048
    case 12 => 4096
    case 13 => 8192
    case 14 => 16384
    case _ => 32768
  }

  lemma WindowSizeIsPower(windowBits: nat)
    requires 8 <= windowBits <= 15
    ensures WindowSize(windowBits) == Pow2(if windowBits == 8 then 9 else windowBits)
    ensures PowerOfTwo(WindowSize(windowBits))
  {
    assert Pow2(9) == 512 && Pow2(10) == 1024 && Pow2(11) == 2048 && Pow2(12) == 4096;
    assert Pow2(13) == 8192 && Pow2(14) == 16384 && Pow2(15) == 32768;
    var k := if windowBits == 8 then 9 else windowBits;
    assert WindowSize(windowBits) == Pow2(k);
  }

  /** lit_bufsize */
  function SymbolBufferSize(memLevel: nat): (size: nat)
    requires 1 <= memLevel <= 9
    ensures size >= 128
  {
    match memLevel
    case 1 => 128
    case 2 => 256
    case 3 => 512
    case 4 => 1024
    case 5 => 2048
    case 6 => 4096
    case 7 => 8192
    case 8 => 16384
    case _ => 32768
  }

  /** lit_bufsize, hash_size and hash_shift in terms of the memory level. */
  lemma MemLevelSizes(memLevel: nat)
    requires 1 <= memLevel <= 9
    ensures SymbolBufferSize(memLevel) == Pow2(memLevel + 6) && ForMemLevel(memLevel).size == Pow2(memLevel + 7)
    ensures ForMemLevel(memLevel).mask as int == Pow2(memLevel + 7) - 1
    ensures ForMemLevel(memLevel).shift as int == (memLevel + 7 + MIN_MATCH - 1) / MIN_MATCH
  {
    assert Pow2(7) == 128 && Pow2(8) == 256 && Pow2(9) == 512 && Pow2(10) == 1024 && Pow2(11) == 2048;
    assert Pow2(12) == 4096 && Pow2(13) == 8192 && Pow2(14) == 16384 && Pow2(15) == 32768 && Pow2(16) == 65536;
  }

  /** Search limits: a row of configuration_table, or what deflateTune was given. */
  datatype Tuning = Tuning(goodMatch: nat, maxLazy: nat, niceMatch: int, maxChain: U32)

  datatype BlockState = NeedMore | BlockDone | FinishStarted | FinishDone

  /** uInt: 32-bit unsigned, so that match_start can wrap below zero when the window moves. */
  type U32 = x: int | 0 <= x < 0x1_0000_0000

  function Sub32(a: int, b: int): int {
    if a >= b then a - b else a - b + 0x1_0000_0000
  }

  /** The key `h` is right for the string at `at`, up to its third byte. */
  ghost predicate Ready(p: Params, h: bv32, data: seq<bv8>, at: int) {
    && 0 <= at && at + 3 <= |data|
    && Update(p, h, data[at + 2]) == HashAt(p, data, at)
  }

  lemma ReadyNext(p: Params, h: bv32, data: seq<bv8>, at: int)
    requires Setting(p) && Ready(p, h, data, at) && at + 4 <= |data|
    ensures Ready(p, HashAt(p, data, at), data, at + 1)
  {
    hide Update, Hash3;
    Rolling(p, h, data[at], data[at + 1], data[at + 2], data[at + 3]);
  }

  /** ins_h restarted from the first two bytes of a string. */
  lemma ReadyFresh(p: Params, data: seq<bv8>, at: int)
    requires 0 <= at && at + 3 <= |data|
    ensures Ready(p, Update(p, data[at] as bv32, data[at + 1]), data, at)
  {
    hide Update;
  }

  class State {
    const wSize: nat
    const wMask: nat
    const hash: Params
    /** Number of symbols at which the symbol buffer is full (lit_bufsize - 1). */
    const symEnd: nat
    const goodMatch: nat
    const maxLazy: nat
    const niceMatch: int
    const maxChain: U32
    const strategy: Strategy
    /** strategy == Z_FILTERED */
    const filtered: bool

    const window: array<bv8>
    const prev: array<Pos>
    const head: array<Pos>

    /** Input supplied by the caller and not read yet (next_in, avail_in). */
    var nextIn: seq<bv8>
    /** status == FINISH_STATE */
    var finishing: bool
    var strstart: nat
    var lookahead: nat
    var insert: nat
    var insH: bv32
    var matchLength: nat
    var matchStart: U32
    var prevMatch: U32
    var prevLength: nat
    var matchAvailable: bool
    var blockStart: int
    var highWater: nat
    /** The symbols of the current block (sym_buf). */
    var symbols: seq<Symbol>

    /** How many bytes the k-th block or marker takes as bits; any numbers. */
    const bytes: nat -> nat
    var pieces: nat
    /** Bytes not handed out yet, those handed out in all, and the room that is left in this call. */
    var pending: nat
    var totalOut: nat
    var availOut: nat
    var lastFlush: int

    /** All input read into the window so far. */
    ghost var consumed: seq<bv8>
    /** Position in `consumed` of window index 0. */
    ghost var base: int
    ghost var inserted: set<int>
    /** The symbols of all blocks flushed so far. */
    ghost var flushed: seq<Symbol>

    function MaxDist(): int {
      wSize - MIN_LOOKAHEAD
    }

    ghost predicate Shape() {
      && 512 <= wSize <= 32768 && PowerOfTwo(wSize) && wMask == wSize - 1
      && window.Length == 2 * wSize
      && prev.Length == wSize
      && Setting(hash)
      && head.Length == hash.size
      && head != prev && window as object != head && window as object != prev
      && 1 <= symEnd
    }

    /** deflate_fast and deflate_slow keep the dictionary; the other two only keep the window. */
    predicate Hashes() {
      strategy.Fast? || strategy.Slow?
    }

    /** The window holds the most recent input. */
    ghost predicate WindowOk()
      reads `consumed, `base, window
    {
      && 0 <= base <= |consumed| <= base + window.Length
      && forall i :: 0 <= i < |consumed| - base ==> window[i] == consumed[base + i]
    }

    ghost predicate Dictionary(hi: int)
      reads `consumed, `base, `inserted, `strstart, head, prev
    {
      && InsertedOk(consumed, inserted, hi)
      && HeadsOk(hash, consumed, base, inserted, head[..])
      && LinksOk(hash, wSize, consumed, base, inserted, prev[..], base + strstart)
    }

    /** All input supplied so far, read or not. */
    ghost function Supplied(): seq<bv8>
      reads `consumed, `nextIn
    {
      consumed + nextIn
    }

    /** The head of the chain of the string at a position. */
    ghost function HeadAt(heads: seq<Pos>, at: int): Pos
      requires Shape() && |heads| == hash.size && 0 <= at && at + 3 <= |consumed|
      reads `consumed
    {
      var key := KeyAt(hash, consumed, at);
      if key < hash.size then heads[key] else 0
    }

    /** INSERT_STRING */
    method InsertString(str: nat) returns (matchHead: Pos)
      requires Shape() && WindowOk()
      requires base + str + 3 <= |consumed| && str <= strstart < str + wSize
      requires Dictionary(base + str)
      requires Ready(hash, insH, consumed, base + str)
      modifies this`insH, this`inserted, head, prev
      ensures WindowOk()
      ensures Dictionary(base + str + 1)
      ensures inserted == old(inserted) + {base + str}
      ensures matchHead == HeadAt(old(head[..]), base + str) && prev[..] == old(prev[..])[Slot(wSize, str) := matchHead]
      ensures base + str + 4 <= |consumed| ==> Ready(hash, insH, consumed, base + str + 1)
      ensures matchHead != 0 ==>
          matchHead < str && Names(hash, consumed, base, inserted, matchHead, KeyAt(hash, consumed, base + str))
    {
      hide Setting, Update, HashAt, Index, InsertedOk, HeadsOk, LinksOk, Names, Slot, And, PowerOfTwo;
      ghost var head0, prev0 := head[..], prev[..];
      KeyInTable(hash, insH, window[str + MIN_MATCH - 1]);
      InsertKeeps(hash, wSize, consumed, base, inserted, head0, prev0, base + strstart, str);
      HeadEntry(hash, consumed, base, inserted, head0, base + str, base + str);
      SlotIsMask(wSize, str);
      if base + str + 4 <= |consumed| {
        ReadyNext(hash, insH, consumed, base + str);
      }
      insH := Update(hash, insH, window[str + MIN_MATCH - 1]);
      var key, pos: Pos := Index(insH), str;
      matchHead := head[key];
      prev[And(str, wMask)] := matchHead;
      head[key] := pos;
      inserted := inserted + {base + str};
      assert head[..] == head0[key := pos];
      assert prev[..] == prev0[Slot(wSize, str) := matchHead];
    }

    method SlideHash()
      requires Shape()
      modifies head, prev
      ensures forall k :: 0 <= k < head.Length ==> head[k] == Slid(wSize, old(head[k]))
      ensures forall k :: 0 <= k < prev.Length ==> prev[k] == Slid(wSize, old(prev[k]))
    {
      var n := head.Length;
      while n > 0
        invariant 0 <= n <= head.Length
        invariant forall k :: 0 <= k < n ==> head[k] == old(head[k])
        invariant forall k :: n <= k < head.Length ==> head[k] == Slid(wSize, old(head[k]))
        invariant forall k :: 0 <= k < prev.Length ==> prev[k] == old(prev[k])
      {
        n := n - 1;
        var m := head[n];
        head[n] := if m >= wSize then m - wSize else 0;
      }
      n := wSize;
      while n > 0
        invariant 0 <= n <= wSize
        invariant forall k :: 0 <= k < n ==> prev[k] == old(prev[k])
        invariant forall k :: n <= k < prev.Length ==> prev[k] == Slid(wSize, old(prev[k]))
        invariant forall k :: 0 <= k < head.Length ==> head[k] == Slid(wSize, old(head[k]))
      {
        n := n - 1;
        var m := prev[n];
        prev[n] := if m >= wSize then m - wSize else 0;
      }
    }

    /** strstart + lookahead is the end of the data; the last bytes may await insertion. */
    ghost predicate Position()
      reads `consumed, `base, `strstart, `lookahead, `insert, `highWater
    {
      && 0 <= base && base + strstart + lookahead == |consumed|
      && strstart + lookahead <= window.Length
      && (insert > 0 ==> insert <= strstart && lookahead + insert < MIN_MATCH)
      && highWater <= window.Length
    }

    ghost predicate KeyReady()
      reads `consumed, `base, `strstart, `lookahead, `insH
    {
      Hashes() && lookahead >= MIN_MATCH ==> Ready(hash, insH, consumed, base + strstart)
    }

    /** What every operation keeps about the window and the dictionary. */
    ghost predicate Core()
      reads `consumed, `base, `inserted, `strstart, `lookahead, `insert, `highWater, `insH, window, head, prev
    {
      Shape() && WindowOk() && Position() && Dictionary(base + strstart - insert) && KeyReady()
    }

    /** zmemcpy(window, window + wsize, count) */
    method MoveDown(count: nat)
      requires Shape() && count <= wSize
      modifies window
      ensures forall i :: 0 <= i < count ==> window[i] == old(window[i + wSize])
    {
      forall i | 0 <= i < count {
        window[i] := window[i + wSize];
      }
    }

    /** Moves the upper half of the window to the lower half (first part of fill_window). */
    method SlideWindow()
      requires Core()
      requires strstart >= wSize + MaxDist()
      modifies this`matchStart, this`strstart, this`blockStart, this`insert, this`base, window, head, prev
      ensures Core()
      ensures base == old(base) + wSize && strstart == old(strstart) - wSize
      ensures insert == old(insert) && blockStart == old(blockStart) - wSize
      ensures matchStart == Sub32(old(matchStart), wSize)
    {
      hide Setting, InsertedOk, HeadsOk, LinksOk, Ready;
      ghost var head0, prev0 := head[..], prev[..];
      var more := window.Length - lookahead - strstart;
      MoveDown(wSize - more);
      matchStart := Sub32(matchStart, wSize);
      strstart := strstart - wSize;
      blockStart := blockStart - wSize;
      insert := Min(insert, strstart);
      SlideHash();
      assert InsertedOk(consumed, inserted, base + 2 * wSize) by {
        InsertedWeaken(consumed, inserted, base + strstart + wSize - insert, base + 2 * wSize);
      }
      SlideKeeps(hash, wSize, consumed, base, inserted, head0, prev0, head[..], prev[..], base + wSize + strstart);
      base := base + wSize;
    }

    /** read_buf, into the window at the end of the data. */
    method ReadBuf(size: nat) returns (n: nat)
      requires Shape() && WindowOk() && Dictionary(base + strstart - insert)
      requires base + strstart + lookahead == |consumed| && strstart + lookahead + size <= window.Length
      modifies this`nextIn, this`consumed, window
      ensures WindowOk() && Dictionary(base + strstart - insert)
      ensures n == Min(|old(nextIn)|, size)
      ensures consumed == old(consumed) + old(nextIn)[..n] && nextIn == old(nextIn)[n..]
    {
      hide Setting, InsertedOk, HeadsOk, LinksOk;
      n := Min(|nextIn|, size);
      ghost var head0, prev0 := head[..], prev[..];
      GrowKeeps(hash, wSize, consumed, nextIn[..n], base, inserted, head0, prev0, base + strstart - insert,
          base + strstart);
      var end := strstart + lookahead;
      forall i | end <= i < end + n {
        window[i] := nextIn[i - end];
      }
      assert head[..] == head0 && prev[..] == prev0;
      consumed := consumed + nextIn[..n];
      nextIn := nextIn[n..];
    }

    /** Restarts the rolling key with the first two bytes of the string at `str`. */
    method RestartKey(str: nat)
      requires Shape() && WindowOk() && str + 1 < window.Length
      modifies this`insH
      ensures base + str + MIN_MATCH <= |consumed| ==> Ready(hash, insH, consumed, base + str)
    {
      hide Setting, Update, HashAt;
      if base + str + MIN_MATCH <= |consumed| {
        ReadyFresh(hash, consumed, base + str);
      }
      insH := Update(hash, window[str] as bv32, window[str + 1]);
    }

    /** Restarts the rolling key and inserts the strings left over from the end of earlier input. */
    method InitKey()
      requires Shape() && WindowOk() && Dictionary(base + strstart - insert)
      requires 0 <= base && base + strstart + lookahead == |consumed| && strstart + lookahead <= window.Length
      requires insert <= strstart && insert < wSize && highWater <= window.Length
      modifies this`insert, this`insH, this`inserted, head, prev
      ensures Core() && insert <= old(insert)
    {
      hide Setting, InsertedOk, HeadsOk, LinksOk, Names, Ready, WindowOk;
      if lookahead + insert >= MIN_MATCH {
        var str := strstart - insert;
        RestartKey(str);
        while insert > 0
          invariant WindowOk() && Dictionary(base + strstart - insert)
          invariant insert <= old(insert) && insert <= strstart && str == strstart - insert
          invariant lookahead + insert >= MIN_MATCH ==> Ready(hash, insH, consumed, base + str)
          invariant insert > 0 ==> lookahead + insert >= MIN_MATCH
          decreases insert
        {
          var _ := InsertString(str);
          str := str + 1;
          insert := insert - 1;
          if lookahead + insert < MIN_MATCH {
            break;
          }
        }
      }
    }

    /** Reads more input behind the data and brings the dictionary up to date. */
    method ReadMore(more: nat)
      requires Core()
      requires 2 <= more <= window.Length - strstart - lookahead
      modifies this`nextIn, this`lookahead, this`insert, this`insH, this`consumed, this`inserted, window, head, prev
      ensures Core() && insert <= old(insert)
      ensures var n := Min(|old(nextIn)|, more);
        consumed == old(consumed) + old(nextIn)[..n] && nextIn == old(nextIn)[n..] && lookahead == old(lookahead) + n
      ensures Supplied() == old(Supplied())
    {
      hide Setting, InsertedOk, HeadsOk, LinksOk, Ready;
      ghost var in0 := nextIn;
      var n := ReadBuf(more);
      lookahead := lookahead + n;
      InitKey();
      assert in0 == in0[..n] + in0[n..];
    }

    /** Zeroes window bytes past the data that the match search may look at. */
    method ZeroAhead()
      requires Core()
      modifies this`highWater, window
      ensures Core()
      ensures highWater >= Min(window.Length, strstart + lookahead + MAX_MATCH)
    {
      hide Setting, InsertedOk, HeadsOk, LinksOk, Ready;
      ghost var head0, prev0 := head[..], prev[..];
      if highWater < window.Length {
        var curr := strstart + lookahead;
        if highWater < curr {
          var init := Min(window.Length - curr, MAX_MATCH);
          forall i | curr <= i < curr + init {
            window[i] := 0;
          }
          highWater := curr + init;
        } else if highWater < curr + MAX_MATCH {
          var init := Min(curr + MAX_MATCH - highWater, window.Length - highWater);
          forall i | highWater <= i < highWater + init {
            window[i] := 0;
          }
          highWater := highWater + init;
        }
      }
      assert head[..] == head0 && prev[..] == prev0;
    }

    /** One round of fill_window: make room if the window is almost full, then read. */
    method FillRound()
      requires Core()
      requires lookahead < MIN_LOOKAHEAD
      modifies this`nextIn, this`strstart, this`lookahead, this`insert, this`insH, this`matchStart, this`blockStart,
               this`consumed, this`base, this`inserted, window, head, prev
      ensures Core() && insert <= old(insert)
      ensures strstart <= window.Length - MIN_LOOKAHEAD
      ensures nextIn == [] || (strstart + lookahead == window.Length && lookahead >= MIN_LOOKAHEAD)
      ensures old(consumed) <= consumed && Supplied() == old(Supplied())
      ensures base + strstart == old(base + strstart)
      ensures base + blockStart == old(base + blockStart)
      ensures old(strstart) > 0 ==>
          strstart > 0 && Sub32(strstart - 1, matchStart) == Sub32(old(strstart) - 1, old(matchStart))
    {
      hide Setting, WindowOk, Dictionary, KeyReady;
      var more := window.Length - lookahead - strstart;
      if strstart >= wSize + MaxDist() {
        SlideWindow();
        more := more + wSize;
      }
      if nextIn == [] {
        return;
      }
      assert more >= 2;
      ReadMore(more);
    }

    /** fill_window; its loop ends after one turn, which fills the window or uses up the input. */
    method FillWindow() returns (ghost turns: nat)
      requires Core()
      requires lookahead < MIN_LOOKAHEAD
      modifies this`nextIn, this`strstart, this`lookahead, this`insert, this`insH, this`matchStart, this`blockStart,
               this`highWater, this`consumed, this`base, this`inserted, window, head, prev
      ensures turns == 1
      ensures Core() && insert <= old(insert)
      ensures strstart <= window.Length - MIN_LOOKAHEAD
      ensures nextIn == [] || (strstart + lookahead == window.Length && lookahead >= MIN_LOOKAHEAD)
      ensures highWater >= Min(window.Length, strstart + lookahead + MAX_MATCH)
      ensures old(consumed) <= consumed && Supplied() == old(Supplied())
      ensures base + strstart == old(base + strstart)
      ensures base + blockStart == old(base + blockStart)
      ensures old(strstart) > 0 ==>
          strstart > 0 && Sub32(strstart - 1, matchStart) == Sub32(old(strstart) - 1, old(matchStart))
    {
      hide Setting, WindowOk, Dictionary, KeyReady, Position, Supplied, Sub32;
      var more := true;
      turns := 0;
      while more
        invariant Core() && insert <= old(insert)
        invariant turns == if more then 0 else 1
        invariant more ==> lookahead < MIN_LOOKAHEAD
        invariant !more ==> strstart <= window.Length - MIN_LOOKAHEAD
        invariant !more ==> nextIn == [] || (strstart + lookahead == window.Length && lookahead >= MIN_LOOKAHEAD)
        invariant old(consumed) <= consumed && Supplied() == old(Supplied())
        invariant base + strstart == old(base + strstart)
        invariant base + blockStart == old(base + blockStart)
        invariant old(strstart) > 0 ==>
            strstart > 0 && Sub32(strstart - 1, matchStart) == Sub32(old(strstart) - 1, old(matchStart))
        decreases more
      {
        FillRound();
        turns := turns + 1;
        more := lookahead < MIN_LOOKAHEAD && nextIn != [];
      }
      ZeroAhead();
    }

    /** The string at `cur` agrees with the current string in its first `len` bytes. */
    ghost predicate Agree(cur: int, len: int)
      reads `strstart, window
    {
      && 0 <= cur <= strstart && strstart + len <= window.Length
      && forall j :: strstart <= j < strstart + len ==> window[j] == window[cur + (j - strstart)]
    }

    /** The string at `cur` agrees with the current one in no more than `best` bytes, up to MAX_MATCH. */
    ghost predicate NoneLonger(cur: int, best: int)
      reads `strstart, window
    {
      forall n :: 0 <= n <= MAX_MATCH && Agree(cur, n) ==> n <= best
    }

    lemma NoneLongerGrows(cur: int, best: int, more: int)
      ensures NoneLonger(cur, best) && best <= more ==> NoneLonger(cur, more)
    {
    }

    /** The unrolled comparison of longest_match: the length of the common prefix, capped at MAX_MATCH. */
    method CompareStrings(cur: nat) returns (len: nat)
      requires Shape() && cur < strstart <= window.Length - MIN_LOOKAHEAD
      requires Agree(cur, MIN_MATCH)
      ensures MIN_MATCH <= len <= MAX_MATCH
      ensures Agree(cur, len)
      ensures len < MAX_MATCH ==> window[cur + len] != window[strstart + len]
    {
      len := 2;
      while true
        invariant 2 <= len <= MAX_MATCH - 8 && len % 8 == 2
        invariant Agree(cur, len + 1)
        decreases MAX_MATCH - len
      {
        var start, same := len, true;
        while len < start + 8 && same
          invariant start <= len <= start + 8
          invariant Agree(cur, len)
          invariant same ==> window[cur + len] == window[strstart + len]
          invariant !same ==> start < len && window[cur + len] != window[strstart + len]
          decreases start + 8 - len, same
        {
          len := len + 1;
          same := window[strstart + len] == window[cur + len];
        }
        if !(same && len < MAX_MATCH) {
          break;
        }
      }
    }

    /** A match found in the window is a match in the input. */
    lemma MatchInInput(cur: int, best: int, len: nat)
      requires WindowOk() && 0 <= cur < strstart && base + strstart + len <= |consumed|
      requires Agree(cur, best) && len <= best
      ensures IsMatch(consumed, base + strstart, strstart - cur, len)
    {
      forall i | base + strstart <= i < base + strstart + len
        ensures consumed[i] == consumed[i - (strstart - cur)]
      {
        assert window[i - base] == window[cur + (i - base - strstart)];
      }
    }

    /** A chain entry whose first two bytes match has the right third byte too. */
    lemma ThirdByteMatches(cur: int)
      requires Shape() && WindowOk() && 0 < cur < strstart
      requires base + strstart + MIN_MATCH <= |consumed|
      requires Names(hash, consumed, base, inserted, cur, KeyAt(hash, consumed, base + strstart))
      requires window[cur] == window[strstart] && window[cur + 1] == window[strstart + 1]
      ensures Agree(cur, MIN_MATCH)
    {
      hide Setting, KeyAt;
      assert consumed[base + cur] == consumed[base + strstart];
      assert consumed[base + (cur + 1)] == consumed[base + (strstart + 1)];
      SameThirdByte(hash, consumed, base + cur, base + strstart);
      assert consumed[base + (cur + 2)] == consumed[base + (strstart + 2)];
    }

    /** One chain entry of longest_match; 0 if its ends already differ.  No longer match than `best` is missed. */
    method TryCandidate(cur: nat, best: nat, scanEnd1: bv8, scanEnd: bv8) returns (len: nat)
      requires Shape() && WindowOk() && 0 < cur < strstart <= window.Length - MIN_LOOKAHEAD
      requires 1 <= best <= MAX_MATCH && base + strstart + MIN_MATCH <= |consumed|
      requires Names(hash, consumed, base, inserted, cur, KeyAt(hash, consumed, base + strstart))
      requires scanEnd1 == window[strstart + best - 1] && scanEnd == window[strstart + best]
      ensures len <= MAX_MATCH
      ensures len > 0 ==> Agree(cur, len)
      ensures NoneLonger(cur, if len > best then len else best)
    {
      len := 0;
      if window[cur + best] == scanEnd && window[cur + best - 1] == scanEnd1
         && window[cur] == window[strstart] && window[cur + 1] == window[strstart + 1] {
        ThirdByteMatches(cur);
        len := CompareStrings(cur);
      }
    }

    lemma NextInChain(cur: int, key: int, hi: int)
      requires Shape() && Dictionary(hi) && 0 < cur < strstart < cur + wSize && strstart <= window.Length
      requires Names(hash, consumed, base, inserted, cur, key)
      ensures
        var next := prev[Slot(wSize, cur)];
        next != 0 ==> next < cur && Names(hash, consumed, base, inserted, next, key)
    {
      hide Setting, LinksOk, HeadsOk, InsertedOk, Names;
      ChainStep(hash, wSize, consumed, base, inserted, prev[..], base + strstart, cur, key);
    }

    /** Entries below this are too far away. */
    function Limit(): int
      reads `strstart
    {
      if strstart > MaxDist() then strstart - MaxDist() else 0
    }

    /** How many entries are tried at most; the counter wraps at zero. */
    function Budget(prevLength: nat): nat {
      var chain := if prevLength >= goodMatch then maxChain / 4 else maxChain;
      if chain == 0 then 0x1_0000_0000 else chain
    }

    /** A match of this length ends the search. */
    function Nice(): int
      reads `lookahead
    {
      if niceMatch < 0 || niceMatch > lookahead then lookahead else niceMatch
    }

    /** The k-th entry of the chain that starts at `cur`, 0 after its end. */
    ghost function Follow(links: seq<Pos>, cur: int, k: nat): int
      requires |links| == wSize
      reads `strstart
    {
      if k == 0 then cur
      else
        var x := Follow(links, cur, k - 1);
        if Limit() < x < 2 * wSize || (k == 1 && 0 <= x < 2 * wSize) then links[Slot(wSize, x)] else 0
    }

    /** The chain goes on past the limit up to its k-th entry. */
    ghost predicate Reached(links: seq<Pos>, cur: int, k: nat)
      requires |links| == wSize
      reads `strstart
    {
      forall m :: 1 <= m <= k ==> Follow(links, cur, m) > Limit()
    }

    /** No entry before the k-th matches in more than `best` bytes. */
    ghost predicate Searched(links: seq<Pos>, cur: int, k: nat, best: int)
      requires |links| == wSize
      reads `strstart, window
    {
      forall i :: 0 <= i < k ==> NoneLonger(Follow(links, cur, i), best)
    }

    /** All of the chain that is within reach and the budget was searched. */
    ghost predicate SearchedAll(links: seq<Pos>, cur: int, best: int, prevLength: nat)
      requires |links| == wSize
      reads `strstart, window
    {
      forall i :: 0 <= i < Budget(prevLength) && Reached(links, cur, i) ==> NoneLonger(Follow(links, cur, i), best)
    }

    lemma SearchedNext(links: seq<Pos>, cur: int, k: nat, best: int, more: int)
      requires |links| == wSize && Searched(links, cur, k, best) && best <= more &&
          NoneLonger(Follow(links, cur, k), more)
      ensures Searched(links, cur, k + 1, more)
    {
      hide NoneLonger, Follow;
      forall i | 0 <= i < k + 1
        ensures NoneLonger(Follow(links, cur, i), more)
      {
        NoneLongerGrows(Follow(links, cur, i), best, more);
      }
    }

    lemma SearchEnds(links: seq<Pos>, cur: int, k: nat, best: int, prevLength: nat)
      requires |links| == wSize && Searched(links, cur, k, best)
      requires k >= Budget(prevLength) || (k > 0 && Follow(links, cur, k) <= Limit())
      ensures SearchedAll(links, cur, best, prevLength)
    {
      hide NoneLonger, Follow;
    }

    /** The search loop of longest_match; `best` may still exceed lookahead. */
    method SearchChain(curMatch: nat) returns (best: nat)
      requires Shape() && WindowOk() && Position() && Dictionary(base + strstart + 1)
      requires strstart <= window.Length - MIN_LOOKAHEAD && lookahead >= MIN_MATCH
      requires 0 < curMatch < strstart && strstart - curMatch <= MaxDist()
      requires Names(hash, consumed, base, inserted, curMatch, KeyAt(hash, consumed, base + strstart))
      requires 1 <= prevLength <= MAX_MATCH
      modifies this`matchStart
      ensures prevLength <= best <= MAX_MATCH
      ensures best > prevLength ==>
          matchStart < strstart && strstart - matchStart <= MaxDist() && Agree(matchStart, best)
      ensures best >= Nice() || SearchedAll(prev[..], curMatch, best, prevLength)
    {
      hide Setting, WindowOk, Dictionary, Names, KeyAt, Agree, NoneLonger, Follow, Searched, SearchedAll, Budget, Nice;
      ghost var key, tried := KeyAt(hash, consumed, base + strstart), 0;
      var chain: U32 := StartChain();
      var nice := StartNice();
      best := prevLength;
      var scanEnd1, scanEnd := window[strstart + best - 1], window[strstart + best];
      var cur := curMatch;
      FollowStart(prev[..], curMatch);
      while true
        invariant 0 < cur < strstart && Limit() <= cur && (tried > 0 ==> Limit() < cur)
        invariant Names(hash, consumed, base, inserted, cur, key)
        invariant prevLength <= best <= MAX_MATCH
        invariant best > prevLength ==>
          && matchStart < strstart && strstart - matchStart <= MaxDist() && Agree(matchStart, best)
        invariant scanEnd1 == window[strstart + best - 1] && scanEnd == window[strstart + best]
        invariant cur == Follow(prev[..], curMatch, tried) && Searched(prev[..], curMatch, tried, best)
        invariant Budget(prevLength) == tried + if chain == 0 then 0x1_0000_0000 else chain
        decreases if chain == 0 then 0x1_0000_0000 else chain
      {
        ghost var was := best;
        var stop;
        best, stop := Improve(cur, best, nice, scanEnd1, scanEnd);
        SearchedNext(prev[..], curMatch, tried, was, best);
        tried := tried + 1;
        if stop {
          break;
        }
        scanEnd1, scanEnd := window[strstart + best - 1], window[strstart + best];
        cur, chain, stop := NextEntry(cur, chain, curMatch, tried, best, key);
        if stop {
          break;
        }
      }
    }

    /** The end of a turn: the next entry, unless it is too far away or the budget is used up. */
    method NextEntry(cur: nat, chain: U32, ghost curMatch: nat, ghost tried: nat, ghost best: nat, ghost key: int)
      returns (next: nat, left: U32, stop: bool)
      requires Shape() && Dictionary(base + strstart + 1) && 0 < cur < strstart <= window.Length - MIN_LOOKAHEAD
      requires Limit() <= cur && Names(hash, consumed, base, inserted, cur, key)
      requires tried > 0 && cur == Follow(prev[..], curMatch, tried - 1) && (tried > 1 ==> Limit() < cur)
      requires Searched(prev[..], curMatch, tried, best)
      requires Budget(prevLength) == tried - 1 + if chain == 0 then 0x1_0000_0000 else chain
      ensures stop ==> SearchedAll(prev[..], curMatch, best, prevLength)
      ensures !stop ==>
        && Limit() < next < cur && Names(hash, consumed, base, inserted, next, key)
        && next == Follow(prev[..], curMatch, tried) && left > 0 && Budget(prevLength) == tried + left
    {
      hide Setting, WindowOk, Dictionary, Names, KeyAt, NoneLonger, Follow, Searched, SearchedAll, Budget, And,
          PowerOfTwo;
      NextInChain(cur, key, base + strstart + 1);
      FollowNext(prev[..], curMatch, tried, cur);
      SlotIsMask(wSize, cur);
      next, left, stop := prev[And(cur, wMask)], chain, true;
      if next <= Limit() {
        SearchEnds(prev[..], curMatch, tried, best, prevLength);
        return;
      }
      left := Sub32(chain, 1);
      if left == 0 {
        SearchEnds(prev[..], curMatch, tried, best, prevLength);
        return;
      }
      stop := false;
    }

    /** One turn of the search: a longer match is kept, and a nice one ends it. */
    method Improve(cur: nat, best0: nat, nice: int, scanEnd1: bv8, scanEnd: bv8) returns (best: nat, stop: bool)
      requires Shape() && WindowOk() && 0 < cur < strstart <= window.Length - MIN_LOOKAHEAD
      requires 1 <= best0 <= MAX_MATCH && base + strstart + MIN_MATCH <= |consumed|
      requires Names(hash, consumed, base, inserted, cur, KeyAt(hash, consumed, base + strstart))
      requires scanEnd1 == window[strstart + best0 - 1] && scanEnd == window[strstart + best0]
      modifies this`matchStart
      ensures best0 <= best <= MAX_MATCH && NoneLonger(cur, best) && (stop ==> best >= nice)
      ensures if best > best0 then matchStart == cur && Agree(cur, best) else matchStart == old(matchStart)
    {
      hide Setting, WindowOk, Names, KeyAt, Agree, NoneLonger;
      best, stop := best0, false;
      var n := TryCandidate(cur, best, scanEnd1, scanEnd);
      if n > best {
        matchStart := cur;
        best := n;
        stop := n >= nice;
      }
    }

    /** chain_length at the start: a quarter if the previous match is good. */
    method StartChain() returns (chain: U32)
      ensures Budget(prevLength) == if chain == 0 then 0x1_0000_0000 else chain
    {
      chain := maxChain;
      if prevLength >= goodMatch {
        chain := chain / 4;
      }
    }

    /** nice_match at the start: no more than lookahead. */
    method StartNice() returns (nice: int)
      ensures nice == Nice()
    {
      nice := niceMatch;
      if nice < 0 || nice > lookahead {
        nice := lookahead;
      }
    }

    lemma FollowStart(links: seq<Pos>, cur: int)
      requires |links| == wSize
      ensures Follow(links, cur, 0) == cur && Searched(links, cur, 0, prevLength)
    {
    }

    lemma FollowNext(links: seq<Pos>, cur: int, k: nat, x: int)
      requires |links| == wSize && k > 0 && x == Follow(links, cur, k - 1) && 0 <= x < 2 * wSize &&
          (k > 1 ==> Limit() < x)
      ensures Follow(links, cur, k) == links[Slot(wSize, x)]
    {
    }

    /** longest_match */
    method LongestMatch(curMatch: nat) returns (len: nat)
      requires Shape() && WindowOk() && Position() && Dictionary(base + strstart + 1)
      requires strstart <= window.Length - MIN_LOOKAHEAD && lookahead >= MIN_MATCH
      requires 0 < curMatch < strstart && strstart - curMatch <= MaxDist()
      requires Names(hash, consumed, base, inserted, curMatch, KeyAt(hash, consumed, base + strstart))
      requires 1 <= prevLength <= MAX_MATCH
      modifies this`matchStart
      ensures Min(prevLength, lookahead) <= len <= Min(MAX_MATCH, lookahead)
      ensures len > prevLength ==>
        && 1 <= strstart - matchStart <= MaxDist()
        && IsMatch(consumed, base + strstart, strstart - matchStart, len)
      ensures lookahead > len ==> len >= Nice() || SearchedAll(prev[..], curMatch, len, prevLength)
    {
      hide Setting, WindowOk, Dictionary, Names, KeyAt, IsMatch, Agree, SearchedAll, Nice;
      var best := SearchChain(curMatch);
      len := Min(best, lookahead);
      if len > prevLength {
        MatchInInput(matchStart, best, len);
      }
    }

    /**
     The symbols so far expand to the first `done` bytes of the input, and those of the flushed
     blocks to the bytes before block_start.
     */
    ghost predicate Output(done: int)
      reads `consumed, `base, `blockStart, `symbols, `flushed
    {
      && 0 <= base + blockStart <= done <= |consumed|
      && Expand(flushed) == Some(consumed[..base + blockStart])
      && Expand(flushed + symbols) == Some(consumed[..done])
    }

    /** _tr_tally_lit */
    method TallyLiteral(c: bv8) returns (full: bool)
      requires |symbols| < symEnd
      modifies this`symbols
      ensures symbols == old(symbols) + [Literal(c)]
      ensures full <==> |symbols| == symEnd
    {
      symbols := symbols + [Literal(c)];
      full := |symbols| == symEnd;
    }

    /** _tr_tally_dist: the distance is kept in 16 bits and the length in 8. */
    method TallyCopy(distance: U32, lc: int) returns (full: bool)
      requires |symbols| < symEnd
      modifies this`symbols
      ensures symbols == old(symbols) + [Copy(distance % 0x10000, lc % 0x100 + MIN_MATCH)]
      ensures full <==> |symbols| == symEnd
    {
      symbols := symbols + [Copy(distance % 0x10000, lc % 0x100 + MIN_MATCH)];
      full := |symbols| == symEnd;
    }

    /** Emits the literal at window index `at`. */
    method EmitLiteral(at: nat) returns (full: bool)
      requires Shape() && WindowOk() && Output(base + at) && base + at < |consumed| && |symbols| < symEnd
      modifies this`symbols
      ensures Output(base + at + 1) && symbols == old(symbols) + [Literal(window[at])]
      ensures |symbols| <= symEnd && (full <==> |symbols| == symEnd)
    {
      hide Expand, Setting;
      LiteralExtends(flushed + symbols, consumed, base + at);
      ghost var was := symbols;
      full := TallyLiteral(window[at]);
      assert flushed + symbols == (flushed + was) + [Literal(consumed[base + at])];
    }

    /** Emits a copy for the string that starts `at` bytes into the window. */
    method EmitCopy(ghost at: int, distance: U32, length: nat) returns (full: bool)
      requires Shape() && Output(base + at) && |symbols| < symEnd
      requires IsMatch(consumed, base + at, distance, length) && distance <= MaxDist()
      requires MIN_MATCH <= length <= MAX_MATCH
      modifies this`symbols
      ensures Output(base + at + length) && symbols == old(symbols) + [Copy(distance, length)]
      ensures |symbols| <= symEnd && (full <==> |symbols| == symEnd)
    {
      hide Expand, Setting;
      CopyExtends(flushed + symbols, consumed, base + at, distance, length);
      ghost var was := symbols;
      full := TallyCopy(distance, length - MIN_MATCH);
      assert flushed + symbols == (flushed + was) + [Copy(distance, length)];
    }

    /** Every byte produced was handed out or is pending. */
    ghost predicate Counted()
      reads `pieces, `pending, `totalOut
    {
      totalOut + pending == Produced(bytes, pieces)
    }

    /** A block or a marker goes to the pending output. */
    method Emit()
      requires Counted()
      modifies this`pieces, this`pending
      ensures Counted() && pieces == old(pieces) + 1 && pending == old(pending) + bytes(old(pieces))
    {
      ProducedNext(bytes, pieces);
      pending := pending + bytes(pieces);
      pieces := pieces + 1;
    }

    /** flush_pending: as much as there is room for. */
    method FlushPending()
      requires Counted()
      modifies this`pending, this`totalOut, this`availOut
      ensures Counted()
      ensures var n := Min(old(pending), old(availOut));
        pending == old(pending) - n && totalOut == old(totalOut) + n && availOut == old(availOut) - n
    {
      var len := Min(pending, availOut);
      pending, totalOut, availOut := pending - len, totalOut + len, availOut - len;
    }

    /** _tr_flush_block: what it is given, the symbols and the text while that is still in the window. */
    method TakeBlock() returns (stored: Option<seq<bv8>>)
      requires Shape() && WindowOk() && Position() && Output(base + strstart)
      modifies this`symbols, this`flushed, this`blockStart
      ensures Output(base + strstart) && symbols == [] && flushed == old(flushed + symbols)
      ensures stored.Some? <==> old(blockStart) >= 0
      ensures stored.Some? ==> Expand(flushed) == Some(Expand(old(flushed)).value + stored.value)
    {
      hide Expand, Setting;
      stored := None;
      if blockStart >= 0 {
        stored := Some(window[blockStart..strstart]);
        assert consumed[..base + blockStart] + window[blockStart..strstart] == consumed[..base + strstart];
      }
      flushed := flushed + symbols;
      symbols := [];
      blockStart := strstart;
      assert flushed + symbols == flushed;
    }

    /** The output that was handed out took up the room that was there. */
    predicate Handed(room: nat, before: nat)
      reads `availOut, `totalOut
    {
      availOut <= room && totalOut + availOut == before + room
    }

    /**
     FLUSH_BLOCK_ONLY: hands the symbols and, while it is still in the window, the text of the block
     to _tr_flush_block, which may use either, and hands out as much of the output as there is room for.
     */
    method FlushBlockOnly() returns (stored: Option<seq<bv8>>)
      requires Shape() && WindowOk() && Position() && Output(base + strstart) && Counted()
      modifies this`symbols, this`flushed, this`blockStart, this`pieces, this`pending, this`totalOut, this`availOut
      ensures Counted() && Handed(old(availOut), old(totalOut)) && (availOut > 0 ==> pending == 0)
      ensures Output(base + strstart) && symbols == [] && flushed == old(flushed + symbols)
      ensures stored.Some? <==> old(blockStart) >= 0
      ensures stored.Some? ==> Expand(flushed) == Some(Expand(old(flushed)).value + stored.value)
    {
      hide Expand, Setting, WindowOk, Position, Output, Counted, Shape;
      stored := TakeBlock();
      Emit();
      FlushPending();
    }

    /** deflate_slow holds the byte before strstart back while it looks for a better match. */
    ghost function Emitted(): int
      reads `base, `strstart, `matchAvailable
    {
      base + strstart - if matchAvailable then 1 else 0
    }

    /** What each compression function keeps about the current match between two steps. */
    ghost predicate Pending()
      reads `consumed, `base, `strstart, `matchAvailable, `matchLength, `matchStart, `prevLength, `insert
    {
      match strategy
      case Slow =>
        && 2 <= matchLength <= MAX_MATCH
        && (matchAvailable ==> strstart >= 1)
        && (matchLength >= MIN_MATCH ==>
              && matchAvailable
              && Sub32(strstart - 1, matchStart) <= MaxDist()
              && IsMatch(consumed, base + strstart - 1, Sub32(strstart - 1, matchStart), matchLength))
      case Fast =>
        !matchAvailable && matchLength < MIN_MATCH && prevLength == MIN_MATCH - 1
      case _ =>
        !matchAvailable && insert == 0
    }

    ghost predicate Settled()
      reads `consumed, `base, `inserted, `strstart, `lookahead, `insert, `highWater, `insH, `matchAvailable,
          `matchLength,
            `matchStart, `prevLength, `blockStart, `symbols, `flushed, window, head, prev
    {
      Core() && Pending() && Output(Emitted()) && |symbols| <= symEnd
    }

    /** What holds between two steps and between two calls. */
    ghost predicate Inv()
      reads `consumed, `base, `inserted, `strstart, `lookahead, `insert, `highWater, `insH, `matchAvailable,
          `matchLength,
            `matchStart, `prevLength, `blockStart, `symbols, `flushed, window, head, prev
    {
      Settled() && |symbols| < symEnd
    }

    lemma Bounds()
      requires Inv()
      ensures Settled()
      ensures strstart + lookahead <= window.Length
      ensures !strategy.Slow? ==> !matchAvailable
    {
      hide WindowOk, Dictionary, KeyReady, Setting, Output, IsMatch;
    }

    /** The input is still there, what was read in front, and the state of the stream is what it was. */
    ghost predicate InputKept(supplied: seq<bv8>, read: seq<bv8>, ended: bool, last: int)
      reads `consumed, `nextIn, `finishing, `lastFlush
    {
      Supplied() == supplied && read <= consumed && finishing == ended && lastFlush == last
    }

    lemma StillKept()
      ensures InputKept(Supplied(), consumed, finishing, lastFlush)
    {
    }

    /** fill_window, called between two steps of a compression function. */
    method Refill(ghost supplied: seq<bv8>, ghost read: seq<bv8>, ghost ended: bool, ghost last: int)
      requires Inv() && lookahead < MIN_LOOKAHEAD && InputKept(supplied, read, ended, last)
      modifies this, window, head, prev
      ensures Inv()
      ensures strstart <= window.Length - MIN_LOOKAHEAD
      ensures lookahead < MIN_LOOKAHEAD ==> nextIn == []
      ensures InputKept(supplied, read, ended, last)
      ensures lookahead + |nextIn| == old(lookahead + |nextIn|)
      ensures symbols == old(symbols) && flushed == old(flushed)
      ensures pieces == old(pieces) && pending == old(pending) && totalOut == old(totalOut) && availOut == old(availOut)
    {
      hide Expand, Setting, WindowOk, Dictionary, KeyReady, IsMatch;
      ghost var data, lazy := consumed, Sub32(if strstart > 0 then strstart - 1 else 0, matchStart);
      ghost var _ := FillWindow();
      assert consumed[..base + blockStart] == data[..base + blockStart];
      assert consumed[..Emitted()] == data[..Emitted()];
      if strategy.Slow? && matchLength >= MIN_MATCH {
        MatchGrows(data, consumed, base + strstart - 1, lazy, matchLength);
      }
    }

    /** Consumes `n` bytes of lookahead. */
    method Advance(n: nat, ghost hi: int)
      requires Shape() && WindowOk() && Position() && Dictionary(hi)
      requires n <= lookahead && hi <= base + strstart + n - insert
      modifies this`strstart, this`lookahead
      ensures WindowOk() && Position() && Dictionary(base + strstart - insert)
      ensures strstart == old(strstart) + n && lookahead == old(lookahead) - n
    {
      hide Setting, WindowOk, InsertedOk, HeadsOk, LinksOk;
      InsertedWeaken(consumed, inserted, hi, base + strstart + n - insert);
      LinksAdvance(hash, wSize, consumed, base, inserted, prev[..], base + strstart, base + strstart + n);
      strstart := strstart + n;
      lookahead := lookahead - n;
    }

    /** Emits the byte at strstart as a literal and moves on. */
    method StepLiteral(ghost hi: int) returns (full: bool)
      requires Shape() && WindowOk() && Position() && Dictionary(hi) && hi <= base + strstart + 1 - insert
      requires lookahead > 0 && Output(base + strstart) && |symbols| < symEnd
      modifies this`symbols, this`strstart, this`lookahead
      ensures WindowOk() && Position() && Dictionary(base + strstart - insert) && Output(base + strstart)
      ensures symbols == old(symbols) + [Literal(window[old(strstart)])]
      ensures |symbols| <= symEnd && (full <==> |symbols| == symEnd)
      ensures strstart == old(strstart) + 1 && lookahead == old(lookahead) - 1
    {
      hide Expand, Setting, WindowOk, Dictionary, Output;
      full := EmitLiteral(strstart);
      Advance(1, hi);
    }

    /** Emits a copy for the `length` bytes at strstart and moves on. */
    method StepCopy(distance: U32, length: nat) returns (full: bool)
      requires Shape() && WindowOk() && Position() && Dictionary(base + strstart - insert)
      requires length <= lookahead && Output(base + strstart) && |symbols| < symEnd
      requires IsMatch(consumed, base + strstart, distance, length) && distance <= MaxDist()
      requires MIN_MATCH <= length <= MAX_MATCH
      modifies this`symbols, this`strstart, this`lookahead
      ensures WindowOk() && Position() && Dictionary(base + strstart - insert) && Output(base + strstart)
      ensures symbols == old(symbols) + [Copy(distance, length)]
      ensures |symbols| <= symEnd && (full <==> |symbols| == symEnd)
      ensures strstart == old(strstart) + length && lookahead == old(lookahead) - length
    {
      hide Expand, Setting, WindowOk, Dictionary, Output, IsMatch;
      full := EmitCopy(strstart, distance, length);
      Advance(length, base + strstart - insert);
    }

    /** Moves strstart over `count` bytes of a match and inserts the strings that do not reach past maxInsert. */
    method InsertAlong(count: nat, maxInsert: int)
      requires Shape() && WindowOk() && Dictionary(base + strstart + 1)
      requires 0 <= base && base + maxInsert + MIN_MATCH <= |consumed| && strstart + count < window.Length
      requires strstart <= maxInsert && base + strstart + 4 <= |consumed| ==>
          Ready(hash, insH, consumed, base + strstart + 1)
      modifies this`strstart, this`insH, this`inserted, head, prev
      ensures WindowOk() && Dictionary(base + strstart + 1)
      ensures strstart == old(strstart) + count
      ensures strstart <= maxInsert && base + strstart + 4 <= |consumed| ==>
          Ready(hash, insH, consumed, base + strstart + 1)
    {
      hide Setting, WindowOk, Ready, InsertedOk, HeadsOk, LinksOk, Names;
      var left := count;
      while left > 0
        invariant WindowOk() && Dictionary(base + strstart + 1)
        invariant strstart + left == old(strstart) + count
        invariant strstart <= maxInsert && base + strstart + 4 <= |consumed| ==>
            Ready(hash, insH, consumed, base + strstart + 1)
        decreases left
      {
        LinksAdvance(hash, wSize, consumed, base, inserted, prev[..], base + strstart, base + strstart + 1);
        strstart := strstart + 1;
        if strstart <= maxInsert {
          var _ := InsertString(strstart);
        } else {
          InsertedWeaken(consumed, inserted, base + strstart, base + strstart + 1);
        }
        left := left - 1;
      }
    }

    /** Between a step and the flush that a full symbol buffer asks for. */
    ghost predicate Stepped(full: bool)
      reads `consumed, `base, `inserted, `strstart, `lookahead, `insert, `highWater, `insH, `matchAvailable,
          `matchLength,
            `matchStart, `prevLength, `blockStart, `symbols, `flushed, window, head, prev
    {
      Settled() && (full <==> |symbols| == symEnd)
    }

    /** if (bflush) FLUSH_BLOCK(s, 0): stop if there is no more room for output. */
    method FlushIfFull(full: bool) returns (stop: bool)
      requires Stepped(full) && !matchAvailable && Counted() && availOut > 0
      modifies this`symbols, this`flushed, this`blockStart, this`pieces, this`pending, this`totalOut, this`availOut
      ensures Counted() && Handed(old(availOut), old(totalOut)) && (stop <==> availOut == 0)
      ensures Inv() && flushed + symbols == old(flushed + symbols)
    {
      hide Expand, Setting, WindowOk, Dictionary, KeyReady, IsMatch;
      stop := false;
      if full {
        var _ := FlushBlockOnly();
        stop := availOut == 0;
      }
    }

    /** At the end of the input up to two strings are left for the next call to insert. */
    method SetInsert(n: nat)
      requires Settled() && lookahead == 0 && n <= strstart && n < MIN_MATCH
      requires Hashes() || n == 0
      modifies this`insert
      ensures Settled()
    {
      hide Expand, Setting, WindowOk, KeyReady, IsMatch, InsertedOk, HeadsOk, LinksOk;
      InsertedBeforeEnd(consumed, inserted, base + strstart - insert);
      InsertedWeaken(consumed, inserted, |consumed| - 2, base + strstart - n);
      insert := n;
    }

    /** The end of every compression function, reached when all input has been turned into symbols. */
    method FinishCall(flush: Flush) returns (state: BlockState)
      requires Settled() && lookahead == 0 && nextIn == [] && !matchAvailable
      requires Counted() && availOut > 0 && !flush.NoFlush?
      modifies this`symbols, this`flushed, this`blockStart, this`pieces, this`pending, this`totalOut, this`availOut
      ensures Inv() && Finished(state) && Counted() && Handed(old(availOut), old(totalOut))
      ensures state.FinishStarted? || state.FinishDone? <==> flush.Finish?
      ensures state.NeedMore? || state.FinishStarted? <==> availOut == 0
      ensures state.FinishDone? ==> pending == 0
    {
      hide Expand, Setting, WindowOk, Dictionary, KeyReady, IsMatch;
      assert consumed[..base + strstart] == consumed;
      if flush.Finish? {
        var _ := FlushBlockOnly();
        assert flushed + symbols == flushed;
        return if availOut == 0 then FinishStarted else FinishDone;
      }
      if symbols != [] {
        var _ := FlushBlockOnly();
        if availOut == 0 {
          return NeedMore;
        }
      }
      assert flushed + symbols == flushed;
      return BlockDone;
    }

    /** A call that did not stop early has turned all its input into symbols and flushed them. */
    ghost predicate Finished(state: BlockState)
      reads `nextIn, `lookahead, `symbols, `matchAvailable, `flushed, `consumed
    {
      state != NeedMore ==>
        nextIn == [] && lookahead == 0 && !matchAvailable && symbols == [] && Expand(flushed) == Some(consumed)
    }

    /**
     Why a compression function returned, when there was room at first and `left` bytes to do: there is
     none any more, or all that the flush parameter asks for is done.
     */
    ghost predicate Reason(state: BlockState, flush: Flush, left: nat)
      reads `nextIn, `lookahead, `availOut, `pending
    {
      match state
      case NeedMore =>
        if availOut > 0 then flush.NoFlush? && nextIn == [] && lookahead < MIN_LOOKAHEAD
        else flush.Finish? ==> lookahead + |nextIn| < left
      case BlockDone => availOut > 0 && !flush.NoFlush? && !flush.Finish?
      case FinishStarted => availOut == 0 && flush.Finish?
      case FinishDone => availOut > 0 && flush.Finish? && pending == 0
    }

    lemma NoRoom(flush: Flush, left: nat)
      requires availOut == 0 && lookahead + |nextIn| < left
      ensures Reason(NeedMore, flush, left) && Finished(NeedMore)
    {
    }

    lemma NoInput(flush: Flush, left: nat)
      requires availOut > 0 && flush.NoFlush? && nextIn == [] && lookahead < MIN_LOOKAHEAD
      ensures Reason(NeedMore, flush, left) && Finished(NeedMore)
    {
    }

    lemma EndReached(state: BlockState, flush: Flush, left: nat)
      requires state.FinishStarted? || state.FinishDone? <==> flush.Finish?
      requires state.NeedMore? || state.FinishStarted? <==> availOut == 0
      requires (state.FinishDone? ==> pending == 0) && !flush.NoFlush?
      ensures Reason(state, flush, left)
    {
    }

    /** One turn of the loop of deflate_huff. */
    method HuffStep() returns (full: bool)
      requires Inv() && strategy.HuffmanOnly? && lookahead > 0
      modifies this`matchLength, this`symbols, this`strstart, this`lookahead
      ensures Stepped(full) && !matchAvailable
      ensures lookahead < old(lookahead) && symbols == old(symbols) + [Literal(old(window[strstart]))]
    {
      hide Expand, Setting, WindowOk, Dictionary;
      matchLength := 0;
      full := StepLiteral(base + strstart - insert);
    }

    method DeflateHuff(flush: Flush) returns (state: BlockState)
      requires Inv() && strategy.HuffmanOnly?
      requires Counted() && availOut > 0
      modifies this, window, head, prev
      ensures Counted() && Handed(old(availOut), old(totalOut)) && Reason(state, flush, old(lookahead + |nextIn|))
      ensures Inv() && InputKept(old(Supplied()), old(consumed), old(finishing), old(lastFlush))
      ensures Finished(state) && (state.FinishStarted? || state.FinishDone? ==> flush.Finish?)
    {
      hide Inv, Settled, Supplied, Stepped, Expand, Counted, InputKept, Reason, Finished;
      StillKept();
      while true
        invariant Inv() && InputKept(old(Supplied()), old(consumed), old(finishing), old(lastFlush))
        invariant Counted() && availOut > 0 && Handed(old(availOut), old(totalOut)) &&
            lookahead + |nextIn| <= old(lookahead + |nextIn|)
        decreases lookahead + |nextIn|
      {
        if lookahead == 0 {
          Refill(old(Supplied()), old(consumed), old(finishing), old(lastFlush));
          if lookahead == 0 {
            if flush.NoFlush? {
              NoInput(flush, old(lookahead + |nextIn|));
              return NeedMore;
            }
            break;
          }
        }
        var full := HuffStep();
        var stop := FlushIfFull(full);
        if stop {
          NoRoom(flush, old(lookahead + |nextIn|));
          return NeedMore;
        }
      }
      Bounds();
      SetInsert(0);
      state := FinishCall(flush);
      EndReached(state, flush, old(lookahead + |nextIn|));
    }

    /** The byte before strstart comes `n` more times. */
    ghost predicate Repeats(n: int)
      reads `strstart, window
    {
      strstart > 0 && Agree(strstart - 1, n)
    }

    /** How often the byte before strstart repeats, capped at MAX_MATCH; 0 for fewer than three times. */
    method RunLength() returns (len: nat)
      requires Shape() && 0 < strstart <= window.Length - MAX_MATCH - 1
      ensures len <= MAX_MATCH
      ensures len > 0 ==> len >= MIN_MATCH && Agree(strstart - 1, len)
      ensures forall n :: MIN_MATCH <= n <= MAX_MATCH && Repeats(n) ==> n <= len
    {
      var last := window[strstart - 1];
      forall n
        ensures n >= MIN_MATCH && Repeats(n) ==>
            last == window[strstart] == window[strstart + 1] == window[strstart + 2]
      {
        RepeatsThree(n);
      }
      if !(last == window[strstart] && last == window[strstart + 1] && last == window[strstart + 2]) {
        return 0;
      }
      len := 2;
      while true
        invariant 2 <= len <= MAX_MATCH - 8 && len % 8 == 2
        invariant forall j :: strstart - 1 <= j <= strstart + len ==> window[j] == last
        decreases MAX_MATCH - len
      {
        var start, same := len, true;
        while len < start + 8 && same
          invariant start <= len <= start + 8
          invariant forall j :: strstart - 1 <= j < strstart + len ==> window[j] == last
          invariant same ==> window[strstart + len] == last
          invariant !same ==> start < len && window[strstart + len] != last
          decreases start + 8 - len, same
        {
          len := len + 1;
          same := last == window[strstart + len];
        }
        if !(same && len < MAX_MATCH) {
          break;
        }
      }
      forall n
        ensures len < n && Repeats(n) ==> window[strstart + len] == window[strstart + len - 1]
      {
        RepeatsAt(n, len);
      }
    }

    lemma RepeatsThree(n: int)
      requires Shape() && 0 < strstart && strstart + 2 < window.Length
      ensures n >= MIN_MATCH && Repeats(n) ==>
        window[strstart - 1] == window[strstart] == window[strstart + 1] == window[strstart + 2]
    {
    }

    lemma RepeatsAt(n: int, k: int)
      requires 0 < strstart && 0 <= k && strstart + k < window.Length
      ensures k < n && Repeats(n) ==> window[strstart + k] == window[strstart + k - 1]
    {
    }

    /** Within lookahead the byte before strstart does not come more than `len` more times. */
    ghost predicate NoLongerRun(len: int)
      reads `strstart, `lookahead, window
    {
      forall n :: MIN_MATCH <= n <= Min(MAX_MATCH, lookahead) && Repeats(n) ==> n <= len
    }

    /** The run at strstart that deflate_rle turns into a copy, no longer than lookahead. */
    method FindRun() returns (len: nat)
      requires Shape() && WindowOk() && Position() && strstart <= window.Length - MAX_MATCH - 1
      ensures len <= Min(MAX_MATCH, lookahead)
      ensures len > 0 ==> IsMatch(consumed, base + strstart, 1, len)
      ensures NoLongerRun(len)
    {
      hide Setting, WindowOk, Agree, IsMatch;
      len := 0;
      if lookahead >= MIN_MATCH && strstart > 0 {
        var run := RunLength();
        len := Min(run, lookahead);
        if len > 0 {
          MatchInInput(strstart - 1, run, len);
        }
      }
    }

    /** One turn of the loop of deflate_rle. */
    method RleStep() returns (full: bool, ghost n: nat)
      requires Inv() && strategy.Rle? && lookahead > 0 && strstart <= window.Length - MAX_MATCH - 1
      modifies this`matchLength, this`symbols, this`strstart, this`lookahead
      ensures Stepped(full) && !matchAvailable
      ensures lookahead < old(lookahead) && n <= old(lookahead)
      ensures old(NoLongerRun(n))
      ensures symbols == old(symbols) + if n >= MIN_MATCH then [Copy(1, n)] else [Literal(old(window[strstart]))]
    {
      hide Expand, Setting, WindowOk, Dictionary, Output, IsMatch, Ready, NoLongerRun;
      matchLength := FindRun();
      n := matchLength;
      if matchLength >= MIN_MATCH {
        full := StepCopy(1, matchLength);
        matchLength := 0;
      } else {
        full := StepLiteral(base + strstart - insert);
      }
    }

    method DeflateRle(flush: Flush) returns (state: BlockState)
      requires Inv() && strategy.Rle?
      requires Counted() && availOut > 0
      modifies this, window, head, prev
      ensures Counted() && Handed(old(availOut), old(totalOut)) && Reason(state, flush, old(lookahead + |nextIn|))
      ensures Inv() && InputKept(old(Supplied()), old(consumed), old(finishing), old(lastFlush))
      ensures Finished(state) && (state.FinishStarted? || state.FinishDone? ==> flush.Finish?)
    {
      hide Inv, Settled, Supplied, Stepped, Expand, Counted, InputKept, Reason, Finished;
      StillKept();
      while true
        invariant Inv() && InputKept(old(Supplied()), old(consumed), old(finishing), old(lastFlush))
        invariant Counted() && availOut > 0 && Handed(old(availOut), old(totalOut)) &&
            lookahead + |nextIn| <= old(lookahead + |nextIn|)
        decreases lookahead + |nextIn|
      {
        if lookahead <= MAX_MATCH {
          Refill(old(Supplied()), old(consumed), old(finishing), old(lastFlush));
          if lookahead <= MAX_MATCH && flush.NoFlush? {
            NoInput(flush, old(lookahead + |nextIn|));
            return NeedMore;
          }
          if lookahead == 0 {
            break;
          }
        }
        Bounds();
        var full, _ := RleStep();
        var stop := FlushIfFull(full);
        if stop {
          NoRoom(flush, old(lookahead + |nextIn|));
          return NeedMore;
        }
      }
      Bounds();
      SetInsert(0);
      state := FinishCall(flush);
      EndReached(state, flush, old(lookahead + |nextIn|));
    }

    /** The head of the chain of the current string, before it is inserted. */
    ghost function HeadHere(): Pos
      requires Shape() && Position()
      reads `consumed, `base, `strstart, `lookahead, `insert, `highWater, head
    {
      if lookahead >= MIN_MATCH then HeadAt(head[..], base + strstart) else 0
    }

    /** The links after the current string is inserted. */
    ghost function LinksHere(): (links: seq<Pos>)
      requires Shape() && Position()
      reads `consumed, `base, `strstart, `lookahead, `insert, `highWater, head, prev
      ensures |links| == wSize
    {
      if lookahead >= MIN_MATCH then prev[..][Slot(wSize, strstart) := HeadHere()] else prev[..]
    }

    /** A chain is searched if its head is not too far away. */
    predicate InReach(h: int)
      reads `strstart
    {
      h != 0 && strstart - h <= MaxDist()
    }

    /** What a search along the links from `h` must find. */
    ghost predicate Best(links: seq<Pos>, h: int, n: int, prevLength: nat)
      requires |links| == wSize
      reads `strstart, `lookahead, window
    {
      Min(prevLength, lookahead) <= n && (lookahead > n ==> n >= Nice() || SearchedAll(links, h, n, prevLength))
    }

    /** INSERT_STRING at strstart, if three bytes are there; otherwise NIL. */
    method InsertCurrent() returns (hashHead: Pos)
      requires Core() && Hashes() && lookahead > 0
      modifies this`insH, this`inserted, head, prev
      ensures WindowOk() && Dictionary(base + strstart + 1 - insert)
      ensures hashHead == old(HeadHere()) && prev[..] == old(LinksHere())
      ensures lookahead >= MIN_MATCH && base + strstart + 4 <= |consumed| ==>
          Ready(hash, insH, consumed, base + strstart + 1)
      ensures hashHead != 0 ==>
        && lookahead >= MIN_MATCH && hashHead < strstart
        && Names(hash, consumed, base, inserted, hashHead, KeyAt(hash, consumed, base + strstart))
    {
      hide Setting, WindowOk, InsertedOk, HeadsOk, LinksOk, Names, KeyAt, Ready;
      hashHead := 0;
      if lookahead >= MIN_MATCH {
        hashHead := InsertString(strstart);
      } else {
        InsertedWeaken(consumed, inserted, base + strstart - insert, base + strstart + 1 - insert);
      }
    }

    /** Moves past the match just emitted by deflate_fast. */
    method SkipMatch()
      requires Shape() && WindowOk() && Position() && Dictionary(base + strstart + 1) && insert == 0
      requires strstart <= window.Length - MIN_LOOKAHEAD
      requires MIN_MATCH <= matchLength <= Min(MAX_MATCH, lookahead)
      requires base + strstart + 4 <= |consumed| ==> Ready(hash, insH, consumed, base + strstart + 1)
      modifies this`strstart, this`lookahead, this`matchLength, this`insH, this`inserted, head, prev
      ensures Core() && matchLength == 0
      ensures strstart == old(strstart + matchLength) && lookahead == old(lookahead - matchLength)
    {
      hide Setting, WindowOk, Ready, InsertedOk, HeadsOk, LinksOk;
      lookahead := lookahead - matchLength;
      if matchLength <= maxLazy && lookahead >= MIN_MATCH {
        InsertAlong(matchLength - 1, strstart + (matchLength - 1));
        matchLength := 0;
        LinksAdvance(hash, wSize, consumed, base, inserted, prev[..], base + strstart, base + strstart + 1);
        strstart := strstart + 1;
      } else {
        InsertedWeaken(consumed, inserted, base + strstart + 1, base + strstart + matchLength);
        LinksAdvance(hash, wSize, consumed, base, inserted, prev[..], base + strstart, base + strstart + matchLength);
        strstart := strstart + matchLength;
        matchLength := 0;
        RestartKey(strstart);
      }
    }

    /** Inserts the current string and looks for a match, as deflate_fast does. */
    method FastSearch()
      requires Inv() && strategy.Fast? && lookahead > 0 && strstart <= window.Length - MIN_LOOKAHEAD
      modifies this`matchLength, this`matchStart, this`insH, this`inserted, head, prev
      ensures Shape() && WindowOk() && Position() && Dictionary(base + strstart + 1 - insert)
      ensures lookahead >= MIN_MATCH && base + strstart + 4 <= |consumed| ==>
          Ready(hash, insH, consumed, base + strstart + 1)
      ensures matchLength >= MIN_MATCH ==>
        && matchLength <= Min(MAX_MATCH, lookahead)
        && 1 <= strstart - matchStart <= MaxDist()
        && IsMatch(consumed, base + strstart, strstart - matchStart, matchLength)
      ensures if old(InReach(HeadHere())) then Best(old(LinksHere()), old(HeadHere()), matchLength, prevLength)
        else matchLength == old(matchLength)
    {
      hide Expand, Setting, WindowOk, Dictionary, Output, IsMatch, Names, KeyAt, Ready, SearchedAll, Nice, HeadHere,
          LinksHere;
      var hashHead := InsertCurrent();
      if hashHead != 0 && strstart - hashHead <= MaxDist() {
        matchLength := LongestMatch(hashHead);
      }
    }

    /** One more symbol: a copy of `n` bytes, or the literal `c` if these are too few. */
    ghost predicate Adds(was: seq<Symbol>, now: seq<Symbol>, n: nat, c: bv8) {
      && |now| == |was| + 1 && now[..|was|] == was
      && if n >= MIN_MATCH then now[|was|].Copy? && now[|was|].length == n else now[|was|] == Literal(c)
    }

    /** One turn of the loop of deflate_fast. */
    method FastStep() returns (full: bool, ghost n: nat)
      requires Inv() && strategy.Fast? && lookahead > 0 && strstart <= window.Length - MIN_LOOKAHEAD
      modifies this`matchLength, this`matchStart, this`symbols, this`strstart, this`lookahead, this`insH, this`inserted,
          head, prev
      ensures Stepped(full) && !matchAvailable
      ensures lookahead < old(lookahead)
      ensures old(if InReach(HeadHere()) then Best(LinksHere(), HeadHere(), n, prevLength) else n < MIN_MATCH)
      ensures Adds(old(symbols), symbols, n, old(window[strstart]))
    {
      hide Expand, Setting, WindowOk, Dictionary, Output, IsMatch, Ready, HeadHere, LinksHere, InReach;
      FastSearch();
      n := matchLength;
      if matchLength >= MIN_MATCH {
        full := EmitCopy(strstart, Sub32(strstart, matchStart), matchLength);
        SkipMatch();
      } else {
        full := StepLiteral(base + strstart + 1 - insert);
        assert KeyReady();
      }
      assert Emitted() == base + strstart;
    }

    method DeflateFast(flush: Flush) returns (state: BlockState)
      requires Inv() && strategy.Fast?
      requires Counted() && availOut > 0
      modifies this, window, head, prev
      ensures Counted() && Handed(old(availOut), old(totalOut)) && Reason(state, flush, old(lookahead + |nextIn|))
      ensures Inv() && InputKept(old(Supplied()), old(consumed), old(finishing), old(lastFlush))
      ensures Finished(state) && (state.FinishStarted? || state.FinishDone? ==> flush.Finish?)
    {
      hide Inv, Settled, Supplied, Stepped, Expand, Counted, InputKept, Reason, Finished, Best, HeadHere, LinksHere,
          Adds;
      StillKept();
      while true
        invariant Inv() && InputKept(old(Supplied()), old(consumed), old(finishing), old(lastFlush))
        invariant Counted() && availOut > 0 && Handed(old(availOut), old(totalOut)) &&
            lookahead + |nextIn| <= old(lookahead + |nextIn|)
        decreases lookahead + |nextIn|
      {
        if lookahead < MIN_LOOKAHEAD {
          Refill(old(Supplied()), old(consumed), old(finishing), old(lastFlush));
          if lookahead < MIN_LOOKAHEAD && flush.NoFlush? {
            NoInput(flush, old(lookahead + |nextIn|));
            return NeedMore;
          }
          if lookahead == 0 {
            break;
          }
        }
        Bounds();
        var full, _ := FastStep();
        var stop := FlushIfFull(full);
        if stop {
          NoRoom(flush, old(lookahead + |nextIn|));
          return NeedMore;
        }
      }
      Bounds();
      SetInsert(Min(strstart, MIN_MATCH - 1));
      state := FinishCall(flush);
      EndReached(state, flush, old(lookahead + |nextIn|));
    }

    /** deflate_slow looks for a match unless the previous one is long enough. */
    ghost predicate SlowSearches()
      requires Shape() && Position()
      reads `consumed, `base, `strstart, `lookahead, `insert, `highWater, `matchLength, head
    {
      InReach(HeadHere()) && matchLength < maxLazy
    }

    /** Short matches are not worth it if the strategy is Z_FILTERED, or if they are far away. */
    function Kept(n: nat, distance: int): nat {
      if n <= 5 && (filtered || (n == MIN_MATCH && distance > TOO_FAR)) then MIN_MATCH - 1 else n
    }

    /** The first half of a turn of deflate_slow: remember the previous match, look for one here. */
    method SlowSearch() returns (ghost best: nat)
      requires Inv() && strategy.Slow? && lookahead > 0 && strstart <= window.Length - MIN_LOOKAHEAD
      modifies this`matchLength, this`matchStart, this`prevLength, this`prevMatch, this`insH, this`inserted, head, prev
      ensures Shape() && WindowOk() && Position() && Dictionary(base + strstart + 1 - insert)
      ensures lookahead >= MIN_MATCH && base + strstart + 4 <= |consumed| ==>
          Ready(hash, insH, consumed, base + strstart + 1)
      ensures prevLength == old(matchLength) && prevMatch == old(matchStart)
      ensures 2 <= matchLength <= MAX_MATCH
      ensures matchLength > prevLength ==>
        && 1 <= strstart - matchStart <= MaxDist()
        && IsMatch(consumed, base + strstart, strstart - matchStart, matchLength)
      ensures old(SlowSearches()) ==> Best(old(LinksHere()), old(HeadHere()), best, prevLength)
      ensures matchLength == if old(SlowSearches()) then Kept(best, Sub32(strstart, matchStart)) else MIN_MATCH - 1
    {
      hide Expand, Setting, WindowOk, Dictionary, Output, IsMatch, Names, KeyAt, Ready, Best, Kept, Sub32, HeadHere,
          LinksHere;
      var hashHead := InsertCurrent();
      prevLength, prevMatch := matchLength, matchStart;
      matchLength := MIN_MATCH - 1;
      best := matchLength;
      if hashHead != 0 && prevLength < maxLazy && strstart - hashHead <= MaxDist() {
        best := FindLonger(hashHead);
      }
    }

    /** A search, of which short matches may be discarded. */
    method FindLonger(hashHead: nat) returns (ghost best: nat)
      requires Shape() && WindowOk() && Position() && Dictionary(base + strstart + 1)
      requires strstart <= window.Length - MIN_LOOKAHEAD && lookahead >= MIN_MATCH
      requires 0 < hashHead < strstart && strstart - hashHead <= MaxDist()
      requires Names(hash, consumed, base, inserted, hashHead, KeyAt(hash, consumed, base + strstart))
      requires 2 <= prevLength <= MAX_MATCH
      modifies this`matchLength, this`matchStart
      ensures 2 <= matchLength <= MAX_MATCH
      ensures matchLength > prevLength ==>
        && 1 <= strstart - matchStart <= MaxDist()
        && IsMatch(consumed, base + strstart, strstart - matchStart, matchLength)
      ensures Best(prev[..], hashHead, best, prevLength) && matchLength == Kept(best, Sub32(strstart, matchStart))
    {
      hide Setting, WindowOk, Dictionary, IsMatch, Names, KeyAt, SearchedAll, Nice, Sub32;
      matchLength := LongestMatch(hashHead);
      best := matchLength;
      if matchLength <= 5 && (filtered || (matchLength == MIN_MATCH && Sub32(strstart, matchStart) > TOO_FAR)) {
        matchLength := MIN_MATCH - 1;
      }
    }

    /** Moves past the previous match, of which strstart - 1 is the first byte. */
    method SkipPrevious()
      requires Shape() && WindowOk() && Position() && Dictionary(base + strstart + 1 - insert)
      requires strstart <= window.Length - MIN_LOOKAHEAD && 0 < lookahead
      requires lookahead >= MIN_MATCH && base + strstart + 4 <= |consumed| ==>
          Ready(hash, insH, consumed, base + strstart + 1)
      requires MIN_MATCH <= prevLength <= Min(MAX_MATCH, lookahead + 1)
      modifies this`strstart, this`lookahead, this`prevLength, this`insH, this`inserted, head, prev
      ensures Core()
      ensures strstart == old(strstart + prevLength - 1) && lookahead == old(lookahead - (prevLength - 1))
    {
      hide Setting, WindowOk, Ready, InsertedOk, HeadsOk, LinksOk;
      var maxInsert := strstart + lookahead - MIN_MATCH;
      lookahead := lookahead - (prevLength - 1);
      prevLength := prevLength - 2;
      InsertedWeaken(consumed, inserted, base + strstart + 1 - insert, base + strstart + 1);
      InsertAlong(prevLength, maxInsert);
      prevLength := 0;
      InsertedBeforeEnd(consumed, inserted, base + strstart + 1);
      LinksAdvance(hash, wSize, consumed, base, inserted, prev[..], base + strstart, base + strstart + 1);
      strstart := strstart + 1;
    }

    /** deflate_slow adopts the match found one byte earlier. */
    method EmitPrevious() returns (full: bool)
      requires Shape() && WindowOk() && Position() && Dictionary(base + strstart + 1 - insert)
      requires strategy.Slow? && 0 < strstart <= window.Length - MIN_LOOKAHEAD && 0 < lookahead
      requires lookahead >= MIN_MATCH && base + strstart + 4 <= |consumed| ==>
          Ready(hash, insH, consumed, base + strstart + 1)
      requires MIN_MATCH <= prevLength <= MAX_MATCH && Sub32(strstart - 1, prevMatch) <= MaxDist()
      requires IsMatch(consumed, base + strstart - 1, Sub32(strstart - 1, prevMatch), prevLength)
      requires Output(base + strstart - 1) && |symbols| < symEnd
      modifies this`matchLength, this`prevLength, this`matchAvailable, this`symbols, this`strstart, this`lookahead,
               this`insH, this`inserted, head, prev
      ensures Stepped(full) && !matchAvailable && matchLength == MIN_MATCH - 1
      ensures lookahead < old(lookahead) && strstart == old(strstart + prevLength - 1)
      ensures symbols == old(symbols) + [Copy(old(Sub32(strstart - 1, prevMatch)), old(prevLength))]
    {
      hide Expand, Setting, WindowOk, Dictionary, Output, Ready, KeyReady;
      full := EmitCopy(strstart - 1, Sub32(strstart - 1, prevMatch), prevLength);
      SkipPrevious();
      matchAvailable := false;
      matchLength := MIN_MATCH - 1;
    }

    /** deflate_slow defers its decision on the byte at strstart. */
    method Defer()
      requires Shape() && WindowOk() && Position() && Dictionary(base + strstart + 1 - insert)
      requires strategy.Slow? && 0 < lookahead && |symbols| < symEnd
      requires lookahead >= MIN_MATCH && base + strstart + 4 <= |consumed| ==>
          Ready(hash, insH, consumed, base + strstart + 1)
      requires 2 <= matchLength <= MAX_MATCH
      requires matchLength >= MIN_MATCH ==>
        && 1 <= strstart - matchStart <= MaxDist()
        && IsMatch(consumed, base + strstart, strstart - matchStart, matchLength)
      requires Output(base + strstart)
      modifies this`matchAvailable, this`strstart, this`lookahead
      ensures Inv() && lookahead < old(lookahead) && matchAvailable && strstart == old(strstart) + 1
    {
      hide Expand, Setting, WindowOk, Dictionary, Output, Ready, IsMatch;
      matchAvailable := true;
      Advance(1, base + strstart + 1 - insert);
    }

    /** The previous match is emitted, and a full block flushed. */
    method AdoptPrevious() returns (stop: bool)
      requires Shape() && WindowOk() && Position() && Dictionary(base + strstart + 1 - insert)
      requires strategy.Slow? && 0 < strstart <= window.Length - MIN_LOOKAHEAD && 0 < lookahead
      requires lookahead >= MIN_MATCH && base + strstart + 4 <= |consumed| ==>
          Ready(hash, insH, consumed, base + strstart + 1)
      requires MIN_MATCH <= prevLength <= MAX_MATCH && Sub32(strstart - 1, prevMatch) <= MaxDist()
      requires IsMatch(consumed, base + strstart - 1, Sub32(strstart - 1, prevMatch), prevLength)
      requires Output(base + strstart - 1) && |symbols| < symEnd && Counted() && availOut > 0
      modifies this`matchLength, this`prevLength, this`matchAvailable, this`symbols, this`flushed, this`blockStart,
               this`strstart, this`lookahead, this`insH, this`inserted, head, prev,
               this`pieces, this`pending, this`totalOut, this`availOut
      ensures Inv() && lookahead < old(lookahead) && !matchAvailable && matchLength == MIN_MATCH - 1
      ensures strstart == old(strstart + prevLength - 1)
      ensures flushed + symbols == old(flushed + symbols) + [Copy(old(Sub32(strstart - 1, prevMatch)), old(prevLength))]
      ensures Counted() && Handed(old(availOut), old(totalOut)) && (stop <==> availOut == 0)
    {
      hide Inv, Expand, Setting, WindowOk, Dictionary, Output, IsMatch, Ready, KeyReady, Stepped, Settled, Counted;
      ghost var was := symbols;
      var full := EmitPrevious();
      Associate(flushed, was, [Copy(old(Sub32(strstart - 1, prevMatch)), old(prevLength))]);
      stop := FlushIfFull(full);
    }

    /** The byte held back is emitted as a literal, and the next one is held back. */
    method EmitAndDefer() returns (stop: bool)
      requires Shape() && WindowOk() && Position() && Dictionary(base + strstart + 1 - insert)
      requires strategy.Slow? && 0 < strstart && 0 < lookahead && |symbols| < symEnd
      requires lookahead >= MIN_MATCH && base + strstart + 4 <= |consumed| ==>
          Ready(hash, insH, consumed, base + strstart + 1)
      requires 2 <= matchLength <= MAX_MATCH
      requires matchLength >= MIN_MATCH ==>
        && 1 <= strstart - matchStart <= MaxDist()
        && IsMatch(consumed, base + strstart, strstart - matchStart, matchLength)
      requires Output(base + strstart - 1) && Counted() && availOut > 0
      modifies this`matchAvailable, this`symbols, this`flushed, this`blockStart, this`strstart, this`lookahead,
               this`pieces, this`pending, this`totalOut, this`availOut
      ensures Inv() && lookahead < old(lookahead) && matchAvailable && strstart == old(strstart) + 1
      ensures flushed + symbols == old(flushed + symbols) + [Literal(old(window[strstart - 1]))]
      ensures Counted() && Handed(old(availOut), old(totalOut)) && (stop <==> availOut == 0)
    {
      hide Expand, Setting, WindowOk, Dictionary, Output, IsMatch, Ready, KeyReady, Counted;
      ghost var was := symbols;
      var full := EmitLiteral(strstart - 1);
      Associate(flushed, was, [Literal(window[strstart - 1])]);
      if full {
        var _ := FlushBlockOnly();
      }
      Defer();
      stop := availOut == 0;
    }

    /** One turn of the loop of deflate_slow; `stop` if the output buffer is full. */
    method SlowStep() returns (stop: bool, ghost best: nat)
      requires Inv() && strategy.Slow? && lookahead > 0 && strstart <= window.Length - MIN_LOOKAHEAD
      requires Counted() && availOut > 0
      modifies this`matchLength, this`matchStart, this`prevLength, this`prevMatch, this`matchAvailable, this`symbols,
               this`flushed, this`blockStart, this`strstart, this`lookahead, this`insH, this`inserted, head, prev,
               this`pieces, this`pending, this`totalOut, this`availOut
      ensures Inv() && lookahead < old(lookahead)
      ensures Counted() && Handed(old(availOut), old(totalOut)) && (stop <==> availOut == 0)
      ensures old(SlowSearches()) ==> old(Best(LinksHere(), HeadHere(), best, matchLength))
      ensures var found := if old(SlowSearches()) then Kept(best, Sub32(old(strstart), matchStart)) else MIN_MATCH - 1;
        if old(matchLength) >= MIN_MATCH && found <= old(matchLength) then
          && flushed + symbols == old(flushed + symbols + [Copy(Sub32(strstart - 1, matchStart), matchLength)])
          && !matchAvailable && matchLength == MIN_MATCH - 1 && strstart == old(strstart + matchLength - 1)
        else
          && flushed + symbols ==
              old(flushed + symbols) + old(if matchAvailable then [Literal(window[strstart - 1])] else [])
          && matchAvailable && matchLength == found && strstart == old(strstart) + 1
    {
      hide Expand, Setting, WindowOk, Dictionary, Output, IsMatch, Ready, KeyReady, Stepped, Best, HeadHere, LinksHere,
          SlowSearches;
      hide Kept, Sub32, Counted;
      stop := false;
      ghost var was := flushed + symbols;
      best := SlowSearch();
      if prevLength >= MIN_MATCH && matchLength <= prevLength {
        stop := AdoptPrevious();
      } else if matchAvailable {
        stop := EmitAndDefer();
      } else {
        Defer();
      }
    }

    /** The byte still held back when the input ends. */
    method EmitHeld()
      requires Inv() && strategy.Slow? && lookahead == 0
      modifies this`symbols, this`matchAvailable
      ensures Settled() && !matchAvailable
    {
      hide Expand, Setting, WindowOk, Dictionary, Output, KeyReady;
      if matchAvailable {
        var _ := EmitLiteral(strstart - 1);
        matchAvailable := false;
      }
    }

    method DeflateSlow(flush: Flush) returns (state: BlockState)
      requires Inv() && strategy.Slow?
      requires Counted() && availOut > 0
      modifies this, window, head, prev
      ensures Counted() && Handed(old(availOut), old(totalOut)) && Reason(state, flush, old(lookahead + |nextIn|))
      ensures Inv() && InputKept(old(Supplied()), old(consumed), old(finishing), old(lastFlush))
      ensures Finished(state) && (state.FinishStarted? || state.FinishDone? ==> flush.Finish?)
    {
      hide Inv, Settled, Supplied, Stepped, Expand, Counted, InputKept, Reason, Finished, Best, HeadHere, LinksHere,
          SlowSearches, Kept, Sub32;
      StillKept();
      while true
        invariant Inv() && InputKept(old(Supplied()), old(consumed), old(finishing), old(lastFlush))
        invariant Counted() && availOut > 0 && Handed(old(availOut), old(totalOut)) &&
            lookahead + |nextIn| <= old(lookahead + |nextIn|)
        decreases lookahead + |nextIn|
      {
        if lookahead < MIN_LOOKAHEAD {
          Refill(old(Supplied()), old(consumed), old(finishing), old(lastFlush));
          if lookahead < MIN_LOOKAHEAD && flush.NoFlush? {
            NoInput(flush, old(lookahead + |nextIn|));
            return NeedMore;
          }
          if lookahead == 0 {
            break;
          }
        }
        Bounds();
        var stop, _ := SlowStep();
        if stop {
          NoRoom(flush, old(lookahead + |nextIn|));
          return NeedMore;
        }
      }
      EmitHeld();
      SetInsert(Min(strstart, MIN_MATCH - 1));
      state := FinishCall(flush);
      EndReached(state, flush, old(lookahead + |nextIn|));
    }

    /** deflateInit2_ and lm_init; the window and prev start with arbitrary contents. */
    constructor (windowBits: nat, memLevel: nat, strategy: Strategy, filtered: bool, tuning: Tuning,
                 bytes: nat -> nat)
      requires 8 <= windowBits <= 15 && 1 <= memLevel <= 9
      ensures Valid() && Supplied() == [] && this.strategy == strategy && this.bytes == bytes
      ensures Counted() && totalOut == 0 && !finishing
      ensures wSize == WindowSize(windowBits) && hash == ForMemLevel(memLevel) &&
          symEnd == SymbolBufferSize(memLevel) - 1
      ensures Tuning(goodMatch, maxLazy, niceMatch, maxChain) == tuning && this.filtered == filtered
      ensures fresh(window) && fresh(head) && fresh(prev)
    {
      wSize, wMask := WindowSize(windowBits), WindowSize(windowBits) - 1;
      hash := ForMemLevel(memLevel);
      symEnd := SymbolBufferSize(memLevel) - 1;
      goodMatch, maxLazy, niceMatch, maxChain := tuning.goodMatch, tuning.maxLazy, tuning.niceMatch, tuning.maxChain;
      this.strategy, this.filtered := strategy, filtered;
      window := new bv8[2 * WindowSize(windowBits)];
      prev := new Pos[WindowSize(windowBits)];
      head := new Pos[ForMemLevel(memLevel).size](_ => 0);
      nextIn, finishing := [], false;
      strstart, lookahead, insert, insH, blockStart, highWater := 0, 0, 0, 0, 0, 0;
      matchLength, prevLength, matchStart, prevMatch, matchAvailable := MIN_MATCH - 1, MIN_MATCH - 1, 0, 0, false;
      symbols := [];
      this.bytes, pieces, pending, totalOut, availOut, lastFlush := bytes, 0, 0, 0, 0, -2;
      consumed, base, inserted, flushed := [], 0, {}, [];
      new;
      hide Setting, WindowSize, SymbolBufferSize, ForMemLevel, Core, Pending, Output, Expand;
      WindowSizeIsPower(windowBits);
      StartsValid();
    }

    lemma StartsValid()
      requires Shape() && nextIn == [] && !finishing && forall k :: 0 <= k < head.Length ==> head[k] == 0
      requires strstart == 0 && lookahead == 0 && insert == 0 && blockStart == 0 && highWater == 0
      requires matchLength == MIN_MATCH - 1 && prevLength == MIN_MATCH - 1 && !matchAvailable
      requires symbols == [] && consumed == [] && base == 0 && inserted == {} && flushed == []
      ensures Valid() && Supplied() == []
    {
      hide Setting;
      assert flushed + symbols == [];
    }

    ghost predicate Valid()
      reads `finishing, `consumed, `base, `inserted, `strstart, `lookahead, `insert, `highWater, `insH, `matchAvailable,
          `matchLength,
            `matchStart, `prevLength, `blockStart, `symbols, `flushed, window, head, prev
    {
      && Inv()
      && (finishing ==> lookahead == 0 && !matchAvailable && symbols == [] && Expand(flushed) == Some(consumed))
    }

    /** CLEAR_HASH */
    method ClearHash()
      modifies head
      ensures forall k :: 0 <= k < head.Length ==> head[k] == 0
    {
      var n := 0;
      while n < head.Length
        invariant 0 <= n <= head.Length
        invariant forall k :: 0 <= k < n ==> head[k] == 0
      {
        head[n] := 0;
        n := n + 1;
      }
    }

    /** With no lookahead, Z_FULL_FLUSH starts afresh at the bottom of the window. */
    method ForgetHistory()
      requires Valid() && Finished(BlockDone)
      modifies this`strstart, this`blockStart, this`insert, this`base, head
      ensures Valid()
    {
      hide Expand, Setting, IsMatch, Ready, InsertedOk, HeadsOk, LinksOk;
      ClearHash();
      if lookahead == 0 {
        ForgetKeeps(hash, wSize, consumed, inserted, base + strstart - insert, head[..], prev[..]);
        strstart := 0;
        blockStart := 0;
        insert := 0;
        base := |consumed|;
        assert consumed[..base + blockStart] == consumed;
        assert flushed + symbols == flushed;
      }
    }

    /** Runs the compression function in use. */
    method Compress(flush: Flush) returns (state: BlockState)
      requires Inv() && Counted() && availOut > 0
      modifies this, window, head, prev
      ensures Counted() && Handed(old(availOut), old(totalOut)) && Reason(state, flush, old(lookahead + |nextIn|)) &&
          lastFlush == old(lastFlush)
      ensures Inv() && Supplied() == old(Supplied()) && finishing == old(finishing)
      ensures Finished(state) && (state.FinishStarted? || state.FinishDone? ==> flush.Finish?)
    {
      hide Inv, Supplied, Finished, Reason, Counted;
      match strategy
      case Fast => state := DeflateFast(flush);
      case Slow => state := DeflateSlow(flush);
      case Rle => state := DeflateRle(flush);
      case HuffmanOnly => state := DeflateHuff(flush);
    }

    /** deflate_state between calls, and the bytes that were produced. */
    ghost predicate Between()
      reads this, window, head, prev
    {
      Valid() && Counted()
    }

    /** The state of the stream is wrong for this flush parameter. */
    predicate WrongState(flush: Flush)
      reads `finishing
    {
      finishing && !flush.Finish?
    }

    /** There is no room, nothing to do, or input after the end. */
    predicate Refuses(flush: Flush)
      reads `finishing, `nextIn, `pending, `availOut, `lastFlush
    {
      || availOut == 0
      || (pending == 0 && nextIn == [] && !flush.Finish? && FlushRank(FlushCode(flush)) <= FlushRank(lastFlush))
      || (pending < availOut && finishing && nextIn != [])
    }

    /** All input was turned into blocks, and these were handed out. */
    ghost predicate AllOut()
      reads `nextIn, `consumed, `lookahead, `symbols, `matchAvailable, `flushed, `pending
    {
      nextIn == [] && lookahead == 0 && symbols == [] && !matchAvailable && pending == 0 &&
          Expand(flushed) == Some(Supplied())
    }

    /** Less is left to be done than when the stream was finishing or not, with so many bytes left and pending. */
    predicate LessLeft(was: bool, left: nat, pending0: nat)
      reads `finishing, `nextIn, `lookahead, `pending
    {
      || (finishing && !was)
      || (finishing == was && (lookahead + |nextIn| < left || (lookahead + |nextIn| == left && pending < pending0)))
    }

    /**
     One call of deflate for a raw stream, up to the symbols of the blocks, with room for `room` bytes.

     The two errors are exact.  Z_FINISH ends the stream with everything handed out, or it used up the
     room and brought the end nearer.  If room is left, any other flush but Z_NO_FLUSH has turned all
     input into blocks and handed them out, and Z_NO_FLUSH has taken in all input.
     */
    method Deflate(chunk: seq<bv8>, flush: Flush, room: nat) returns (result: Result)
      requires Between()
      modifies this, window, head, prev
      ensures Between() && Lossless() && Supplied() == old(Supplied()) + chunk
      ensures Handed(room, old(totalOut))
      ensures result == StreamError <==> old(WrongState(flush))
      ensures result == BufError <==> !old(WrongState(flush)) && old(RefusesWith(chunk, flush, room))
      ensures result == StreamEnd ==> flush.Finish? && finishing && availOut > 0 && AllOut()
      ensures result == Ok && flush.Finish? ==>
        availOut == 0 && LessLeft(old(finishing), old(lookahead + |nextIn|) + |chunk|, old(pending))
      ensures result == Ok && availOut > 0 && flush.NoFlush? ==> nextIn == [] && lookahead < MIN_LOOKAHEAD
      ensures result == Ok && availOut > 0 && !flush.NoFlush? ==> AllOut()
      ensures old(finishing) ==> finishing && nextIn == old(nextIn) + chunk
      ensures finishing && !old(finishing) ==> flush.Finish? && nextIn == []
    {
      hide Inv, Expand, Supplied;
      Supply(chunk, room);
      result := DeflateSupplied(flush);
      LosslessFromInv();
    }

    /** Refuses, once the input and the room are there. */
    predicate RefusesWith(chunk: seq<bv8>, flush: Flush, room: nat)
      reads `finishing, `nextIn, `pending, `lastFlush
    {
      || room == 0
      || (pending == 0 && nextIn + chunk == [] && !flush.Finish? && FlushRank(FlushCode(flush)) <= FlushRank(lastFlush))
      || (pending < room && finishing && nextIn + chunk != [])
    }

    /** The caller sets next_in, avail_in and avail_out. */
    method Supply(chunk: seq<bv8>, room: nat)
      requires Between()
      modifies this`nextIn, this`availOut
      ensures Between() && Supplied() == old(Supplied()) + chunk && nextIn == old(nextIn) + chunk && availOut == room
    {
      hide Inv, Expand;
      nextIn := nextIn + chunk;
      availOut := room;
    }

    /** What follows a block that ends because of the flush parameter: a marker, and for Z_FULL_FLUSH a fresh start. */
    method EndBlock(flush: Flush)
      requires Between() && Finished(BlockDone) && availOut > 0
      modifies this`strstart, this`blockStart, this`insert, this`base, this`pieces, this`pending, this`totalOut,
               this`availOut, head
      ensures Between() && Handed(old(availOut), old(totalOut))
      ensures availOut > 0 ==> pending == 0
    {
      hide Inv, Expand;
      if flush.PartialFlush? {
        Emit();
      } else if !flush.BlockFlush? {
        Emit();
        if flush.FullFlush? {
          ForgetHistory();
        }
      }
      FlushPending();
    }

    /** deflate, on the input that is available. */
    method DeflateSupplied(flush: Flush) returns (result: Result)
      requires Between()
      modifies this, window, head, prev
      ensures Between() && Supplied() == old(Supplied())
      ensures Handed(old(availOut), old(totalOut))
      ensures result == StreamError <==> old(WrongState(flush))
      ensures result == BufError <==> !old(WrongState(flush)) && old(Refuses(flush))
      ensures result == StreamEnd ==> flush.Finish? && finishing && availOut > 0 && AllOut()
      ensures result == Ok && flush.Finish? ==>
        availOut == 0 && LessLeft(old(finishing), old(lookahead + |nextIn|), old(pending))
      ensures result == Ok && availOut > 0 && flush.NoFlush? ==> nextIn == [] && lookahead < MIN_LOOKAHEAD
      ensures result == Ok && availOut > 0 && !flush.NoFlush? ==> AllOut()
      ensures old(finishing) ==> finishing && nextIn == old(nextIn)
      ensures finishing && !old(finishing) ==> flush.Finish? && nextIn == []
    {
      hide Inv, Expand;
      if finishing && !flush.Finish? {
        return StreamError;
      }
      if availOut == 0 {
        return BufError;
      }
      var oldFlush := lastFlush;
      lastFlush := FlushCode(flush);
      if pending != 0 {
        FlushPending();
        if availOut == 0 {
          lastFlush := -1;
          return Ok;
        }
      } else if nextIn == [] && FlushRank(FlushCode(flush)) <= FlushRank(oldFlush) && !flush.Finish? {
        return BufError;
      }
      if finishing && nextIn != [] {
        return BufError;
      }
      result := Proceed(flush);
    }

    /** deflate, once nothing is pending and there is something to do. */
    method Proceed(flush: Flush) returns (result: Result)
      requires Between() && availOut > 0 && pending == 0
      requires finishing ==> flush.Finish? && nextIn == []
      modifies this, window, head, prev
      ensures Between() && Supplied() == old(Supplied()) && Handed(old(availOut), old(totalOut))
      ensures result == Ok || result == StreamEnd
      ensures result == StreamEnd ==> flush.Finish? && finishing && availOut > 0 && AllOut()
      ensures result == Ok && flush.Finish? ==> availOut == 0 && LessLeft(old(finishing), old(lookahead + |nextIn|), 0)
      ensures result == Ok && availOut > 0 && flush.NoFlush? ==> nextIn == [] && lookahead < MIN_LOOKAHEAD
      ensures result == Ok && availOut > 0 && !flush.NoFlush? ==> AllOut()
      ensures old(finishing) ==> finishing && nextIn == old(nextIn)
      ensures finishing && !old(finishing) ==> flush.Finish? && nextIn == []
    {
      hide Inv, Expand, Counted;
      if nextIn != [] || lookahead != 0 || (!flush.NoFlush? && !finishing) {
        var state := Compress(flush);
        if state.FinishStarted? || state.FinishDone? {
          finishing := true;
        }
        if state.NeedMore? || state.FinishStarted? {
          if availOut == 0 {
            lastFlush := -1;
          }
          return Ok;
        }
        if state.BlockDone? {
          EndBlock(flush);
          if availOut == 0 {
            lastFlush := -1;
            return Ok;
          }
        }
      }
      assert consumed + [] == consumed;
      return if flush.Finish? then StreamEnd else Ok;
    }

    lemma LosslessFromInv()
      requires Inv()
      ensures Lossless()
    {
      hide Expand, Setting, WindowOk, Dictionary, KeyReady, Pending;
      assert Supplied()[..Emitted()] == consumed[..Emitted()];
    }

    /** The symbols so far stand for all input, less what is still unread, in lookahead or held back. */
    ghost predicate Lossless()
      reads this
    {
      var done := |consumed| - lookahead - if matchAvailable then 1 else 0;
      0 <= done && Expand(flushed + symbols) == Some(Supplied()[..done])
    }

    /** The bytes handed out, in terms of the counts of a call. */
    lemma LosslessBetween()
      requires Between()
      ensures Lossless()
    {
      hide Inv;
      LosslessFromInv();
    }

    /** What is known after a call, when no earlier one had Z_FINISH (`first`) or in any case. */
    ghost predicate AfterCall(result: Result, flush: Flush, first: bool)
      reads `nextIn, `consumed, `lookahead, `symbols, `matchAvailable, `flushed, `pending, `availOut
    {
      && (result == StreamEnd ==> flush.Finish? && AllOut())
      && (first && flush.Finish? && availOut > 0 ==> result == StreamEnd)
      && (result == Ok && availOut > 0 && !flush.NoFlush? ==> AllOut())
      && (result == Ok && availOut > 0 && flush.NoFlush? ==> nextIn == [] && lookahead < MIN_LOOKAHEAD)
    }

    /** One call of a run. */
    method OneCall(call: Call) returns (result: Result)
      requires Between()
      modifies this, window, head, prev
      ensures Between() && Lossless() && Supplied() == old(Supplied()) + call.chunk
      ensures AfterCall(result, call.flush, !old(finishing)) && availOut <= call.room
      ensures finishing ==> old(finishing) || call.flush.Finish?
    {
      hide Valid, Inv, Expand, Supplied, AllOut, LessLeft, Counted, Between, Lossless;
      result := Deflate(call.chunk, call.flush, call.room);
    }

    /**
     A whole run: however the input is cut into calls, whatever the flush parameters and the room, the
     symbols stand for the input of all calls so far.  If room is left after the last call, Z_FINISH, which
     only this one has, ended the stream; any other flush but Z_NO_FLUSH that was not refused has turned
     all input into blocks that were handed out, and Z_NO_FLUSH has taken in all input.
     */
    method Run(calls: seq<Call>) returns (result: Result)
      requires Between() && Supplied() == [] && !finishing
      modifies this, window, head, prev
      ensures Between() && Lossless() && Supplied() == Input(calls)
      ensures calls != [] ==> AfterCall(result, calls[|calls| - 1].flush, FinishLast(calls))
    {
      hide Valid, Inv, Expand, Supplied, AllOut, Counted, Between, Lossless, AfterCall;
      result := Ok;
      LosslessBetween();
      for i := 0 to |calls|
        invariant Between() && Lossless() && Supplied() == Input(calls[..i])
        invariant FinishLast(calls) && i < |calls| ==> !finishing
        invariant i > 0 ==> AfterCall(result, calls[i - 1].flush, FinishLast(calls) && i == |calls|)
      {
        assert calls[..i + 1][..i] == calls[..i];
        ghost var first := !finishing;
        result := OneCall(calls[i]);
        OnlyIf(result, calls[i].flush, first, FinishLast(calls) && i + 1 == |calls|);
      }
      assert calls[..|calls|] == calls;
    }

    lemma OnlyIf(result: Result, flush: Flush, first: bool, less: bool)
      requires AfterCall(result, flush, first) && (less ==> first)
      ensures AfterCall(result, flush, less)
    {
    }

    /**
     The caller's loop at the end of a stream: it calls with Z_FINISH until the stream ends, which it does,
     however little room each call has.
     */
    method FinishStream(rooms: nat -> nat) returns (calls: nat)
      requires Between() && (finishing ==> nextIn == []) && forall k: nat :: rooms(k) > 0
      modifies this, window, head, prev
      ensures Between() && finishing && AllOut() && Supplied() == old(Supplied())
    {
      hide Valid, Inv, Expand, Supplied, AllOut, Counted, Between, Lossless;
      calls := 0;
      var result := Ok;
      while result != StreamEnd
        invariant Between() && (finishing ==> nextIn == []) && Supplied() == old(Supplied())
        invariant result == StreamEnd ==> finishing && AllOut()
        decreases result != StreamEnd, !finishing, lookahead + |nextIn|, pending
      {
        assert Supplied() + [] == Supplied();
        result := Deflate([], Finish, rooms(calls));
        calls := calls + 1;
      }
    }

  }
}
